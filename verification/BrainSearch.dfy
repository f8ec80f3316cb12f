/**
 * Recovering a phrase of which some words are known: the lists of candidate words, and what the search over them
 * finds in terms of phrases. The word list and the edit distance are those of a library, and parameters here.
 */
module BrainSearch {
  import opened Numerals
  import opened Arithmetic
  import opened Texts
  import opened BrainRecover

  type Distance = (string, string) -> nat

  // Substitutions for an unknown word: the whole list, nearest words first.

  /** Insertion before the first word that is not nearer. */
  function Insert(distance: Distance, word: string, w: string, ws: seq<string>): (r: seq<string>)
    ensures |r| == |ws| + 1
  {
    if ws == [] || distance(w, word) <= distance(ws[0], word) then [w] + ws
    else [ws[0]] + Insert(distance, word, w, ws[1..])
  }

  function Substitutions(wordlist: seq<string>, distance: Distance, word: string): (r: seq<string>)
    ensures |r| == |wordlist|
  {
    if wordlist == [] then []
    else Insert(distance, word, wordlist[0], Substitutions(wordlist[1..], distance, word))
  }

  ghost predicate NearestFirst(distance: Distance, word: string, ws: seq<string>) {
    forall i, j :: 0 <= i < j < |ws| ==> distance(ws[i], word) <= distance(ws[j], word)
  }

  /** The words at one distance, in their order. */
  ghost function AtDistance(distance: Distance, word: string, ws: seq<string>, d: nat): seq<string> {
    if ws == [] then []
    else (if distance(ws[0], word) == d then [ws[0]] else []) + AtDistance(distance, word, ws[1..], d)
  }

  lemma {:induction false} InsertWords(distance: Distance, word: string, w: string, ws: seq<string>)
    ensures multiset(Insert(distance, word, w, ws)) == multiset(ws) + multiset{w}
  {
    if ws != [] && distance(w, word) > distance(ws[0], word) {
      InsertWords(distance, word, w, ws[1..]);
      assert ws == [ws[0]] + ws[1..];
    }
  }

  lemma {:induction false} InsertNearest(distance: Distance, word: string, w: string, ws: seq<string>)
    requires NearestFirst(distance, word, ws)
    ensures NearestFirst(distance, word, Insert(distance, word, w, ws))
  {
    if ws != [] && distance(w, word) > distance(ws[0], word) {
      InsertNearest(distance, word, w, ws[1..]);
      var rest := Insert(distance, word, w, ws[1..]);
      forall j | 0 <= j < |rest|
        ensures distance(ws[0], word) <= distance(rest[j], word)
      {
        InsertedFrom(distance, word, w, ws[1..], j);
      }
      PrependNearest(distance, word, ws[0], rest);
    }
  }

  lemma PrependNearest(distance: Distance, word: string, w: string, ws: seq<string>)
    requires NearestFirst(distance, word, ws)
    requires forall j :: 0 <= j < |ws| ==> distance(w, word) <= distance(ws[j], word)
    ensures NearestFirst(distance, word, [w] + ws)
  {
  }

  lemma {:induction false} InsertedFrom(distance: Distance, word: string, w: string, ws: seq<string>, j: nat)
    requires j <= |ws|
    ensures var r := Insert(distance, word, w, ws)[j]; r == w || exists i :: 0 <= i < |ws| && r == ws[i]
  {
    if ws != [] && distance(w, word) > distance(ws[0], word) && j > 0 {
      InsertedFrom(distance, word, w, ws[1..], j - 1);
      assert forall i :: 0 <= i < |ws| - 1 ==> ws[1..][i] == ws[i + 1];
    }
  }

  lemma AtDistanceOf(distance: Distance, word: string, w: string, ws: seq<string>, d: nat)
    ensures AtDistance(distance, word, [w] + ws, d)
            == (if distance(w, word) == d then [w] else []) + AtDistance(distance, word, ws, d)
  {
    assert ([w] + ws)[1..] == ws;
  }

  lemma {:induction false} InsertStable(distance: Distance, word: string, w: string, ws: seq<string>, d: nat)
    ensures AtDistance(distance, word, Insert(distance, word, w, ws), d)
            == (if distance(w, word) == d then [w] else []) + AtDistance(distance, word, ws, d)
  {
    hide AtDistance;
    if ws == [] || distance(w, word) <= distance(ws[0], word) {
      AtDistanceOf(distance, word, w, ws, d);
    } else {
      var rest := Insert(distance, word, w, ws[1..]);
      InsertStable(distance, word, w, ws[1..], d);
      AtDistanceOf(distance, word, ws[0], rest, d);
      AtDistanceOf(distance, word, ws[0], ws[1..], d);
      assert [ws[0]] + ws[1..] == ws;
    }
  }

  lemma NothingNearest(distance: Distance, word: string)
    ensures NearestFirst(distance, word, [])
  {
  }

  /** The substitutions are the word list in stable order of distance. */
  lemma {:induction false} SubstitutionsSorted(wordlist: seq<string>, distance: Distance, word: string, d: nat)
    ensures var r := Substitutions(wordlist, distance, word);
            && NearestFirst(distance, word, r)
            && multiset(r) == multiset(wordlist)
            && AtDistance(distance, word, r, d) == AtDistance(distance, word, wordlist, d)
  {
    hide NearestFirst, Insert;
    if wordlist == [] {
      NothingNearest(distance, word);
    } else {
      SubstitutionsSorted(wordlist[1..], distance, word, d);
      var rest := Substitutions(wordlist[1..], distance, word);
      InsertWords(distance, word, wordlist[0], rest);
      InsertNearest(distance, word, wordlist[0], rest);
      InsertStable(distance, word, wordlist[0], rest, d);
      assert wordlist == [wordlist[0]] + wordlist[1..];
    }
  }

  lemma SameWords(wordlist: seq<string>, distance: Distance, word: string, w: string)
    ensures w in Substitutions(wordlist, distance, word) <==> w in wordlist
  {
    SubstitutionsSorted(wordlist, distance, word, 0);
    assert w in multiset(Substitutions(wordlist, distance, word)) <==> w in multiset(wordlist);
  }

  // The lists searched.

  function Candidates(wordlist: seq<string>, distance: Distance, word: string): seq<string> {
    if word in wordlist then [word] else Substitutions(wordlist, distance, word)
  }

  function Length(known: seq<string>, expected: nat): nat {
    if |known| < expected then expected else |known|
  }

  function ListsOf(wordlist: seq<string>, distance: Distance, known: seq<string>, expected: nat)
    : (lists: seq<seq<string>>)
    ensures |lists| == Length(known, expected)
  {
    seq(Length(known, expected), i requires 0 <= i =>
      if i < |known| then Candidates(wordlist, distance, known[i]) else wordlist)
  }

  /** A phrase in question: known words stay, all others are any words of the list. */
  ghost predicate Fits(wordlist: seq<string>, known: seq<string>, expected: nat, ws: seq<string>) {
    && |ws| == Length(known, expected)
    && forall i :: 0 <= i < |ws| ==>
         if i < |known| && known[i] in wordlist then ws[i] == known[i] else ws[i] in wordlist
  }

  function Join(ws: seq<string>): string
    requires ws != []
  {
    var n := |ws| - 1;
    if n == 0 then ws[0] else Join(ws[..n]) + " " + ws[n]
  }

  ghost function Chosen(lists: seq<seq<string>>, idx: Index): (ws: seq<string>)
    requires InRange(idx, Radices(lists))
    ensures |ws| == |lists|
  {
    seq(|lists|, i requires 0 <= i < |lists| => lists[i][idx[i]])
  }

  lemma {:induction false} PhraseJoins(lists: seq<seq<string>>, idx: Index)
    requires lists != [] && InRange(idx, Radices(lists))
    ensures Phrase(lists, idx) == Join(Chosen(lists, idx))
  {
    var n := |lists| - 1;
    if n > 0 {
      assert Radices(lists)[..n] == Radices(lists[..n]);
      PhraseJoins(lists[..n], idx[..n]);
      assert Chosen(lists, idx)[..n] == Chosen(lists[..n], idx[..n]);
    }
  }

  lemma ListHas(wordlist: seq<string>, distance: Distance, known: seq<string>, expected: nat, i: nat, w: string)
    requires i < Length(known, expected)
    ensures w in ListsOf(wordlist, distance, known, expected)[i] <==>
              if i < |known| && known[i] in wordlist then w == known[i] else w in wordlist
  {
    if i < |known| {
      SameWords(wordlist, distance, known[i], w);
    }
  }

  /** Every combination of the lists is a phrase in question. */
  lemma ChosenFits(wordlist: seq<string>, distance: Distance, known: seq<string>, expected: nat, idx: Index)
    requires InRange(idx, Radices(ListsOf(wordlist, distance, known, expected)))
    ensures Fits(wordlist, known, expected, Chosen(ListsOf(wordlist, distance, known, expected), idx))
  {
    hide Candidates;
    var lists := ListsOf(wordlist, distance, known, expected);
    var ws := Chosen(lists, idx);
    forall i | 0 <= i < |ws|
      ensures if i < |known| && known[i] in wordlist then ws[i] == known[i] else ws[i] in wordlist
    {
      assert ws[i] in lists[i];
      ListHas(wordlist, distance, known, expected, i, ws[i]);
    }
  }

  /** Every phrase in question is a combination of the lists. */
  lemma FittingIsChosen(wordlist: seq<string>, distance: Distance, known: seq<string>, expected: nat, ws: seq<string>)
    returns (idx: Index)
    requires Fits(wordlist, known, expected, ws)
    ensures var lists := ListsOf(wordlist, distance, known, expected);
            InRange(idx, Radices(lists)) && Chosen(lists, idx) == ws
  {
    hide Candidates;
    var lists := ListsOf(wordlist, distance, known, expected);
    forall i | 0 <= i < |ws|
      ensures ws[i] in lists[i]
    {
      ListHas(wordlist, distance, known, expected, i, ws[i]);
    }
    idx := seq(|ws|, i requires 0 <= i < |ws| => Place(lists[i], ws[i]));
  }

  ghost function Place(ws: seq<string>, w: string): (i: nat)
    requires w in ws
    ensures i < |ws| && ws[i] == w
  {
    var i :| 0 <= i < |ws| && ws[i] == w; i
  }

  // When the 64-bit number of combinations is zero.

  /** How often two divides a number. */
  ghost function Twos(n: nat): nat
    requires n > 0
  {
    if n % 2 == 1 then 0 else 1 + Twos(n / 2)
  }

  lemma HalfProduct(a: nat, b: nat)
    requires a % 2 == 0
    ensures a * b % 2 == 0 && a * b / 2 == a / 2 * b
  {
    assert a * b == 2 * (a / 2 * b);
  }

  lemma OddProduct(a: nat, b: nat)
    requires a % 2 == 1 && b % 2 == 1
    ensures a * b % 2 == 1
  {
    assert a * b == 2 * (a / 2 * b) + b;
  }

  lemma {:induction false} TwosProduct(a: nat, b: nat)
    requires a > 0 && b > 0
    ensures a * b > 0 && Twos(a * b) == Twos(a) + Twos(b)
    decreases a + b
  {
    if a % 2 == 0 {
      HalfProduct(a, b);
      TwosProduct(a / 2, b);
    } else if b % 2 == 0 {
      HalfProduct(b, a);
      TwosProduct(a, b / 2);
    } else {
      OddProduct(a, b);
    }
  }

  lemma {:induction false} TwosDivides(n: nat, k: nat)
    requires n > 0
    ensures n % Pow2(k) == 0 <==> Twos(n) >= k
  {
    if k > 0 {
      HalfRemainder(n, Pow2(k - 1));
      if n % 2 == 0 {
        TwosDivides(n / 2, k - 1);
      }
    }
  }

  /** How often two divides the sizes of the lists, in all. */
  ghost function AllTwos(lists: seq<seq<string>>): nat
    requires forall i :: 0 <= i < |lists| ==> lists[i] != []
  {
    if lists == [] then 0 else AllTwos(lists[..|lists| - 1]) + Twos(|lists[|lists| - 1]|)
  }

  lemma {:induction false} TwosOfCombinations(lists: seq<seq<string>>)
    ensures Combinations(lists) > 0 <==> forall i :: 0 <= i < |lists| ==> lists[i] != []
    ensures Combinations(lists) > 0 ==> Twos(Combinations(lists)) == AllTwos(lists)
  {
    if lists != [] {
      var n := |lists| - 1;
      TwosOfCombinations(lists[..n]);
      assert Radices(lists)[..n] == Radices(lists[..n]);
      assert Combinations(lists) == Combinations(lists[..n]) * |lists[n]|;
      assert forall i :: 0 <= i < n ==> lists[i] == lists[..n][i];
      if Combinations(lists[..n]) > 0 && lists[n] != [] {
        TwosProduct(Combinations(lists[..n]), |lists[n]|);
      }
    }
  }

  /** The product wraps to zero exactly when two divides the sizes of the lists 64 times or more. */
  lemma WrapsIff(lists: seq<seq<string>>)
    ensures Wraps(lists) <==> (forall i :: 0 <= i < |lists| ==> lists[i] != []) && AllTwos(lists) >= 64
  {
    TwosOfCombinations(lists);
    if Combinations(lists) > 0 {
      Pow2OfWord();
      TwosDivides(Combinations(lists), 64);
    }
  }

  /** For instance, 64 lists or more of even sizes. */
  lemma {:induction false} EvenListsWrap(lists: seq<seq<string>>)
    requires forall i :: 0 <= i < |lists| ==> |lists[i]| % 2 == 0 && lists[i] != []
    ensures AllTwos(lists) >= |lists|
    ensures |lists| >= 64 ==> Wraps(lists)
  {
    if lists != [] {
      EvenListsWrap(lists[..|lists| - 1]);
    }
    WrapsIff(lists);
  }

  /** How many words of a phrase are not known. */
  ghost function Unknown(wordlist: seq<string>, known: seq<string>, n: nat): nat {
    if n == 0 then 0
    else Unknown(wordlist, known, n - 1) + if n <= |known| && known[n - 1] in wordlist then 0 else 1
  }

  lemma {:induction false} TwosOfLists(wordlist: seq<string>, distance: Distance, known: seq<string>,
                                       expected: nat, n: nat)
    requires wordlist != [] && n <= Length(known, expected)
    ensures var lists := ListsOf(wordlist, distance, known, expected)[..n];
            && (forall i :: 0 <= i < n ==> lists[i] != [])
            && AllTwos(lists) == Unknown(wordlist, known, n) * Twos(|wordlist|)
  {
    hide Twos, Substitutions;
    var lists := ListsOf(wordlist, distance, known, expected);
    if n > 0 {
      TwosOfOne();
      TwosOfLists(wordlist, distance, known, expected, n - 1);
      assert lists[..n][..n - 1] == lists[..n - 1];
      assert |lists[n - 1]| == if n <= |known| && known[n - 1] in wordlist then 1 else |wordlist|;
      Distribute(Unknown(wordlist, known, n - 1), Twos(|wordlist|));
    }
  }

  lemma TwosOfOne()
    ensures Twos(1) == 0
  {
  }

  lemma Distribute(a: nat, t: nat)
    ensures (a + 1) * t == a * t + t
  {
  }

  /** The 64-bit number of phrases is zero although there are some: two divides it 64 times or more. */
  ghost predicate TooMany(wordlist: seq<string>, known: seq<string>, expected: nat) {
    wordlist != [] && Unknown(wordlist, known, Length(known, expected)) * Twos(|wordlist|) >= 64
  }

  lemma ListsWrapIff(wordlist: seq<string>, distance: Distance, known: seq<string>, expected: nat)
    ensures Wraps(ListsOf(wordlist, distance, known, expected)) <==> TooMany(wordlist, known, expected)
  {
    var lists := ListsOf(wordlist, distance, known, expected);
    WrapsIff(lists);
    if wordlist != [] {
      TwosOfLists(wordlist, distance, known, expected, |lists|);
      assert lists[..|lists|] == lists;
    } else {
      assert forall i :: 0 <= i < |lists| ==> lists[i] == [];
    }
  }

  /** `from_known_phrase`: a list for every word of the phrase, then whole lists for the words that are missing. */
  method FromKnownPhrase(wordlist: seq<string>, distance: Distance, phrase: string, expected: nat)
    returns (lists: seq<seq<string>>)
    ensures lists == ListsOf(wordlist, distance, Split(phrase, ' '), expected) && lists != []
  {
    var known := Split(phrase, ' ');
    lists := seq(|known|, i requires 0 <= i < |known| => Candidates(wordlist, distance, known[i]));
    if |lists| < expected {
      var toAdd := expected - |lists|;
      for k := 0 to toAdd
        invariant |lists| == |known| + k
        invariant forall i :: 0 <= i < |lists| ==>
                    lists[i] == if i < |known| then Candidates(wordlist, distance, known[i]) else wordlist
      {
        lists := lists + [wordlist];
      }
    }
  }

  /**
   * `brain_recover`. What it returns is a phrase that keeps the known words and has the address. It returns
   * nothing if and only if no such phrase has the address, or two divides the number of phrases 64 times.
   */
  method RecoverPhrase<A(==)>(wordlist: seq<string>, distance: Distance, phrase: string, expected: nat,
                              addressOf: string -> A, address: A) returns (r: Option<string>)
    ensures r.Some? ==> addressOf(r.value) == address &&
                        exists ws :: ws != [] && Fits(wordlist, Split(phrase, ' '), expected, ws) && r.value == Join(ws)
    ensures r.None? <==>
              || TooMany(wordlist, Split(phrase, ' '), expected)
              || forall ws :: ws != [] && Fits(wordlist, Split(phrase, ' '), expected, ws) ==>
                   addressOf(Join(ws)) != address
  {
    hide Fits, TooMany, ListsOf, Wraps;
    ghost var known := Split(phrase, ' ');
    var lists := FromKnownPhrase(wordlist, distance, phrase, expected);
    r := Recover(lists, addressOf, address);
    ListsWrapIff(wordlist, distance, known, expected);
    if r.Some? {
      ghost var k: nat :| k < Combinations(lists) && r.value == PhraseAt(lists, k);
      NumberFits(wordlist, distance, known, expected, k);
    }
    forall ws | ws != [] && Fits(wordlist, known, expected, ws)
      ensures exists k: nat :: k < Combinations(lists) && PhraseAt(lists, k) == Join(ws)
    {
      FittingHasNumber(wordlist, distance, known, expected, ws);
    }
    forall k: nat | k < Combinations(lists)
      ensures exists ws :: ws != [] && Fits(wordlist, known, expected, ws) && PhraseAt(lists, k) == Join(ws)
    {
      NumberFits(wordlist, distance, known, expected, k);
    }
  }

  lemma NumberFits(wordlist: seq<string>, distance: Distance, known: seq<string>, expected: nat, k: nat)
    requires known != [] && k < Combinations(ListsOf(wordlist, distance, known, expected))
    ensures exists ws :: ws != [] && Fits(wordlist, known, expected, ws)
                         && PhraseAt(ListsOf(wordlist, distance, known, expected), k) == Join(ws)
  {
    hide Fits, ListsOf;
    var lists := ListsOf(wordlist, distance, known, expected);
    ValueOfDigits(k, Radices(lists));
    var idx := Digits(k, Radices(lists));
    ChosenFits(wordlist, distance, known, expected, idx);
    PhraseJoins(lists, idx);
    assert Chosen(lists, idx) != [];
  }

  lemma FittingHasNumber(wordlist: seq<string>, distance: Distance, known: seq<string>, expected: nat, ws: seq<string>)
    requires known != [] && ws != [] && Fits(wordlist, known, expected, ws)
    ensures exists k: nat :: k < Combinations(ListsOf(wordlist, distance, known, expected))
                             && PhraseAt(ListsOf(wordlist, distance, known, expected), k) == Join(ws)
  {
    hide Fits, ListsOf;
    var lists := ListsOf(wordlist, distance, known, expected);
    var idx := FittingIsChosen(wordlist, distance, known, expected, ws);
    DigitsOfValue(idx, Radices(lists));
    PhraseJoins(lists, idx);
    var k := ValueOf(idx, Radices(lists));
    assert PhraseAt(lists, k) == Join(ws);
  }

  /** A phrase is its words in order with one blank between them; so is what the iterator calls a phrase. */
  lemma JoinIs(ws: seq<string>, w: string)
    ensures Join([w]) == w
    ensures ws != [] ==> Join(ws + [w]) == Join(ws) + " " + w
  {
    assert ws != [] ==> (ws + [w])[..|ws|] == ws;
  }

  lemma PhraseIs(lists: seq<seq<string>>, idx: Index, list: seq<string>, k: nat)
    requires InRange(idx, Radices(lists)) && k < |list|
    ensures InRange([k], Radices([list])) && Phrase([list], [k]) == list[k]
    ensures lists != [] ==>
              && InRange(idx + [k], Radices(lists + [list]))
              && Phrase(lists + [list], idx + [k]) == Phrase(lists, idx) + " " + list[k]
  {
    if lists != [] {
      assert (lists + [list])[..|lists|] == lists && (idx + [k])[..|idx|] == idx;
    }
  }
}
