/** Searching a brain-wallet phrase: an odometer over lists of candidate words. */
module BrainRecover {
  import opened Numerals
  import opened Arithmetic

  type Index = seq<nat>

  function Radices(words: seq<seq<string>>): (r: seq<nat>)
    ensures |r| == |words|
  {
    seq(|words|, i requires 0 <= i < |words| => |words[i]|)
  }

  ghost function Product(radices: seq<nat>): nat {
    if radices == [] then 1 else Product(radices[..|radices| - 1]) * radices[|radices| - 1]
  }

  ghost predicate InRange(idx: Index, radices: seq<nat>) {
    |idx| == |radices| && forall i :: 0 <= i < |idx| ==> idx[i] < radices[i]
  }

  /** The number an index stands for, most significant digit first. */
  ghost function ValueOf(idx: Index, radices: seq<nat>): nat
    requires |idx| == |radices|
  {
    if idx == [] then 0
    else ValueOf(idx[..|idx| - 1], radices[..|idx| - 1]) * radices[|idx| - 1] + idx[|idx| - 1]
  }

  /** The mixed-radix digits of a number. */
  ghost function Digits(k: nat, radices: seq<nat>): (idx: Index)
    ensures |idx| == |radices|
    decreases |radices|
  {
    if radices == [] then []
    else
      var r := radices[|radices| - 1];
      if r == 0 then Digits(0, radices[..|radices| - 1]) + [0]
      else Digits(k / r, radices[..|radices| - 1]) + [k % r]
  }

  ghost predicate LexLess(a: Index, b: Index)
    requires |a| == |b|
  {
    exists i :: 0 <= i < |a| && a[i] < b[i] && a[..i] == b[..i]
  }

  /** `v` rows of length `r` among `p` rows. */
  lemma Rows(v: nat, p: nat, r: nat)
    requires v < p
    ensures v * r + r <= p * r
    ensures v + 1 < p ==> v * r + 2 * r <= p * r
    ensures v + 1 == p ==> v * r + r == p * r
  {
    MulMono(v + 1, p, r);
    if v + 1 < p {
      MulMono(v + 2, p, r);
    }
  }

  /** Every index in range stands for a number below the product, and is that number's digits. */
  lemma {:induction false} DigitsOfValue(idx: Index, radices: seq<nat>)
    requires InRange(idx, radices)
    ensures ValueOf(idx, radices) < Product(radices) && Digits(ValueOf(idx, radices), radices) == idx
  {
    if idx != [] {
      var n := |idx| - 1;
      var v, r := ValueOf(idx[..n], radices[..n]), radices[n];
      DigitsOfValue(idx[..n], radices[..n]);
      QuotientIs(v, r, idx[n]);
      Rows(v, Product(radices[..n]), r);
      assert idx == idx[..n] + [idx[n]];
    }
  }

  /** The digits of a number below the product are in range and stand for it. */
  lemma {:induction false} ValueOfDigits(k: nat, radices: seq<nat>)
    requires k < Product(radices)
    ensures InRange(Digits(k, radices), radices) && ValueOf(Digits(k, radices), radices) == k
    decreases |radices|
  {
    if radices != [] {
      var n := |radices| - 1;
      var r := radices[n];
      QuotientBelow(k, Product(radices[..n]), r);
      ValueOfDigits(k / r, radices[..n]);
      var idx := Digits(k, radices);
      assert idx[..n] == Digits(k / r, radices[..n]) && idx[n] == k % r;
      assert ValueOf(idx, radices) == ValueOf(idx[..n], radices[..n]) * r + idx[n];
    }
  }

  lemma QuotientBelow(k: nat, p: nat, r: nat)
    requires k < p * r
    ensures r > 0 && k / r < p && k == k / r * r + k % r
  {
    assert k == k / r * r + k % r;
    if k / r >= p {
      MulMono(p, k / r, r);
    }
  }

  lemma {:induction false} LexImpliesLess(a: Index, b: Index, radices: seq<nat>)
    requires InRange(a, radices) && InRange(b, radices) && LexLess(a, b)
    ensures ValueOf(a, radices) < ValueOf(b, radices)
  {
    var n := |a| - 1;
    LexSplit(a, b);
    if LexLess(a[..n], b[..n]) {
      LexImpliesLess(a[..n], b[..n], radices[..n]);
      Rows(ValueOf(a[..n], radices[..n]), ValueOf(b[..n], radices[..n]), radices[n]);
    }
  }

  lemma {:induction false} LexTotal(a: Index, b: Index)
    requires |a| == |b|
    ensures a == b || LexLess(a, b) || LexLess(b, a)
  {
    if a != [] {
      var n := |a| - 1;
      LexTotal(a[..n], b[..n]);
      LexSplit(a, b);
      LexSplit(b, a);
      assert a == a[..n] + [a[n]] && b == b[..n] + [b[n]];
    }
  }

  /** Lexicographic order of indexes is the order of the numbers they stand for. */
  lemma LexIffLess(a: Index, b: Index, radices: seq<nat>)
    requires InRange(a, radices) && InRange(b, radices)
    ensures LexLess(a, b) <==> ValueOf(a, radices) < ValueOf(b, radices)
  {
    LexTotal(a, b);
    if LexLess(a, b) {
      LexImpliesLess(a, b, radices);
    } else if LexLess(b, a) {
      LexImpliesLess(b, a, radices);
    }
  }

  lemma LexSplit(a: Index, b: Index)
    requires |a| == |b| > 0
    ensures var n := |a| - 1; LexLess(a, b) <==> LexLess(a[..n], b[..n]) || (a[..n] == b[..n] && a[n] < b[n])
  {
    var n := |a| - 1;
    if LexLess(a, b) {
      var i :| 0 <= i < |a| && a[i] < b[i] && a[..i] == b[..i];
      assert a[..n][..i] == a[..i] && b[..n][..i] == b[..i];
      if i < n {
        assert a[..n][i] < b[..n][i];
      }
    }
    if LexLess(a[..n], b[..n]) {
      var i :| 0 <= i < n && a[..n][i] < b[..n][i] && a[..n][..i] == b[..n][..i];
      assert a[..i] == a[..n][..i] && b[..i] == b[..n][..i];
      assert a[i] < b[i];
    }
  }

  // One step of the odometer.

  ghost function Zeros(n: nat): (z: Index)
    ensures |z| == n
  {
    seq(n, _ => 0)
  }

  /** The index after carrying one into the last digit, and whether the carry stayed inside. */
  ghost function Succ(idx: Index, radices: seq<nat>): (Index, bool)
    requires |idx| == |radices|
  {
    if idx == [] then ([], false)
    else
      var n := |idx| - 1;
      if idx[n] + 1 < radices[n] then (idx[n := idx[n] + 1], true)
      else
        var (prefix, more) := Succ(idx[..n], radices[..n]);
        (prefix + [0], more)
  }

  ghost predicate Counts(idx: Index, radices: seq<nat>, next: Index, more: bool)
    requires |idx| == |radices|
  {
    && InRange(next, radices)
    && (more <==> ValueOf(idx, radices) + 1 < Product(radices))
    && ValueOf(next, radices) == if more then ValueOf(idx, radices) + 1 else 0
  }

  lemma LastDigitCounts(idx: Index, radices: seq<nat>)
    requires InRange(idx, radices) && idx != [] && idx[|idx| - 1] + 1 < radices[|idx| - 1]
    ensures var n := |idx| - 1; Counts(idx, radices, idx[n := idx[n] + 1], true)
  {
    var n := |idx| - 1;
    DigitsOfValue(idx[..n], radices[..n]);
    Rows(ValueOf(idx[..n], radices[..n]), Product(radices[..n]), radices[n]);
    assert idx[n := idx[n] + 1][..n] == idx[..n];
  }

  lemma CarryCounts(idx: Index, radices: seq<nat>, prefix: Index, more: bool)
    requires InRange(idx, radices) && idx != [] && idx[|idx| - 1] + 1 == radices[|idx| - 1]
    requires var n := |idx| - 1; Counts(idx[..n], radices[..n], prefix, more)
    ensures Counts(idx, radices, prefix + [0], more)
  {
    var n := |idx| - 1;
    var v, p, r := ValueOf(idx[..n], radices[..n]), Product(radices[..n]), radices[n];
    DigitsOfValue(idx[..n], radices[..n]);
    Rows(v, p, r);
    Rows(v, v + 1, r);
    assert (prefix + [0])[..n] == prefix;
  }

  /** Stepping adds one to the number, or comes back to zero after the last one. */
  lemma {:induction false} SuccCounts(idx: Index, radices: seq<nat>)
    requires InRange(idx, radices)
    ensures Counts(idx, radices, Succ(idx, radices).0, Succ(idx, radices).1)
  {
    if idx != [] {
      var n := |idx| - 1;
      if idx[n] + 1 < radices[n] {
        LastDigitCounts(idx, radices);
      } else {
        SuccCounts(idx[..n], radices[..n]);
        CarryCounts(idx, radices, Succ(idx[..n], radices[..n]).0, Succ(idx[..n], radices[..n]).1);
      }
    }
  }

  /** The phrase an index selects, words separated by a space. */
  function Phrase(words: seq<seq<string>>, idx: Index): string
    requires |idx| == |words| && words != [] && forall i :: 0 <= i < |idx| ==> idx[i] < |words[i]|
  {
    var n := |idx| - 1;
    if n == 0 then words[0][idx[0]]
    else Phrase(words[..n], idx[..n]) + " " + words[n][idx[n]]
  }

  ghost function Combinations(words: seq<seq<string>>): nat {
    Product(Radices(words))
  }

  /** The 64-bit product of the list sizes has wrapped to zero although there are combinations. */
  ghost predicate Wraps(words: seq<seq<string>>) {
    Combinations(words) > 0 && Combinations(words) % TWO_64 == 0
  }

  /** Phrase number `k` in the order of the odometer. */
  ghost function PhraseAt(words: seq<seq<string>>, k: nat): string
    requires words != [] && k < Combinations(words)
  {
    ValueOfDigits(k, Radices(words));
    Phrase(words, Digits(k, Radices(words)))
  }

  /**
   * Every combination of words has exactly one number, and numbers follow the lexicographic order of the
   * combinations: the phrases numbered from zero list each of them once, in that order.
   */
  lemma EveryCombinationOnce(words: seq<seq<string>>, idx: Index, k: nat)
    requires InRange(idx, Radices(words))
    ensures ValueOf(idx, Radices(words)) < Combinations(words)
    ensures k < Combinations(words) ==> (Digits(k, Radices(words)) == idx <==> k == ValueOf(idx, Radices(words)))
    ensures k < Combinations(words) ==>
              (LexLess(Digits(k, Radices(words)), idx) <==> k < ValueOf(idx, Radices(words)))
  {
    DigitsOfValue(idx, Radices(words));
    if k < Combinations(words) {
      ValueOfDigits(k, Radices(words));
      LexIffLess(Digits(k, Radices(words)), idx, Radices(words));
    }
  }

  class PhrasesIterator {
    const words: seq<seq<string>>
    var combinations: u64
    var indexes: Index
    var hasNext: bool

    ghost predicate Valid()
      reads this
    {
      && words != []
      && |indexes| == |words|
      && combinations == Combinations(words) % TWO_64
      && (hasNext ==> InRange(indexes, Radices(words)))
    }

    /** How many phrases lie behind; at the end, all of them. */
    ghost function Position(): nat
      requires Valid()
      reads this
    {
      if hasNext then ValueOf(indexes, Radices(words)) else Combinations(words)
    }

    constructor (words: seq<seq<string>>)
      requires words != []
      ensures Valid() && this.words == words
      ensures Position() == if Wraps(words) then Combinations(words) else 0
    {
      var product: u64 := 1;
      assert Radices(words)[..0] == [];
      for i := 0 to |words|
        invariant product == Product(Radices(words)[..i]) % TWO_64
      {
        WrapStep(Radices(words), i);
        product := product * |words[i]| % TWO_64;
      }
      assert Radices(words)[..|words|] == Radices(words);
      this.words := words;
      combinations := product;
      indexes := seq(|words|, _ => 0);
      hasNext := product > 0;
      new;
      if product > 0 {
        FirstIndex(Radices(words));
      }
    }

    method Current() returns (s: string)
      requires Valid() && hasNext
      ensures s == Phrase(words, indexes)
    {
      s := words[0][indexes[0]];
      assert words[..1][0] == words[0] && indexes[..1][0] == indexes[0];
      for i := 1 to |indexes|
        invariant s == Phrase(words[..i], indexes[..i])
      {
        s := s + " ";
        s := s + words[i][indexes[i]];
        assert words[..i + 1][..i] == words[..i] && indexes[..i + 1][..i] == indexes[..i];
      }
      assert words[..|indexes|] == words && indexes[..|indexes|] == indexes;
    }

    /** The odometer, in place: the last digit that has room is raised, and those behind it are reset. */
    method NextIndex() returns (more: bool)
      requires |indexes| == |words|
      modifies this`indexes
      ensures (indexes, more) == Succ(old(indexes), Radices(words))
    {
      hide Succ, Radices;
      ghost var start, radices := indexes, Radices(words);
      SuccOfNothing(start, radices);
      RadixAt(words);
      var pos := |indexes|;
      assert start[..pos] == start && radices[..pos] == radices;
      while pos > 0
        invariant 0 <= pos <= |start| && |indexes| == |start| == |words|
        invariant indexes == start[..pos] + Zeros(|start| - pos)
        invariant Succ(start, radices).0 == Succ(start[..pos], radices[..pos]).0 + Zeros(|start| - pos)
        invariant Succ(start, radices).1 == Succ(start[..pos], radices[..pos]).1
      {
        SuccSplit(start, radices, pos);
        pos := pos - 1;
        indexes := indexes[pos := indexes[pos] + 1];
        if indexes[pos] >= |words[pos]| {
          indexes := indexes[pos := 0];
          assert indexes == start[..pos] + Zeros(|start| - pos);
        } else {
          assert indexes == start[..pos + 1][pos := start[pos] + 1] + Zeros(|start| - pos - 1);
          return true;
        }
      }
      return false;
    }

    /** The phrase at the current position, then one further; after the last one, nothing for ever. */
    method Next() returns (r: Option<string>)
      requires Valid()
      modifies this`indexes, this`hasNext
      ensures Valid()
      ensures old(Position()) < Combinations(words) ==>
                r == Some(PhraseAt(words, old(Position()))) && Position() == old(Position()) + 1
      ensures old(Position()) == Combinations(words) ==> r == None && Position() == Combinations(words)
      ensures Position() <= Combinations(words)
    {
      if !hasNext {
        return None;
      }
      DigitsOfValue(indexes, Radices(words));
      SuccCounts(indexes, Radices(words));
      var phrase := Current();
      hasNext := NextIndex();
      return Some(phrase);
    }
  }

  lemma WrapStep(radices: seq<nat>, i: nat)
    requires i < |radices|
    ensures Product(radices[..i + 1]) % TWO_64 == Product(radices[..i]) % TWO_64 * radices[i] % TWO_64
  {
    assert radices[..i + 1][..i] == radices[..i];
    WrapProduct(Product(radices[..i]), radices[i]);
  }

  lemma WrapProduct(a: nat, b: nat)
    ensures a * b % TWO_64 == a % TWO_64 * b % TWO_64
  {
    var q, r := a / TWO_64, a % TWO_64;
    assert a * b == r * b + (q * b) * TWO_64;
    WrapShift(r * b, q * b);
  }

  lemma WrapShift(x: nat, k: nat)
    ensures (x + k * TWO_64) % TWO_64 == x % TWO_64
  {
  }

  lemma {:induction false} FirstIndex(radices: seq<nat>)
    requires Product(radices) > 0
    ensures InRange(Zeros(|radices|), radices) && ValueOf(Zeros(|radices|), radices) == 0
  {
    if radices != [] {
      var n := |radices| - 1;
      FactorsPositive(Product(radices[..n]), radices[n]);
      FirstIndex(radices[..n]);
      assert Zeros(|radices|)[..n] == Zeros(n);
      assert Zeros(|radices|) == Zeros(n) + [0];
    }
  }

  lemma FactorsPositive(a: nat, b: nat)
    requires a * b > 0
    ensures a > 0 && b > 0
  {
  }

  lemma SuccOfNothing(start: Index, radices: seq<nat>)
    requires |start| == |radices|
    ensures Succ(start[..0], radices[..0]) == ([], false)
  {
  }

  lemma RadixAt(words: seq<seq<string>>)
    ensures forall i :: 0 <= i < |words| ==> Radices(words)[i] == |words[i]|
  {
  }

  lemma SuccSplit(start: Index, radices: seq<nat>, pos: nat)
    requires 0 < pos <= |start| == |radices|
    ensures var a, r, before := start[..pos], radices[..pos], Succ(start[..pos - 1], radices[..pos - 1]);
            Succ(a, r) == if start[pos - 1] + 1 < radices[pos - 1] then (a[pos - 1 := start[pos - 1] + 1], true)
                          else (before.0 + [0], before.1)
    ensures [0] + Zeros(|start| - pos) == Zeros(|start| - pos + 1)
  {
    assert start[..pos][..pos - 1] == start[..pos - 1] && radices[..pos][..pos - 1] == radices[..pos - 1];
  }

  /**
   * `brain_recover` over given word lists: the first phrase, in the order of the odometer, whose address is the
   * one looked for. It finds nothing exactly when no combination matches, or when the 64-bit number of
   * combinations has wrapped to zero.
   */
  method Recover<A(==)>(words: seq<seq<string>>, addressOf: string -> A, address: A) returns (r: Option<string>)
    requires words != []
    ensures r.Some? ==> exists k: nat :: k < Combinations(words) && r.value == PhraseAt(words, k)
                          && addressOf(PhraseAt(words, k)) == address
                          && forall j: nat :: j < k ==> addressOf(PhraseAt(words, j)) != address
    ensures r.None? <==>
              || Wraps(words)
              || forall k: nat :: k < Combinations(words) ==> addressOf(PhraseAt(words, k)) != address
  {
    var it := new PhrasesIterator(words);
    ghost var first, k := it.Position(), it.Position();
    while true
      invariant it.Valid() && it.words == words && first <= k == it.Position() <= Combinations(words)
      invariant forall j: nat :: first <= j < k ==> addressOf(PhraseAt(words, j)) != address
      decreases Combinations(words) - k
    {
      var phrase := it.Next();
      if phrase.None? {
        return None;
      }
      if addressOf(phrase.value) == address {
        return phrase;
      }
      k := it.Position();
    }
  }
}
