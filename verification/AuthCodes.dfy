/** Authorisation codes of the signer: their text file, their validation and their ageing. */
module AuthCodes {
  import opened Numerals
  import opened Texts

  const TIME_THRESHOLD: nat := 7
  const TOKEN_LENGTH: nat := 16
  const UNUSED_TOKEN_TIMEOUT: nat := 3600 * 24

  datatype Code = Code(code: string, createdAt: u64, lastUsedAt: Option<u64>)

  // Printing. Text is a sequence of bytes.

  function Line(c: Code): string {
    c.code + ";" + Print(c.createdAt) + if c.lastUsedAt.Some? then ";" + Print(c.lastUsedAt.value) else ""
  }

  /** The contents `to_file` writes: one line per code, joined by newlines. */
  function ToText(codes: seq<Code>): string {
    if codes == [] then ""
    else if |codes| == 1 then Line(codes[0])
    else Line(codes[0]) + "\n" + ToText(codes[1..])
  }

  // Parsing.

  function StripReturn(line: string): string {
    if line != [] && line[|line| - 1] == '\r' then line[..|line| - 1] else line
  }

  /** `str::lines`: parts between newlines without a last empty one, each without a final carriage return. */
  function Lines(s: string): seq<string> {
    var parts := Split(s, '\n');
    var kept := if parts[|parts| - 1] == [] then parts[..|parts| - 1] else parts;
    seq(|kept|, i requires 0 <= i < |kept| => StripReturn(kept[i]))
  }

  /** A line with a long enough token is a code; a missing or unreadable creation time becomes the current one. */
  function ParseLine(line: string, now: u64): Option<Code> {
    var parts := Split(line, ';');
    if |parts[0]| < TOKEN_LENGTH then None
    else
      var created := if |parts| > 1 then ParseU64(parts[1]) else None;
      var used := if |parts| > 2 then ParseU64(parts[2]) else None;
      Some(Code(parts[0], if created.Some? then created.value else now, used))
  }

  /** Readings of the clock, one for each line. */
  type Clock = nat -> u64

  function ParseLines(lines: seq<string>, clock: Clock): seq<Code> {
    if lines == [] then []
    else
      var n := |lines| - 1;
      var last := ParseLine(lines[n], clock(n));
      ParseLines(lines[..n], clock) + if last.Some? then [last.value] else []
  }

  /** The codes `from_file` reads from a file's contents. */
  function FromText(content: string, clock: Clock): seq<Code> {
    ParseLines(Lines(content), clock)
  }

  /** A file that cannot be opened counts as empty; one that is not text is an error. */
  datatype File = Missing | NotText | Text(content: string)

  /** A token that can be told apart in the file: long enough, and free of separators. */
  ghost predicate WellFormed(c: Code) {
    |c.code| >= TOKEN_LENGTH && ';' !in c.code && '\n' !in c.code
  }

  ghost predicate AllWellFormed(codes: seq<Code>) {
    forall k :: 0 <= k < |codes| ==> WellFormed(codes[k])
  }

  lemma PrintFree(n: nat)
    ensures ';' !in Print(n) && '\n' !in Print(n) && '\r' !in Print(n) && Print(n) != []
  {
    PrintDigits(n);
    forall c | c in Print(n)
      ensures IsDigit(c)
    {
    }
  }

  /** A printed line has no newline in it and does not end in a carriage return. */
  lemma LineClean(c: Code)
    requires WellFormed(c)
    ensures '\n' !in Line(c) && Line(c) != [] && StripReturn(Line(c)) == Line(c)
  {
    PrintFree(c.createdAt);
    var last := if c.lastUsedAt.Some? then Print(c.lastUsedAt.value) else Print(c.createdAt);
    if c.lastUsedAt.Some? {
      PrintFree(c.lastUsedAt.value);
    }
    assert Line(c)[|Line(c)| - 1] == last[|last| - 1];
    assert last[|last| - 1] in last;
  }

  function PartsOf(c: Code): seq<string> {
    [c.code, Print(c.createdAt)] + if c.lastUsedAt.Some? then [Print(c.lastUsedAt.value)] else []
  }

  lemma SplitLine(c: Code)
    requires WellFormed(c)
    ensures Split(Line(c), ';') == PartsOf(c)
  {
    hide Print, Split;
    var created := Print(c.createdAt);
    PrintFree(c.createdAt);
    if c.lastUsedAt.Some? {
      var used := Print(c.lastUsedAt.value);
      PrintFree(c.lastUsedAt.value);
      assert Line(c) == c.code + [';'] + (created + [';'] + used);
      SplitFirst(c.code, created + [';'] + used, ';');
      SplitFirst(created, used, ';');
      SplitPlain(used, ';');
    } else {
      assert Line(c) == c.code + [';'] + created;
      SplitFirst(c.code, created, ';');
      SplitPlain(created, ';');
    }
  }

  /** Reading a printed line gives the code back. */
  lemma ParsePrintedLine(c: Code, now: u64)
    requires WellFormed(c)
    ensures ParseLine(Line(c), now) == Some(c)
  {
    hide Print, Split, ParseU64, Line;
    SplitLine(c);
    ParsePrint(c.createdAt);
    if c.lastUsedAt.Some? {
      ParsePrint(c.lastUsedAt.value);
    }
  }

  function LinesOf(codes: seq<Code>): seq<string> {
    seq(|codes|, k requires 0 <= k < |codes| => Line(codes[k]))
  }

  lemma {:induction false} SplitText(codes: seq<Code>)
    requires AllWellFormed(codes) && codes != []
    ensures Split(ToText(codes), '\n') == LinesOf(codes)
  {
    LineClean(codes[0]);
    if |codes| == 1 {
      SplitPlain(Line(codes[0]), '\n');
    } else {
      SplitText(codes[1..]);
      SplitFirst(Line(codes[0]), ToText(codes[1..]), '\n');
      assert LinesOf(codes) == [Line(codes[0])] + LinesOf(codes[1..]);
    }
  }

  lemma LinesOfText(codes: seq<Code>)
    requires AllWellFormed(codes)
    ensures Lines(ToText(codes)) == LinesOf(codes)
  {
    if codes != [] {
      SplitText(codes);
      forall k | 0 <= k < |codes|
        ensures LinesOf(codes)[k] != [] && StripReturn(LinesOf(codes)[k]) == LinesOf(codes)[k]
      {
        LineClean(codes[k]);
      }
    }
  }

  lemma {:induction false} ParseLinesOf(codes: seq<Code>, clock: Clock)
    requires AllWellFormed(codes)
    ensures ParseLines(LinesOf(codes), clock) == codes
  {
    if codes != [] {
      var n := |codes| - 1;
      ParsePrintedLine(codes[n], clock(n));
      ParseLinesOf(codes[..n], clock);
      assert LinesOf(codes)[..n] == LinesOf(codes[..n]);
      assert codes[..n] + [codes[n]] == codes;
    }
  }

  /** Reading what was written gives back the same codes, times and order. */
  lemma RoundTrip(codes: seq<Code>, clock: Clock)
    requires AllWellFormed(codes)
    ensures FromText(ToText(codes), clock) == codes
  {
    LinesOfText(codes);
    ParseLinesOf(codes, clock);
  }

  lemma ParsedLineWellFormed(line: string, now: u64)
    requires '\n' !in line
    ensures ParseLine(line, now).Some? ==> WellFormed(ParseLine(line, now).value)
  {
    SplitParts(line, ';');
    var token := Split(line, ';')[0];
    assert token in Split(line, ';');
  }

  lemma {:induction false} ParsedLinesWellFormed(lines: seq<string>, clock: Clock)
    requires forall k :: 0 <= k < |lines| ==> '\n' !in lines[k]
    ensures AllWellFormed(ParseLines(lines, clock))
  {
    if lines != [] {
      var n := |lines| - 1;
      ParsedLineWellFormed(lines[n], clock(n));
      ParsedLinesWellFormed(lines[..n], clock);
    }
  }

  /** Whatever a file contains, the codes read from it are well-formed. */
  lemma AnyFileReadsWellFormed(content: string, clock: Clock)
    ensures AllWellFormed(FromText(content, clock))
  {
    SplitParts(content, '\n');
    var lines := Lines(content);
    forall k | 0 <= k < |lines|
      ensures '\n' !in lines[k]
    {
      var part := Split(content, '\n')[k];
      assert part in Split(content, '\n');
      assert lines[k] == StripReturn(part);
      assert forall i :: 0 <= i < |lines[k]| ==> lines[k][i] == part[i] && part[i] in part;
    }
    ParsedLinesWellFormed(lines, clock);
  }

  /**
   * Writing the codes and reading the file gives back the same codes, times and order if and only if every
   * token is well-formed; and it always does so for codes that came from a file.
   */
  lemma RoundTripIff(codes: seq<Code>, clock: Clock, content: string, later: Clock)
    ensures FromText(ToText(codes), clock) == codes <==> AllWellFormed(codes)
    ensures FromText(ToText(FromText(content, clock)), later) == FromText(content, clock)
  {
    AnyFileReadsWellFormed(ToText(codes), clock);
    if AllWellFormed(codes) {
      RoundTrip(codes, clock);
    }
    AnyFileReadsWellFormed(content, clock);
    RoundTrip(FromText(content, clock), later);
  }

  // The store.

  /** The bounds on a request's time are 64-bit sums and differences and wrap. */
  predicate InWindow(now: u64, time: u64) {
    !(time >= (now + TIME_THRESHOLD) % TWO_64 || time <= (now + TWO_64 - TIME_THRESHOLD) % TWO_64)
  }

  /** A request is in time exactly within seven seconds, as long as neither bound wraps; with a wrap none ever is. */
  lemma WindowIff(now: u64, time: u64)
    ensures InWindow(now, time) <==>
              TIME_THRESHOLD <= now < TWO_64 - TIME_THRESHOLD && now - TIME_THRESHOLD < time < now + TIME_THRESHOLD
  {
    if now >= TIME_THRESHOLD {
      assert (now + TWO_64 - TIME_THRESHOLD) % TWO_64 == now - TIME_THRESHOLD;
    } else {
      assert (now + TWO_64 - TIME_THRESHOLD) % TWO_64 == now + TWO_64 - TIME_THRESHOLD;
    }
    if now + TIME_THRESHOLD >= TWO_64 {
      assert (now + TIME_THRESHOLD) % TWO_64 == now + TIME_THRESHOLD - TWO_64;
    }
  }

  /** Old and never used. */
  predicate Garbage(c: Code, now: u64) {
    c.lastUsedAt.None? && c.createdAt <= if now < UNUSED_TOKEN_TIMEOUT then 0 else now - UNUSED_TOKEN_TIMEOUT
  }

  function Kept(codes: seq<Code>, now: u64): seq<Code> {
    if codes == [] then []
    else
      var last := codes[|codes| - 1];
      Kept(codes[..|codes| - 1], now) + if Garbage(last, now) then [] else [last]
  }

  /** The first code that yields the hash at that time, or the number of codes if there is none. */
  function FirstMatch<H(==)>(codes: seq<Code>, tokenOf: (string, u64) -> H, hash: H, time: u64): (i: nat)
    ensures i <= |codes|
    ensures i < |codes| ==> tokenOf(codes[i].code, time) == hash
    ensures forall j :: 0 <= j < i ==> tokenOf(codes[j].code, time) != hash
  {
    if codes == [] || tokenOf(codes[0].code, time) == hash then 0
    else 1 + FirstMatch(codes[1..], tokenOf, hash, time)
  }

  function Validated<H(==)>(codes: seq<Code>, tokenOf: (string, u64) -> H, hash: H, time: u64, now: u64): seq<Code> {
    var i := FirstMatch(codes, tokenOf, hash, time);
    if InWindow(now, time) && i < |codes| then codes[i := codes[i].(lastUsedAt := Some(now))] else codes
  }

  predicate IsAlphanumeric(c: char) {
    'a' <= c <= 'z' || 'A' <= c <= 'Z' || '0' <= c <= '9'
  }

  /** What the random generator may draw: sixteen letters and digits. */
  predicate IsToken(code: string) {
    |code| == TOKEN_LENGTH && forall i :: 0 <= i < |code| ==> IsAlphanumeric(code[i])
  }

  /** The code in groups of four, as it is shown to the user. */
  function Readable(code: string): string
    requires |code| == TOKEN_LENGTH
  {
    code[..4] + "-" + code[4..8] + "-" + code[8..12] + "-" + code[12..]
  }

  class AuthCodes {
    var codes: seq<Code>

    constructor (codes: seq<Code>)
      ensures this.codes == codes
    {
      this.codes := codes;
    }

    /** Fails exactly on a file that is not text; otherwise the codes are well-formed, whatever the file contains. */
    static method FromFile(file: File, clock: Clock) returns (r: Option<AuthCodes>)
      ensures r.None? <==> file.NotText?
      ensures r.Some? ==> fresh(r.value) && AllWellFormed(r.value.codes)
      ensures r.Some? ==> r.value.codes == FromText(if file.Text? then file.content else "", clock)
    {
      if file.NotText? {
        return None;
      }
      var content := if file.Text? then file.content else "";
      AnyFileReadsWellFormed(content, clock);
      var store := new AuthCodes(FromText(content, clock));
      return Some(store);
    }

    /** True exactly when the request is in time and some code yields its hash; the first such code is now used. */
    method IsValid<H(==)>(tokenOf: (string, u64) -> H, hash: H, time: u64, now: u64) returns (ok: bool)
      modifies this
      ensures ok <==>
                && InWindow(now, time)
                && exists i :: 0 <= i < |old(codes)| && tokenOf(old(codes)[i].code, time) == hash
      ensures codes == Validated(old(codes), tokenOf, hash, time, now)
    {
      if time >= (now + TIME_THRESHOLD) % TWO_64 || time <= (now + TWO_64 - TIME_THRESHOLD) % TWO_64 {
        return false;
      }
      ghost var first := FirstMatch(codes, tokenOf, hash, time);
      for i := 0 to |codes|
        invariant codes == old(codes)
        invariant forall j :: 0 <= j < i ==> tokenOf(codes[j].code, time) != hash
      {
        if tokenOf(codes[i].code, time) == hash {
          assert first == i;
          codes := codes[i := codes[i].(lastUsedAt := Some(now))];
          return true;
        }
      }
      return false;
    }

    method GenerateNew(code: string, now: u64) returns (readable: string)
      requires IsToken(code)
      modifies this
      ensures codes == old(codes) + [Code(code, now, None)] && readable == Readable(code)
    {
      readable := code[..4];
      readable := readable + "-" + code[4..8];
      readable := readable + "-" + code[8..12];
      readable := readable + "-" + code[12..];
      codes := codes + [Code(code, now, None)];
    }

    method ClearGarbage(now: u64)
      modifies this
      ensures codes == Kept(old(codes), now)
    {
      var threshold := if now < UNUSED_TOKEN_TIMEOUT then 0 else now - UNUSED_TOKEN_TIMEOUT;
      var all := codes;
      codes := [];
      assert all[..0] == [];
      for i := 0 to |all|
        invariant codes == Kept(all[..i], now)
      {
        assert all[..i + 1][..i] == all[..i];
        if all[i].lastUsedAt.None? && all[i].createdAt <= threshold {
          continue;
        }
        codes := codes + [all[i]];
      }
      assert all[..|all|] == all;
    }
  }

  // Runs of the store, with saving and loading again in between.

  datatype Op<H> =
    | Validate(hash: H, time: u64, now: u64)
    | Generate(code: string, now: u64)
    | Clear(now: u64)
    | Reload(clock: Clock)

  function Apply<H(==)>(codes: seq<Code>, tokenOf: (string, u64) -> H, op: Op<H>): seq<Code> {
    match op
    case Validate(hash, time, now) => Validated(codes, tokenOf, hash, time, now)
    case Generate(code, now) => if IsToken(code) then codes + [Code(code, now, None)] else codes
    case Clear(now) => Kept(codes, now)
    case Reload(clock) => FromText(ToText(codes), clock)
  }

  function Run<H(==)>(codes: seq<Code>, tokenOf: (string, u64) -> H, ops: seq<Op<H>>): seq<Code> {
    if ops == [] then codes else Apply(Run(codes, tokenOf, ops[..|ops| - 1]), tokenOf, ops[|ops| - 1])
  }

  ghost predicate IsUsed(codes: seq<Code>, code: string) {
    exists k :: 0 <= k < |codes| && codes[k].code == code && codes[k].lastUsedAt.Some?
  }

  lemma {:induction false} KeptFacts(codes: seq<Code>, now: u64)
    ensures forall c :: c in Kept(codes, now) <==> c in codes && !Garbage(c, now)
  {
    if codes != [] {
      KeptFacts(codes[..|codes| - 1], now);
      assert codes == codes[..|codes| - 1] + [codes[|codes| - 1]];
    }
  }

  lemma ApplyKeepsWellFormed<H>(codes: seq<Code>, tokenOf: (string, u64) -> H, op: Op<H>)
    requires AllWellFormed(codes)
    ensures AllWellFormed(Apply(codes, tokenOf, op))
  {
    match op
    case Validate(_, _, _) =>
    case Generate(_, _) =>
    case Clear(now) =>
      KeptFacts(codes, now);
      forall k | 0 <= k < |Kept(codes, now)|
        ensures WellFormed(Kept(codes, now)[k])
      {
        assert Kept(codes, now)[k] in codes;
      }
    case Reload(clock) => RoundTrip(codes, clock);
  }

  lemma ApplyKeepsUsed<H>(codes: seq<Code>, tokenOf: (string, u64) -> H, op: Op<H>, code: string)
    requires AllWellFormed(codes) && IsUsed(codes, code)
    ensures IsUsed(Apply(codes, tokenOf, op), code)
  {
    var k :| 0 <= k < |codes| && codes[k].code == code && codes[k].lastUsedAt.Some?;
    match op
    case Validate(_, _, _) => assert Apply(codes, tokenOf, op)[k].code == code;
    case Generate(_, _) => assert Apply(codes, tokenOf, op)[k] == codes[k];
    case Clear(now) =>
      KeptFacts(codes, now);
      assert codes[k] in Kept(codes, now);
    case Reload(clock) => RoundTrip(codes, clock);
  }

  /**
   * Over every run, saving and loading included: the codes stay well-formed, and a code that has ever been
   * used is still there, still marked as used. Garbage collection never takes it.
   */
  lemma {:induction false} UsedCodesStay<H>(codes: seq<Code>, tokenOf: (string, u64) -> H,
                                            ops: seq<Op<H>>, code: string)
    requires AllWellFormed(codes)
    ensures AllWellFormed(Run(codes, tokenOf, ops))
    ensures IsUsed(codes, code) ==> IsUsed(Run(codes, tokenOf, ops), code)
  {
    if ops != [] {
      var before := ops[..|ops| - 1];
      UsedCodesStay(codes, tokenOf, before, code);
      ApplyKeepsWellFormed(Run(codes, tokenOf, before), tokenOf, ops[|ops| - 1]);
      if IsUsed(codes, code) {
        ApplyKeepsUsed(Run(codes, tokenOf, before), tokenOf, ops[|ops| - 1], code);
      }
    }
  }

  /** Validating a code marks it as used. */
  lemma ValidationUses<H>(codes: seq<Code>, tokenOf: (string, u64) -> H, hash: H, time: u64, now: u64)
    ensures var i := FirstMatch(codes, tokenOf, hash, time);
            InWindow(now, time) && i < |codes| ==> IsUsed(Validated(codes, tokenOf, hash, time, now), codes[i].code)
  {
    var i := FirstMatch(codes, tokenOf, hash, time);
    if InWindow(now, time) && i < |codes| {
      assert Validated(codes, tokenOf, hash, time, now)[i].lastUsedAt.Some?;
    }
  }

  // What the file looks like, and what validation and clearing do, in the terms of the codes alone.

  /** A line is the token, its creation time and, if it has been used, the time of its last use, between semicolons. */
  lemma LineIs(c: Code)
    ensures c.lastUsedAt.None? ==> Line(c) == c.code + ";" + Print(c.createdAt)
    ensures c.lastUsedAt.Some? ==>
              Line(c) == c.code + ";" + Print(c.createdAt) + ";" + Print(c.lastUsedAt.value)
  {
    hide Print;
  }

  /** The file has one such line for every code, in their order, with newlines in between. */
  lemma {:induction false} TextIs(codes: seq<Code>, c: Code)
    ensures ToText([]) == "" && ToText([c]) == Line(c)
    ensures codes != [] ==> ToText(codes + [c]) == ToText(codes) + "\n" + Line(c)
  {
    hide Line;
    if codes != [] {
      var all := codes + [c];
      if |codes| > 1 {
        TextIs(codes[1..], c);
        assert all[1..] == codes[1..] + [c];
      } else {
        assert all[1..] == [c];
      }
    }
  }

  /** A line of a file: tokens under 16 bytes are skipped, and an unreadable creation time becomes the current one. */
  lemma ParsedLineIs(token: string, created: string, used: string, now: u64)
    requires ';' !in token && ';' !in created && ';' !in used
    ensures ParseLine(token, now) == if |token| < 16 then None else Some(Code(token, now, None))
    ensures var time := ParseU64(created);
            ParseLine(token + ";" + created + ";" + used, now) ==
            if |token| < 16 then None
            else Some(Code(token, if time.Some? then time.value else now, ParseU64(used)))
  {
    hide ParseU64, Split;
    SplitPlain(token, ';');
    SplitPlain(used, ';');
    SplitFirst(created, used, ';');
    SplitFirst(token, created + [';'] + used, ';');
    assert token + ";" + created + ";" + used == token + [';'] + (created + [';'] + used);
  }

  /** The code on a line, if any. A carriage return at the end of the line is no part of it. */
  ghost function CodesOn(line: string, now: u64): seq<Code> {
    var n := |line|;
    var code := ParseLine(if n > 0 && line[n - 1] == '\r' then line[..n - 1] else line, now);
    if code.Some? then [code.value] else []
  }

  ghost function Stripped(lines: seq<string>): seq<string> {
    seq(|lines|, i requires 0 <= i < |lines| => StripReturn(lines[i]))
  }

  lemma ParseMore(lines: seq<string>, line: string, clock: Clock)
    ensures ParseLines(Stripped(lines + [line]), clock) ==
            ParseLines(Stripped(lines), clock) + CodesOn(line, clock(|lines|))
  {
    hide ParseLine;
    assert Stripped(lines + [line])[..|lines|] == Stripped(lines);
  }

  lemma BlankLine(now: u64)
    ensures CodesOn("", now) == []
  {
  }

  /** A last blank line makes no difference. */
  lemma AllParts(content: string, clock: Clock)
    ensures FromText(content, clock) == ParseLines(Stripped(Split(content, '\n')), clock)
  {
    hide ParseLines, StripReturn, CodesOn, Split;
    var parts := Split(content, '\n');
    var n := |parts| - 1;
    if parts[n] == [] {
      assert Lines(content) == Stripped(parts[..n]) && parts == parts[..n] + [[]];
      ParseMore(parts[..n], [], clock);
      BlankLine(clock(n));
    } else {
      assert Lines(content) == Stripped(parts);
    }
  }

  /** A file is read line by line: a line adds its code behind those of the lines before, or nothing. */
  lemma FileIs(content: string, line: string, clock: Clock)
    requires '\n' !in line
    ensures FromText(line, clock) == CodesOn(line, clock(0))
    ensures FromText(content + "\n" + line, clock) ==
            FromText(content, clock) + CodesOn(line, clock(|Split(content, '\n')|))
  {
    hide FromText, CodesOn, Split;
    AllParts(content, clock);
    AllParts(line, clock);
    AllParts(content + "\n" + line, clock);
    SplitPlain(line, '\n');
    SplitLast(content, line, '\n');
    ParseMore([], line, clock);
    ParseMore(Split(content, '\n'), line, clock);
    assert [] + [line] == [line];
  }

  /** A code survives the clearing iff it has been used, or was created after time zero and less than a day ago. */
  lemma SurvivorsAre(codes: seq<Code>, now: u64, c: Code)
    ensures c in Kept(codes, now) <==>
              c in codes && (c.lastUsedAt.Some? || (c.createdAt > 0 && c.createdAt + 86400 > now))
  {
    KeptFacts(codes, now);
  }

  lemma KeptOfOne(c: Code, now: u64)
    ensures Kept([c], now) == if Garbage(c, now) then [] else [c]
  {
    assert [c][..0] == [];
  }

  lemma KeptOfMore(codes: seq<Code>, c: Code, now: u64)
    ensures Kept(codes + [c], now) == Kept(codes, now) + Kept([c], now)
  {
    hide Garbage;
    KeptOfOne(c, now);
    assert (codes + [c])[..|codes|] == codes;
  }

  /** The survivors keep their order: clearing two lists is clearing both. */
  lemma {:induction false} ClearingKeepsOrder(codes: seq<Code>, more: seq<Code>, now: u64, c: Code)
    ensures Kept(codes + more, now) == Kept(codes, now) + Kept(more, now)
    ensures Kept([c], now) == [c] || Kept([c], now) == []
  {
    KeptOfOne(c, now);
    if more == [] {
      assert codes + more == codes;
    } else {
      hide Kept;
      var less, last := more[..|more| - 1], more[|more| - 1];
      assert more == less + [last] && codes + more == codes + less + [last];
      ClearingKeepsOrder(codes, less, now, c);
      KeptOfMore(codes + less, last, now);
      KeptOfMore(less, last, now);
    }
  }

  /**
   * A request less than seven seconds off marks the first code that yields its hash as used now. Its token and creation
   * time stay, and so do all other codes; any other request changes nothing.
   */
  lemma ValidationIs<H>(codes: seq<Code>, tokenOf: (string, u64) -> H, hash: H, time: u64, now: u64, i: nat, j: nat)
    requires i < |codes| && tokenOf(codes[i].code, time) == hash && j < |codes|
    requires forall k :: 0 <= k < i ==> tokenOf(codes[k].code, time) != hash
    ensures var codes' := Validated(codes, tokenOf, hash, time, now);
            var inTime := 7 <= now < TWO_64 - 7 && now - 7 < time < now + 7;
            && |codes'| == |codes|
            && codes'[j] == if inTime && j == i then Code(codes[i].code, codes[i].createdAt, Some(now)) else codes[j]
  {
    WindowIff(now, time);
    hide InWindow;
    assert FirstMatch(codes, tokenOf, hash, time) == i;
  }

  /** The token in four groups of four with dashes between them. */
  lemma ReadableIs(code: string, i: nat)
    requires |code| == 16 && i < 19
    ensures |Readable(code)| == 19
    ensures Readable(code)[i] == if i % 5 == 4 then '-' else code[i - i / 5]
  {
  }
}
