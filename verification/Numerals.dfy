/** Printing and parsing of unsigned numbers as text, as `format!("{}")` and `str::parse::<u64>` do it. */
module Numerals {

  datatype Option<+T> = None | Some(value: T)

  const TWO_64: nat := 0x1_0000_0000_0000_0000

  type u64 = n: nat | n < TWO_64

  predicate IsDigit(c: char) {
    '0' <= c <= '9'
  }

  predicate AllDigits(s: string) {
    forall i :: 0 <= i < |s| ==> IsDigit(s[i])
  }

  function DigitChar(d: nat): (c: char)
    requires d < 16
  {
    "0123456789abcdef"[d]
  }

  function Print(n: nat): string {
    if n < 10 then [DigitChar(n)] else Print(n / 10) + [DigitChar(n % 10)]
  }

  function DigitsValue(s: string): nat
    requires AllDigits(s)
  {
    if s == [] then 0 else 10 * DigitsValue(s[..|s| - 1]) + (s[|s| - 1] - '0') as nat
  }

  /** `str::parse::<u64>`: an optional plus sign, then at least one digit and no overflow. */
  function ParseU64(s: string): Option<u64> {
    var digits := if |s| > 1 && s[0] == '+' then s[1..] else s;
    if digits != [] && AllDigits(digits) && DigitsValue(digits) < TWO_64
    then Some(DigitsValue(digits))
    else None
  }

  /** Fixed-width lower-case hexadecimal, most significant digit first (`{:x}` of a hash). */
  function Hex(n: nat, width: nat): (s: string)
    ensures |s| == width
  {
    if width == 0 then [] else Hex(n / 16, width - 1) + [DigitChar(n % 16)]
  }

  lemma {:induction false} PrintDigits(n: nat)
    ensures Print(n) != [] && AllDigits(Print(n)) && DigitsValue(Print(n)) == n
  {
    if n >= 10 {
      PrintDigits(n / 10);
      assert Print(n)[..|Print(n)| - 1] == Print(n / 10);
    } else {
      assert Print(n)[..0] == [];
    }
  }

  /** Reading back what was printed gives the number, for every 64-bit number. */
  lemma ParsePrint(n: u64)
    ensures ParseU64(Print(n)) == Some(n)
  {
    PrintDigits(n);
    assert IsDigit(Print(n)[0]);
  }

  ghost function Pow16(k: nat): (p: nat)
    ensures p > 0
  {
    if k == 0 then 1 else 16 * Pow16(k - 1)
  }

  lemma {:induction false} HexInjective(m: nat, n: nat, width: nat)
    requires m < Pow16(width) && n < Pow16(width)
    requires Hex(m, width) == Hex(n, width)
    ensures m == n
  {
    hide Hex, DigitChar;
    if width > 0 {
      HexSplit(m, width);
      HexSplit(n, width);
      DigitInjective(m % 16, n % 16);
      HexInjective(m / 16, n / 16, width - 1);
    }
  }

  lemma HexSplit(n: nat, width: nat)
    requires width > 0
    ensures Hex(n, width)[..width - 1] == Hex(n / 16, width - 1)
    ensures Hex(n, width)[width - 1] == DigitChar(n % 16)
  {
    hide DigitChar;
  }

  lemma DigitInjective(c: nat, d: nat)
    requires c < 16 && d < 16
    ensures DigitChar(c) == DigitChar(d) ==> c == d
  {
  }

  /** Digits of a printed number, from the last: ten characters from '0' on. */
  lemma PrintIs(n: nat)
    ensures n < 10 ==> Print(n) == ["0123456789"[n]]
    ensures n >= 10 ==> Print(n) == Print(n / 10) + ["0123456789"[n % 10]]
  {
  }

  /** Reading a number: digits with an optional plus sign, whose value is given by the last digit and the rest. */
  lemma ParseIs(s: string, d: nat)
    requires d < 10
    ensures ParseU64("") == None && ParseU64(["0123456789"[d]]) == Some(d)
    ensures s != [] && s != "+" && s[0] == '+' ==> ParseU64(s) == ParseU64(s[1..]) || (|s| > 2 && s[1] == '+')
    ensures (exists i :: 0 <= i < |s| && !('0' <= s[i] <= '9') && (i > 0 || s[0] != '+')) ==> ParseU64(s) == None
    ensures s != [] && AllDigits(s) ==>
              var t := s + ["0123456789"[d]];
              && (ParseU64(s).Some? && 10 * ParseU64(s).value + d < TWO_64 ==>
                    ParseU64(t) == Some(10 * ParseU64(s).value + d))
              && (ParseU64(s).None? || 10 * ParseU64(s).value + d >= TWO_64 ==> ParseU64(t) == None)
  {
    var c := "0123456789"[d];
    assert [c][..0] == [] && DigitsValue([c]) == d;
    if s != [] && AllDigits(s) {
      var t := s + [c];
      assert t[..|s|] == s && AllDigits(t) && t[0] == s[0];
    }
  }
}
