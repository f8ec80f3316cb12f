/** The round constants of Keccak, against the shift register that defines them (FIPS 202, section 3.2.5). */
module KeccakConstants {
  import opened Words
  import opened KeccakF800

  /** The eight bits of the register, the first one lowest. */
  type Register = bv8

  /** One step: a zero comes in at the front, and the bit that goes out at the end is xored into four places. */
  function Shift(r: Register): Register {
    if r & 0x80 == 0 then r << 1 else (r << 1) ^ 0x71
  }

  function After(t: nat): Register {
    if t == 0 then 1 else Shift(After(t - 1))
  }

  function First(r: Register): nat {
    Bit(r & 1 == 1)
  }

  /** Output bit `t` of the register, whose period is 255. */
  function OutputBit(t: nat): nat {
    First(After(t % 255))
  }

  /** The constant of round `r` for lanes of 32 bits: output bit `j + 7r` goes to position `2^j - 1`. */
  function RoundConstant(r: nat): nat {
    OutputBit(7 * r) + 0x2 * OutputBit(7 * r + 1) + 0x8 * OutputBit(7 * r + 2) + 0x80 * OutputBit(7 * r + 3)
    + 0x8000 * OutputBit(7 * r + 4) + 0x8000_0000 * OutputBit(7 * r + 5)
  }

  /** The register at the start of each round. */
  const STATES: seq<Register> := [
    0x01, 0x80, 0xd8, 0x1a, 0xdf, 0x09, 0x35, 0x4f, 0xca, 0x70, 0x41, 0xec,
    0xd5, 0xcd, 0x63, 0xab, 0xaa, 0x2a, 0xf2, 0xe8, 0x37, 0x3e, 0x0b, 0x44]

  function State(r: nat): Register
    requires r < 24
  {
    STATES[r]
  }

  function Seven(r: Register): Register {
    Shift(Shift(Shift(Shift(Shift(Shift(Shift(r)))))))
  }

  lemma SevenMore(t: nat)
    ensures After(t + 7) == Seven(After(t))
  {
    hide Shift;
    assert After(t + 2) == Shift(Shift(After(t)));
    assert After(t + 4) == Shift(Shift(After(t + 2)));
    assert After(t + 6) == Shift(Shift(After(t + 4)));
  }

  lemma NextState1(r: nat)
    requires r < 8
    ensures Seven(State(r)) == State(r + 1)
  {
  }

  lemma NextState2(r: nat)
    requires 8 <= r < 16
    ensures Seven(State(r)) == State(r + 1)
  {
  }

  lemma NextState3(r: nat)
    requires 16 <= r < 23
    ensures Seven(State(r)) == State(r + 1)
  {
  }

  lemma NextState(r: nat)
    requires r < 23
    ensures Seven(State(r)) == State(r + 1)
  {
    if r < 8 {
      NextState1(r);
    } else if r < 16 {
      NextState2(r);
    } else {
      NextState3(r);
    }
  }

  lemma {:induction false} StateAt(r: nat)
    requires r < 24
    ensures After(7 * r) == State(r)
  {
    if r > 0 {
      hide Seven, State;
      StateAt(r - 1);
      SevenMore(7 * (r - 1));
      NextState(r - 1);
    }
  }

  function Word(s: Register): nat {
    var s1 := Shift(s);
    var s2 := Shift(s1);
    var s3 := Shift(s2);
    var s4 := Shift(s3);
    First(s) + 0x2 * First(s1) + 0x8 * First(s2) + 0x80 * First(s3) + 0x8000 * First(s4)
    + 0x8000_0000 * First(Shift(s4))
  }

  lemma WordOfState1(r: nat)
    requires r < 8
    ensures Word(State(r)) == RNDC[r]
  {
  }

  lemma WordOfState2(r: nat)
    requires 8 <= r < 16
    ensures Word(State(r)) == RNDC[r]
  {
  }

  lemma WordOfState3(r: nat)
    requires 16 <= r < 24
    ensures Word(State(r)) == RNDC[r]
  {
  }

  lemma WordOfState(r: nat)
    requires r < 24
    ensures Word(State(r)) == RNDC[r]
  {
    if r < 8 {
      WordOfState1(r);
    } else if r < 16 {
      WordOfState2(r);
    } else {
      WordOfState3(r);
    }
  }

  lemma OutputInFirstPeriod(t: nat)
    requires t < 255
    ensures OutputBit(t) == First(After(t))
  {
    hide After, First;
    assert t % 255 == t;
  }

  lemma WordOfRound(r: nat)
    requires r < 24
    ensures RoundConstant(r) == Word(After(7 * r))
  {
    hide Shift, OutputBit, First;
    var t := 7 * r;
    assert After(t + 1) == Shift(After(t));
    assert After(t + 2) == Shift(After(t + 1));
    assert After(t + 3) == Shift(After(t + 2));
    assert After(t + 4) == Shift(After(t + 3));
    assert After(t + 5) == Shift(After(t + 4));
    hide After;
    OutputInFirstPeriod(t);
    OutputInFirstPeriod(t + 1);
    OutputInFirstPeriod(t + 2);
    OutputInFirstPeriod(t + 3);
    OutputInFirstPeriod(t + 4);
    OutputInFirstPeriod(t + 5);
  }

  /** Every constant of the table is the one that the shift register defines. */
  lemma TableIsTheRegisters(r: nat)
    requires r < |RNDC|
    ensures RNDC[r] == RoundConstant(r)
  {
    hide RoundConstant, State, Word;
    StateAt(r);
    WordOfState(r);
    WordOfRound(r);
  }
}
