/** CRC-32 with the IEEE polynomial, as hash/crc32 computes it. */
module Crc32 {
  import opened Bytes

  function Fold<C>(step: (C, byte) -> C, c: C, s: seq<byte>): C {
    if s == [] then c else step(Fold(step, c, s[..|s| - 1]), s[|s| - 1])
  }

  lemma {:induction false} FoldConcat<C>(step: (C, byte) -> C, c: C, s: seq<byte>, t: seq<byte>)
    ensures Fold(step, c, s + t) == Fold(step, Fold(step, c, s), t)
  {
    if t == [] {
      assert s + t == s;
    } else {
      var init := t[..|t| - 1];
      assert (s + t)[..|s + t| - 1] == s + init;
      FoldConcat(step, c, s, init);
    }
  }

  /** Shifts the register right n times, folding in the polynomial at each one bit that falls out. */
  function Shift(c: bv32, n: nat): bv32
    decreases n
  {
    if n == 0 then c
    else Shift(if c & 1 == 1 then (c >> 1) ^ 0xEDB8_8320 else c >> 1, n - 1)
  }

  function Step(c: bv32, b: byte): bv32 {
    Shift(c ^ (b as bv32), 8)
  }

  function Complement(c: bv32): bv32 { !c }

  /** A fold between an involution before and after it. */
  function Conjugated<C>(flip: C -> C, step: (C, byte) -> C, c: C, s: seq<byte>): C {
    flip(Fold(step, flip(c), s))
  }

  lemma ConjugatedConcat<C(!new)>(flip: C -> C, step: (C, byte) -> C, c: C, s: seq<byte>, t: seq<byte>)
    requires forall x :: flip(flip(x)) == x
    ensures Conjugated(flip, step, Conjugated(flip, step, c, s), t) == Conjugated(flip, step, c, s + t)
  {
    FoldConcat(step, flip(c), s, t);
  }

  /** crc32.Update with the IEEE table. */
  function Update(c: bv32, s: seq<byte>): bv32 {
    Conjugated(Complement, Step, c, s)
  }

  lemma ComplementTwice(c: bv32)
    ensures Complement(Complement(c)) == c
  {
  }

  /** Updating in two steps is updating with the concatenation. */
  lemma UpdateConcat(c: bv32, s: seq<byte>, t: seq<byte>)
    ensures Update(Update(c, s), t) == Update(c, s + t)
  {
    forall x ensures Complement(Complement(x)) == x { ComplementTwice(x); }
    ConjugatedConcat(Complement, Step, c, s, t);
  }

  lemma StepOfA()
    ensures Step(0xFFFF_FFFF, 97) == 0x1748_41BC
  {
    assert (97 as byte) as bv32 == 97;
    assert Shift(0xFFFF_FF9E, 8) == 0x1748_41BC;
  }

  /** A known checksum: that of the letter a. */
  lemma ChecksumOfA()
    ensures Update(0, []) == 0 && Update(0, [97]) == 0xE8B7_BE43
  {
    StepOfA();
    assert [97][..0] == [];
    assert Fold(Step, 0xFFFF_FFFF, [97]) == Step(Fold(Step, 0xFFFF_FFFF, []), 97);
  }

  /** The checksum of s as it is stored: four little-endian bytes. */
  function Footer(s: seq<byte>): (f: seq<byte>)
    ensures |f| == 4
  {
    LittleEndian(Update(0, s) as nat, 4)
  }

  lemma FooterReadBack(s: seq<byte>)
    ensures FromLittleEndian(Footer(s)) == Update(0, s) as nat
  {
    Widths();
    NumberRoundTrip(Update(0, s) as nat, 4);
  }
}
