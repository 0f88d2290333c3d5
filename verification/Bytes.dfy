/** Bytes, fixed-width unsigned numbers and their little-endian form. */
module Bytes {
  type byte = b: nat | b < 0x100
  type u16 = x: nat | x < 0x1_0000
  type u32 = x: nat | x < 0x1_0000_0000
  type u64 = x: nat | x < 0x1_0000_0000_0000_0000

  /** A Go string or []byte. */
  type Name = seq<byte>

  /** The bytes of a text in ASCII. */
  function Ascii(s: string): Name {
    seq(|s|, i requires 0 <= i < |s| => (s[i] as int) % 0x100)
  }

  /** n in decimal. */
  function DecimalOf(n: nat): Name {
    if n < 10 then [48 + n] else DecimalOf(n / 10) + [48 + n % 10]
  }

  function Pow256(w: nat): (p: nat)
    ensures p > 0
  {
    if w == 0 then 1 else 0x100 * Pow256(w - 1)
  }

  lemma Widths()
    ensures Pow256(1) == 0x100 && Pow256(2) == 0x1_0000 && Pow256(4) == 0x1_0000_0000
    ensures Pow256(8) == 0x1_0000_0000_0000_0000
  {
    assert Pow256(2) == 0x100 * Pow256(1);
    assert Pow256(4) == 0x100 * (0x100 * Pow256(2));
    assert Pow256(6) == 0x100 * (0x100 * Pow256(4));
    assert Pow256(8) == 0x100 * (0x100 * Pow256(6));
  }

  /** n in w little-endian bytes, higher bytes dropped. */
  function LittleEndian(n: nat, w: nat): (s: seq<byte>)
    ensures |s| == w
  {
    if w == 0 then [] else [n % 0x100] + LittleEndian(n / 0x100, w - 1)
  }

  function FromLittleEndian(s: seq<byte>): (n: nat)
    ensures n < Pow256(|s|)
  {
    if s == [] then 0 else s[0] + 0x100 * FromLittleEndian(s[1..])
  }

  /** Reading back a number that fits. */
  lemma {:induction false} NumberRoundTrip(n: nat, w: nat)
    requires n < Pow256(w)
    ensures FromLittleEndian(LittleEndian(n, w)) == n
  {
    if w > 0 {
      NumberRoundTrip(n / 0x100, w - 1);
      assert LittleEndian(n, w)[1..] == LittleEndian(n / 0x100, w - 1);
    }
  }

  /** What is beyond w bytes leaves no trace in them. */
  lemma {:induction false} HighBytesDropped(q: nat, r: nat, w: nat)
    ensures LittleEndian(q * Pow256(w) + r, w) == LittleEndian(r, w)
  {
    if w > 0 {
      var t := q * Pow256(w - 1);
      assert q * Pow256(w) == 0x100 * t;
      assert (0x100 * t + r) % 0x100 == r % 0x100 && (0x100 * t + r) / 0x100 == t + r / 0x100;
      HighBytesDropped(q, r / 0x100, w - 1);
    }
  }

  /** Writing back the number read. */
  lemma {:induction false} BytesRoundTrip(s: seq<byte>)
    ensures LittleEndian(FromLittleEndian(s), |s|) == s
  {
    if s != [] {
      BytesRoundTrip(s[1..]);
      var n := FromLittleEndian(s);
      assert n % 0x100 == s[0] && n / 0x100 == FromLittleEndian(s[1..]);
    }
  }

  /** Where c first occurs in s, |s| if it does not. */
  function IndexByte(s: Name, c: byte): (i: nat)
    ensures i <= |s|
    ensures i < |s| ==> s[i] == c
    ensures forall j :: 0 <= j < i ==> s[j] != c
  {
    if s == [] || s[0] == c then 0 else 1 + IndexByte(s[1..], c)
  }

  lemma IndexByteAt(s: Name, t: Name, c: byte)
    requires forall i :: 0 <= i < |s| ==> s[i] != c
    ensures IndexByte(s + [c] + t, c) == |s|
  {
    var u := s + [c] + t;
    assert u[|s|] == c;
    assert forall j :: 0 <= j < |s| ==> u[j] == s[j];
    var i := IndexByte(u, c);
    assert i <= |s|;
  }

  lemma Regroup(a: seq<byte>, b: seq<byte>, c: seq<byte>)
    ensures (a + b) + c == a + (b + c)
  {
  }

  // ----- bytes in place -----

  /** The bytes s are found in c at position p. */
  predicate Holds(c: seq<byte>, p: nat, s: seq<byte>) {
    p + |s| <= |c| && c[p..p + |s|] == s
  }

  lemma HoldsParts(c: seq<byte>, p: nat, s: seq<byte>, t: seq<byte>)
    requires Holds(c, p, s + t)
    ensures Holds(c, p, s) && Holds(c, p + |s|, t)
  {
    var st := c[p..p + |s + t|];
    assert c[p..p + |s|] == st[..|s|];
    assert c[p + |s|..p + |s| + |t|] == st[|s|..];
  }

  lemma HoldsLater(c: seq<byte>, d: seq<byte>, p: nat, s: seq<byte>)
    requires Holds(c, p, s)
    ensures Holds(c + d, p, s)
  {
    assert (c + d)[p..p + |s|] == c[p..p + |s|];
  }
}
