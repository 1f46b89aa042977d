/**
 * Octets and the fixed-width big-endian fields of the dictionary blob:
 * encoders used by the generator, decoders used by the reader, and the
 * facts that connect them.
 */
module Bytes {

  /** An octet, as Go's `byte`. */
  type byte = x: int | 0 <= x < 256

  /** Go's `uint16`. */
  type u16 = x: int | 0 <= x <= 0xFFFF

  /** Go's conversion `byte(v)` of a count: its low eight bits, the count itself when it fits. */
  function Low8(v: nat): (r: byte)
    ensures v < 256 ==> r == v
  {
    v % 256
  }

  /** The two-byte big-endian encoding written by `putUint16` and `binary.BigEndian.PutUint16`. */
  function U16(v: int): (r: seq<byte>)
    requires 0 <= v <= 0xFFFF
    ensures |r| == 2 && Uint16At(r, 0) == v
  {
    [v / 256, v % 256]
  }

  /** The three-byte big-endian encoding written by `putUint24` once its range check has passed. */
  function U24(v: int): (r: seq<byte>)
    requires 0 <= v <= 0xFF_FFFF
    ensures |r| == 3 && Uint24At(r, 0) == v
  {
    [v / 0x1_0000, (v / 256) % 256, v % 256]
  }

  /** `binary.BigEndian.Uint16(b[p:])`. */
  function Uint16At(b: seq<byte>, p: int): (v: nat)
    requires 0 <= p && p + 2 <= |b|
    ensures v <= 0xFFFF
  {
    (b[p] as int) * 256 + (b[p + 1] as int)
  }

  /** `uint24(b[p:])`: the reader's three-byte big-endian decoder. */
  function Uint24At(b: seq<byte>, p: int): (v: nat)
    requires 0 <= p && p + 3 <= |b|
    ensures v <= 0xFF_FFFF
  {
    (b[p] as int) * 0x1_0000 + (b[p + 1] as int) * 256 + (b[p + 2] as int)
  }

  /** The bytes `s` stand in `b` starting at absolute position `p`. */
  ghost predicate SubAt(b: seq<byte>, p: int, s: seq<byte>)
  {
    0 <= p && p + |s| <= |b| && forall i {:trigger s[i]} :: 0 <= i < |s| ==> b[p + i] == s[i]
  }

  lemma {:induction false} SubAtSplit(b: seq<byte>, p: int, s: seq<byte>, t: seq<byte>)
    requires SubAt(b, p, s + t)
    ensures SubAt(b, p, s) && SubAt(b, p + |s|, t)
  {
    forall i | 0 <= i < |s| ensures b[p + i] == s[i] {
      assert (s + t)[i] == s[i];
    }
    forall i | 0 <= i < |t| ensures b[p + |s| + i] == t[i] {
      assert (s + t)[|s| + i] == t[i];
    }
  }

  lemma {:induction false} SubAtSplit3(b: seq<byte>, p: int, s: seq<byte>, t: seq<byte>, u: seq<byte>)
    requires SubAt(b, p, s + t + u)
    ensures SubAt(b, p, s) && SubAt(b, p + |s|, t) && SubAt(b, p + |s| + |t|, u)
  {
    SubAtSplit(b, p, s + t, u);
    SubAtSplit(b, p, s, t);
  }

  lemma {:induction false} SubAtByte(b: seq<byte>, p: int, x: byte)
    requires SubAt(b, p, [x])
    ensures b[p] == x
  {
    assert b[p + 0] == [x][0];
  }

  lemma {:induction false} SubAtCons(b: seq<byte>, p: int, x: byte, s: seq<byte>)
    requires SubAt(b, p, [x] + s)
    ensures p < |b| && b[p] == x && SubAt(b, p + 1, s)
  {
    SubAtSplit(b, p, [x], s);
    SubAtByte(b, p, x);
  }

  lemma {:induction false} SubAtU16(b: seq<byte>, p: int, v: int)
    requires 0 <= v <= 0xFFFF && SubAt(b, p, U16(v))
    ensures Uint16At(b, p) == v
  {
    assert b[p + 0] == U16(v)[0] && b[p + 1] == U16(v)[1];
  }

  lemma {:induction false} SubAtU24(b: seq<byte>, p: int, v: int)
    requires 0 <= v <= 0xFF_FFFF && SubAt(b, p, U24(v))
    ensures Uint24At(b, p) == v
  {
    assert b[p + 0] == U24(v)[0] && b[p + 1] == U24(v)[1] && b[p + 2] == U24(v)[2];
  }

  /** Placed bytes can be sliced back out of the blob. */
  lemma {:induction false} SubAtSlice(b: seq<byte>, p: int, s: seq<byte>)
    requires SubAt(b, p, s)
    ensures b[p..p + |s|] == s
  {
  }
}
