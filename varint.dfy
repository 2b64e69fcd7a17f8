/**
 * The two integer encodings of the index file: fixed 4-byte little-endian words
 * (Rust's `to_le_bytes` on `u32` and `i32`) and the unsigned base-128 varint that
 * `write_u32_varint` emits (LEB128, as in section 7.6 of DWARF 4): seven value bits
 * per byte, least significant group first, high bit set on every byte but the last.
 */
module Varint {
  import opened Common

  /** `v.to_le_bytes()` for a `u32`. */
  function U32Le(v: nat): (b: seq<byte>)
    requires v < U32_LIMIT
    ensures |b| == 4
  {
    [(v % 256) as byte, (v / 256 % 256) as byte, (v / 256 / 256 % 256) as byte, (v / 256 / 256 / 256) as byte]
  }

  /** The `u32` a reader finds in the four little-endian bytes at `off`. */
  function ReadU32Le(s: seq<byte>, off: nat): (v: nat)
    requires off + 4 <= |s|
    ensures v < U32_LIMIT
  {
    s[off] as nat + 256 * s[off + 1] as nat + 65536 * s[off + 2] as nat + 16777216 * s[off + 3] as nat
  }

  /** Reading back a written `u32` gives the value that was written. */
  lemma U32LeRoundTrip(v: nat, s: seq<byte>, off: nat)
    requires v < U32_LIMIT && off + 4 <= |s| && s[off..off + 4] == U32Le(v)
    ensures ReadU32Le(s, off) == v
  {
    var q1 := v / 256;
    var q2 := q1 / 256;
    var q3 := q2 / 256;
    assert s[off] as nat == v % 256 && s[off + 1] as nat == q1 % 256 by {
      assert s[off] == U32Le(v)[0] && s[off + 1] == U32Le(v)[1];
    }
    assert s[off + 2] as nat == q2 % 256 && s[off + 3] as nat == q3 by {
      assert s[off + 2] == U32Le(v)[2] && s[off + 3] == U32Le(v)[3];
    }
    assert v == v % 256 + 256 * q1;
    assert q1 == q1 % 256 + 256 * q2;
    assert q2 == q2 % 256 + 256 * q3;
  }

  /** An `i32` as the `u32` with the same bit pattern (two's complement). */
  function I32Bits(v: int): (u: nat)
    requires -0x8000_0000 <= v < 0x8000_0000
    ensures u < U32_LIMIT
    ensures (u < 0x8000_0000) == (v >= 0)
    ensures u == v || u == v + U32_LIMIT
  {
    if v < 0 then v + U32_LIMIT else v
  }

  /** A reader's signed view of a `u32` bit pattern. */
  function SignedOf(u: nat): (v: int)
    requires u < U32_LIMIT
    ensures -0x8000_0000 <= v < 0x8000_0000
  {
    if u < 0x8000_0000 then u else u - U32_LIMIT
  }

  /** `i32::to_le_bytes`: the four little-endian bytes of the two's complement pattern. */
  function I32Le(v: int): (b: seq<byte>)
    requires -0x8000_0000 <= v < 0x8000_0000
    ensures |b| == 4
    ensures SignedOf(ReadU32Le(b, 0)) == v
  {
    var b := U32Le(I32Bits(v));
    assert b[0..4] == b;
    U32LeRoundTrip(I32Bits(v), b, 0);
    b
  }

  /** An `i32` written with `to_le_bytes` reads back as the same signed value. */
  lemma I32LeRoundTrip(v: int, s: seq<byte>, off: nat)
    requires -0x8000_0000 <= v < 0x8000_0000 && off + 4 <= |s| && s[off..off + 4] == I32Le(v)
    ensures SignedOf(ReadU32Le(s, off)) == v
  {
    U32LeRoundTrip(I32Bits(v), s, off);
  }

  /** `write_u32_varint(v)`: base-128 groups, least significant first, continuation bit 0x80. */
  function Leb128(v: nat): (b: seq<byte>)
    ensures 1 <= |b|
    decreases v
  {
    if v < 128 then [v as byte] else [(v % 128 + 128) as byte] + Leb128(v / 128)
  }

  /** Every byte but the last carries the continuation bit; the last one does not. */
  lemma {:induction false} Leb128Shape(v: nat)
    ensures Leb128(v)[|Leb128(v)| - 1] < 128
    ensures forall i :: 0 <= i < |Leb128(v)| - 1 ==> Leb128(v)[i] >= 128
    decreases v
  {
    if v >= 128 {
      var rest := Leb128(v / 128);
      Leb128Shape(v / 128);
      assert forall i :: 1 <= i < |Leb128(v)| ==> Leb128(v)[i] == rest[i - 1];
    }
  }

  /** A reader of one varint at the start of `s`: its value and how many bytes it took. */
  function DecodeLeb128(s: seq<byte>): (r: Option<(nat, nat)>)
    ensures r.Some? ==> 1 <= r.value.1 <= |s|
    decreases |s|
  {
    if |s| == 0 then None
    else if s[0] < 128 then Some((s[0] as nat, 1))
    else
      match DecodeLeb128(s[1..])
      case None => None
      case Some((v, n)) => Some(((s[0] - 128) as nat + 128 * v, n + 1))
  }

  /** Decoding a varint followed by anything yields its value and its exact length. */
  lemma {:induction false} Leb128RoundTrip(v: nat, rest: seq<byte>)
    ensures DecodeLeb128(Leb128(v) + rest) == Some((v, |Leb128(v)|))
    decreases v
  {
    if v >= 128 {
      var s := Leb128(v) + rest;
      assert s[1..] == Leb128(v / 128) + rest;
      Leb128RoundTrip(v / 128, rest);
    }
  }

  /** A value below 128^k takes at most k bytes; so a `u32` takes between one and five. */
  lemma {:induction false} Leb128Length(v: nat, k: nat)
    requires 1 <= k && v < Pow128(k)
    ensures |Leb128(v)| <= k
    decreases k
  {
    if v >= 128 {
      assert k > 1;
      Leb128Length(v / 128, k - 1);
    }
  }

  /** 128^k. */
  function Pow128(k: nat): (p: nat)
    ensures p >= 1
  {
    if k == 0 then 1 else 128 * Pow128(k - 1)
  }

  lemma U32VarintAtMostFive(v: nat)
    requires v < U32_LIMIT
    ensures 1 <= |Leb128(v)| <= 5
  {
    assert Pow128(5) == 34359738368;
    Leb128Length(v, 5);
  }
}
