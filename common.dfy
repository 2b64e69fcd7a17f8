/** Shared vocabulary: bytes, unsigned 32-bit bounds and the usual Option wrapper. */
module Common {

  /** One octet of a file or of a UTF-8 string. */
  newtype byte = x: int | 0 <= x < 256

  /** Rust's `String` as its UTF-8 bytes. */
  type Str = seq<byte>

  /** 2^32: every `u32` of the source is below this. */
  const U32_LIMIT: int := 0x1_0000_0000

  /** `x as u32`: the low 32 bits of `x`. */
  function AsU32(x: nat): (r: nat)
    ensures r < U32_LIMIT
    ensures x < U32_LIMIT ==> r == x
  {
    x % U32_LIMIT
  }

  datatype Option<+T> = None | Some(value: T)

  /** `n` zero bytes: what a write past the end of a file leaves in the gap. */
  function Zeros(n: nat): (z: seq<byte>)
    ensures |z| == n
    ensures forall i :: 0 <= i < n ==> z[i] == 0
  {
    seq(n, _ => 0)
  }

  /** Does `p` begin `s` (Rust's `starts_with`, JavaScript's `startsWith`)? */
  predicate IsPrefix<T(==)>(p: seq<T>, s: seq<T>) {
    |p| <= |s| && s[..|p|] == p
  }

  /** Does `t` end `s`? */
  predicate IsSuffix<T(==)>(t: seq<T>, s: seq<T>) {
    |t| <= |s| && s[|s| - |t|..] == t
  }

  /** The parts written one after another (`concat`, `flatMap`). */
  function Flatten<T>(parts: seq<seq<T>>): seq<T>
    decreases |parts|
  {
    if parts == [] then [] else Flatten(parts[..|parts| - 1]) + parts[|parts| - 1]
  }

  /** Flattening distributes over concatenation. */
  lemma {:induction false} FlattenAppend<T>(a: seq<seq<T>>, b: seq<seq<T>>)
    ensures Flatten(a + b) == Flatten(a) + Flatten(b)
    decreases |b|
  {
    if b == [] {
      assert a + b == a;
    } else {
      var init, last := b[..|b| - 1], b[|b| - 1];
      FlattenAppend(a, init);
      var ab := a + b;
      assert ab[..|ab| - 1] == a + init && ab[|ab| - 1] == last;
      assert Flatten(ab) == Flatten(a + init) + last;
      assert Flatten(b) == Flatten(init) + last;
    }
  }

  /** Flattening one-element pieces lists their elements. */
  lemma {:induction false} FlattenSingletons<T>(parts: seq<seq<T>>, xs: seq<T>)
    requires |parts| == |xs|
    requires forall k :: 0 <= k < |parts| ==> parts[k] == [xs[k]]
    ensures Flatten(parts) == xs
    decreases |parts|
  {
    if parts != [] {
      var n := |parts| - 1;
      FlattenSingletons(parts[..n], xs[..n]);
      assert xs == xs[..n] + [xs[n]];
    }
  }

  /** `indexOf`: the first index of `x` in `s`, or -1. */
  function IndexOf<T(==)>(s: seq<T>, x: T): (r: int)
    ensures -1 <= r < |s|
    ensures r == -1 <==> x !in s
    ensures 0 <= r ==> s[r] == x && x !in s[..r]
  {
    if s == [] then -1
    else if s[0] == x then 0
    else
      var k := IndexOf(s[1..], x);
      assert k >= 0 ==> s[..k + 1] == [s[0]] + s[1..][..k];
      if k < 0 then -1 else k + 1
  }
}
