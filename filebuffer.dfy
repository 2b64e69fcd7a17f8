/**
 * The output file of the index builder (rust/src/main.rs) as an in-memory byte buffer
 * with a cursor, standing for the `BufWriter<File>` the builder writes through: a
 * write overwrites the bytes under the cursor and extends the file, `seek` moves the
 * cursor anywhere, and a write past the end leaves zero bytes in the gap.
 */
module FileBuffer {
  import opened Common

  function Max(a: nat, b: nat): nat {
    if a < b then b else a
  }

  /** The file `s` after writing `data` at offset `at`. */
  function Overwrite(s: seq<byte>, at: nat, data: seq<byte>): (r: seq<byte>)
    ensures |r| == Max(|s|, at + |data|)
    ensures r[at..at + |data|] == data
    ensures forall i :: 0 <= i < |r| && !(at <= i < at + |data|) ==> r[i] == (if i < |s| then s[i] else 0)
  {
    var padded := if at > |s| then s + Zeros(at - |s|) else s;
    var r := padded[..at] + data + (if at + |data| < |padded| then padded[at + |data|..] else []);
    assert r[at..at + |data|] == data;
    r
  }

  /** A write at or past the end appends, after zero-filling any gap. */
  lemma OverwriteAtEnd(s: seq<byte>, at: nat, data: seq<byte>)
    requires |s| <= at
    ensures Overwrite(s, at, data) == s + Zeros(at - |s|) + data
  {
    var padded := s + Zeros(at - |s|);
    assert padded[..at] == padded;
  }

  /** A write inside the file replaces exactly the bytes it covers. */
  lemma OverwriteInside(s: seq<byte>, at: nat, data: seq<byte>)
    requires at + |data| <= |s|
    ensures Overwrite(s, at, data) == s[..at] + data + s[at + |data|..]
  {
  }

  /** The file as a write at cursor `at` sees it: the contents, zero-filled up to `at`. */
  function Padded(s: seq<byte>, at: nat): (r: seq<byte>)
    requires |s| <= at
    ensures |r| == at && r[..|s|] == s
    ensures at == |s| ==> r == s
  {
    s + Zeros(at - |s|)
  }

  /** With nothing at or after the cursor, a write extends the zero-filled file. */
  lemma WriteAhead(s: seq<byte>, at: nat, data: seq<byte>)
    requires |s| <= at
    ensures Overwrite(s, at, data) == Padded(s, at) + data
    ensures Padded(Overwrite(s, at, data), at + |data|) == Padded(s, at) + data
  {
    OverwriteAtEnd(s, at, data);
    assert Zeros(0) == [];
  }

  /** A write over the start of a run of zero bytes replaces that many of them. */
  lemma WriteOverZeros(h: seq<byte>, z: nat, tail: seq<byte>, data: seq<byte>)
    requires |data| <= z
    ensures Overwrite(h + Zeros(z) + tail, |h|, data) == h + data + Zeros(z - |data|) + tail
  {
    var s := h + Zeros(z) + tail;
    OverwriteInside(s, |h|, data);
    assert s[..|h|] == h;
    assert s[|h| + |data|..] == Zeros(z - |data|) + tail;
  }

  class Writer {
    /** The file's contents so far. */
    var bytes: seq<byte>
    /** `stream_position()`. */
    var pos: nat

    /** `File::create` wrapped in a `BufWriter`: empty, cursor at 0. */
    constructor ()
      ensures bytes == [] && pos == 0
    {
      bytes := [];
      pos := 0;
    }

    /** `write_all(data)`. */
    method Write(data: seq<byte>)
      modifies this
      ensures bytes == Overwrite(old(bytes), old(pos), data)
      ensures pos == old(pos) + |data|
    {
      bytes := Overwrite(bytes, pos, data);
      pos := pos + |data|;
    }

    /** `seek(SeekFrom::Start(p))`: moves the cursor without touching the contents. */
    method Seek(p: nat)
      modifies this
      ensures bytes == old(bytes) && pos == p
    {
      pos := p;
    }
  }
}
