/**
 * The writing half of the index builder (rust/src/main.rs): the header, a seek past
 * the pointer table, the records with the cache pass beside them, the final eviction,
 * the cache section, and the seek back that patches the cache offset and the pointers.
 * Every step that the source ends with a panic or an early `?` return leaves no file:
 * the method returns `None` there.
 */
module IndexWriter {
  import opened Common
  import opened Varint
  import opened Unicode
  import opened Players
  import opened SortStage
  import opened PrefixCache
  import opened FileBuffer
  import opened IndexFormat

  /** The file as the next write at the cursor sees it is `x`: nothing lies beyond the cursor. */
  ghost predicate At(w: Writer, x: seq<byte>)
    reads w
  {
    |w.bytes| <= w.pos && Padded(w.bytes, w.pos) == x
  }

  /** The cursor is at the end of the file. */
  ghost predicate AtEnd(w: Writer)
    reads w
  {
    w.pos == |w.bytes|
  }

  /** `write_all(data)` where nothing lies at or after the cursor. */
  method Append(w: Writer, data: seq<byte>, ghost x: seq<byte>)
    requires At(w, x)
    modifies w
    ensures At(w, x + data) && AtEnd(w)
  {
    WriteAhead(w.bytes, w.pos, data);
    w.Write(data);
  }

  /** Consecutive `write_u32_varint` calls. */
  method WriteVarints(w: Writer, vs: seq<nat>, ghost x: seq<byte>)
    requires At(w, x) && AtEnd(w)
    modifies w
    ensures At(w, x + Varints(vs)) && AtEnd(w)
  {
    for k := 0 to |vs|
      invariant At(w, x + Varints(vs[..k])) && AtEnd(w)
    {
      VarintsSnoc(vs[..k], vs[k]);
      assert vs[..k + 1] == vs[..k] + [vs[k]];
      Append(w, Leb128(vs[k]), x + Varints(vs[..k]));
    }
    assert vs[..|vs|] == vs;
  }

  /** One record: `u8` name length, the name, and the twelve `write_u32_varint` calls. */
  method WriteRecord(w: Writer, row: Row, ghost x: seq<byte>)
    requires At(w, x) && NameFits(row)
    modifies w
    ensures At(w, x + RecordBytes(row)) && AtEnd(w)
  {
    Append(w, [|row.name| as byte], x);
    Append(w, row.name, x + [|row.name| as byte]);
    WriteVarints(w, RecordFields(row.info), x + [|row.name| as byte] + row.name);
  }

  /** The prefix of `rows` one row longer: its records and offsets grow at the end. */
  lemma RecordsGrow(rows: seq<Row>, base: nat, i: nat)
    requires i < |rows| && NamesFit(rows[..i]) && NameFits(rows[i])
    ensures NamesFit(rows[..i + 1])
    ensures Records(rows[..i + 1]) == Records(rows[..i]) + RecordBytes(rows[i])
    ensures Offsets(rows[..i + 1], base) == Offsets(rows[..i], base) + [base + |Records(rows[..i])|]
  {
    var p := rows[..i + 1];
    assert p[..i] == rows[..i] && p[i] == rows[i];
    assert NamesFit(p) by {
      assert forall j :: 0 <= j < i ==> p[j] == rows[..i][j];
    }
    RecordsTakeNext(p, i);
    assert p[..i + 1] == p;
    forall j | 0 <= j < i
      ensures Offset(p, base, j) == Offset(rows[..i], base, j)
    {
      assert p[..j] == rows[..i][..j];
    }
  }

  /** What placing record `i` at `position` adds to the file and to the pointers. */
  lemma RowPlaced(rows: seq<Row>, base: nat, i: nat, before: seq<byte>, pointers: seq<nat>, position: nat)
    requires i < |rows| && NamesFit(rows[..i]) && NameFits(rows[i]) && |before| == base
    requires pointers == Offsets(rows[..i], base) && position == |before + Records(rows[..i])|
    ensures NamesFit(rows[..i + 1])
    ensures before + Records(rows[..i]) + RecordBytes(rows[i]) == before + Records(rows[..i + 1])
    ensures pointers + [position] == Offsets(rows[..i + 1], base)
  {
    RecordsGrow(rows, base, i);
  }

  /** The pass over one more row is one more `Step`. */
  lemma CachePassNext(ops: TextOps, rows: seq<Row>, i: nat)
    requires ops.Valid() && i < |rows|
    ensures CachePass(ops, rows[..i + 1]) == Step(CachePass(ops, rows[..i]), ops, rows[i].key, MemberOf(rows[i]))
  {
    assert rows[..i + 1][..i] == rows[..i];
  }

  /** A record that starts at or beyond 2^32, or whose name overflows its length byte. */
  lemma RecordOverflow(rows: seq<Row>, base: nat, i: nat)
    requires i < |rows| && NamesFit(rows[..i])
    requires base + |Records(rows[..i])| >= U32_LIMIT || !NameFits(rows[i])
    ensures !RecordsFit(rows, base)
  {
    if NamesFit(rows) {
      RecordsFitEach(rows, base);
      assert Offset(rows, base, i) == base + |Records(rows[..i])|;
    }
  }

  /** The first `i` records are written after `before`, with their pointers and cache pass. */
  ghost predicate Written(w: Writer, ops: TextOps, rows: seq<Row>, i: nat, base: nat, before: seq<byte>,
                          pointers: seq<nat>, pass: Pass)
    reads w
    requires i <= |rows|
  {
    && ops.Valid() && NamesFit(rows[..i])
    && At(w, before + Records(rows[..i]))
    && pointers == Offsets(rows[..i], base)
    && (0 < i ==> pointers[i - 1] < U32_LIMIT)
    && pass == CachePass(ops, rows[..i])
  }

  /**
   * The loop over the sorted records. `ok` is false where the source panics: a
   * position at or beyond 2^32, or a name longer than 255 bytes.
   */
  method WriteRecords(w: Writer, ops: TextOps, rows: seq<Row>, base: nat, ghost before: seq<byte>)
      returns (ok: bool, pointers: seq<nat>, pass: Pass)
    requires ops.Valid() && At(w, before) && |before| == base
    modifies w
    ensures ok <==> RecordsFit(rows, base)
    ensures ok ==> At(w, before + Records(rows))
    ensures ok ==> pointers == Offsets(rows, base) && pass == CachePass(ops, rows)
  {
    pointers, pass := [], StartPass;
    var i := 0;
    assert rows[..0] == [];
    while i < |rows|
      invariant i <= |rows| && Written(w, ops, rows, i, base, before, pointers, pass)
    {
      var fits;
      fits, pointers, pass := WriteRow(w, ops, rows, i, base, before, pointers, pass);
      if !fits {
        return false, pointers, pass;
      }
      i := i + 1;
    }
    assert rows[..i] == rows;
    ok := true;
  }

  /**
   * One iteration of the record loop: the cursor becomes the record's pointer
   * (`u32::try_from(position).unwrap()`), the record is written (`u8::try_from` of the
   * name length), and the cache is updated.
   */
  method WriteRow(w: Writer, ops: TextOps, rows: seq<Row>, i: nat, base: nat, ghost before: seq<byte>,
                  pointers: seq<nat>, pass: Pass)
      returns (ok: bool, pointers': seq<nat>, pass': Pass)
    requires i < |rows| && |before| == base && Written(w, ops, rows, i, base, before, pointers, pass)
    modifies w
    ensures !ok ==> !RecordsFit(rows, base)
    ensures ok ==> Written(w, ops, rows, i + 1, base, before, pointers', pass')
    ensures ok ==> pointers' == pointers + [old(w.pos)]
  {
    var row := rows[i];
    var position := w.pos;
    if position >= U32_LIMIT || |row.name| > MAX_SHORT {
      RecordOverflow(rows, base, i);
      return false, pointers, pass;
    }
    RowPlaced(rows, base, i, before, pointers, position);
    pointers' := pointers + [position];
    WriteRecord(w, row, before + Records(rows[..i]));
    pass' := CacheRecord(pass, ops, row.key, MemberOf(row));
    CachePassNext(ops, rows, i);
    ok := true;
  }

  /** A member of a cached list: name length, name, and its points as a varint. */
  method WriteMember(w: Writer, mb: Member, ghost x: seq<byte>)
    requires At(w, x) && |mb.name| <= MAX_SHORT
    modifies w
    ensures At(w, x + MemberBytes(mb)) && AtEnd(w)
  {
    Append(w, [|mb.name| as byte], x);
    Append(w, mb.name, x + [|mb.name| as byte]);
    Append(w, Leb128(mb.points), x + [|mb.name| as byte] + mb.name);
  }

  /** One cache entry: prefix length, prefix, list length, and each member. */
  method WriteSlot(w: Writer, s: Slot, ghost x: seq<byte>) returns (ok: bool)
    requires At(w, x)
    modifies w
    ensures ok <==> SlotFits(s)
    ensures ok ==> At(w, x + SlotBytes(s)) && AtEnd(w)
  {
    if |s.prefix| > MAX_SHORT {
      return false;
    }
    Append(w, [|s.prefix| as byte], x);
    Append(w, s.prefix, x + [|s.prefix| as byte]);
    var ms := s.cache.top10;
    if |ms| > MAX_SHORT {
      return false;
    }
    Append(w, [|ms| as byte], x + [|s.prefix| as byte] + s.prefix);
    ok := WriteMembers(w, ms, x + [|s.prefix| as byte] + s.prefix + [|ms| as byte]);
  }

  /** The members of one entry, in list order; `ok` is false at the first name too long for its length byte. */
  method WriteMembers(w: Writer, ms: seq<Member>, ghost head: seq<byte>) returns (ok: bool)
    requires At(w, head) && AtEnd(w)
    modifies w
    ensures ok <==> forall l :: 0 <= l < |ms| ==> |ms[l].name| <= MAX_SHORT
    ensures ok ==> At(w, head + MembersBytes(ms)) && AtEnd(w)
  {
    for k := 0 to |ms|
      invariant forall l :: 0 <= l < k ==> |ms[l].name| <= MAX_SHORT
      invariant At(w, head + MembersBytes(ms[..k])) && AtEnd(w)
    {
      if |ms[k].name| > MAX_SHORT {
        return false;
      }
      MemberPlaced(head, ms, k);
      WriteMember(w, ms[k], head + MembersBytes(ms[..k]));
    }
    assert ms[..|ms|] == ms;
    ok := true;
  }

  /** Member `k` goes right after the first `k`. */
  lemma MemberPlaced(head: seq<byte>, ms: seq<Member>, k: nat)
    requires k < |ms| && forall l :: 0 <= l <= k ==> |ms[l].name| <= MAX_SHORT
    ensures head + MembersBytes(ms[..k]) + MemberBytes(ms[k]) == head + MembersBytes(ms[..k + 1])
  {
    assert ms[..k + 1][..k] == ms[..k];
  }

  /**
   * The cache section: `u32::try_from(top10.len())?`, then every entry in map order.
   * `ok` is false where a count or a length overflows its field.
   */
  method WriteCache(w: Writer, slots: seq<Slot>, ghost before: seq<byte>) returns (ok: bool)
    requires At(w, before)
    modifies w
    ensures ok <==> CacheFits(slots)
    ensures ok ==> w.bytes == before + CacheSection(slots)
  {
    if |slots| >= U32_LIMIT {
      return false;
    }
    Append(w, U32Le(|slots|), before);
    ghost var pre := before + U32Le(|slots|);
    for j := 0 to |slots|
      invariant forall k :: 0 <= k < j ==> SlotFits(slots[k])
      invariant At(w, pre + SlotsBytes(slots[..j])) && AtEnd(w)
    {
      var fits := WriteSlot(w, slots[j], pre + SlotsBytes(slots[..j]));
      if !fits {
        return false;
      }
      SlotPlaced(pre, slots, j);
    }
    assert slots[..|slots|] == slots;
    Assoc(before, U32Le(|slots|), SlotsBytes(slots));
    ok := true;
  }

  /** Entry `j` goes right after the first `j`. */
  lemma SlotPlaced(pre: seq<byte>, slots: seq<Slot>, j: nat)
    requires j < |slots| && forall k :: 0 <= k <= j ==> SlotFits(slots[k])
    ensures pre + SlotsBytes(slots[..j]) + SlotBytes(slots[j]) == pre + SlotsBytes(slots[..j + 1])
  {
    assert slots[..j + 1][..j] == slots[..j];
  }

  /** The file while the pointers go in: the first `k` written, zeros for the rest. */
  ghost function Patched(h: seq<byte>, pointers: seq<nat>, k: nat, rest: seq<byte>): seq<byte>
    requires k <= |pointers| && forall l :: 0 <= l < |pointers| ==> pointers[l] < U32_LIMIT
  {
    h + PointerBytes(pointers[..k]) + Zeros(4 * (|pointers| - k) + 4) + rest
  }

  /** Writing pointer `k` at its slot turns one run of four zeros into its bytes. */
  lemma PointerPlaced(h: seq<byte>, pointers: seq<nat>, k: nat, rest: seq<byte>, pos: nat)
    requires k < |pointers| && forall l :: 0 <= l < |pointers| ==> pointers[l] < U32_LIMIT
    requires pos == |h| + 4 * k
    ensures Overwrite(Patched(h, pointers, k, rest), pos, U32Le(pointers[k])) == Patched(h, pointers, k + 1, rest)
  {
    WriteOverZeros(h + PointerBytes(pointers[..k]), 4 * (|pointers| - k) + 4, rest, U32Le(pointers[k]));
    assert pointers[..k + 1][..k] == pointers[..k];
  }

  /** One `write_all` per pointer over the zeros the first seek skipped. */
  method WritePointers(w: Writer, pointers: seq<nat>, ghost h: seq<byte>, ghost rest: seq<byte>)
    requires forall k :: 0 <= k < |pointers| ==> pointers[k] < U32_LIMIT
    requires w.bytes == h + Zeros(4 * |pointers| + 4) + rest && w.pos == |h|
    modifies w
    ensures w.bytes == h + PointerBytes(pointers) + Zeros(4) + rest
  {
    assert w.bytes == Patched(h, pointers, 0, rest);
    for k := 0 to |pointers|
      invariant w.pos == |h| + 4 * k
      invariant w.bytes == Patched(h, pointers, k, rest)
    {
      PointerPlaced(h, pointers, k, rest, w.pos);
      w.Write(U32Le(pointers[k]));
    }
    assert pointers[..|pointers|] == pointers;
  }

  /**
   * The whole writer. It publishes exactly the file `IndexFile` describes for the
   * sorted `rows`, and nothing where `IndexFile` says the builder fails.
   */
  method WriteIndex(ops: TextOps, total: int, rows: seq<Row>) returns (file: Option<seq<byte>>)
    requires ops.Valid() && -0x8000_0000 <= total < 0x8000_0000
    ensures file == IndexFile(ops, total, rows)
  {
    var w := new Writer();
    var n := AsU32(|rows|);
    Append(w, U32Le(VERSION), []);
    Append(w, I32Le(total), U32Le(VERSION));
    Append(w, U32Le(n), U32Le(VERSION) + I32Le(total));
    ghost var h12 := U32Le(VERSION) + I32Le(total) + U32Le(n);
    var base := RecordsStart(n);
    w.Seek(base);
    var ok, pointers, pass := WriteRecords(w, ops, rows, base, h12 + Zeros(base - 12));
    if !ok {
      RecordsOverflow(ops, total, rows);
      return None;
    }
    file := CompleteIndex(w, ops, total, rows, n, base, pointers, pass, h12);
  }

  /** The records are down and fit: evict once more, then write the cache and the table. */
  method CompleteIndex(w: Writer, ops: TextOps, total: int, rows: seq<Row>, n: nat, base: nat,
                       pointers: seq<nat>, pass: Pass, ghost h12: seq<byte>)
      returns (file: Option<seq<byte>>)
    requires ops.Valid() && -0x8000_0000 <= total < 0x8000_0000
    requires n == AsU32(|rows|) && base == RecordsStart(n) && RecordsFit(rows, base)
    requires pointers == Offsets(rows, base) && pass == CachePass(ops, rows)
    requires h12 == U32Le(VERSION) + I32Le(total) + U32Le(n)
    requires At(w, h12 + Zeros(base - 12) + Records(rows))
    modifies w
    ensures file == IndexFile(ops, total, rows)
  {
    RecordsWritten(rows, n, base, pointers);
    // Clear the cache one last time.
    var slots := EvictUnpopular(pass.slots);
    var cachePointer := w.pos;
    file := FinishIndex(w, slots, pointers, cachePointer, h12, Zeros(base - 12), Records(rows));
    FinishedFile(ops, total, rows, n, base, pointers, slots, h12, cachePointer, file);
  }

  /**
   * What the second pass leaves once the records are down: the header's first 12 bytes,
   * the cache offset, the pointer table, a zero word, the records and the cache section;
   * nothing when a length field or the offset overflows.
   */
  function Finished(h12: seq<byte>, cachePointer: nat, pointers: seq<nat>, records: seq<byte>, slots: seq<Slot>)
      : (file: Option<seq<byte>>)
    requires forall k :: 0 <= k < |pointers| ==> pointers[k] < U32_LIMIT
  {
    if CacheFits(slots) && cachePointer < U32_LIMIT
    then Some(h12 + U32Le(cachePointer) + PointerBytes(pointers) + Zeros(4) + (records + CacheSection(slots)))
    else None
  }

  /**
   * Everything after the record loop: the cache section at the cursor, whose position is
   * the cache offset, `seek(12)`, the offset and the pointers. `None` where
   * `u32::try_from` fails on a length field or on the cache offset.
   */
  method FinishIndex(w: Writer, slots: seq<Slot>, pointers: seq<nat>, cachePointer: nat,
                     ghost h12: seq<byte>, ghost zeros: seq<byte>, ghost records: seq<byte>)
      returns (file: Option<seq<byte>>)
    requires |h12| == 12 && zeros == Zeros(4 * |pointers| + 8)
    requires At(w, h12 + zeros + records) && w.pos == cachePointer
    requires forall k :: 0 <= k < |pointers| ==> pointers[k] < U32_LIMIT
    modifies w
    ensures file == Finished(h12, cachePointer, pointers, records, slots)
  {
    var ok := WriteCache(w, slots, h12 + zeros + records);
    if !ok {
      return None;
    }
    w.Seek(12);
    if cachePointer >= U32_LIMIT {
      return None;
    }
    Assoc(h12 + zeros, records, CacheSection(slots));
    PatchPointers(w, cachePointer, pointers, h12, records + CacheSection(slots));
    file := Some(w.bytes);
  }

  /**
   * `seek(12)` has happened: the cache offset, then one `write_all` per pointer, fill
   * the header's last word and the table that the first seek skipped.
   */
  method PatchPointers(w: Writer, cachePointer: nat, pointers: seq<nat>, ghost h12: seq<byte>, ghost rest: seq<byte>)
    requires cachePointer < U32_LIMIT && |h12| == 12 && w.pos == 12
    requires forall k :: 0 <= k < |pointers| ==> pointers[k] < U32_LIMIT
    requires w.bytes == h12 + Zeros(4 * |pointers| + 8) + rest
    modifies w
    ensures w.bytes == h12 + U32Le(cachePointer) + PointerBytes(pointers) + Zeros(4) + rest
  {
    WriteOverZeros(h12, 4 * |pointers| + 8, rest, U32Le(cachePointer));
    w.Write(U32Le(cachePointer));
    WritePointers(w, pointers, h12 + U32Le(cachePointer), rest);
  }

  /**
   * The pieces the writer puts down, in file order, make up `FileBytes`: the first 12
   * header bytes, the cache offset, the pointer table, a zero word, the records and
   * the cache section.
   */
  lemma Assembled(total: int, rows: seq<Row>, slots: seq<Slot>, n: nat, base: nat, cachePointer: nat,
                  h12: seq<byte>, pointers: seq<nat>)
    requires -0x8000_0000 <= total < 0x8000_0000 && Publishable(rows, slots)
    requires n == |rows| && base == RecordsStart(n) && cachePointer == base + |Records(rows)|
    requires h12 == U32Le(VERSION) + I32Le(total) + U32Le(n) && pointers == Offsets(rows, base)
    ensures forall k :: 0 <= k < |pointers| ==> pointers[k] < U32_LIMIT
    ensures FileBytes(total, rows, slots) ==
      h12 + U32Le(cachePointer) + PointerBytes(pointers) + Zeros(4) + (Records(rows) + CacheSection(slots))
  {
    PreludeIs(total, rows, cachePointer, h12, pointers);
    Assoc(Prelude(total, rows), Records(rows), CacheSection(slots));
  }

  /** `Prelude` is the header's first 12 bytes, the cache offset, the pointers and a zero word. */
  lemma PreludeIs(total: int, rows: seq<Row>, cachePointer: nat, h12: seq<byte>, pointers: seq<nat>)
    requires -0x8000_0000 <= total < 0x8000_0000 && RecordsPublishable(rows)
    requires cachePointer == CacheStart(rows)
    requires h12 == U32Le(VERSION) + I32Le(total) + U32Le(|rows|) && pointers == Offsets(rows, RecordsStart(|rows|))
    ensures forall k :: 0 <= k < |pointers| ==> pointers[k] < U32_LIMIT
    ensures Prelude(total, rows) == h12 + U32Le(cachePointer) + PointerBytes(pointers) + Zeros(4)
  {
    RecordsFitEach(rows, RecordsStart(|rows|));
  }

  /** `FinishedFile` when the cache section and its offset fit. */
  lemma FinishedSome(ops: TextOps, total: int, rows: seq<Row>, n: nat, base: nat, cachePointer: nat,
                     pointers: seq<nat>, h12: seq<byte>, file: Option<seq<byte>>)
    requires ops.Valid() && -0x8000_0000 <= total < 0x8000_0000
    requires RecordsPublishable(rows) && CacheFits(FinalSlots(ops, rows))
    requires n == |rows| && base == RecordsStart(n) && cachePointer == base + |Records(rows)|
    requires h12 == U32Le(VERSION) + I32Le(total) + U32Le(n) && pointers == Offsets(rows, base)
    requires forall k :: 0 <= k < |pointers| ==> pointers[k] < U32_LIMIT
    requires file == Finished(h12, cachePointer, pointers, Records(rows), FinalSlots(ops, rows))
    ensures file == IndexFile(ops, total, rows)
  {
    IndexFileSome(ops, total, rows);
    Assembled(total, rows, FinalSlots(ops, rows), n, base, cachePointer, h12, pointers);
    var x := h12 + U32Le(cachePointer) + PointerBytes(pointers) + Zeros(4) + (Records(rows) + CacheSection(FinalSlots(ops, rows)));
    Rewrite(file, x, FileBytes(total, rows, FinalSlots(ops, rows)), IndexFile(ops, total, rows));
  }

  /** With every field in range, `IndexFile` is the layout `FileBytes` describes. */
  lemma IndexFileSome(ops: TextOps, total: int, rows: seq<Row>)
    requires ops.Valid() && -0x8000_0000 <= total < 0x8000_0000
    requires RecordsPublishable(rows) && CacheFits(FinalSlots(ops, rows))
    ensures IndexFile(ops, total, rows) == Some(FileBytes(total, rows, FinalSlots(ops, rows)))
  {
  }

  /**
   * Equal payloads make equal options; stated over any `T` so that the sequences are
   * compared as whole values.
   */
  lemma Rewrite<T>(o: Option<T>, x: T, y: T, q: Option<T>)
    requires o == Some(x) && y == x && q == Some(y)
    ensures o == q
  {
  }

  lemma Assoc(a: seq<byte>, b: seq<byte>, c: seq<byte>)
    ensures a + b + c == a + (b + c)
  {
  }

  /** After the record loop: the entry count is exact and every pointer fits a `u32`. */
  lemma RecordsWritten(rows: seq<Row>, n: nat, base: nat, pointers: seq<nat>)
    requires n == AsU32(|rows|) && base == RecordsStart(n) && RecordsFit(rows, base)
    requires pointers == Offsets(rows, base)
    ensures n == |rows| == |pointers| && base - 12 == 4 * |pointers| + 8
    ensures forall k :: 0 <= k < |pointers| ==> pointers[k] < U32_LIMIT
  {
    FitMeansFewRecords(rows, base);
    RecordsFitEach(rows, base);
  }

  /** When the records do not fit, the builder publishes nothing. */
  lemma RecordsOverflow(ops: TextOps, total: int, rows: seq<Row>)
    requires ops.Valid() && -0x8000_0000 <= total < 0x8000_0000
    requires !RecordsFit(rows, RecordsStart(AsU32(|rows|)))
    ensures IndexFile(ops, total, rows) == None
  {
  }

  /**
   * What the writer leaves behind once the records fit is the file the layout
   * describes, or nothing when the cache section or its offset overflows.
   */
  lemma FinishedFile(ops: TextOps, total: int, rows: seq<Row>, n: nat, base: nat, pointers: seq<nat>,
                     slots: seq<Slot>, h12: seq<byte>, cachePointer: nat, file: Option<seq<byte>>)
    requires ops.Valid() && -0x8000_0000 <= total < 0x8000_0000
    requires n == AsU32(|rows|) && base == RecordsStart(n) && RecordsFit(rows, base)
    requires pointers == Offsets(rows, base) && slots == FinalSlots(ops, rows)
    requires forall k :: 0 <= k < |pointers| ==> pointers[k] < U32_LIMIT
    requires h12 == U32Le(VERSION) + I32Le(total) + U32Le(n)
    requires cachePointer == base + |Records(rows)|
    requires file == Finished(h12, cachePointer, pointers, Records(rows), slots)
    ensures file == IndexFile(ops, total, rows)
  {
    FitMeansFewRecords(rows, base);
    if CacheFits(slots) && cachePointer < U32_LIMIT {
      FinishedSome(ops, total, rows, n, base, cachePointer, pointers, h12, file);
    } else {
      assert IndexFile(ops, total, rows) == None;
    }
  }

  /**
   * The builder after decoding: merge the six lists into players, list them with their
   * lowercased names, sort by that key, and write the index. The merged players and the
   * rows it writes are returned beside the file.
   */
  method Build(ops: TextOps, r: Rankings, total: int) returns (players: map<Str, PlayerInfo>, rows: seq<Row>, file: Option<seq<byte>>)
    requires ops.Valid() && -0x8000_0000 <= total < 0x8000_0000
    ensures players.Keys == r.AllNames()
    ensures forall c :: RanksSet(players, r.List(c), c, |r.List(c)|)
    ensures forall name, c :: name in players && name !in NamesOf(r.List(c)) ==> players[name].Get(c) == NoRank
    ensures |rows| == |players|
    ensures forall i :: 0 <= i < |rows| ==>
      rows[i].name in players && rows[i].info == players[rows[i].name] && rows[i].key == ops.lower(rows[i].name)
    ensures forall name :: name in players ==> exists i :: 0 <= i < |rows| && rows[i].name == name
    ensures forall i, j :: 0 <= i < j < |rows| ==> rows[i].name != rows[j].name
    ensures SortedByKey(rows)
    ensures file == IndexFile(ops, total, rows)
  {
    players := CollectPlayers(r);
    var unsorted := Rows(ops, players);
    rows := SortRows(unsorted);
    SortKeepsPlayers(ops, players, unsorted, rows);
    file := WriteIndex(ops, total, rows);
  }
}
