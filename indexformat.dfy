/**
 * The layout of `points_ranks_by_name.bin` as the index builder (rust/src/main.rs)
 * lays it out, and a reader for it:
 *
 *   0   u32 version (1)          4   i32 total points        8   u32 record count N
 *   12  u32 offset of the cache section
 *   16  N u32 record offsets     16 + 4N   four unused zero bytes
 *   20 + 4N   the records, in sorted order: u8 name length, name, 12 varints
 *   then the cache section: u32 entry count, and per entry u8 prefix length, prefix,
 *   u8 member count, and per member u8 name length, name, varint points.
 *
 * All fixed-width words are little-endian; varints are LEB128.
 */
module IndexFormat {
  import opened Common
  import opened Varint
  import opened Unicode
  import opened Players
  import opened SortStage
  import opened PrefixCache

  const VERSION: nat := 1

  /** Where the header ends and the pointer table begins. */
  const POINTERS_AT: nat := 16

  /** The first record's offset for `n` records: header, table and four spare bytes. */
  function RecordsStart(n: nat): nat {
    20 + 4 * n
  }

  // ---------------------------------------------------------------------------
  // Records.

  /** How many varints follow a record's name. */
  const FIELD_COUNT: nat := 12

  /** The twelve `u32` fields of a record in the order they are written. */
  function RecordFields(info: PlayerInfo): (fs: seq<nat>)
    ensures |fs| == FIELD_COUNT
  {
    [ info.points.points, info.points.rank, info.rank.points, info.rank.rank,
      info.team.points, info.team.rank, info.weekly.points, info.weekly.rank,
      info.monthly.points, info.monthly.rank, info.yearly.points, info.yearly.rank ]
  }

  /** Consecutive varints. */
  function Varints(vs: seq<nat>): (b: seq<byte>)
    ensures |b| >= |vs|
  {
    if vs == [] then [] else Leb128(vs[0]) + Varints(vs[1..])
  }

  /** One more value, one more varint at the end. */
  lemma {:induction false} VarintsSnoc(vs: seq<nat>, v: nat)
    ensures Varints(vs + [v]) == Varints(vs) + Leb128(v)
    decreases |vs|
  {
    if vs == [] {
      assert [] + [v] == [v] && [v][1..] == [];
    } else {
      assert (vs + [v])[0] == vs[0] && (vs + [v])[1..] == vs[1..] + [v];
      VarintsSnoc(vs[1..], v);
    }
  }

  /** One record: name length byte, name bytes, then the twelve fields as varints. */
  function RecordBytes(r: Row): (b: seq<byte>)
    requires |r.name| <= MAX_SHORT
    ensures |b| >= 13 + |r.name|
  {
    [|r.name| as byte] + r.name + Varints(RecordFields(r.info))
  }

  /** Every name fits its length byte (`u8::try_from(name_bytes.len())` succeeds). */
  predicate NamesFit(rows: seq<Row>) {
    forall i :: 0 <= i < |rows| ==> NameFits(rows[i])
  }

  predicate NameFits(r: Row) {
    |r.name| <= MAX_SHORT
  }

  /** Each row's record bytes. */
  function Encoded(rows: seq<Row>): (e: seq<seq<byte>>)
    requires NamesFit(rows)
    ensures |e| == |rows|
  {
    seq(|rows|, i requires 0 <= i < |rows| => RecordBytes(rows[i]))
  }

  /** The records of `rows`, one after the other. */
  function Records(rows: seq<Row>): seq<byte>
    requires NamesFit(rows)
  {
    Flatten(Encoded(rows))
  }

  /** Where record `i` begins when the first one begins at `base`. */
  function Offset(rows: seq<Row>, base: nat, i: nat): nat
    requires NamesFit(rows) && i <= |rows|
  {
    assert NamesFit(rows[..i]) by {
      assert forall j :: 0 <= j < i ==> rows[..i][j] == rows[j];
    }
    base + |Records(rows[..i])|
  }

  /**
   * Every record starts below 2^32, so that its offset fits the pointer table. Offsets
   * increase, so it is enough that the last one does (`RecordsFitEach`).
   */
  predicate RecordsFit(rows: seq<Row>, base: nat) {
    NamesFit(rows) && (rows != [] ==> Offset(rows, base, |rows| - 1) < U32_LIMIT)
  }

  /** `RecordsFit` means each record's offset fits, and conversely. */
  lemma RecordsFitEach(rows: seq<Row>, base: nat)
    requires NamesFit(rows)
    ensures RecordsFit(rows, base) <==> forall i :: 0 <= i < |rows| ==> Offset(rows, base, i) < U32_LIMIT
  {
    if RecordsFit(rows, base) {
      forall i | 0 <= i < |rows| - 1
        ensures Offset(rows, base, i) < U32_LIMIT
      {
        OffsetsIncrease(rows, base, i, |rows| - 1);
      }
    }
  }

  /** Each record follows the previous one: records are laid out back to back. */
  lemma OffsetNext(rows: seq<Row>, base: nat, i: nat)
    requires NamesFit(rows) && i < |rows|
    ensures Offset(rows, base, i + 1) == Offset(rows, base, i) + |RecordBytes(rows[i])|
  {
    RecordsTakeNext(rows, i);
  }

  /** The pointer table is strictly increasing, each step at least a record's 13 bytes. */
  lemma OffsetsIncrease(rows: seq<Row>, base: nat, i: nat, j: nat)
    requires NamesFit(rows) && i < j <= |rows|
    ensures Offset(rows, base, i) + 13 * (j - i) <= Offset(rows, base, j)
    decreases j - i
  {
    OffsetNext(rows, base, j - 1);
    if i < j - 1 {
      OffsetsIncrease(rows, base, i, j - 1);
    }
  }

  /**
   * Records that fit are fewer than 2^32, so the record count `data.len() as u32` is
   * not truncated and the table has one slot per record.
   */
  lemma FitMeansFewRecords(rows: seq<Row>, base: nat)
    requires RecordsFit(rows, base)
    ensures |rows| < U32_LIMIT
  {
    if 1 < |rows| {
      OffsetsIncrease(rows, base, 0, |rows| - 1);
    }
  }

  /** The records of a concatenation are the concatenation of the records. */
  lemma RecordsAppend(a: seq<Row>, b: seq<Row>)
    requires NamesFit(a) && NamesFit(b)
    ensures NamesFit(a + b)
    ensures Records(a + b) == Records(a) + Records(b)
  {
    assert NamesFit(a + b) by {
      assert forall i :: 0 <= i < |a + b| ==> (a + b)[i] == if i < |a| then a[i] else b[i - |a|];
    }
    assert Encoded(a + b) == Encoded(a) + Encoded(b);
    FlattenAppend(Encoded(a), Encoded(b));
  }

  // ---------------------------------------------------------------------------
  // The pointer table.

  /** `to_le_bytes` of each pointer, in order. */
  function PointerBytes(ps: seq<nat>): (b: seq<byte>)
    requires forall i :: 0 <= i < |ps| ==> ps[i] < U32_LIMIT
    ensures |b| == 4 * |ps|
    decreases |ps|
  {
    if ps == [] then [] else PointerBytes(ps[..|ps| - 1]) + U32Le(ps[|ps| - 1])
  }

  /** The offsets of all records: the pointer table's contents. */
  function Offsets(rows: seq<Row>, base: nat): (os: seq<nat>)
    requires NamesFit(rows)
    ensures |os| == |rows|
    ensures forall i :: 0 <= i < |rows| ==> os[i] == Offset(rows, base, i)
  {
    seq(|rows|, i requires 0 <= i < |rows| => Offset(rows, base, i))
  }

  /** Pointer `i` occupies bytes `4i .. 4i + 4` of the table. */
  lemma {:induction false} PointerAt(ps: seq<nat>, i: nat)
    requires forall k :: 0 <= k < |ps| ==> ps[k] < U32_LIMIT
    requires i < |ps|
    ensures PointerBytes(ps)[4 * i..4 * i + 4] == U32Le(ps[i])
    decreases |ps|
  {
    var init := ps[..|ps| - 1];
    if i < |ps| - 1 {
      PointerAt(init, i);
      assert init[i] == ps[i];
      assert PointerBytes(ps)[..4 * |init|] == PointerBytes(init);
    }
  }

  // ---------------------------------------------------------------------------
  // The cache section.

  function MemberBytes(mb: Member): (b: seq<byte>)
    requires |mb.name| <= MAX_SHORT
    ensures |b| >= 2 + |mb.name|
  {
    [|mb.name| as byte] + mb.name + Leb128(mb.points)
  }

  function MembersBytes(ms: seq<Member>): seq<byte>
    requires forall k :: 0 <= k < |ms| ==> |ms[k].name| <= MAX_SHORT
    decreases |ms|
  {
    if ms == [] then [] else MembersBytes(ms[..|ms| - 1]) + MemberBytes(ms[|ms| - 1])
  }

  /** The one-byte length fields of an entry succeed. */
  predicate SlotFits(s: Slot) {
    && |s.prefix| <= MAX_SHORT
    && |s.cache.top10| <= MAX_SHORT
    && forall k :: 0 <= k < |s.cache.top10| ==> |s.cache.top10[k].name| <= MAX_SHORT
  }

  function SlotBytes(s: Slot): seq<byte>
    requires SlotFits(s)
  {
    [|s.prefix| as byte] + s.prefix + [|s.cache.top10| as byte] + MembersBytes(s.cache.top10)
  }

  function SlotsBytes(slots: seq<Slot>): seq<byte>
    requires forall i :: 0 <= i < |slots| ==> SlotFits(slots[i])
    decreases |slots|
  {
    if slots == [] then [] else SlotsBytes(slots[..|slots| - 1]) + SlotBytes(slots[|slots| - 1])
  }

  /** Every length field of the cache section fits its width. */
  predicate CacheFits(slots: seq<Slot>) {
    |slots| < U32_LIMIT && forall i :: 0 <= i < |slots| ==> SlotFits(slots[i])
  }

  /** Entry count, then the entries in map order. */
  function CacheSection(slots: seq<Slot>): seq<byte>
    requires CacheFits(slots)
  {
    U32Le(|slots|) + SlotsBytes(slots)
  }

  /**
   * Of the length fields of the cache section only the entry count and the prefix
   * lengths can overflow: member lists hold at most ten names of records already
   * written.
   */
  lemma CacheFitsWhenPrefixesFit(slots: seq<Slot>)
    requires WellFormed(slots) && |slots| < U32_LIMIT
    requires forall i :: 0 <= i < |slots| ==> |slots[i].prefix| <= MAX_SHORT
    ensures CacheFits(slots)
  {
  }

  // ---------------------------------------------------------------------------
  // The whole file.

  /** Bytes 0 to 16: version, total points, record count and cache offset. */
  function Header(total: int, n: nat, cachePointer: nat): (b: seq<byte>)
    requires -0x8000_0000 <= total < 0x8000_0000 && n < U32_LIMIT && cachePointer < U32_LIMIT
    ensures |b| == POINTERS_AT
  {
    U32Le(VERSION) + I32Le(total) + U32Le(n) + U32Le(cachePointer)
  }

  /**
   * Every offset and count of the file for `rows` and the cache `slots` fits its field:
   * each record and the cache section start below 2^32, and the cache's length fields
   * fit.
   */
  predicate Publishable(rows: seq<Row>, slots: seq<Slot>) {
    RecordsPublishable(rows) && CacheFits(slots)
  }

  /** Every record, and the cache section after them, start below 2^32. */
  predicate RecordsPublishable(rows: seq<Row>) {
    && |rows| < U32_LIMIT
    && RecordsFit(rows, RecordsStart(|rows|))
    && CacheStart(rows) < U32_LIMIT
  }

  /** Where the cache section begins: right after the last record. */
  function CacheStart(rows: seq<Row>): nat
    requires NamesFit(rows)
  {
    RecordsStart(|rows|) + |Records(rows)|
  }

  /** Everything before the records: header, pointer table and the four spare bytes. */
  function Prelude(total: int, rows: seq<Row>): (p: seq<byte>)
    requires -0x8000_0000 <= total < 0x8000_0000 && RecordsPublishable(rows)
    ensures |p| == RecordsStart(|rows|)
  {
    var base := RecordsStart(|rows|);
    RecordsFitEach(rows, base);
    Header(total, |rows|, CacheStart(rows)) + PointerBytes(Offsets(rows, base)) + Zeros(4)
  }

  /** The bytes of the file: header, pointer table, four spare bytes, records, cache. */
  function FileBytes(total: int, rows: seq<Row>, slots: seq<Slot>): (f: seq<byte>)
    requires -0x8000_0000 <= total < 0x8000_0000 && Publishable(rows, slots)
  {
    Prelude(total, rows) + Records(rows) + CacheSection(slots)
  }

  /**
   * The published file for the sorted `rows`, or `None` when the builder fails before
   * publishing one: a record starting at or beyond 2^32, a name longer than 255 bytes,
   * a cache section whose counts or prefix lengths overflow, or a cache offset at or
   * beyond 2^32.
   */
  function IndexFile(ops: TextOps, total: int, rows: seq<Row>): (f: Option<seq<byte>>)
    requires ops.Valid() && -0x8000_0000 <= total < 0x8000_0000
  {
    var n := AsU32(|rows|);
    var base := RecordsStart(n);
    if !RecordsFit(rows, base) then None
    else
      FitMeansFewRecords(rows, base);
      var slots := FinalSlots(ops, rows);
      var cachePointer := base + |Records(rows)|;
      if !CacheFits(slots) || cachePointer >= U32_LIMIT then None
      else Some(FileBytes(total, rows, slots))
  }

  /**
   * The builder publishes a file exactly when every field fits, and what it publishes
   * is the layout above with the cache left by the pass.
   */
  lemma IndexFileLayout(ops: TextOps, total: int, rows: seq<Row>)
    requires ops.Valid() && -0x8000_0000 <= total < 0x8000_0000
    ensures IndexFile(ops, total, rows).Some? <==> Publishable(rows, FinalSlots(ops, rows))
    ensures IndexFile(ops, total, rows).Some? ==>
      IndexFile(ops, total, rows).value == FileBytes(total, rows, FinalSlots(ops, rows))
  {
    if RecordsFit(rows, RecordsStart(AsU32(|rows|))) {
      FitMeansFewRecords(rows, RecordsStart(AsU32(|rows|)));
    } else if |rows| < U32_LIMIT {
      assert !RecordsFit(rows, RecordsStart(|rows|));
    }
  }

  // ---------------------------------------------------------------------------
  // A reader.

  /** The values of `k` consecutive varints at the start of `s`. */
  function DecodeVarints(s: seq<byte>, k: nat): Option<seq<nat>>
    decreases k
  {
    if k == 0 then Some([])
    else match DecodeLeb128(s)
      case None => None
      case Some((v, n)) =>
        match DecodeVarints(s[n..], k - 1)
        case None => None
        case Some(vs) => Some([v] + vs)
  }

  /** Varints read back as the values written, whatever follows them. */
  lemma {:induction false} VarintsRoundTrip(vs: seq<nat>, rest: seq<byte>)
    ensures DecodeVarints(Varints(vs) + rest, |vs|) == Some(vs)
    decreases |vs|
  {
    if vs != [] {
      var h, t := Leb128(vs[0]), Varints(vs[1..]) + rest;
      var s := Varints(vs) + rest;
      assert s == h + t;
      Leb128RoundTrip(vs[0], t);
      DropPrefix(s, h, t);
      VarintsRoundTrip(vs[1..], rest);
      assert [vs[0]] + vs[1..] == vs;
    }
  }

  lemma DropPrefix(s: seq<byte>, h: seq<byte>, t: seq<byte>)
    requires s == h + t
    ensures s[|h|..] == t
  {
  }

  /** The name and the twelve fields of the record at the start of `t`. */
  function DecodeRecordFrom(t: seq<byte>): Option<(Str, seq<nat>)> {
    if t == [] then None
    else
      var len := t[0] as nat;
      if 1 + len > |t| then None
      else match DecodeVarints(t[1 + len..], FIELD_COUNT)
        case None => None
        case Some(vs) => Some((t[1..1 + len], vs))
  }

  /** The record a pointer `off` designates in the file `s`. */
  function DecodeRecord(s: seq<byte>, off: nat): Option<(Str, seq<nat>)> {
    if off <= |s| then DecodeRecordFrom(s[off..]) else None
  }

  /** A record reads back as its name and fields, whatever follows it. */
  lemma RecordRoundTrip(r: Row, rest: seq<byte>)
    requires |r.name| <= MAX_SHORT
    ensures DecodeRecordFrom(RecordBytes(r) + rest) == Some((r.name, RecordFields(r.info)))
  {
    var fields := Varints(RecordFields(r.info));
    var t := [|r.name| as byte] + r.name + (fields + rest);
    assert RecordBytes(r) + rest == t;
    var len := |r.name|;
    assert t[0] as nat == len;
    assert t[1..1 + len] == r.name;
    assert t[1 + len..] == fields + rest;
    VarintsRoundTrip(RecordFields(r.info), rest);
  }

  /** A slice of rows whose names fit has names that fit. */
  lemma NamesFitSlice(rows: seq<Row>, lo: nat, hi: nat)
    requires NamesFit(rows) && lo <= hi <= |rows|
    ensures NamesFit(rows[lo..hi])
  {
    forall j | 0 <= j < hi - lo
      ensures |rows[lo..hi][j].name| <= MAX_SHORT
    {
      assert rows[lo..hi][j] == rows[lo + j];
    }
  }

  /** `Records(rows)` split after `k` rows. */
  lemma RecordsTake(rows: seq<Row>, k: nat)
    requires NamesFit(rows) && k <= |rows|
    ensures NamesFit(rows[..k]) && NamesFit(rows[k..])
    ensures Records(rows) == Records(rows[..k]) + Records(rows[k..])
  {
    NamesFitSlice(rows, 0, k);
    NamesFitSlice(rows, k, |rows|);
    assert rows[0..k] == rows[..k] && rows[k..|rows|] == rows[k..];
    RecordsAppend(rows[..k], rows[k..]);
    assert rows[..k] + rows[k..] == rows;
  }

  /** The records of the first `i + 1` rows end with record `i`. */
  lemma RecordsTakeNext(rows: seq<Row>, i: nat)
    requires NamesFit(rows) && i < |rows|
    ensures NamesFit(rows[..i]) && NamesFit(rows[..i + 1])
    ensures Records(rows[..i + 1]) == Records(rows[..i]) + RecordBytes(rows[i])
  {
    NamesFitSlice(rows, 0, i);
    NamesFitSlice(rows, 0, i + 1);
    assert rows[0..i] == rows[..i] && rows[0..i + 1] == rows[..i + 1];
    var e := Encoded(rows[..i + 1]);
    assert e[..i] == Encoded(rows[..i]);
    assert e[i] == RecordBytes(rows[i]);
  }

  /** The header words read back. */
  lemma HeaderReads(total: int, n: nat, cp: nat)
    requires -0x8000_0000 <= total < 0x8000_0000 && n < U32_LIMIT && cp < U32_LIMIT
    ensures var h := Header(total, n, cp);
      && ReadU32Le(h, 0) == VERSION
      && SignedOf(ReadU32Le(h, 4)) == total
      && ReadU32Le(h, 8) == n
      && ReadU32Le(h, 12) == cp
  {
    var h := Header(total, n, cp);
    assert h[0..4] == U32Le(VERSION);
    U32LeRoundTrip(VERSION, h, 0);
    assert h[4..8] == I32Le(total);
    I32LeRoundTrip(total, h, 4);
    assert h[8..12] == U32Le(n);
    U32LeRoundTrip(n, h, 8);
    assert h[12..16] == U32Le(cp);
    U32LeRoundTrip(cp, h, 12);
  }

  /** A word inside the first part `a` of `f` reads the same in `f` as in `a`. */
  lemma ReadPrefix(f: seq<byte>, a: seq<byte>, b: seq<byte>, c: seq<byte>, at: nat)
    requires f == a + b + c && at + 4 <= |a|
    ensures ReadU32Le(f, at) == ReadU32Le(a, at)
  {
    assert f[at] == a[at] && f[at + 1] == a[at + 1] && f[at + 2] == a[at + 2] && f[at + 3] == a[at + 3];
  }

  /** The file regrouped around record `i`, which sits between records `..i` and `i + 1..`. */
  lemma PartsAround(pre: seq<byte>, before: seq<byte>, r: seq<byte>, after: seq<byte>, c: seq<byte>, recs: seq<byte>)
    requires recs == before + r + after
    ensures (pre + recs + c)[|pre + before|..] == r + (after + c)
  {
    assert pre + recs + c == (pre + before) + (r + (after + c));
  }

  /**
   * What a reader finds in the file: the header words, and the four spare bytes after
   * the table left at zero.
   */
  lemma FileReads(total: int, rows: seq<Row>, slots: seq<Slot>)
    requires -0x8000_0000 <= total < 0x8000_0000 && Publishable(rows, slots)
    ensures var f := FileBytes(total, rows, slots);
      && ReadU32Le(f, 0) == VERSION
      && SignedOf(ReadU32Le(f, 4)) == total
      && ReadU32Le(f, 8) == |rows|
      && ReadU32Le(f, 12) == RecordsStart(|rows|) + |Records(rows)|
      && forall k :: RecordsStart(|rows|) - 4 <= k < RecordsStart(|rows|) ==> f[k] == 0
  {
    var f := FileBytes(total, rows, slots);
    var base := RecordsStart(|rows|);
    var cp := CacheStart(rows);
    var h := Header(total, |rows|, cp);
    RecordsFitEach(rows, base);
    var pb := PointerBytes(Offsets(rows, base));
    var pre := Prelude(total, rows);
    HeaderReads(total, |rows|, cp);
    ReadPrefix(f, pre, Records(rows), CacheSection(slots), 0);
    ReadPrefix(pre, h, pb, Zeros(4), 0);
    ReadPrefix(f, pre, Records(rows), CacheSection(slots), 4);
    ReadPrefix(pre, h, pb, Zeros(4), 4);
    ReadPrefix(f, pre, Records(rows), CacheSection(slots), 8);
    ReadPrefix(pre, h, pb, Zeros(4), 8);
    ReadPrefix(f, pre, Records(rows), CacheSection(slots), 12);
    ReadPrefix(pre, h, pb, Zeros(4), 12);
    forall k | base - 4 <= k < base
      ensures f[k] == 0
    {
      assert f[k] == pre[k] == Zeros(4)[k - (base - 4)];
    }
  }

  /** At the offset of record `i` the file decodes to that row's name and fields. */
  lemma RecordReads(total: int, rows: seq<Row>, slots: seq<Slot>, i: nat)
    requires -0x8000_0000 <= total < 0x8000_0000 && Publishable(rows, slots) && i < |rows|
    ensures DecodeRecord(FileBytes(total, rows, slots), Offset(rows, RecordsStart(|rows|), i))
      == Some((rows[i].name, RecordFields(rows[i].info)))
  {
    var pre := Prelude(total, rows);
    NamesFitSlice(rows, 0, i);
    assert rows[0..i] == rows[..i];
    assert Offset(rows, RecordsStart(|rows|), i) == |pre| + |Records(rows[..i])|;
    RecordBetween(FileBytes(total, rows, slots), pre, rows, CacheSection(slots), i, Offset(rows, RecordsStart(|rows|), i));
  }

  /** Whatever surrounds the records, record `i` decodes where the records before it end. */
  lemma RecordBetween(f: seq<byte>, pre: seq<byte>, rows: seq<Row>, post: seq<byte>, i: nat, off: nat)
    requires NamesFit(rows) && i < |rows| && f == pre + Records(rows) + post
    requires NamesFit(rows[..i]) && off == |pre| + |Records(rows[..i])|
    ensures DecodeRecord(f, off) == Some((rows[i].name, RecordFields(rows[i].info)))
  {
    RecordsTake(rows, i + 1);
    RecordsTakeNext(rows, i);
    var rest := Records(rows[i + 1..]) + post;
    PartsAround(pre, Records(rows[..i]), RecordBytes(rows[i]), Records(rows[i + 1..]), post, Records(rows));
    assert f[off..] == RecordBytes(rows[i]) + rest;
    RecordRoundTrip(rows[i], rest);
  }

  /** Whatever precedes and follows the table, entry `i` reads back as pointer `i`. */
  lemma PointerBetween(f: seq<byte>, pre: seq<byte>, ps: seq<nat>, post: seq<byte>, i: nat, at: nat)
    requires forall k :: 0 <= k < |ps| ==> ps[k] < U32_LIMIT
    requires i < |ps| && f == pre + PointerBytes(ps) + post && at == |pre| + 4 * i
    ensures at + 4 <= |f| && ReadU32Le(f, at) == ps[i]
  {
    PointerRead(ps, i);
    ReadInside(f, pre, PointerBytes(ps), post, 4 * i, at);
  }

  /** Entry `i` of the table reads back as pointer `i`. */
  lemma PointerRead(ps: seq<nat>, i: nat)
    requires forall k :: 0 <= k < |ps| ==> ps[k] < U32_LIMIT
    requires i < |ps|
    ensures ReadU32Le(PointerBytes(ps), 4 * i) == ps[i]
  {
    PointerAt(ps, i);
    U32LeRoundTrip(ps[i], PointerBytes(ps), 4 * i);
  }

  /** A word inside the middle part `b` of `f` reads the same in `f` as in `b`. */
  lemma ReadInside(f: seq<byte>, a: seq<byte>, b: seq<byte>, c: seq<byte>, lo: nat, at: nat)
    requires f == a + b + c && lo + 4 <= |b| && at == |a| + lo
    ensures at + 4 <= |f| && ReadU32Le(f, at) == ReadU32Le(b, lo)
  {
    assert f[at] == b[lo] && f[at + 1] == b[lo + 1] && f[at + 2] == b[lo + 2] && f[at + 3] == b[lo + 3];
  }

  /** Pointer `i` of the file holds the offset of record `i`. */
  lemma PointerReads(total: int, rows: seq<Row>, slots: seq<Slot>, i: nat)
    requires -0x8000_0000 <= total < 0x8000_0000 && Publishable(rows, slots) && i < |rows|
    ensures ReadU32Le(FileBytes(total, rows, slots), POINTERS_AT + 4 * i) == Offset(rows, RecordsStart(|rows|), i)
  {
    var base := RecordsStart(|rows|);
    var h := Header(total, |rows|, CacheStart(rows));
    RecordsFitEach(rows, base);
    var os := Offsets(rows, base);
    var pre := Prelude(total, rows);
    var at := POINTERS_AT + 4 * i;
    ReadPrefix(FileBytes(total, rows, slots), pre, Records(rows), CacheSection(slots), at);
    PointerBetween(pre, h, os, Zeros(4), i, at);
  }
}
