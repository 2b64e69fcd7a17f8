/**
 * The top-10-by-prefix cache of the index builder (rust/src/main.rs). While the sorted
 * records are written, every record offers `(name, points)` to the `Top10Cache` of a
 * few prefixes of its lowercased name; each cache counts its offers and keeps the ten
 * best by points. Whenever the first grapheme cluster changes, and once more at the end,
 * every prefix with fewer than 10000 offers is dropped. The `IndexMap` of the source is a
 * sequence of slots in insertion order.
 */
module PrefixCache {
  import opened Common
  import opened Unicode
  import opened Players
  import opened SortStage

  /** Each cache keeps at most this many members. */
  const CAPACITY: nat := 10

  /** A prefix survives an eviction with at least this many offers. */
  const MIN_COUNT: nat := 10000

  /** `(rank.1.clone(), rank.2.points.points)`: a player's name and total points. */
  datatype Member = Member(name: Str, points: U32)

  datatype Top10Cache = Top10Cache(count: nat, top10: seq<Member>)

  /** `Top10Cache::new()`. */
  const NewCache: Top10Cache := Top10Cache(0, [])

  /** One entry of the `IndexMap<String, Top10Cache>`. */
  datatype Slot = Slot(prefix: Str, cache: Top10Cache)

  /** The state carried from record to record: the map and `last_prefix`. */
  datatype Pass = Pass(slots: seq<Slot>, last: Option<Str>)

  const StartPass: Pass := Pass([], None)

  // ---------------------------------------------------------------------------
  // One cache: push, stable sort by points descending, pop one beyond ten.

  predicate SortedDesc(s: seq<Member>) {
    forall i, j :: 0 <= i < j < |s| ==> s[i].points >= s[j].points
  }

  predicate AllAtLeast(s: seq<Member>, p: nat) {
    forall i :: 0 <= i < |s| ==> s[i].points >= p
  }

  /** Places `m` after every member with at least its points: ties keep arrival order. */
  function InsertDesc(m: Member, s: seq<Member>): (r: seq<Member>)
    ensures |r| == |s| + 1
    decreases |s|
  {
    if s == [] then [m]
    else if s[0].points >= m.points then [s[0]] + InsertDesc(m, s[1..])
    else [m] + s
  }

  /** The insertion adds `m` and loses nothing. */
  lemma {:induction false} InsertDescPermutes(m: Member, s: seq<Member>)
    ensures multiset(InsertDesc(m, s)) == multiset(s) + multiset{m}
    decreases |s|
  {
    if s != [] {
      assert s == [s[0]] + s[1..];
      if s[0].points >= m.points {
        InsertDescPermutes(m, s[1..]);
      }
    }
  }

  /** Inserting into a sorted list keeps it sorted. */
  lemma {:induction false} InsertDescSorted(m: Member, s: seq<Member>)
    requires SortedDesc(s)
    ensures SortedDesc(InsertDesc(m, s))
    decreases |s|
  {
    if s != [] {
      if s[0].points >= m.points {
        var t := s[1..];
        assert SortedDesc(t) by {
          assert forall i :: 0 <= i < |t| ==> t[i] == s[i + 1];
        }
        InsertDescSorted(m, t);
        InsertDescPermutes(m, t);
        assert s == [s[0]] + t;
        InsertDescHead(s[0], m, t, InsertDesc(m, t));
      } else {
        var r := [m] + s;
        forall i, j | 0 <= i < j < |r|
          ensures r[i].points >= r[j].points
        {
          assert r[j] == s[j - 1];
          if i > 0 {
            assert r[i] == s[i - 1];
          } else {
            assert s[0].points >= s[j - 1].points || j == 1;
          }
        }
      }
    }
  }

  lemma InsertDescHead(h: Member, m: Member, tail: seq<Member>, rest: seq<Member>)
    requires SortedDesc([h] + tail) && h.points >= m.points
    requires multiset(rest) == multiset(tail) + multiset{m} && SortedDesc(rest)
    ensures SortedDesc([h] + rest)
  {
    forall j | 0 <= j < |rest|
      ensures h.points >= rest[j].points
    {
      assert rest[j] in multiset(rest);
      if rest[j] != m {
        assert rest[j] in multiset(tail);
        var k :| 0 <= k < |tail| && tail[k] == rest[j];
        assert ([h] + tail)[k + 1] == tail[k] && ([h] + tail)[0] == h;
      }
    }
    forall i, j | 0 <= i < j < |[h] + rest|
      ensures ([h] + rest)[i].points >= ([h] + rest)[j].points
    {
      if i > 0 {
        assert ([h] + rest)[i] == rest[i - 1] && ([h] + rest)[j] == rest[j - 1];
      }
    }
  }

  /**
   * `sort_by(|a, b| b.1.cmp(&a.1))`: the library's stable sort, by points descending,
   * as an insertion sort that inserts each member after the earlier ones it ties with.
   */
  function SortDesc(ms: seq<Member>): (r: seq<Member>)
    ensures |r| == |ms|
    decreases |ms|
  {
    if ms == [] then [] else InsertDesc(ms[|ms| - 1], SortDesc(ms[..|ms| - 1]))
  }

  /** The sort returns its input sorted by points, descending. */
  lemma {:induction false} SortDescSorts(ms: seq<Member>)
    ensures SortedDesc(SortDesc(ms))
    ensures multiset(SortDesc(ms)) == multiset(ms)
    decreases |ms|
  {
    if ms != [] {
      var init := ms[..|ms| - 1];
      assert ms == init + [ms[|ms| - 1]];
      SortDescSorts(init);
      InsertDescSorted(ms[|ms| - 1], SortDesc(init));
      InsertDescPermutes(ms[|ms| - 1], SortDesc(init));
    }
  }

  /** `push`, `sort_by`, and one `pop` when the list has grown past ten. */
  function Offer(c: Top10Cache, m: Member): (r: Top10Cache)
    ensures r.count == c.count + 1
    ensures SortedDesc(r.top10)
    ensures |c.top10| <= CAPACITY ==> 1 <= |r.top10| <= CAPACITY
    ensures multiset(r.top10) <= multiset(c.top10) + multiset{m}
  {
    SortDescSorts(c.top10 + [m]);
    Top10Cache(c.count + 1, Cap(SortDesc(c.top10 + [m])))
  }

  /** `if top10.len() > 10 { top10.pop(); }`: drops the last member of an overfull list. */
  function Cap(s: seq<Member>): (r: seq<Member>)
    ensures |s| <= CAPACITY + 1 ==> |r| <= CAPACITY
    ensures |s| >= 1 ==> |r| >= 1
    ensures IsPrefix(r, s)
    ensures SortedDesc(s) ==> SortedDesc(r)
    ensures multiset(r) <= multiset(s)
  {
    if |s| > CAPACITY then
      assert s == s[..|s| - 1] + [s[|s| - 1]];
      s[..|s| - 1]
    else s
  }

  /** On a sorted list, `Offer` is one stable insertion followed by `Cap`. */
  lemma OfferSorted(c: Top10Cache, m: Member)
    requires SortedDesc(c.top10)
    ensures Offer(c, m).top10 == Cap(InsertDesc(m, c.top10))
  {
    var t := c.top10 + [m];
    assert t[..|t| - 1] == c.top10;
    SortedIsFixed(c.top10);
  }

  /** The first `CAPACITY` members of `s`. */
  function Best(s: seq<Member>): seq<Member> {
    if |s| <= CAPACITY then s else s[..CAPACITY]
  }

  /** The cache that offering `ms`, one after another, builds from a fresh one. */
  function OfferAll(ms: seq<Member>): Top10Cache
    decreases |ms|
  {
    if ms == [] then NewCache else Offer(OfferAll(ms[..|ms| - 1]), ms[|ms| - 1])
  }

  /**
   * What a cache holds is what its one-at-a-time updates promise: after the offers
   * `ms` it has counted all of them and keeps exactly the ten best of them by points,
   * ties in the order they were offered.
   */
  lemma {:induction false} OfferAllKeepsBest(ms: seq<Member>)
    ensures OfferAll(ms).count == |ms|
    ensures OfferAll(ms).top10 == Best(SortDesc(ms))
    decreases |ms|
  {
    if ms != [] {
      var init, m := ms[..|ms| - 1], ms[|ms| - 1];
      OfferAllKeepsBest(init);
      var sorted := SortDesc(init);
      SortDescSorts(init);
      BestIsSorted(sorted);
      OfferSorted(OfferAll(init), m);
      BestOfInsert(m, sorted);
    }
  }

  lemma BestIsSorted(s: seq<Member>)
    requires SortedDesc(s)
    ensures SortedDesc(Best(s))
  {
  }

  /** A sorted list sorts to itself. */
  lemma {:induction false} SortedIsFixed(s: seq<Member>)
    ensures SortedDesc(s) ==> SortDesc(s) == s
    decreases |s|
  {
    if s != [] && SortedDesc(s) {
      var init, m := s[..|s| - 1], s[|s| - 1];
      SortedSplit(s);
      SortedIsFixed(init);
      InsertAfterAll(m, init);
      assert s == init + [m];
    }
  }

  /** Dropping the last member of a sorted list leaves a sorted list, all at least it. */
  lemma SortedSplit(s: seq<Member>)
    requires s != [] && SortedDesc(s)
    ensures SortedDesc(s[..|s| - 1]) && AllAtLeast(s[..|s| - 1], s[|s| - 1].points)
  {
    var init := s[..|s| - 1];
    assert forall i :: 0 <= i < |init| ==> init[i] == s[i];
  }

  lemma {:induction false} InsertAfterAll(m: Member, s: seq<Member>)
    requires AllAtLeast(s, m.points)
    ensures InsertDesc(m, s) == s + [m]
    decreases |s|
  {
    if s != [] {
      InsertAfterAll(m, s[1..]);
      assert s == [s[0]] + s[1..];
    }
  }

  /** When `m` ranks after all of `a`, inserting into `a + b` inserts into `b`. */
  lemma {:induction false} InsertAfterPrefix(m: Member, a: seq<Member>, b: seq<Member>)
    requires AllAtLeast(a, m.points)
    ensures InsertDesc(m, a + b) == a + InsertDesc(m, b)
    decreases |a|
  {
    if a == [] {
      assert a + b == b;
    } else {
      var t := a[1..];
      InsertPastHead(m, a, t, b);
      InsertAfterPrefix(m, t, b);
      calc {
        InsertDesc(m, a + b);
        [a[0]] + InsertDesc(m, t + b);
        [a[0]] + (t + InsertDesc(m, b));
        { assert a == [a[0]] + t; }
        a + InsertDesc(m, b);
      }
    }
  }

  /** One step of `InsertAfterPrefix`: the head of `a` stays in front. */
  lemma InsertPastHead(m: Member, a: seq<Member>, t: seq<Member>, b: seq<Member>)
    requires a != [] && t == a[1..] && AllAtLeast(a, m.points)
    ensures AllAtLeast(t, m.points)
    ensures InsertDesc(m, a + b) == [a[0]] + InsertDesc(m, t + b)
  {
    assert (a + b)[0] == a[0] && (a + b)[1..] == t + b;
    assert forall i :: 1 <= i < |a| ==> a[i] == t[i - 1];
  }

  /** Otherwise the insertion happens inside `a` and `b` follows unchanged. */
  lemma {:induction false} InsertInsidePrefix(m: Member, a: seq<Member>, b: seq<Member>)
    requires !AllAtLeast(a, m.points)
    ensures InsertDesc(m, a + b) == InsertDesc(m, a) + b
    decreases |a|
  {
    var t := a[1..];
    assert (a + b)[0] == a[0] && (a + b)[1..] == t + b;
    if a[0].points >= m.points {
      assert !AllAtLeast(t, m.points) by {
        assert forall i :: 1 <= i < |a| ==> a[i] == t[i - 1];
      }
      InsertInsidePrefix(m, t, b);
    }
  }

  /** Keeping the ten best and then inserting agrees with inserting and keeping ten. */
  lemma BestOfInsert(m: Member, s: seq<Member>)
    ensures Best(InsertDesc(m, s)) == Cap(InsertDesc(m, Best(s)))
  {
    if |s| > CAPACITY {
      var a, b := s[..CAPACITY], s[CAPACITY..];
      assert s == a + b;
      if AllAtLeast(a, m.points) {
        InsertAfterPrefix(m, a, b);
        InsertAfterAll(m, a);
      } else {
        InsertInsidePrefix(m, a, b);
      }
    }
  }

  // ---------------------------------------------------------------------------
  // The map from prefixes to caches.

  /** The prefixes of `slots`, in insertion order. */
  function Keys(slots: seq<Slot>): (ks: seq<Str>)
    ensures |ks| == |slots|
    ensures forall i :: 0 <= i < |slots| ==> ks[i] == slots[i].prefix
  {
    seq(|slots|, i requires 0 <= i < |slots| => slots[i].prefix)
  }

  /** The index of the entry for `p`, as the map's hash lookup finds it. */
  function Find(slots: seq<Slot>, p: Str): (r: Option<nat>)
    ensures r.Some? ==> r.value < |slots| && slots[r.value].prefix == p
    ensures r.None? <==> forall i :: 0 <= i < |slots| ==> slots[i].prefix != p
    decreases |slots|
  {
    if slots == [] then None
    else if slots[0].prefix == p then Some(0)
    else match Find(slots[1..], p)
      case None => None
      case Some(i) => Some(i + 1)
  }

  /** The cache stored for `p`, if any. */
  function Lookup(slots: seq<Slot>, p: Str): Option<Top10Cache> {
    match Find(slots, p)
    case None => None
    case Some(i) => Some(slots[i].cache)
  }

  /** Lookups depend on the keys alone. */
  lemma {:induction false} FindByKeys(a: seq<Slot>, b: seq<Slot>, p: Str)
    requires Keys(a) == Keys(b)
    ensures Find(a, p) == Find(b, p)
    decreases |a|
  {
    assert |a| == |Keys(a)|;
    if a != [] {
      assert Keys(a[1..]) == Keys(b[1..]) by {
        assert forall i :: 0 <= i < |a| - 1 ==> a[1..][i].prefix == Keys(a)[i + 1];
        assert forall i :: 0 <= i < |b| - 1 ==> b[1..][i].prefix == Keys(b)[i + 1];
      }
      assert a[0].prefix == Keys(a)[0] == Keys(b)[0] == b[0].prefix;
      FindByKeys(a[1..], b[1..], p);
    }
  }

  /** No prefix has two entries. */
  predicate DistinctKeys(slots: seq<Slot>) {
    forall i, j :: 0 <= i < j < |slots| ==> slots[i].prefix != slots[j].prefix
  }

  /** With distinct keys the lookup finds the one entry for `p`. */
  lemma {:induction false} LookupUnique(slots: seq<Slot>, i: nat)
    requires DistinctKeys(slots) && i < |slots|
    ensures Find(slots, slots[i].prefix) == Some(i)
  {
    var f := Find(slots, slots[i].prefix);
    assert f.Some?;
    assert slots[f.value].prefix == slots[i].prefix;
  }

  /**
   * `top10.entry(prefix).or_insert_with(Top10Cache::new)` followed by the update of
   * that cache: an existing entry is updated in place, a new one is appended.
   */
  function RecordAt(slots: seq<Slot>, p: Str, m: Member): (r: seq<Slot>)
    ensures Keys(r) == (if Find(slots, p).Some? then Keys(slots) else Keys(slots) + [p])
  {
    match Find(slots, p)
    case Some(i) =>
      var r := slots[i := Slot(p, Offer(slots[i].cache, m))];
      assert Keys(r) == Keys(slots);
      r
    case None =>
      var r := slots + [Slot(p, Offer(NewCache, m))];
      assert Keys(r) == Keys(slots) + [p];
      r
  }

  /** The cache for `p` receives the offer (a new one if `p` had none); no other changes. */
  lemma RecordAtLookup(slots: seq<Slot>, p: Str, m: Member)
    ensures Lookup(RecordAt(slots, p, m), p) == Some(Offer(CacheOf(slots, p), m))
    ensures forall q :: q != p ==> Lookup(RecordAt(slots, p, m), q) == Lookup(slots, q)
  {
    var r := RecordAt(slots, p, m);
    match Find(slots, p)
    case Some(i) =>
      forall q
        ensures Find(r, q) == Find(slots, q)
      {
        FindByKeys(r, slots, q);
      }
    case None =>
      forall q
        ensures q != p ==> Find(r, q) == Find(slots, q)
        ensures q == p ==> Find(r, q) == Some(|slots|)
      {
        FindAppend(slots, Slot(p, Offer(NewCache, m)), q);
      }
  }

  /** The cache `entry(p).or_insert_with(Top10Cache::new)` yields. */
  function CacheOf(slots: seq<Slot>, p: Str): Top10Cache {
    match Lookup(slots, p)
    case None => NewCache
    case Some(c) => c
  }

  lemma {:induction false} FindAppend(slots: seq<Slot>, s: Slot, q: Str)
    ensures Find(slots, q).Some? ==> Find(slots + [s], q) == Find(slots, q)
    ensures Find(slots, q).None? && s.prefix == q ==> Find(slots + [s], q) == Some(|slots|)
    ensures Find(slots, q).None? && s.prefix != q ==> Find(slots + [s], q).None?
    decreases |slots|
  {
    if slots != [] {
      assert (slots + [s])[1..] == slots[1..] + [s];
      FindAppend(slots[1..], s, q);
    }
  }

  /** The updates of one record: `RecordAt` for each prefix in turn. */
  function RecordAll(slots: seq<Slot>, ps: seq<Str>, m: Member): seq<Slot>
    decreases |ps|
  {
    if ps == [] then slots else RecordAll(RecordAt(slots, ps[0], m), ps[1..], m)
  }

  /** A prefix the record does not update keeps its cache, or stays absent. */
  lemma {:induction false} RecordAllOthers(slots: seq<Slot>, ps: seq<Str>, m: Member, q: Str)
    requires q !in ps
    ensures Lookup(RecordAll(slots, ps, m), q) == Lookup(slots, q)
    decreases |ps|
  {
    if ps != [] {
      assert q != ps[0] && q !in ps[1..];
      RecordAtLookup(slots, ps[0], m);
      RecordAllOthers(RecordAt(slots, ps[0], m), ps[1..], m, q);
    }
  }

  /** What survives an eviction: the entries with at least `MIN_COUNT` offers, in order. */
  function KeepPopular(slots: seq<Slot>): (r: seq<Slot>)
    ensures |r| <= |slots|
    ensures forall i :: 0 <= i < |r| ==> r[i].cache.count >= MIN_COUNT
    decreases |slots|
  {
    if slots == [] then []
    else
      (if slots[0].cache.count >= MIN_COUNT then [slots[0]] else []) + KeepPopular(slots[1..])
  }

  /** An entry survives exactly when it has at least `MIN_COUNT` offers. */
  lemma {:induction false} KeepPopularMembers(slots: seq<Slot>)
    ensures forall s :: s in KeepPopular(slots) <==> s in slots && s.cache.count >= MIN_COUNT
    decreases |slots|
  {
    if slots != [] {
      KeepPopularMembers(slots[1..]);
      assert slots == [slots[0]] + slots[1..];
    }
  }

  /** Filtering keeps order: it distributes over concatenation. */
  lemma {:induction false} KeepPopularAppend(a: seq<Slot>, b: seq<Slot>)
    ensures KeepPopular(a + b) == KeepPopular(a) + KeepPopular(b)
    decreases |a|
  {
    if a != [] {
      assert (a + b)[0] == a[0] && (a + b)[1..] == a[1..] + b;
      KeepPopularAppend(a[1..], b);
      var h := if a[0].cache.count >= MIN_COUNT then [a[0]] else [];
      assert KeepPopular(a + b) == h + KeepPopular(a[1..] + b);
      assert KeepPopular(a) == h + KeepPopular(a[1..]);
      assert KeepPopular(a + b) == h + (KeepPopular(a[1..]) + KeepPopular(b));
    } else {
      assert a + b == b;
    }
  }

  lemma KeepPopularAt(slots: seq<Slot>, i: nat)
    requires i < |slots|
    ensures KeepPopular(slots[i..]) ==
      (if slots[i].cache.count >= MIN_COUNT then [slots[i]] else []) + KeepPopular(slots[i + 1..])
  {
    assert slots[i..][0] == slots[i] && slots[i..][1..] == slots[i + 1..];
  }

  /**
   * The eviction loop: walk the entries from last to first and `shift_remove_index` each
   * one with fewer than `MIN_COUNT` offers, keeping the order of the rest.
   */
  method EvictUnpopular(slots: seq<Slot>) returns (kept: seq<Slot>)
    ensures kept == KeepPopular(slots)
  {
    kept := slots;
    var i := |slots| - 1;
    while i >= 0
      invariant -1 <= i < |slots|
      invariant kept == slots[..i + 1] + KeepPopular(slots[i + 1..])
    {
      EvictStep(slots, i, kept);
      if kept[i].cache.count < MIN_COUNT {
        kept := kept[..i] + kept[i + 1..];
      }
      i := i - 1;
    }
    assert slots[0..] == slots;
  }

  /** One iteration of the eviction loop: entry `i` is kept or removed, as `KeepPopular` says. */
  lemma EvictStep(slots: seq<Slot>, i: nat, kept: seq<Slot>)
    requires i < |slots| && kept == slots[..i + 1] + KeepPopular(slots[i + 1..])
    ensures i < |kept| && kept[i] == slots[i]
    ensures slots[i].cache.count < MIN_COUNT ==>
      kept[..i] + kept[i + 1..] == slots[..i] + KeepPopular(slots[i..])
    ensures slots[i].cache.count >= MIN_COUNT ==> kept == slots[..i] + KeepPopular(slots[i..])
  {
    var tail := KeepPopular(slots[i + 1..]);
    assert kept[..i] == slots[..i] && kept[i] == slots[i] && kept[i + 1..] == tail;
    KeepPopularAt(slots, i);
    if slots[i].cache.count >= MIN_COUNT {
      assert kept == slots[..i] + ([slots[i]] + tail);
    } else {
      assert [] + tail == tail;
    }
  }

  // ---------------------------------------------------------------------------
  // Which prefixes a record updates.

  /** `"(1)"` and `"[d]"`, the common clan-tag prefixes, in the order they are tried. */
  const TagOne: Str := [40, 49, 41]
  const TagD: Str := [91, 100, 93]

  /** `prefixes.iter().find(|prefix| key.starts_with(prefix))`. */
  function CommonPrefix(key: Str): (c: Option<Str>)
    ensures c.Some? <==> IsPrefix(TagOne, key) || IsPrefix(TagD, key)
    ensures c.Some? ==> IsPrefix(c.value, key) && |c.value| == 3
    ensures IsPrefix(TagOne, key) ==> c == Some(TagOne)
  {
    if IsPrefix(TagOne, key) then Some(TagOne)
    else if IsPrefix(TagD, key) then Some(TagD)
    else None
  }

  /** Two prefixes of a string, one after the other, make a prefix of it. */
  lemma PrefixJoin(a: Str, b: Str, key: Str)
    requires IsPrefix(a, key) && IsPrefix(b, key[|a|..])
    ensures IsPrefix(a + b, key)
  {
    assert key[..|a| + |b|] == key[..|a|] + key[|a|..][..|b|];
  }

  /** `p` followed by the next grapheme cluster after it in `key`, if there is one. */
  function Extend(ops: TextOps, key: Str, p: Str): (r: Option<Str>)
    requires ops.Valid() && IsPrefix(p, key)
    ensures r.Some? <==> |p| < |key|
    ensures r.Some? ==> IsPrefix(r.value, key) && |p| < |r.value|
  {
    match FirstCluster(ops, key[|p|..])
    case None => None
    case Some(g) =>
      PrefixJoin(p, g, key);
      Some(p + g)
  }

  /**
   * The prefixes whose caches a record with lowercased name `key` updates, in the order
   * of the updates: the first cluster g1 and g1 followed by the second cluster; then, for
   * a key starting with a common prefix c, c, c and one more cluster, and c and two more.
   */
  function UpdatedPrefixes(ops: TextOps, key: Str): (ps: seq<Str>)
    requires ops.Valid()
    ensures ps == [] <==> key == []
    ensures ps != [] ==> ps[0] == FirstCluster(ops, key).value
    ensures |ps| <= 5
    ensures forall i :: 0 <= i < |ps| ==> ps[i] != [] && IsPrefix(ps[i], key)
    ensures CommonPrefix(key).Some? ==> CommonPrefix(key).value in ps
  {
    if key == [] then [] else ClusterPrefixes(ops, key) + CommonPrefixes(ops, key)
  }

  /** The first cluster, and the first two clusters when there are two. */
  function ClusterPrefixes(ops: TextOps, key: Str): (ps: seq<Str>)
    requires ops.Valid() && key != []
    ensures 1 <= |ps| <= 2 && ps[0] == FirstCluster(ops, key).value
    ensures forall i :: 0 <= i < |ps| ==> ps[i] != [] && IsPrefix(ps[i], key)
  {
    var g1 := FirstCluster(ops, key).value;
    match Extend(ops, key, g1)
    case None => [g1]
    case Some(g12) => [g1, g12]
  }

  function CommonPrefixes(ops: TextOps, key: Str): (ps: seq<Str>)
    requires ops.Valid()
    ensures |ps| <= 3
    ensures forall i :: 0 <= i < |ps| ==> ps[i] != [] && IsPrefix(ps[i], key)
    ensures CommonPrefix(key).Some? ==> ps != [] && ps[0] == CommonPrefix(key).value
  {
    match CommonPrefix(key)
    case None => []
    case Some(c) =>
      match Extend(ops, key, c)
      case None => [c]
      case Some(c1) =>
        match Extend(ops, key, c1)
        case None => [c, c1]
        case Some(c2) => [c, c1, c2]
  }

  // ---------------------------------------------------------------------------
  // The pass over the sorted records.

  /**
   * One record's effect on the cache: its prefixes are updated, and when its first
   * cluster differs from `last_prefix` the map is evicted and `last_prefix` moves on.
   */
  function Step(pass: Pass, ops: TextOps, key: Str, m: Member): (r: Pass)
    requires ops.Valid()
    ensures key == [] ==> r == pass
    ensures r.last == pass.last || r.last == FirstCluster(ops, key)
  {
    var slots := RecordAll(pass.slots, UpdatedPrefixes(ops, key), m);
    var g1 := FirstCluster(ops, key);
    if pass.last != g1 && g1.Some? then Pass(KeepPopular(slots), g1) else Pass(slots, pass.last)
  }

  /** The member a row offers. */
  function MemberOf(row: Row): Member {
    Member(row.name, row.info.points.points)
  }

  /** The cache state after the rows, in order. */
  function CachePass(ops: TextOps, rows: seq<Row>): Pass
    requires ops.Valid()
    decreases |rows|
  {
    if rows == [] then StartPass
    else
      var row := rows[|rows| - 1];
      Step(CachePass(ops, rows[..|rows| - 1]), ops, row.key, MemberOf(row))
  }

  /** The map after the pass and the final eviction: what the cache section holds. */
  function FinalSlots(ops: TextOps, rows: seq<Row>): (r: seq<Slot>)
    requires ops.Valid()
    ensures forall i :: 0 <= i < |r| ==> r[i].cache.count >= MIN_COUNT
  {
    KeepPopular(CachePass(ops, rows).slots)
  }

  /** `RecordAll` over a concatenation is one `RecordAll` after the other. */
  lemma {:induction false} RecordAllAppend(slots: seq<Slot>, a: seq<Str>, b: seq<Str>, m: Member)
    ensures RecordAll(slots, a + b, m) == RecordAll(RecordAll(slots, a, m), b, m)
    decreases |a|
  {
    if a == [] {
      assert a + b == b;
    } else {
      assert (a + b)[0] == a[0] && (a + b)[1..] == a[1..] + b;
      RecordAllAppend(RecordAt(slots, a[0], m), a[1..], b, m);
    }
  }

  /** `RecordAll` of one, two or three prefixes, spelt out. */
  lemma RecordAllUpToThree(slots: seq<Slot>, ps: seq<Str>, m: Member)
    requires 1 <= |ps| <= 3
    ensures |ps| == 1 ==> RecordAll(slots, ps, m) == RecordAt(slots, ps[0], m)
    ensures |ps| == 2 ==> RecordAll(slots, ps, m) == RecordAt(RecordAt(slots, ps[0], m), ps[1], m)
    ensures |ps| == 3 ==>
      RecordAll(slots, ps, m) == RecordAt(RecordAt(RecordAt(slots, ps[0], m), ps[1], m), ps[2], m)
  {
    var s1 := RecordAt(slots, ps[0], m);
    assert RecordAll(slots, ps, m) == RecordAll(s1, ps[1..], m);
    if |ps| >= 2 {
      var s2 := RecordAt(s1, ps[1], m);
      assert ps[1..][0] == ps[1] && ps[1..][1..] == ps[2..];
      assert RecordAll(s1, ps[1..], m) == RecordAll(s2, ps[2..], m);
      if |ps| == 3 {
        var s3 := RecordAt(s2, ps[2], m);
        assert ps[2..][0] == ps[2] && ps[2..][1..] == [];
        assert RecordAll(s2, ps[2..], m) == RecordAll(s3, [], m) == s3;
      } else {
        assert ps[2..] == [];
      }
    } else {
      assert ps[1..] == [];
    }
  }

  /** The first-cluster block: the caches of g1 and of g1 followed by the next cluster. */
  method RecordClusters(slots: seq<Slot>, ops: TextOps, key: Str, m: Member) returns (out: seq<Slot>)
    requires ops.Valid() && key != []
    ensures out == RecordAll(slots, ClusterPrefixes(ops, key), m)
  {
    var g1 := FirstCluster(ops, key).value;
    out := RecordAt(slots, g1, m);
    var next := FirstCluster(ops, key[|g1|..]);
    if next.Some? {
      out := RecordAt(out, g1 + next.value, m);
    }
    RecordAllUpToThree(slots, ClusterPrefixes(ops, key), m);
  }

  /** The common-prefix block: c, then c and one cluster, then c and two clusters. */
  method RecordCommon(slots: seq<Slot>, ops: TextOps, key: Str, m: Member) returns (out: seq<Slot>)
    requires ops.Valid()
    ensures out == RecordAll(slots, CommonPrefixes(ops, key), m)
  {
    out := slots;
    var common := CommonPrefix(key);
    if common.Some? {
      var c := common.value;
      out := RecordAt(out, c, m);
      var n1 := FirstCluster(ops, key[|c|..]);
      if n1.Some? {
        var c1 := c + n1.value;
        out := RecordAt(out, c1, m);
        PrefixJoin(c, n1.value, key);
        var n2 := FirstCluster(ops, key[|c1|..]);
        if n2.Some? {
          out := RecordAt(out, c1 + n2.value, m);
        }
      }
      RecordAllUpToThree(slots, CommonPrefixes(ops, key), m);
    }
  }

  /**
   * The cache update of one record, as the source's nested `if`s write it, followed by
   * the eviction check.
   */
  method CacheRecord(pass: Pass, ops: TextOps, key: Str, m: Member) returns (next: Pass)
    requires ops.Valid()
    ensures next == Step(pass, ops, key, m)
  {
    var slots := pass.slots;
    var prefix := FirstCluster(ops, key);
    if prefix.Some? {
      slots := RecordClusters(slots, ops, key, m);
      slots := RecordCommon(slots, ops, key, m);
      RecordAllAppend(pass.slots, ClusterPrefixes(ops, key), CommonPrefixes(ops, key), m);
    }
    var last := pass.last;
    if last != prefix && prefix.Some? {
      last := prefix;
      slots := EvictUnpopular(slots);
    }
    next := Pass(slots, last);
  }

  // ---------------------------------------------------------------------------
  // What the pass keeps true.

  /** The longest name or prefix a one-byte length field can describe is 255 bytes. */
  const MAX_SHORT: nat := 255

  /** A cache as the update rule leaves it. */
  predicate CacheOk(c: Top10Cache) {
    && SortedDesc(c.top10)
    && 1 <= |c.top10| <= CAPACITY
    && |c.top10| <= c.count
    && (forall k :: 0 <= k < |c.top10| ==> |c.top10[k].name| <= MAX_SHORT)
  }

  /** Distinct prefixes, and every cache sorted, non-empty and at most ten long. */
  predicate WellFormed(slots: seq<Slot>) {
    DistinctKeys(slots) && forall i :: 0 <= i < |slots| ==> CacheOk(slots[i].cache)
  }

  lemma OfferOk(c: Top10Cache, m: Member)
    requires (c == NewCache || CacheOk(c)) && |m.name| <= MAX_SHORT
    ensures CacheOk(Offer(c, m))
  {
    var r := Offer(c, m);
    forall k | 0 <= k < |r.top10|
      ensures |r.top10[k].name| <= MAX_SHORT
    {
      assert r.top10[k] in multiset(r.top10);
      if r.top10[k] != m {
        assert r.top10[k] in multiset(c.top10);
        var j :| 0 <= j < |c.top10| && c.top10[j] == r.top10[k];
      }
    }
    assert |r.top10| <= |c.top10| + 1 by {
      assert |multiset(r.top10)| <= |multiset(c.top10) + multiset{m}|;
    }
  }

  lemma RecordAtWellFormed(slots: seq<Slot>, p: Str, m: Member)
    requires WellFormed(slots) && |m.name| <= MAX_SHORT
    ensures WellFormed(RecordAt(slots, p, m))
  {
    match Find(slots, p)
    case Some(i) =>
      OfferOk(slots[i].cache, m);
      UpdateWellFormed(slots, i, Slot(p, Offer(slots[i].cache, m)));
    case None =>
      OfferOk(NewCache, m);
      AppendWellFormed(slots, Slot(p, Offer(NewCache, m)));
  }

  /** Replacing an entry's cache by a good one keeps the map well formed. */
  lemma UpdateWellFormed(slots: seq<Slot>, i: nat, s: Slot)
    requires WellFormed(slots) && i < |slots| && s.prefix == slots[i].prefix && CacheOk(s.cache)
    ensures WellFormed(slots[i := s])
  {
    var r := slots[i := s];
    assert forall j :: 0 <= j < |r| ==> r[j].prefix == slots[j].prefix;
  }

  /** Appending an entry for a new prefix with a good cache keeps the map well formed. */
  lemma AppendWellFormed(slots: seq<Slot>, s: Slot)
    requires WellFormed(slots) && CacheOk(s.cache)
    requires forall j :: 0 <= j < |slots| ==> slots[j].prefix != s.prefix
    ensures WellFormed(slots + [s])
  {
    var r := slots + [s];
    assert forall j :: 0 <= j < |slots| ==> r[j] == slots[j];
  }

  lemma {:induction false} RecordAllWellFormed(slots: seq<Slot>, ps: seq<Str>, m: Member)
    requires WellFormed(slots) && |m.name| <= MAX_SHORT
    ensures WellFormed(RecordAll(slots, ps, m))
    decreases |ps|
  {
    if ps != [] {
      RecordAtWellFormed(slots, ps[0], m);
      RecordAllWellFormed(RecordAt(slots, ps[0], m), ps[1..], m);
    }
  }

  lemma {:induction false} KeepPopularWellFormed(slots: seq<Slot>)
    requires WellFormed(slots)
    ensures WellFormed(KeepPopular(slots))
    decreases |slots|
  {
    if slots != [] {
      var x, t := slots[0], slots[1..];
      TailWellFormed(slots);
      KeepPopularWellFormed(t);
      if x.cache.count >= MIN_COUNT {
        var kt := KeepPopular(t);
        KeepPopularAbsent(t, x.prefix);
        ConsWellFormed(x, kt);
        assert KeepPopular(slots) == [x] + kt;
      } else {
        assert KeepPopular(slots) == [] + KeepPopular(t);
      }
    }
  }

  /** The entries after the first make a well-formed map without the first prefix. */
  lemma TailWellFormed(slots: seq<Slot>)
    requires WellFormed(slots) && slots != []
    ensures WellFormed(slots[1..])
    ensures forall j :: 0 <= j < |slots| - 1 ==> slots[1..][j].prefix != slots[0].prefix
  {
    assert forall j :: 0 <= j < |slots| - 1 ==> slots[1..][j] == slots[j + 1];
  }

  /** A well-formed map without `x`'s prefix stays well formed with `x` in front. */
  lemma ConsWellFormed(x: Slot, t: seq<Slot>)
    requires WellFormed(t) && CacheOk(x.cache)
    requires forall j :: 0 <= j < |t| ==> t[j].prefix != x.prefix
    ensures WellFormed([x] + t)
  {
    var r := [x] + t;
    assert forall j :: 1 <= j < |r| ==> r[j] == t[j - 1];
  }

  /** Eviction brings back no prefix. */
  lemma {:induction false} KeepPopularAbsent(slots: seq<Slot>, p: Str)
    requires forall j :: 0 <= j < |slots| ==> slots[j].prefix != p
    ensures forall j :: 0 <= j < |KeepPopular(slots)| ==> KeepPopular(slots)[j].prefix != p
    decreases |slots|
  {
    if slots != [] {
      var t := slots[1..];
      assert forall j :: 0 <= j < |t| ==> t[j] == slots[j + 1];
      KeepPopularAbsent(t, p);
      var h := if slots[0].cache.count >= MIN_COUNT then [slots[0]] else [];
      var r := h + KeepPopular(t);
      assert KeepPopular(slots) == r;
      assert forall j :: |h| <= j < |r| ==> r[j] == KeepPopular(t)[j - |h|];
    }
  }

  /** Every step of the pass keeps the map well formed. */
  lemma StepWellFormed(pass: Pass, ops: TextOps, key: Str, m: Member)
    requires ops.Valid() && WellFormed(pass.slots) && |m.name| <= MAX_SHORT
    ensures WellFormed(Step(pass, ops, key, m).slots)
  {
    var slots := RecordAll(pass.slots, UpdatedPrefixes(ops, key), m);
    RecordAllWellFormed(pass.slots, UpdatedPrefixes(ops, key), m);
    KeepPopularWellFormed(slots);
  }

  /** Over rows whose names fit a length byte, the map stays well formed throughout. */
  lemma {:induction false} CachePassWellFormed(ops: TextOps, rows: seq<Row>)
    requires ops.Valid()
    requires forall i :: 0 <= i < |rows| ==> |rows[i].name| <= MAX_SHORT
    ensures WellFormed(CachePass(ops, rows).slots)
    ensures WellFormed(FinalSlots(ops, rows))
    decreases |rows|
  {
    if rows != [] {
      var init := rows[..|rows| - 1];
      assert forall i :: 0 <= i < |init| ==> init[i] == rows[i];
      CachePassWellFormed(ops, init);
      StepWellFormed(CachePass(ops, init), ops, rows[|rows| - 1].key, MemberOf(rows[|rows| - 1]));
    }
    KeepPopularWellFormed(CachePass(ops, rows).slots);
  }

  /** Looking past a first entry with another prefix. */
  lemma LookupTail(x: Slot, t: seq<Slot>, q: Str)
    requires x.prefix != q
    ensures Lookup([x] + t, q) == Lookup(t, q)
  {
    assert ([x] + t)[0] == x && ([x] + t)[1..] == t;
  }

  /** After an eviction a prefix is present exactly when it was, with enough offers. */
  lemma {:induction false} KeepPopularLookup(slots: seq<Slot>, q: Str)
    requires DistinctKeys(slots)
    ensures Lookup(KeepPopular(slots), q) ==
      (if Lookup(slots, q).Some? && Lookup(slots, q).value.count >= MIN_COUNT then Lookup(slots, q) else None)
    decreases |slots|
  {
    if slots != [] {
      var x, t := slots[0], slots[1..];
      assert slots == [x] + t;
      assert DistinctKeys(t) by {
        assert forall i :: 0 <= i < |t| ==> t[i] == slots[i + 1];
      }
      KeepPopularLookup(t, q);
      var kt := KeepPopular(t);
      if x.prefix == q {
        assert Find(slots, q) == Some(0);
        assert Find(t, q).None? by {
          assert forall i :: 0 <= i < |t| ==> t[i] == slots[i + 1];
        }
        assert Lookup(slots, q) == Some(x.cache);
        assert Lookup(t, q) == None;
        if x.cache.count >= MIN_COUNT {
          assert KeepPopular(slots) == [x] + kt;
          assert Find([x] + kt, q) == Some(0);
          assert Lookup(KeepPopular(slots), q) == Some(x.cache);
        } else {
          assert KeepPopular(slots) == [] + kt == kt;
          assert Lookup(kt, q) == None;
        }
      } else {
        LookupTail(x, t, q);
        if x.cache.count >= MIN_COUNT {
          assert KeepPopular(slots) == [x] + kt;
          LookupTail(x, kt, q);
        } else {
          assert KeepPopular(slots) == [] + kt == kt;
        }
      }
    }
  }

  /** A record changes a prefix's count by at most the number of its updates. */
  lemma {:induction false} RecordAllCount(slots: seq<Slot>, ps: seq<Str>, m: Member, q: Str)
    ensures CacheOf(RecordAll(slots, ps, m), q).count <= CacheOf(slots, q).count + |ps|
    decreases |ps|
  {
    if ps != [] {
      RecordAtCount(slots, ps[0], m, q);
      RecordAllCount(RecordAt(slots, ps[0], m), ps[1..], m, q);
    }
  }

  /** One update adds at most one to any prefix's count. */
  lemma RecordAtCount(slots: seq<Slot>, p: Str, m: Member, q: Str)
    ensures CacheOf(RecordAt(slots, p, m), q).count <= CacheOf(slots, q).count + 1
  {
    RecordAtLookup(slots, p, m);
  }

  /**
   * Eviction runs after the updates of the record that opens a new first-cluster
   * group, so that record's offer to its own group is dropped with the group's fresh
   * cache: a group with no entry before the record still has none after it.
   */
  lemma NewGroupNotCounted(pass: Pass, ops: TextOps, key: Str, m: Member)
    requires ops.Valid() && WellFormed(pass.slots) && |m.name| <= MAX_SHORT && key != []
    requires pass.last != FirstCluster(ops, key)
    requires Lookup(pass.slots, FirstCluster(ops, key).value).None?
    ensures Lookup(Step(pass, ops, key, m).slots, FirstCluster(ops, key).value).None?
    ensures Step(pass, ops, key, m).last == FirstCluster(ops, key)
  {
    var g1 := FirstCluster(ops, key).value;
    var ps := UpdatedPrefixes(ops, key);
    var slots := RecordAll(pass.slots, ps, m);
    RecordAllCount(pass.slots, ps, m, g1);
    RecordAllWellFormed(pass.slots, ps, m);
    KeepPopularLookup(slots, g1);
  }
}
