/**
 * Sort stage of the index builder (rust/src/main.rs): every player becomes a row
 * `(lowercased name, name, info)`, and the rows are sorted by the lowercased name
 * compared byte by byte (Rust's `String::cmp`).
 */
module SortStage {
  import opened Common
  import opened Players
  import opened Unicode

  /** `(name.to_lowercase(), name, info)`. */
  datatype Row = Row(key: Str, name: Str, info: PlayerInfo)

  /** `a <= b` in Rust's ordering of strings: byte-wise lexicographic. */
  predicate ByteLe(a: Str, b: Str)
    decreases |a|
  {
    if a == [] then true
    else if b == [] then false
    else if a[0] != b[0] then a[0] < b[0]
    else ByteLe(a[1..], b[1..])
  }

  lemma {:induction false} ByteLeTotal(a: Str, b: Str)
    ensures ByteLe(a, b) || ByteLe(b, a)
    decreases |a|
  {
    if a != [] && b != [] && a[0] == b[0] {
      ByteLeTotal(a[1..], b[1..]);
    }
  }

  lemma {:induction false} ByteLeTransitive(a: Str, b: Str, c: Str)
    requires ByteLe(a, b) && ByteLe(b, c)
    ensures ByteLe(a, c)
    decreases |a|
  {
    if a != [] && b != [] && c != [] && a[0] == b[0] && b[0] == c[0] {
      ByteLeTransitive(a[1..], b[1..], c[1..]);
    }
  }

  lemma {:induction false} ByteLeAntisymmetric(a: Str, b: Str)
    requires ByteLe(a, b) && ByteLe(b, a)
    ensures a == b
    decreases |a|
  {
    if a != [] && b != [] {
      ByteLeAntisymmetric(a[1..], b[1..]);
      assert a == [a[0]] + a[1..] && b == [b[0]] + b[1..];
    }
  }

  /** Rows in non-decreasing key order. */
  ghost predicate SortedByKey(rows: seq<Row>) {
    forall i, j :: 0 <= i < j < |rows| ==> ByteLe(rows[i].key, rows[j].key)
  }

  /**
   * `players.into_iter().map(|(name, info)| (name.to_lowercase(), name, info))`: one row
   * per player, in the map's iteration order, which Rust's `HashMap` leaves unspecified;
   * the choice of the next key models that.
   */
  method Rows(ops: TextOps, players: map<Str, PlayerInfo>) returns (rows: seq<Row>)
    ensures |rows| == |players|
    ensures forall i :: 0 <= i < |rows| ==>
      rows[i].name in players && rows[i].info == players[rows[i].name] && rows[i].key == ops.lower(rows[i].name)
    ensures forall name :: name in players ==> exists i :: 0 <= i < |rows| && rows[i].name == name
    ensures forall i, j :: 0 <= i < j < |rows| ==> rows[i].name != rows[j].name
  {
    rows := [];
    var left := players.Keys;
    while left != {}
      invariant Enumerated(ops, players, rows, left)
      decreases left
    {
      var name :| name in left;
      EnumerateStep(ops, players, rows, left, name);
      rows := rows + [Row(ops.lower(name), name, players[name])];
      left := left - {name};
    }
    assert |players| == |players.Keys|;
    RowNamesHas(rows);
  }

  /** The loop invariant of `Rows`: `rows` lists exactly the players not `left`, once each. */
  ghost predicate Enumerated(ops: TextOps, players: map<Str, PlayerInfo>, rows: seq<Row>, left: set<Str>) {
    && left !! RowNames(rows) && left + RowNames(rows) == players.Keys
    && |rows| == |RowNames(rows)|
    && (forall i :: 0 <= i < |rows| ==>
          rows[i].name in players && rows[i].info == players[rows[i].name] && rows[i].key == ops.lower(rows[i].name))
    && (forall i, j :: 0 <= i < j < |rows| ==> rows[i].name != rows[j].name)
  }

  lemma EnumerateStep(ops: TextOps, players: map<Str, PlayerInfo>, rows: seq<Row>, left: set<Str>, name: Str)
    requires Enumerated(ops, players, rows, left) && name in left
    ensures Enumerated(ops, players, rows + [Row(ops.lower(name), name, players[name])], left - {name})
  {
    var next := rows + [Row(ops.lower(name), name, players[name])];
    RowNamesSnoc(rows, next[|rows|]);
    StepRowsFromPlayers(ops, players, rows, name);
    StepDistinct(rows, next[|rows|]);
  }

  lemma RowNamesSnoc(rows: seq<Row>, r: Row)
    ensures RowNames(rows + [r]) == RowNames(rows) + {r.name}
  {
    assert (rows + [r])[..|rows|] == rows;
  }

  lemma StepRowsFromPlayers(ops: TextOps, players: map<Str, PlayerInfo>, rows: seq<Row>, name: Str)
    requires name in players
    requires forall i :: 0 <= i < |rows| ==>
      rows[i].name in players && rows[i].info == players[rows[i].name] && rows[i].key == ops.lower(rows[i].name)
    ensures var next := rows + [Row(ops.lower(name), name, players[name])];
      forall i :: 0 <= i < |next| ==>
        next[i].name in players && next[i].info == players[next[i].name] && next[i].key == ops.lower(next[i].name)
  {
  }

  lemma StepDistinct(rows: seq<Row>, r: Row)
    requires forall i, j :: 0 <= i < j < |rows| ==> rows[i].name != rows[j].name
    requires r.name !in RowNames(rows)
    ensures forall i, j :: 0 <= i < j < |rows + [r]| ==> (rows + [r])[i].name != (rows + [r])[j].name
  {
    RowNamesCover(rows);
  }

  /** The names of `rows`. */
  function RowNames(rows: seq<Row>): set<Str> {
    if rows == [] then {} else RowNames(rows[..|rows| - 1]) + {rows[|rows| - 1].name}
  }

  lemma {:induction false} RowNamesCover(rows: seq<Row>)
    ensures forall i :: 0 <= i < |rows| ==> rows[i].name in RowNames(rows)
    decreases |rows|
  {
    if rows != [] {
      var init := rows[..|rows| - 1];
      RowNamesCover(init);
      assert forall i :: 0 <= i < |init| ==> init[i] == rows[i];
    }
  }

  lemma {:induction false} RowNamesHas(rows: seq<Row>)
    ensures forall i :: 0 <= i < |rows| ==> rows[i].name in RowNames(rows)
    ensures forall name :: name in RowNames(rows) ==> exists i :: 0 <= i < |rows| && rows[i].name == name
    decreases |rows|
  {
    if rows != [] {
      var init := rows[..|rows| - 1];
      RowNamesHas(init);
      assert forall i :: 0 <= i < |init| ==> init[i] == rows[i];
    }
  }

  /** Places `r` before the first row with a greater key: equal keys keep their order. */
  function InsertRow(r: Row, sorted: seq<Row>): (s: seq<Row>)
    requires SortedByKey(sorted)
    ensures SortedByKey(s)
    ensures multiset(s) == multiset(sorted) + multiset{r}
    decreases |sorted|
  {
    if sorted == [] then [r]
    else if ByteLe(sorted[0].key, r.key) then
      var rest := InsertRow(r, sorted[1..]);
      assert sorted == [sorted[0]] + sorted[1..];
      InsertRowHead(sorted[0], r, sorted[1..], rest);
      [sorted[0]] + rest
    else
      ByteLeTotal(sorted[0].key, r.key);
      InsertFront(r, sorted);
      [r] + sorted
  }

  lemma InsertRowHead(h: Row, r: Row, tail: seq<Row>, rest: seq<Row>)
    requires SortedByKey([h] + tail) && ByteLe(h.key, r.key)
    requires multiset(rest) == multiset(tail) + multiset{r} && SortedByKey(rest)
    ensures SortedByKey([h] + rest)
  {
    forall j | 0 <= j < |rest|
      ensures ByteLe(h.key, rest[j].key)
    {
      assert rest[j] in multiset(rest);
      if rest[j] != r {
        assert rest[j] in multiset(tail);
        var k :| 0 <= k < |tail| && tail[k] == rest[j];
        assert ([h] + tail)[k + 1] == tail[k] && ([h] + tail)[0] == h;
      }
    }
    forall i, j | 0 <= i < j < |[h] + rest|
      ensures ByteLe(([h] + rest)[i].key, ([h] + rest)[j].key)
    {
      if i > 0 {
        assert ([h] + rest)[i] == rest[i - 1] && ([h] + rest)[j] == rest[j - 1];
      }
    }
  }

  lemma InsertFront(r: Row, sorted: seq<Row>)
    requires SortedByKey(sorted) && sorted != [] && ByteLe(r.key, sorted[0].key)
    ensures SortedByKey([r] + sorted)
  {
    forall i, j | 0 <= i < j < |[r] + sorted|
      ensures ByteLe(([r] + sorted)[i].key, ([r] + sorted)[j].key)
    {
      if i == 0 && j > 1 {
        ByteLeTransitive(r.key, sorted[0].key, sorted[j - 1].key);
      }
    }
  }

  /**
   * `data.sort_by(|a, b| a.0.cmp(&b.0))`: the library's stable sort, here as an insertion
   * sort that inserts each row after every earlier row with an equal key.
   */
  function SortRows(rows: seq<Row>): (s: seq<Row>)
    ensures SortedByKey(s)
    ensures multiset(s) == multiset(rows)
    decreases |rows|
  {
    if rows == [] then []
    else
      var init := rows[..|rows| - 1];
      assert rows == init + [rows[|rows| - 1]];
      InsertRow(rows[|rows| - 1], SortRows(init))
  }

  /** Each player once, with its key and its merged record (what `Rows` promises). */
  ghost predicate ListsPlayers(ops: TextOps, players: map<Str, PlayerInfo>, rows: seq<Row>) {
    && |rows| == |players|
    && (forall i :: 0 <= i < |rows| ==>
          rows[i].name in players && rows[i].info == players[rows[i].name] && rows[i].key == ops.lower(rows[i].name))
    && (forall name :: name in players ==> exists i :: 0 <= i < |rows| && rows[i].name == name)
    && (forall i, j :: 0 <= i < j < |rows| ==> rows[i].name != rows[j].name)
  }

  /** Sorting keeps each player once, with its key and record. */
  lemma SortKeepsPlayers(ops: TextOps, players: map<Str, PlayerInfo>, unsorted: seq<Row>, rows: seq<Row>)
    requires ListsPlayers(ops, players, unsorted) && multiset(rows) == multiset(unsorted)
    ensures ListsPlayers(ops, players, rows)
  {
    assert |rows| == |multiset(rows)| == |multiset(unsorted)| == |unsorted|;
    forall i | 0 <= i < |rows|
      ensures rows[i].name in players && rows[i].info == players[rows[i].name] && rows[i].key == ops.lower(rows[i].name)
    {
      assert rows[i] in multiset(unsorted);
    }
    forall name | name in players
      ensures exists i :: 0 <= i < |rows| && rows[i].name == name
    {
      var j :| 0 <= j < |unsorted| && unsorted[j].name == name;
      assert unsorted[j] in multiset(rows);
    }
    forall i, j | 0 <= i < j < |rows|
      ensures rows[i].name != rows[j].name
    {
      if rows[i].name == rows[j].name {
        assert rows[i] == rows[j];
        TwiceCounted(rows, i, j);
        OnceCounted(unsorted, rows[i]);
        assert false;
      }
    }
  }

  /** A row at two positions is counted at least twice. */
  lemma TwiceCounted(rows: seq<Row>, i: nat, j: nat)
    requires i < j < |rows| && rows[i] == rows[j]
    ensures multiset(rows)[rows[j]] >= 2
  {
    var front := rows[..j];
    assert rows == front + [rows[j]] + rows[j + 1..];
    assert front[i] == rows[j];
    assert multiset(front)[rows[j]] >= 1;
  }

  /** In rows with distinct names, a row is counted at most once. */
  lemma {:induction false} OnceCounted(rows: seq<Row>, r: Row)
    requires forall i, j :: 0 <= i < j < |rows| ==> rows[i].name != rows[j].name
    ensures multiset(rows)[r] <= 1
    decreases |rows|
  {
    if rows != [] {
      var init := rows[..|rows| - 1];
      assert rows == init + [rows[|rows| - 1]];
      OnceCounted(init, r);
      if rows[|rows| - 1] == r {
        assert r !in init by {
          forall k | 0 <= k < |init| ensures init[k] != r {
            assert init[k] == rows[k];
          }
        }
      }
    }
  }

  /** In sorted rows a later key is never below an earlier one: if it is not above, it is equal. */
  lemma SortedKeysMonotone(rows: seq<Row>, i: nat, j: nat)
    requires SortedByKey(rows) && i < j < |rows|
    requires ByteLe(rows[j].key, rows[i].key)
    ensures rows[i].key == rows[j].key
  {
    ByteLeAntisymmetric(rows[i].key, rows[j].key);
  }
}
