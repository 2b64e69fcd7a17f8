/**
 * Record normaliser of the index builder (rust/src/main.rs): six ranked category
 * lists, each best first, are merged into one `PlayerInfo` per player name; the
 * entry at index i of a list gets position i + 1 in that list's category.
 */
module Players {
  import opened Common

  /** A `u32` of the source. */
  type U32 = x: nat | x < U32_LIMIT

  /** One category's points and 1-based position; `{0, 0}` when the player is absent. */
  datatype RankInfo = RankInfo(points: U32, rank: nat)

  const NoRank: RankInfo := RankInfo(0, 0)

  /** The six categories, in the order their fields are written to a record. */
  datatype Category = Points | Rank | Team | Weekly | Monthly | Yearly

  datatype PlayerInfo = PlayerInfo(
    points: RankInfo, rank: RankInfo, team: RankInfo,
    weekly: RankInfo, monthly: RankInfo, yearly: RankInfo)
  {
    function Get(c: Category): RankInfo {
      match c
      case Points => points
      case Rank => rank
      case Team => team
      case Weekly => weekly
      case Monthly => monthly
      case Yearly => yearly
    }

    /** This record with category `c` replaced and every other category kept. */
    function With(c: Category, r: RankInfo): (p: PlayerInfo)
      ensures p.Get(c) == r
      ensures forall d :: d != c ==> p.Get(d) == Get(d)
    {
      match c
      case Points => this.(points := r)
      case Rank => this.(rank := r)
      case Team => this.(team := r)
      case Weekly => this.(weekly := r)
      case Monthly => this.(monthly := r)
      case Yearly => this.(yearly := r)
    }
  }

  /** `PlayerInfo::new()`: every category at its default. */
  const NewPlayer: PlayerInfo := PlayerInfo(NoRank, NoRank, NoRank, NoRank, NoRank, NoRank)

  /** One `(name, points)` pair of a category list. */
  type Entry = (Str, U32)

  /** The names a category list mentions. */
  function NamesOf(list: seq<Entry>): set<Str> {
    if list == [] then {} else NamesOf(list[..|list| - 1]) + {list[|list| - 1].0}
  }

  /** Entry `j` is the last one with its name among the first `n` entries. */
  predicate LastBefore(list: seq<Entry>, j: nat, n: nat)
    requires j < n <= |list|
  {
    forall k :: j < k < n ==> list[k].0 != list[j].0
  }

  /** The record `players.entry(name).or_insert_with(PlayerInfo::new)` starts from. */
  function Existing(players: map<Str, PlayerInfo>, name: Str): PlayerInfo {
    if name in players then players[name] else NewPlayer
  }

  lemma NamesOfSnoc(list: seq<Entry>, i: nat)
    requires i < |list|
    ensures NamesOf(list[..i + 1]) == NamesOf(list[..i]) + {list[i].0}
  {
    assert list[..i + 1][..i] == list[..i];
  }

  /** Category `c` of `out` holds the last entry of every name among the first `n` entries. */
  ghost predicate RanksSet(out: map<Str, PlayerInfo>, list: seq<Entry>, c: Category, n: nat)
    requires n <= |list|
  {
    forall j :: 0 <= j < n && LastBefore(list, j, n) ==>
      list[j].0 in out && out[list[j].0].Get(c) == RankInfo(list[j].1, j + 1)
  }

  /** Every category but `c` is as it was (or at its default for a new record). */
  ghost predicate OthersKept(out: map<Str, PlayerInfo>, players: map<Str, PlayerInfo>, c: Category) {
    forall name, d :: name in out && d != c ==> out[name].Get(d) == Existing(players, name).Get(d)
  }

  /** What one category loop establishes, from `players` to `out`. */
  ghost predicate MergeResult(players: map<Str, PlayerInfo>, list: seq<Entry>, c: Category, out: map<Str, PlayerInfo>) {
    && out.Keys == players.Keys + NamesOf(list)
    && RanksSet(out, list, c, |list|)
    && OthersKept(out, players, c)
    && (forall name :: name in players && name !in NamesOf(list) ==> out[name] == players[name])
  }

  /** The loop invariant of `MergeCategory` after `i` entries. */
  ghost predicate MergedPrefix(players: map<Str, PlayerInfo>, list: seq<Entry>, c: Category, i: nat, out: map<Str, PlayerInfo>)
    requires i <= |list|
  {
    && out.Keys == players.Keys + NamesOf(list[..i])
    && RanksSet(out, list, c, i)
    && OthersKept(out, players, c)
    && (forall name :: name in players && name !in NamesOf(list[..i]) ==> out[name] == players[name])
  }

  /** Handling entry `i` extends the invariant to the first `i + 1` entries. */
  lemma MergeEntry(players: map<Str, PlayerInfo>, list: seq<Entry>, c: Category, i: nat,
                   out: map<Str, PlayerInfo>, next: map<Str, PlayerInfo>)
    requires i < |list| && MergedPrefix(players, list, c, i, out)
    requires next == out[list[i].0 := Existing(out, list[i].0).With(c, RankInfo(list[i].1, i + 1))]
    ensures MergedPrefix(players, list, c, i + 1, next)
  {
    var name := list[i].0;
    NamesOfSnoc(list, i);
    assert name !in out ==> name !in players;
    forall j | 0 <= j < i + 1 && LastBefore(list, j, i + 1)
      ensures list[j].0 in next && next[list[j].0].Get(c) == RankInfo(list[j].1, j + 1)
    {
      if j < i {
        assert list[i].0 != list[j].0;
        assert LastBefore(list, j, i);
      }
    }
    forall n, d | n in next && d != c
      ensures next[n].Get(d) == Existing(players, n).Get(d)
    {
      if n != name {
        assert n in out;
      }
    }
  }

  /**
   * One category loop of the source: for the i-th entry (from 1), create the player's
   * record if needed and set its category `c` to `{points, i}`. A name that occurs
   * twice keeps the later entry.
   */
  method MergeCategory(players: map<Str, PlayerInfo>, list: seq<Entry>, c: Category)
    returns (out: map<Str, PlayerInfo>)
    ensures MergeResult(players, list, c, out)
  {
    out := players;
    var i := 0;
    while i < |list|
      invariant 0 <= i <= |list|
      invariant MergedPrefix(players, list, c, i, out)
    {
      var (name, points) := list[i];
      var info := if name in out then out[name] else NewPlayer;
      ghost var prev := out;
      out := out[name := info.With(c, RankInfo(points, i + 1))];
      MergeEntry(players, list, c, i, prev, out);
      i := i + 1;
    }
    assert list[..i] == list;
  }

  /** The six decoded category lists, in the order the upstream file holds them. */
  datatype Rankings = Rankings(
    points: seq<Entry>, weekly: seq<Entry>, monthly: seq<Entry>,
    yearly: seq<Entry>, team: seq<Entry>, rank: seq<Entry>)
  {
    function List(c: Category): seq<Entry> {
      match c
      case Points => points
      case Rank => rank
      case Team => team
      case Weekly => weekly
      case Monthly => monthly
      case Yearly => yearly
    }

    function AllNames(): set<Str> {
      NamesOf(points) + NamesOf(weekly) + NamesOf(monthly) + NamesOf(yearly) + NamesOf(team) + NamesOf(rank)
    }
  }

  /**
   * After merging the categories in `done`: each of them holds its list's entries, and
   * every category a name has no entry in (or that is not merged yet) is `{0, 0}`.
   */
  ghost predicate Merged(m: map<Str, PlayerInfo>, r: Rankings, done: nat) {
    && (forall c :: MergeOrder(c) < done ==> RanksSet(m, r.List(c), c, |r.List(c)|))
    && (forall name, c :: name in m && (MergeOrder(c) >= done || name !in NamesOf(r.List(c))) ==> m[name].Get(c) == NoRank)
  }

  /** The position of each category's block in the source. */
  function MergeOrder(c: Category): nat {
    match c
    case Points => 0
    case Weekly => 1
    case Monthly => 2
    case Yearly => 3
    case Team => 4
    case Rank => 5
  }

  /** Merging one more category keeps what the earlier merges established. */
  lemma MergeStep(prev: map<Str, PlayerInfo>, out: map<Str, PlayerInfo>, r: Rankings, done: nat, c: Category)
    requires Merged(prev, r, done) && MergeOrder(c) == done
    requires MergeResult(prev, r.List(c), c, out)
    ensures Merged(out, r, done + 1)
  {
    forall c' | MergeOrder(c') < done + 1
      ensures RanksSet(out, r.List(c'), c', |r.List(c')|)
    {
      if c' != c {
        var list := r.List(c');
        forall j | 0 <= j < |list| && LastBefore(list, j, |list|)
          ensures list[j].0 in out && out[list[j].0].Get(c') == RankInfo(list[j].1, j + 1)
        {
          assert RanksSet(prev, list, c', |list|);
          assert list[j].0 in prev;
        }
      }
    }
    forall name, c' | name in out && (MergeOrder(c') >= done + 1 || name !in NamesOf(r.List(c')))
      ensures out[name].Get(c') == NoRank
    {
      if c' == c {
        assert name in prev;
      } else {
        assert out[name].Get(c') == Existing(prev, name).Get(c');
      }
    }
  }

  /** One category block of the source, seen against the categories merged before it. */
  method MergeNext(prev: map<Str, PlayerInfo>, r: Rankings, ghost done: nat, c: Category)
    returns (out: map<Str, PlayerInfo>)
    requires Merged(prev, r, done) && MergeOrder(c) == done
    ensures Merged(out, r, done + 1)
    ensures out.Keys == prev.Keys + NamesOf(r.List(c))
  {
    out := MergeCategory(prev, r.List(c), c);
    MergeStep(prev, out, r, done, c);
  }


  /** The names of the first `k` category blocks' lists. */
  function NamesUpTo(r: Rankings, k: nat): set<Str>
    requires k <= 6
  {
    if k == 0 then {}
    else NamesUpTo(r, k - 1) + NamesOf(r.List([Points, Weekly, Monthly, Yearly, Team, Rank][k - 1]))
  }

  lemma MergedAll(m: map<Str, PlayerInfo>, r: Rankings)
    requires Merged(m, r, 6)
    ensures forall c :: RanksSet(m, r.List(c), c, |r.List(c)|)
    ensures forall name, c :: name in m && name !in NamesOf(r.List(c)) ==> m[name].Get(c) == NoRank
  {
    assert forall c :: MergeOrder(c) < 6;
  }

  /**
   * The `players` map the source builds: one record per name seen in any list; each
   * category holds the (last) entry of that name in its list, with its 1-based index,
   * and `{0, 0}` when the name is not in that list.
   */
  method CollectPlayers(r: Rankings) returns (players: map<Str, PlayerInfo>)
    ensures players.Keys == r.AllNames()
    ensures forall c :: RanksSet(players, r.List(c), c, |r.List(c)|)
    ensures forall name, c :: name in players && name !in NamesOf(r.List(c)) ==> players[name].Get(c) == NoRank
  {
    // The source writes the six category blocks out one after another, in this order.
    var blocks := [Points, Weekly, Monthly, Yearly, Team, Rank];
    players := map[];
    for k := 0 to 6
      invariant Merged(players, r, k)
      invariant players.Keys == NamesUpTo(r, k)
    {
      assert MergeOrder(blocks[k]) == k;
      players := MergeNext(players, r, k, blocks[k]);
    }
    MergedAll(players, r);
    assert NamesUpTo(r, 1) == NamesOf(r.points);
    assert NamesUpTo(r, 2) == NamesOf(r.points) + NamesOf(r.weekly);
    assert NamesUpTo(r, 3) == NamesOf(r.points) + NamesOf(r.weekly) + NamesOf(r.monthly);
    assert NamesUpTo(r, 4) == NamesUpTo(r, 3) + NamesOf(r.yearly);
    assert NamesUpTo(r, 5) == NamesUpTo(r, 4) + NamesOf(r.team);
    assert NamesUpTo(r, 6) == NamesUpTo(r, 5) + NamesOf(r.rank);
  }
}
