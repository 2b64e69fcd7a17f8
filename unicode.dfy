/**
 * The two Unicode services the index builder takes from libraries: lowercasing
 * (`str::to_lowercase`) and extended grapheme cluster segmentation (Unicode Standard
 * Annex #29, section 3, via `graphemes(true)`). Their tables are not part of this
 * model: both are carried as functions in `TextOps`, and all the builder relies on is
 * what `Valid` states about the segmenter.
 */
module Unicode {
  import opened Common

  /**
   * `lower` is Unicode lowercasing of a UTF-8 string; `clusterLen(s)` is the byte
   * length of the first extended grapheme cluster of `s`.
   */
  datatype TextOps = TextOps(lower: Str -> Str, clusterLen: Str -> nat)
  {
    /** The segmentation contract: no cluster in "", otherwise a non-empty prefix of `s`. */
    ghost predicate Valid() {
      forall s: Str :: ClusterLenOk(s, clusterLen(s))
    }
  }

  predicate ClusterLenOk(s: Str, n: nat) {
    if s == [] then n == 0 else 1 <= n <= |s|
  }

  /** `s.graphemes(true).next()`: the first grapheme cluster, if `s` is not empty. */
  function FirstCluster(ops: TextOps, s: Str): (g: Option<Str>)
    requires ops.Valid()
    ensures g.None? <==> s == []
    ensures g.Some? ==> g.value != [] && IsPrefix(g.value, s)
  {
    assert ClusterLenOk(s, ops.clusterLen(s));
    if s == [] then None else Some(s[..ops.clusterLen(s)])
  }

  /** The whole segmentation of `s` into grapheme clusters, front to back. */
  function Clusters(ops: TextOps, s: Str): (gs: seq<Str>)
    requires ops.Valid()
    ensures forall i :: 0 <= i < |gs| ==> gs[i] != []
    ensures (gs == []) == (s == [])
    decreases |s|
  {
    if s == [] then []
    else
      var g := FirstCluster(ops, s).value;
      [g] + Clusters(ops, s[|g|..])
  }

  /** The clusters concatenate back to the string they were taken from. */
  lemma {:induction false} ClustersConcat(ops: TextOps, s: Str)
    requires ops.Valid()
    ensures Flatten(Clusters(ops, s)) == s
    decreases |s|
  {
    if s != [] {
      var g := FirstCluster(ops, s).value;
      var gs := Clusters(ops, s);
      assert gs[1..] == Clusters(ops, s[|g|..]);
      ClustersConcat(ops, s[|g|..]);
      FlattenAppend([g], gs[1..]);
      assert Flatten([g]) == Flatten([]) + g == g;
      assert gs == [g] + gs[1..];
      assert s == g + s[|g|..];
    }
  }
}
