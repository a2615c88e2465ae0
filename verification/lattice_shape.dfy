/**
 Recognising a grid's rows and columns by clustering tile centres around running means.
 */
module LatticeShape {
  import opened Common

  const MIN_DIM := 2
  const MAX_DIM := 8

  datatype Rect = Rect(x: real, y: real, width: real, height: real)

  // ----- sums, means, sorting

  function Mean(s: seq<real>): real
    requires s != []
  {
    Sum(s) / |s| as real
  }

  ghost predicate Sorted(s: seq<real>)
  {
    forall i, j :: 0 <= i < j < |s| ==> s[i] <= s[j]
  }

  function Insert(s: seq<real>, v: real): (r: seq<real>)
    requires Sorted(s)
    ensures Sorted(r) && |r| == |s| + 1 && forall x :: x in r <==> x in s || x == v
  {
    if s == [] then [v]
    else if v <= s[0] then [v] + s
    else
      var rest := Insert(s[1..], v);
      assert forall x :: x in s <==> x == s[0] || x in s[1..];
      assert forall j :: 0 <= j < |rest| ==> rest[j] in rest;
      assert forall j :: 1 <= j < |s| ==> s[0] <= s[j];
      [s[0]] + rest
  }

  /** `sorted(values)`. */
  function Sort(s: seq<real>): (r: seq<real>)
    ensures Sorted(r) && |r| == |s| && forall x :: x in r <==> x in s
  {
    if s == [] then []
    else
      assert forall x :: x in s <==> x == s[0] || x in s[1..];
      Insert(Sort(s[1..]), s[0])
  }

  // ----- clustering

  /** The clusters of a sorted prefix: a value joins the last cluster unless it is more than
      `tolerance` away from that cluster's mean. */
  function Clusters(s: seq<real>, tolerance: real): (cs: seq<seq<real>>)
    ensures forall j :: 0 <= j < |cs| ==> cs[j] != []
    ensures s != [] ==> cs != []
  {
    if s == [] then [] else AddValue(Clusters(s[..|s| - 1], tolerance), s[|s| - 1], tolerance)
  }

  function AddValue(cs: seq<seq<real>>, v: real, tolerance: real): (r: seq<seq<real>>)
    requires forall j :: 0 <= j < |cs| ==> cs[j] != []
    ensures forall j :: 0 <= j < |r| ==> r[j] != []
    ensures r != []
  {
    if cs == [] || Abs(v - Mean(cs[|cs| - 1])) > tolerance then cs + [[v]]
    else cs[|cs| - 1 := cs[|cs| - 1] + [v]]
  }

  /** `_cluster_count`: clusters kept as lists, their means recomputed for each value. */
  method ClusterCount(values: seq<real>, tolerance: real) returns (count: nat)
    ensures count == |Clusters(Sort(values), tolerance)|
  {
    var sorted := Sort(values);
    var clusters: seq<seq<real>> := [];
    for i := 0 to |sorted|
      invariant clusters == Clusters(sorted[..i], tolerance)
    {
      assert sorted[..i + 1][..i] == sorted[..i];
      var value := sorted[i];
      if clusters == [] || Abs(value - Mean(clusters[|clusters| - 1])) > tolerance {
        clusters := clusters + [[value]];
      } else {
        clusters := clusters[|clusters| - 1 := clusters[|clusters| - 1] + [value]];
      }
    }
    assert sorted[..|sorted|] == sorted;
    count := |clusters|;
  }

  datatype Group = Group(mean: real, count: nat)

  /** The embedded script's version: each cluster is a mean and a count, updated incrementally. */
  method ScriptClusterCount(values: seq<real>, tolerance: real) returns (count: nat)
    ensures count == |Clusters(Sort(values), tolerance)|
  {
    hide AddValue, Mean, IncrementedMean, Sort;
    var sorted := Sort(values);
    var groups: seq<Group> := [];
    for i := 0 to |sorted|
      invariant Summarises(groups, Clusters(sorted[..i], tolerance))
    {
      ghost var clusters := Clusters(sorted[..i], tolerance);
      assert Clusters(sorted[..i + 1], tolerance) == AddValue(clusters, sorted[i], tolerance) by {
        assert sorted[..i + 1][..i] == sorted[..i];
      }
      SummaryStep(groups, clusters, sorted[i], tolerance);
      var value, last := sorted[i], |groups| - 1;
      if groups == [] || Abs(value - groups[last].mean) > tolerance {
        groups := groups + [Group(value, 1)];
      } else {
        groups := groups[last := Group(IncrementedMean(groups[last], value), groups[last].count + 1)];
      }
    }
    assert sorted[..|sorted|] == sorted;
    count := |groups|;
  }

  function IncrementedMean(g: Group, v: real): real
  {
    (g.mean * g.count as real + v) / (g.count + 1) as real
  }

  /** Each group holds the exact mean and size of the corresponding cluster. */
  ghost predicate Summarises(groups: seq<Group>, clusters: seq<seq<real>>)
  {
    && |groups| == |clusters|
    && forall j :: 0 <= j < |groups| ==> clusters[j] != [] && groups[j] == Group(Mean(clusters[j]), |clusters[j]|)
  }

  lemma SummaryStep(groups: seq<Group>, clusters: seq<seq<real>>, v: real, tolerance: real)
    requires Summarises(groups, clusters)
    ensures Summarises(if groups == [] || Abs(v - groups[|groups| - 1].mean) > tolerance then groups + [Group(v, 1)]
                       else groups[|groups| - 1 := Group(IncrementedMean(groups[|groups| - 1], v), groups[|groups| - 1].count + 1)],
                       AddValue(clusters, v, tolerance))
  {
    hide Mean, IncrementedMean;
    OneValue(v);
    if groups != [] {
      RunningMean(clusters[|groups| - 1], v, groups[|groups| - 1]);
    }
  }

  lemma OneValue(v: real)
    ensures Mean([v]) == v
  {
    assert [v][..0] == [];
    assert Sum([v]) == v;
  }

  /** The incremental update computes the mean of the extended cluster. */
  lemma RunningMean(c: seq<real>, v: real, g: Group)
    requires c != [] && g == Group(Mean(c), |c|)
    ensures Mean(c + [v]) == IncrementedMean(g, v)
  {
    assert (c + [v])[..|c|] == c;
    assert Sum(c + [v]) == Sum(c) + v;
    var n := |c| as real;
    assert Sum(c) / n * n == Sum(c);
  }

  // ----- what a clustering is

  function Flatten(cs: seq<seq<real>>): seq<real>
  {
    if cs == [] then [] else Flatten(cs[..|cs| - 1]) + cs[|cs| - 1]
  }

  /** The mean of the first `n` values. */
  function MeanOf(c: seq<real>, n: nat): real
    requires 0 < n <= |c|
  {
    Sum(c[..n]) / n as real
  }

  /** Every value of a cluster after its first is within the tolerance of the mean of those before it. */
  ghost predicate Cohesive(c: seq<real>, tolerance: real)
  {
    c != [] && forall i :: 0 < i < |c| ==> -tolerance <= c[i] - MeanOf(c, i) <= tolerance
  }

  /** The next cluster begins beyond the tolerance of the whole previous one. */
  ghost predicate BreaksOff(c: seq<real>, next: seq<real>, tolerance: real)
  {
    c != [] && next != [] && !(-tolerance <= next[0] - MeanOf(c, |c|) <= tolerance)
  }

  ghost predicate IsClustering(s: seq<real>, cs: seq<seq<real>>, tolerance: real)
  {
    && Flatten(cs) == s
    && (forall j :: 0 <= j < |cs| ==> Cohesive(cs[j], tolerance))
    && (forall j :: 0 <= j < |cs| - 1 ==> BreaksOff(cs[j], cs[j + 1], tolerance))
  }

  lemma MeanOfPrefix(c: seq<real>, v: real, n: nat)
    requires 0 < n <= |c|
    ensures MeanOf(c + [v], n) == MeanOf(c, n) && MeanOf(c, |c|) == Mean(c)
  {
    assert (c + [v])[..n] == c[..n] && c[..|c|] == c;
  }

  lemma FlattenAppend(cs: seq<seq<real>>, c: seq<real>)
    ensures Flatten(cs + [c]) == Flatten(cs) + c
  {
    assert (cs + [c])[..|cs|] == cs;
  }

  lemma CohesiveAppend(c: seq<real>, v: real, tolerance: real)
    requires Cohesive(c, tolerance) && Abs(v - Mean(c)) <= tolerance
    ensures Cohesive(c + [v], tolerance)
  {
    forall i | 0 < i < |c + [v]|
      ensures -tolerance <= (c + [v])[i] - MeanOf(c + [v], i) <= tolerance
    {
      MeanOfPrefix(c, v, i);
      assert i < |c| ==> (c + [v])[i] == c[i];
    }
  }

  /** The clusters cut the sorted values into consecutive pieces, each value joining the piece before it
      exactly when it is within the tolerance of the mean of that piece so far. */
  lemma {:induction false} ClustersAreClustering(s: seq<real>, tolerance: real)
    ensures IsClustering(s, Clusters(s, tolerance), tolerance)
  {
    if s != [] {
      var init, v := s[..|s| - 1], s[|s| - 1];
      var cs := Clusters(init, tolerance);
      ClustersAreClustering(init, tolerance);
      assert s == init + [v];
      if cs == [] {
        FlattenAppend(cs, [v]);
      } else {
        AddValueClusters(init, cs, v, tolerance);
      }
    }
  }

  lemma AddValueClusters(init: seq<real>, cs: seq<seq<real>>, v: real, tolerance: real)
    requires cs != [] && (forall j :: 0 <= j < |cs| ==> cs[j] != []) && IsClustering(init, cs, tolerance)
    ensures IsClustering(init + [v], AddValue(cs, v, tolerance), tolerance)
  {
    hide Mean, MeanOf;
    var n := |cs| - 1;
    var front, last := cs[..n], cs[n];
    assert cs == front + [last];
    MeanOfPrefix(last, v, |last|);
    if Abs(v - Mean(last)) > tolerance {
      FlattenAppend(cs, [v]);
      NewCluster(cs, v, tolerance);
    } else {
      CohesiveAppend(last, v, tolerance);
      FlattenAppend(front, last);
      FlattenAppend(front, last + [v]);
      assert Flatten(front) + (last + [v]) == init + [v];
      LongerCluster(front, last, last + [v], tolerance);
    }
  }

  lemma NewCluster(cs: seq<seq<real>>, v: real, tolerance: real)
    requires cs != [] && IsClustering(Flatten(cs), cs, tolerance) && BreaksOff(cs[|cs| - 1], [v], tolerance)
    ensures IsClustering(Flatten(cs + [[v]]), cs + [[v]], tolerance)
  {
    hide Mean, MeanOf, BreaksOff, Flatten;
    var more := cs + [[v]];
    forall j | 0 <= j < |more| - 1
      ensures BreaksOff(more[j], more[j + 1], tolerance)
    {
      assert j < |cs| - 1 ==> BreaksOff(cs[j], cs[j + 1], tolerance);
    }
  }

  lemma LongerCluster(front: seq<seq<real>>, last: seq<real>, longer: seq<real>, tolerance: real)
    requires IsClustering(Flatten(front + [last]), front + [last], tolerance) && Cohesive(longer, tolerance)
    requires last != [] && last <= longer
    ensures IsClustering(Flatten(front + [longer]), front + [longer], tolerance)
  {
    hide Mean, MeanOf, Cohesive, Flatten;
    var before, after := front + [last], front + [longer];
    assert forall j :: 0 <= j < |front| ==> before[j] == front[j] == after[j];
    forall j | 0 <= j < |after| - 1
      ensures BreaksOff(after[j], after[j + 1], tolerance)
    {
      assert BreaksOff(before[j], before[j + 1], tolerance);
    }
  }

  // ----- groups are recognised

  ghost predicate AllWithin(c: seq<real>, lo: real, hi: real)
  {
    forall i :: 0 <= i < |c| ==> lo <= c[i] <= hi
  }

  lemma {:induction false} SumBounds(c: seq<real>, lo: real, hi: real)
    requires AllWithin(c, lo, hi)
    ensures lo * |c| as real <= Sum(c) <= hi * |c| as real
  {
    if c != [] {
      var n := |c| - 1;
      SumBounds(c[..n], lo, hi);
      assert |c| as real == n as real + 1.0;
      assert lo * (n as real + 1.0) == lo * n as real + lo && hi * (n as real + 1.0) == hi * n as real + hi;
    }
  }

  lemma MeanBounds(c: seq<real>, lo: real, hi: real)
    requires c != [] && AllWithin(c, lo, hi)
    ensures lo <= Mean(c) <= hi
  {
    SumBounds(c, lo, hi);
    QuotientBounds(Sum(c), |c| as real, lo, hi);
  }

  lemma QuotientBounds(sum: real, n: real, lo: real, hi: real)
    requires n > 0.0 && lo * n <= sum <= hi * n
    ensures lo <= sum / n <= hi
  {
    var q := sum / n;
    assert q * n == sum;
    assert (q - lo) * n >= 0.0 && (hi - q) * n >= 0.0;
  }

  /** A grouping of values: groups are numbered from 0 to k - 1 upwards, no wider than the
      tolerance and further apart than it. */
  ghost predicate Groups(values: seq<real>, tolerance: real, groupOf: real -> nat, k: nat)
  {
    && (forall v :: v in values ==> groupOf(v) < k)
    && (forall j: nat :: j < k ==> HasMember(values, groupOf, j))
    && (forall v, w :: v in values && w in values && groupOf(v) == groupOf(w) ==> w - v <= tolerance)
    && (forall v, w :: v in values && w in values && groupOf(v) < groupOf(w) ==> w - v > tolerance)
  }

  ghost predicate HasMember(values: seq<real>, groupOf: real -> nat, j: nat)
  {
    exists v :: v in values && groupOf(v) == j
  }

  lemma GroupsAscend(s: seq<real>, tolerance: real, groupOf: real -> nat, k: nat, i: nat, j: nat)
    requires Sorted(s) && tolerance >= 0.0 && Groups(s, tolerance, groupOf, k) && i <= j < |s|
    ensures groupOf(s[i]) <= groupOf(s[j])
  {
  }

  /** Along the sorted values the group starts at 0, goes up by at most one, and ends at k - 1. */
  lemma GroupsStep(s: seq<real>, tolerance: real, groupOf: real -> nat, k: nat, i: nat)
    requires Sorted(s) && tolerance >= 0.0 && Groups(s, tolerance, groupOf, k) && i < |s|
    ensures i == 0 ==> groupOf(s[0]) == 0
    ensures i > 0 ==> groupOf(s[i]) == groupOf(s[i - 1]) || groupOf(s[i]) == groupOf(s[i - 1]) + 1
    ensures i == |s| - 1 ==> groupOf(s[i]) == k - 1
  {
    assert s[i] in s;
    var next := if i == 0 then 0 else groupOf(s[i - 1]) + 1;
    if i > 0 {
      GroupsAscend(s, tolerance, groupOf, k, i - 1, i);
    }
    if next < groupOf(s[i]) {
      var j := SomeMember(s, tolerance, groupOf, k, next);
      if j < i {
        GroupsAscend(s, tolerance, groupOf, k, j, i - 1);
      } else {
        GroupsAscend(s, tolerance, groupOf, k, i, j);
      }
    }
    if i == |s| - 1 {
      var j := SomeMember(s, tolerance, groupOf, k, k - 1);
      GroupsAscend(s, tolerance, groupOf, k, j, i);
    }
  }

  lemma SomeMember(s: seq<real>, tolerance: real, groupOf: real -> nat, k: nat, g: nat) returns (j: nat)
    requires Groups(s, tolerance, groupOf, k) && g < k
    ensures j < |s| && groupOf(s[j]) == g
  {
    assert HasMember(s, groupOf, g);
    var v :| v in s && groupOf(v) == g;
    j :| j < |s| && s[j] == v;
  }

  /** Every value of the cluster is one of `s`, belongs to group `g` and is at most `top`. */
  ghost predicate DrawnFrom(c: seq<real>, s: seq<real>, groupOf: real -> nat, g: nat, top: real)
  {
    forall m :: 0 <= m < |c| ==> c[m] in s && groupOf(c[m]) == g && c[m] <= top
  }

  /** After each prefix the number of clusters is the group of its last value plus one, and the
      last cluster holds values of that group only. */
  lemma {:induction false} PrefixClusters(s: seq<real>, tolerance: real, groupOf: real -> nat, k: nat, n: nat)
    requires Sorted(s) && tolerance >= 0.0 && Groups(s, tolerance, groupOf, k) && 0 < n <= |s|
    ensures var cs := Clusters(s[..n], tolerance);
            && |cs| == groupOf(s[n - 1]) + 1
            && DrawnFrom(cs[|cs| - 1], s, groupOf, groupOf(s[n - 1]), s[n - 1])
  {
    hide Mean, Groups;
    assert s[..n][..n - 1] == s[..n - 1] && s[n - 1] in s;
    GroupsStep(s, tolerance, groupOf, k, n - 1);
    if n == 1 {
      assert s[..0] == [];
    } else {
      PrefixClusters(s, tolerance, groupOf, k, n - 1);
      var cs, v := Clusters(s[..n - 1], tolerance), s[n - 1];
      assert s[n - 2] <= v;
      NextValue(cs[|cs| - 1], s, tolerance, groupOf, k, groupOf(s[n - 2]), s[n - 2], v);
    }
  }

  /** The next value joins the cluster of its own group, and no cluster of a lower one. */
  lemma NextValue(c: seq<real>, s: seq<real>, tolerance: real, groupOf: real -> nat, k: nat, g: nat, top: real, v: real)
    requires c != [] && DrawnFrom(c, s, groupOf, g, top) && Groups(s, tolerance, groupOf, k)
    requires v in s && top <= v && groupOf(v) >= g && tolerance >= 0.0
    ensures Abs(v - Mean(c)) <= tolerance <==> groupOf(v) == g
  {
    if groupOf(v) == g {
      MeanBounds(c, v - tolerance, v);
    } else {
      ClusterIsFar(c, v, tolerance);
    }
  }

  /** A cluster all of whose values are more than the tolerance below `v` has its mean there too. */
  lemma ClusterIsFar(c: seq<real>, v: real, tolerance: real)
    requires c != [] && forall i :: 0 <= i < |c| ==> v - c[i] > tolerance
    ensures v - Mean(c) > tolerance
  {
    MeanBounds(c, Lowest(c), Highest(c));
  }

  function Highest(c: seq<real>): (m: real)
    requires c != []
    ensures m in c && forall i :: 0 <= i < |c| ==> c[i] <= m
  {
    if |c| == 1 then c[0] else if Highest(c[1..]) > c[0] then Highest(c[1..]) else c[0]
  }

  function Lowest(c: seq<real>): (m: real)
    requires c != []
    ensures m in c && forall i :: 0 <= i < |c| ==> m <= c[i]
  {
    if |c| == 1 then c[0] else if Lowest(c[1..]) < c[0] then Lowest(c[1..]) else c[0]
  }

  lemma SortKeepsGroups(values: seq<real>, tolerance: real, groupOf: real -> nat, k: nat)
    requires Groups(values, tolerance, groupOf, k)
    ensures Groups(Sort(values), tolerance, groupOf, k)
  {
    forall j: nat | j < k
      ensures HasMember(Sort(values), groupOf, j)
    {
      assert HasMember(values, groupOf, j);
    }
  }

  /** Values that form k separated groups give k clusters, in whatever order they are listed. */
  lemma GroupsAreCounted(values: seq<real>, tolerance: real, groupOf: real -> nat, k: nat)
    requires tolerance >= 0.0 && Groups(values, tolerance, groupOf, k)
    ensures |Clusters(Sort(values), tolerance)| == k
  {
    assert Clusters([], tolerance) == [];
    hide Groups, DrawnFrom, AddValue, Sort, Clusters, Sorted;
    var s := Sort(values);
    SortKeepsGroups(values, tolerance, groupOf, k);
    if s != [] {
      PrefixClusters(s, tolerance, groupOf, k, |s|);
      GroupsStep(s, tolerance, groupOf, k, |s| - 1);
      assert s[..|s|] == s;
    } else if k > 0 {
      var _ := SomeMember(s, tolerance, groupOf, k, 0);
    }
  }

  // ----- inferring a shape

  function Tolerance(side: real): real
  {
    Max(6.0, Min(36.0, side * 0.45))
  }

  /** `_infer_shape`; a missing rectangle is None. */
  function InferShape(rects: seq<Option<Rect>>): Option<(nat, nat)>
  {
    if rects == [] || exists i :: 0 <= i < |rects| && rects[i].None? then None
    else ShapeOf(seq(|rects|, i requires 0 <= i < |rects| && rects[i].Some? => rects[i].value))
  }

  function Widths(rects: seq<Rect>): seq<real>
  {
    seq(|rects|, i requires 0 <= i < |rects| => rects[i].width)
  }

  function Heights(rects: seq<Rect>): seq<real>
  {
    seq(|rects|, i requires 0 <= i < |rects| => rects[i].height)
  }

  function CentersX(rects: seq<Rect>): seq<real>
  {
    seq(|rects|, i requires 0 <= i < |rects| => rects[i].x + rects[i].width / 2.0)
  }

  function CentersY(rects: seq<Rect>): seq<real>
  {
    seq(|rects|, i requires 0 <= i < |rects| => rects[i].y + rects[i].height / 2.0)
  }

  function ShapeOf(rects: seq<Rect>): Option<(nat, nat)>
    requires rects != []
  {
    if exists i :: 0 <= i < |rects| && (rects[i].width <= 0.0 || rects[i].height <= 0.0) then None
    else
      var rows := |Clusters(Sort(CentersY(rects)), Tolerance(Mean(Heights(rects))))|;
      var columns := |Clusters(Sort(CentersX(rects)), Tolerance(Mean(Widths(rects))))|;
      if !(MIN_DIM <= rows <= MAX_DIM && MIN_DIM <= columns <= MAX_DIM) then None
      else if rows * columns == |rects| then Some((rows, columns)) else None
  }

  /** Increasing with steps of at least `step`. */
  ghost predicate Spaced(s: seq<real>, step: real)
  {
    forall i, j :: 0 <= i < j < |s| ==> s[j] - s[i] >= step
  }

  ghost predicate IsCell(r: Rect, xs: seq<real>, ys: seq<real>, w: real, h: real, i: nat, j: nat)
  {
    i < |ys| && j < |xs| && r == Rect(xs[j], ys[i], w, h)
  }

  ghost predicate OnLattice(r: Rect, xs: seq<real>, ys: seq<real>, w: real, h: real)
  {
    exists i: nat, j: nat :: IsCell(r, xs, ys, w, h, i, j)
  }

  /** `rects` lists, in any order, the cells of a lattice of equal non-overlapping cells. */
  ghost predicate IsLattice(rects: seq<Rect>, xs: seq<real>, ys: seq<real>, w: real, h: real)
  {
    && |rects| == |ys| * |xs|
    && Spaced(xs, w) && Spaced(ys, h)
    && (forall k :: 0 <= k < |rects| ==> OnLattice(rects[k], xs, ys, w, h))
    && (forall i: nat, j: nat :: i < |ys| && j < |xs| ==> HasCell(rects, xs, ys, w, h, i, j))
  }

  ghost predicate HasCell(rects: seq<Rect>, xs: seq<real>, ys: seq<real>, w: real, h: real, i: nat, j: nat)
  {
    exists k :: 0 <= k < |rects| && IsCell(rects[k], xs, ys, w, h, i, j)
  }

  /** The level a centre belongs to. */
  ghost function LevelOf(levels: seq<real>, v: real): nat
  {
    if exists i: nat :: i < |levels| && levels[i] == v then
      var i: nat :| i < |levels| && levels[i] == v; i
    else 0
  }

  /** Centres that take exactly the values of a spaced sequence of levels form as many groups. */
  lemma LevelsAreCounted(centres: seq<real>, levels: seq<real>, side: real, tolerance: real)
    requires 0.0 <= tolerance < side && Spaced(levels, side)
    requires forall v :: v in centres <==> v in levels
    ensures |Clusters(Sort(centres), tolerance)| == |levels|
  {
    var groupOf: real -> nat := v => LevelOf(levels, v);
    forall v | v in levels
      ensures groupOf(v) < |levels| && levels[groupOf(v)] == v
    {
      var i :| 0 <= i < |levels| && levels[i] == v;
    }
    forall j: nat | j < |levels|
      ensures HasMember(centres, groupOf, j)
    {
      var v := levels[j];
      assert v in levels && v in centres;
      assert groupOf(v) == j;
    }
    assert Groups(centres, tolerance, groupOf, |levels|);
    GroupsAreCounted(centres, tolerance, groupOf, |levels|);
  }

  lemma ConstantMean(s: seq<real>, v: real)
    requires s != [] && forall i :: 0 <= i < |s| ==> s[i] == v
    ensures Mean(s) == v
  {
    MeanBounds(s, v, v);
  }

  lemma ToleranceBelowSide(side: real)
    requires side > 6.0
    ensures 0.0 <= Tolerance(side) < side
  {
  }

  function Shifted(s: seq<real>, d: real): (r: seq<real>)
    ensures |r| == |s| && forall i :: 0 <= i < |s| ==> r[i] == s[i] + d
  {
    seq(|s|, i requires 0 <= i < |s| => s[i] + d)
  }

  /** Some or all cells of a lattice, possibly listed more than once, with at least one in every row and
      in every column. */
  ghost predicate IsPartOfLattice(rects: seq<Rect>, xs: seq<real>, ys: seq<real>, w: real, h: real)
  {
    && rects != [] && Spaced(xs, w) && Spaced(ys, h)
    && (forall k :: 0 <= k < |rects| ==> OnLattice(rects[k], xs, ys, w, h))
    && (forall i: nat :: i < |ys| ==> RowIsHit(rects, xs, ys, w, h, i))
    && (forall j: nat :: j < |xs| ==> ColumnIsHit(rects, xs, ys, w, h, j))
  }

  ghost predicate RowIsHit(rects: seq<Rect>, xs: seq<real>, ys: seq<real>, w: real, h: real, i: nat)
  {
    exists k, j: nat :: 0 <= k < |rects| && IsCell(rects[k], xs, ys, w, h, i, j)
  }

  ghost predicate ColumnIsHit(rects: seq<Rect>, xs: seq<real>, ys: seq<real>, w: real, h: real, j: nat)
  {
    exists k, i: nat :: 0 <= k < |rects| && IsCell(rects[k], xs, ys, w, h, i, j)
  }

  lemma LatticeIsPartOfItself(rects: seq<Rect>, xs: seq<real>, ys: seq<real>, w: real, h: real)
    requires IsLattice(rects, xs, ys, w, h) && xs != [] && ys != []
    ensures IsPartOfLattice(rects, xs, ys, w, h)
  {
    forall i: nat | i < |ys|
      ensures RowIsHit(rects, xs, ys, w, h, i)
    {
      assert HasCell(rects, xs, ys, w, h, i, 0);
      var k :| 0 <= k < |rects| && IsCell(rects[k], xs, ys, w, h, i, 0);
    }
    forall j: nat | j < |xs|
      ensures ColumnIsHit(rects, xs, ys, w, h, j)
    {
      assert HasCell(rects, xs, ys, w, h, 0, j);
      var k :| 0 <= k < |rects| && IsCell(rects[k], xs, ys, w, h, 0, j);
    }
    assert HasCell(rects, xs, ys, w, h, 0, 0);
    var k :| 0 <= k < |rects| && IsCell(rects[k], xs, ys, w, h, 0, 0);
  }

  lemma CentresAreRows(rects: seq<Rect>, xs: seq<real>, ys: seq<real>, w: real, h: real)
    requires IsPartOfLattice(rects, xs, ys, w, h)
    ensures forall v :: v in CentersY(rects) <==> v in Shifted(ys, h / 2.0)
  {
    forall k | 0 <= k < |rects|
      ensures CentersY(rects)[k] in Shifted(ys, h / 2.0)
    {
      assert OnLattice(rects[k], xs, ys, w, h);
      var i: nat, j: nat :| IsCell(rects[k], xs, ys, w, h, i, j);
      assert Shifted(ys, h / 2.0)[i] == CentersY(rects)[k];
    }
    forall v | v in Shifted(ys, h / 2.0)
      ensures v in CentersY(rects)
    {
      var i: nat :| i < |ys| && Shifted(ys, h / 2.0)[i] == v;
      assert RowIsHit(rects, xs, ys, w, h, i);
      var k, j: nat :| 0 <= k < |rects| && IsCell(rects[k], xs, ys, w, h, i, j);
      assert CentersY(rects)[k] == v;
    }
  }

  lemma CentresAreColumns(rects: seq<Rect>, xs: seq<real>, ys: seq<real>, w: real, h: real)
    requires IsPartOfLattice(rects, xs, ys, w, h)
    ensures forall v :: v in CentersX(rects) <==> v in Shifted(xs, w / 2.0)
  {
    forall k | 0 <= k < |rects|
      ensures CentersX(rects)[k] in Shifted(xs, w / 2.0)
    {
      assert OnLattice(rects[k], xs, ys, w, h);
      var i: nat, j: nat :| IsCell(rects[k], xs, ys, w, h, i, j);
      assert Shifted(xs, w / 2.0)[j] == CentersX(rects)[k];
    }
    forall v | v in Shifted(xs, w / 2.0)
      ensures v in CentersX(rects)
    {
      var j: nat :| j < |xs| && Shifted(xs, w / 2.0)[j] == v;
      assert ColumnIsHit(rects, xs, ys, w, h, j);
      var k, i: nat :| 0 <= k < |rects| && IsCell(rects[k], xs, ys, w, h, i, j);
      assert CentersX(rects)[k] == v;
    }
  }

  /** Tiles taken from a lattice are inferred as that lattice if and only if they are as many as it has
      cells and it has 2 to 8 rows and columns; with a cell left out, or out of that range, they have no
      shape. */
  lemma PartOfLatticeIsInferredIffFull(rects: seq<Rect>, xs: seq<real>, ys: seq<real>, w: real, h: real)
    requires IsPartOfLattice(rects, xs, ys, w, h) && w > 6.0 && h > 6.0
    ensures ShapeOf(rects) == if 2 <= |ys| <= 8 && 2 <= |xs| <= 8 && |rects| == |ys| * |xs| then Some((|ys|, |xs|)) else None
  {
    hide Mean, Clusters, Sort;
    CentresAreRows(rects, xs, ys, w, h);
    CentresAreColumns(rects, xs, ys, w, h);
    forall k | 0 <= k < |rects|
      ensures rects[k].width == w && rects[k].height == h
    {
      assert OnLattice(rects[k], xs, ys, w, h);
      var i: nat, j: nat :| IsCell(rects[k], xs, ys, w, h, i, j);
    }
    ConstantMean(Widths(rects), w);
    ConstantMean(Heights(rects), h);
    ToleranceBelowSide(w);
    ToleranceBelowSide(h);
    LevelsAreCounted(CentersY(rects), Shifted(ys, h / 2.0), h, Tolerance(h));
    LevelsAreCounted(CentersX(rects), Shifted(xs, w / 2.0), w, Tolerance(w));
  }

  /** Every lattice of 2 to 8 rows and columns of equal non-overlapping cells with sides above 6 is
      recognised, in whatever order its cells are listed. */
  lemma {:induction false} LatticeIsRecognised(rects: seq<Rect>, xs: seq<real>, ys: seq<real>, w: real, h: real)
    requires IsLattice(rects, xs, ys, w, h) && w > 6.0 && h > 6.0
    requires MIN_DIM <= |ys| <= MAX_DIM && MIN_DIM <= |xs| <= MAX_DIM
    ensures rects != [] && ShapeOf(rects) == Some((|ys|, |xs|))
  {
    LatticeIsPartOfItself(rects, xs, ys, w, h);
    PartOfLatticeIsInferredIffFull(rects, xs, ys, w, h);
  }

  /** The tolerance for tiles of this mean side: 45% of it, but at least 6 and at most 36. */
  predicate IsTolerance(mean: real, t: real)
  {
    if mean * 0.45 < 6.0 then t == 6.0 else if mean * 0.45 > 36.0 then t == 36.0 else t == mean * 0.45
  }

  /** Tiles need not be aligned or equal: tiles of positive size whose centres form r rows and c columns,
      none wider than the tolerance and all further apart than it, have the shape (r, c) if that is in
      range and they are r * c, and no shape otherwise. */
  lemma GroupedTilesAreInferred(rects: seq<Rect>, rowOf: real -> nat, r: nat, columnOf: real -> nat, c: nat, down: real, across: real)
    requires rects != [] && forall k :: 0 <= k < |rects| ==> rects[k].width > 0.0 && rects[k].height > 0.0
    requires IsTolerance(Sum(Heights(rects)) / |rects| as real, down) && IsTolerance(Sum(Widths(rects)) / |rects| as real, across)
    requires Groups(CentersY(rects), down, rowOf, r) && Groups(CentersX(rects), across, columnOf, c)
    ensures ShapeOf(rects) == if 2 <= r <= 8 && 2 <= c <= 8 && |rects| == r * c then Some((r, c)) else None
  {
    hide Clusters, Sort, Groups;
    GroupsAreCounted(CentersY(rects), down, rowOf, r);
    GroupsAreCounted(CentersX(rects), across, columnOf, c);
  }

  /** No tiles, a tile without a rectangle, or one without a size: no shape. */
  lemma UnusableTilesHaveNoShape(found: seq<Option<Rect>>)
    requires found == [] || exists k :: 0 <= k < |found| && (found[k].None? || found[k].value.width <= 0.0 || found[k].value.height <= 0.0)
    ensures InferShape(found) == None
  {
    if found != [] && forall k :: 0 <= k < |found| ==> found[k].Some? {
      var rects := seq(|found|, i requires 0 <= i < |found| && found[i].Some? => found[i].value);
      var k :| 0 <= k < |found| && (found[k].value.width <= 0.0 || found[k].value.height <= 0.0);
      assert rects[k] == found[k].value;
    }
  }

  /** The same for rectangles that may be missing: a complete lattice is recognised, and a list with
      a missing rectangle never is. */
  lemma CompleteLatticeIsInferred(found: seq<Option<Rect>>, rects: seq<Rect>, xs: seq<real>, ys: seq<real>, w: real, h: real)
    requires |found| == |rects| && IsLattice(rects, xs, ys, w, h) && w > 6.0 && h > 6.0
    requires MIN_DIM <= |ys| <= MAX_DIM && MIN_DIM <= |xs| <= MAX_DIM
    requires forall k :: 0 <= k < |found| ==> found[k].None? || found[k] == Some(rects[k])
    ensures InferShape(found) == if forall k :: 0 <= k < |found| ==> found[k].Some? then Some((|ys|, |xs|)) else None
  {
    LatticeIsRecognised(rects, xs, ys, w, h);
    hide ShapeOf, IsLattice;
    if forall k :: 0 <= k < |found| ==> found[k].Some? {
      assert seq(|found|, i requires 0 <= i < |found| && found[i].Some? => found[i].value) == rects;
    }
  }
}
