/**
 Active track positions: bridging small gaps in place and cutting the result into segments.
 Bridging the array and merging the segments of the original array are the same thing.
 */
module TrackSegments {
  import opened Common

  datatype Segment = Segment(start: int, end: int)

  // ----- what bridging means, position by position

  /** `i` lies in an inactive stretch of at most `gap` positions with an active one on each side. */
  ghost predicate InGap(s: seq<bool>, i: int, l: int, r: int, gap: int)
  {
    && 0 <= l < i < r < |s| && s[l] && s[r] && r - l - 1 <= gap
    && forall k :: l < k < r ==> !s[k]
  }

  ghost predicate Filled(s: seq<bool>, i: int, gap: int)
    requires 0 <= i < |s|
  {
    s[i] || exists l, r :: InGap(s, i, l, r, gap)
  }

  ghost predicate IsBridged(s: seq<bool>, b: seq<bool>, gap: int)
  {
    |b| == |s| && forall i :: 0 <= i < |s| ==> (b[i] <==> Filled(s, i, gap))
  }

  /** A maximal inactive run is filled as a whole or not at all. */
  lemma RunIsFilledWhole(s: seq<bool>, a: int, b: int, gap: int)
    requires 0 <= a < b <= |s| && forall k :: a <= k < b ==> !s[k]
    requires (a > 0 ==> s[a - 1]) && (b < |s| ==> s[b])
    ensures forall i :: a <= i < b ==> (Filled(s, i, gap) <==> a > 0 && b < |s| && b - a <= gap)
  {
    forall i | a <= i < b
      ensures Filled(s, i, gap) <==> a > 0 && b < |s| && b - a <= gap
    {
      if a > 0 && b < |s| && b - a <= gap {
        assert InGap(s, i, a - 1, b, gap);
      }
      if l, r :| InGap(s, i, l, r, gap) {
        assert l < a && b <= r;
        assert l == a - 1 && r == b;
      }
    }
  }

  /** `_bridge_small_gaps`, in place. */
  method BridgeSmallGaps(values: array<bool>, maxGap: int)
    modifies values
    ensures IsBridged(old(values[..]), values[..], maxGap)
  {
    ghost var s := values[..];
    var index := 0;
    while index < values.Length
      invariant 0 <= index <= values.Length
      invariant 0 < index < values.Length ==> s[index - 1] || s[index]
      invariant forall i :: index <= i < values.Length ==> values[i] == s[i]
      invariant forall i :: 0 <= i < index ==> (values[i] <==> Filled(s, i, maxGap))
    {
      if values[index] {
        index := index + 1;
        continue;
      }
      var start := index;
      while index < values.Length && !values[index]
        invariant start <= index <= values.Length
        invariant forall i :: start <= i < index ==> !s[i]
      {
        index := index + 1;
      }
      var end := index - 1;
      RunIsFilledWhole(s, start, index, maxGap);
      if start > 0 && index < values.Length && end - start + 1 <= maxGap {
        ghost var before := values[..];
        for cursor := start to end + 1
          invariant forall i :: 0 <= i < values.Length ==> values[i] == (start <= i < cursor || before[i])
        {
          values[cursor] := true;
        }
      }
    }
  }

  /** Bridging only adds active positions. */
  lemma BridgingOnlyAdds(s: seq<bool>, b: seq<bool>, gap: int)
    requires IsBridged(s, b, gap)
    ensures forall i :: 0 <= i < |s| && s[i] ==> b[i]
  {
  }

  lemma FillReachesNeighbours(s: seq<bool>, i: int, j: int, l: int, r: int, gap: int)
    requires InGap(s, i, l, r, gap) && (j == i + 1 || j == i - 1)
    ensures Filled(s, j, gap)
  {
    if l < j < r {
      assert InGap(s, j, l, r, gap);
    }
  }

  /** An active position next to an inactive one was active before bridging. */
  lemma EdgeWasActive(s: seq<bool>, b: seq<bool>, gap: int, i: int, j: int)
    requires IsBridged(s, b, gap) && 0 <= i < |s| && 0 <= j < |s| && (j == i + 1 || j == i - 1)
    requires b[i] && !b[j]
    ensures s[i]
  {
    assert Filled(s, i, gap) && !Filled(s, j, gap);
    if l, r :| InGap(s, i, l, r, gap) {
      FillReachesNeighbours(s, i, j, l, r, gap);
    }
  }

  /** After bridging, every inactive stretch between two active positions is wider than `gap`. */
  lemma RemainingGapsAreWide(s: seq<bool>, b: seq<bool>, gap: int, l: int, r: int)
    requires IsBridged(s, b, gap) && 0 <= l && l + 1 < r < |s|
    requires b[l] && b[r] && forall k :: l < k < r ==> !b[k]
    ensures r - l - 1 > gap
  {
    EdgeWasActive(s, b, gap, l, l + 1);
    EdgeWasActive(s, b, gap, r, r - 1);
    BridgingOnlyAdds(s, b, gap);
    assert !Filled(s, l + 1, gap);
    assert !InGap(s, l + 1, l, r, gap);
  }

  /** Bridging twice is bridging once. */
  lemma BridgingIsIdempotent(s: seq<bool>, b: seq<bool>, c: seq<bool>, gap: int)
    requires IsBridged(s, b, gap) && IsBridged(b, c, gap)
    ensures c == b
  {
    forall i | 0 <= i < |s|
      ensures c[i] == b[i]
    {
      assert c[i] <==> Filled(b, i, gap);
      forall l, r
        ensures !InGap(b, i, l, r, gap)
      {
        if 0 <= l < i < r < |b| && b[l] && b[r] && forall k :: l < k < r ==> !b[k] {
          RemainingGapsAreWide(s, b, gap, l, r);
        }
      }
    }
  }

  // ----- segments

  ghost predicate Covers(segs: seq<Segment>, i: int)
  {
    exists j :: 0 <= j < |segs| && segs[j].start <= i <= segs[j].end
  }

  /** Non-empty, in order, and never adjacent: each segment is a maximal run. */
  ghost predicate Spaced(segs: seq<Segment>)
  {
    && (forall j :: 0 <= j < |segs| ==> segs[j].start <= segs[j].end)
    && (forall j, k :: 0 <= j < k < |segs| ==> segs[j].end + 1 < segs[k].start)
  }

  ghost predicate Within(segs: seq<Segment>, lo: int, hi: int)
  {
    forall j :: 0 <= j < |segs| ==> lo <= segs[j].start && segs[j].end < hi
  }

  /** `segs` cuts `s` exactly: sorted, disjoint, maximal, and it reconstructs the array. */
  ghost predicate IsSegmentation(s: seq<bool>, lo: int, segs: seq<Segment>)
  {
    && 0 <= lo && Spaced(segs) && Within(segs, lo, |s|)
    && forall i :: lo <= i < |s| ==> (s[i] <==> Covers(segs, i))
  }

  lemma CoversAppendAt(segs: seq<Segment>, last: Segment, i: int)
    ensures Covers(segs + [last], i) <==> Covers(segs, i) || last.start <= i <= last.end
  {
    var longer := segs + [last];
    if j :| 0 <= j < |segs| && segs[j].start <= i <= segs[j].end {
      assert longer[j] == segs[j];
    }
    assert longer[|segs|] == last;
  }

  lemma CoversAppend(segs: seq<Segment>, last: Segment)
    ensures forall i :: Covers(segs + [last], i) <==> Covers(segs, i) || last.start <= i <= last.end
  {
    forall i
      ensures Covers(segs + [last], i) <==> Covers(segs, i) || last.start <= i <= last.end
    {
      CoversAppendAt(segs, last, i);
    }
  }

  /** `_segments`. */
  method Segments(values: seq<bool>) returns (segs: seq<Segment>)
    ensures IsSegmentation(values, 0, segs)
  {
    segs := [];
    var start: Option<int> := None;
    for index := 0 to |values|
      invariant Spaced(segs) && Within(segs, 0, |values|)
      invariant forall j :: 0 <= j < |segs| ==> segs[j].end + 1 < (if start.Some? then start.value else index)
      invariant start.Some? ==> 0 <= start.value < index && values[start.value]
      invariant forall i :: 0 <= i < index ==> (values[i] <==> Covers(segs, i) || (start.Some? && start.value <= i))
    {
      if values[index] && start.None? {
        start := Some(index);
      } else if !values[index] && start.Some? {
        CoversAppend(segs, Segment(start.value, index - 1));
        segs := segs + [Segment(start.value, index - 1)];
        start := None;
      }
    }
    if start.Some? {
      CoversAppend(segs, Segment(start.value, |values| - 1));
      segs := segs + [Segment(start.value, |values| - 1)];
    }
  }

  lemma DropFirst(s: seq<bool>, lo: int, segs: seq<Segment>)
    requires IsSegmentation(s, lo, segs) && segs != []
    ensures IsSegmentation(s, segs[0].end + 1, segs[1..])
    ensures forall i :: lo <= i < segs[0].start ==> !s[i]
    ensures forall i :: segs[0].start <= i <= segs[0].end ==> s[i]
    ensures segs[0].end + 1 < |s| ==> !s[segs[0].end + 1]
  {
  }

  /** An array has only one such cut. */
  lemma {:induction false} SegmentationIsUnique(s: seq<bool>, lo: int, a: seq<Segment>, b: seq<Segment>)
    requires IsSegmentation(s, lo, a) && IsSegmentation(s, lo, b)
    ensures a == b
    decreases |a|
  {
    NoSegmentsMeansInactive(s, lo, a);
    NoSegmentsMeansInactive(s, lo, b);
    if a != [] {
      DropFirst(s, lo, a);
      DropFirst(s, lo, b);
      assert a[0].start == b[0].start by {
        assert s[a[0].start] && s[b[0].start];
      }
      assert a[0].end == b[0].end by {
        assert a[0].end + 1 < |s| ==> !s[a[0].end + 1];
        assert b[0].end + 1 < |s| ==> !s[b[0].end + 1];
      }
      SegmentationIsUnique(s, a[0].end + 1, a[1..], b[1..]);
      assert a == [a[0]] + a[1..] && b == [b[0]] + b[1..];
    }
  }

  lemma NoSegmentsMeansInactive(s: seq<bool>, lo: int, segs: seq<Segment>)
    requires IsSegmentation(s, lo, segs)
    ensures segs == [] <==> forall i :: lo <= i < |s| ==> !s[i]
  {
    if segs != [] {
      assert Covers(segs, segs[0].start);
    }
  }

  // ----- bridging is merging

  /** Joins neighbours whose gap is at most `gap`. */
  function Merge(segs: seq<Segment>, gap: int): seq<Segment>
  {
    if segs == [] then []
    else
      var last := segs[|segs| - 1];
      var m := Merge(segs[..|segs| - 1], gap);
      if m != [] && last.start - m[|m| - 1].end - 1 <= gap
      then m[..|m| - 1] + [Segment(m[|m| - 1].start, last.end)]
      else m + [last]
  }

  /** `i` lies between two neighbouring segments that are close enough. */
  ghost predicate Between(segs: seq<Segment>, i: int, gap: int)
  {
    exists j :: 0 <= j < |segs| - 1 && segs[j].end < i < segs[j + 1].start && segs[j + 1].start - segs[j].end - 1 <= gap
  }

  /** Neighbours are more than `gap` apart. */
  ghost predicate Apart(m: seq<Segment>, gap: int)
  {
    forall j :: 0 <= j < |m| - 1 ==> m[j + 1].start - m[j].end - 1 > gap
  }

  lemma {:induction false} MergeShape(segs: seq<Segment>, gap: int)
    requires Spaced(segs) && segs != []
    ensures var m := Merge(segs, gap);
            && m != [] && m[0].start == segs[0].start && m[|m| - 1].end == segs[|segs| - 1].end
            && Spaced(m) && Apart(m, gap)
  {
    if |segs| > 1 {
      var init := segs[..|segs| - 1];
      MergeShape(init, gap);
      assert segs[|segs| - 2].end + 1 < segs[|segs| - 1].start;
      AppendShape(Merge(init, gap), segs[|segs| - 1], gap);
    } else {
      assert Merge(segs[..0], gap) == [];
    }
  }

  lemma AppendShape(m: seq<Segment>, last: Segment, gap: int)
    requires m != [] && Spaced(m) && Apart(m, gap) && last.start <= last.end && m[|m| - 1].end + 1 < last.start
    ensures Spaced(m + [last])
    ensures last.start - m[|m| - 1].end - 1 > gap ==> Apart(m + [last], gap)
    ensures Spaced(m[..|m| - 1] + [Segment(m[|m| - 1].start, last.end)])
    ensures Apart(m[..|m| - 1] + [Segment(m[|m| - 1].start, last.end)], gap)
  {
  }

  lemma MergeAppend(init: seq<Segment>, last: Segment, gap: int)
    ensures var m := Merge(init, gap);
            Merge(init + [last], gap) == if m != [] && last.start - m[|m| - 1].end - 1 <= gap
                                         then m[..|m| - 1] + [Segment(m[|m| - 1].start, last.end)] else m + [last]
  {
    assert (init + [last])[..|init|] == init;
  }

  lemma SpacedInit(segs: seq<Segment>)
    requires Spaced(segs) && segs != []
    ensures var init, last := segs[..|segs| - 1], segs[|segs| - 1];
            && segs == init + [last] && Spaced(init) && last.start <= last.end
            && (init != [] ==> init[|init| - 1].end + 1 < last.start)
  {
  }

  lemma NothingMerged(gap: int, i: int)
    ensures !Covers(Merge([], gap), i) && !Covers([], i) && !Between([], i, gap)
  {
  }

  lemma {:induction false} MergeCovers(segs: seq<Segment>, gap: int, i: int)
    requires Spaced(segs)
    ensures Covers(Merge(segs, gap), i) <==> Covers(segs, i) || Between(segs, i, gap)
  {
    hide Merge, Covers, Between, Spaced;
    if segs == [] {
      NothingMerged(gap, i);
    } else {
      SpacedInit(segs);
      var init, last := segs[..|segs| - 1], segs[|segs| - 1];
      MergeCovers(init, gap, i);
      MergeCoversOneMore(init, last, gap, i);
    }
  }

  /** The induction step: one more segment at the end. */
  lemma MergeCoversOneMore(init: seq<Segment>, last: Segment, gap: int, i: int)
    requires Spaced(init) && last.start <= last.end && (init != [] ==> init[|init| - 1].end + 1 < last.start)
    requires Covers(Merge(init, gap), i) <==> Covers(init, i) || Between(init, i, gap)
    ensures Covers(Merge(init + [last], gap), i) <==> Covers(init + [last], i) || Between(init + [last], i, gap)
  {
    var m := Merge(init, gap);
    assert init == [] ==> m == [];
    if init != [] {
      MergeShape(init, gap);
    }
    hide Merge, Covers, Between, Apart;
    MergeAppend(init, last, gap);
    CoversAppendAt(init, last, i);
    BetweenAppend(init, last, gap, i);
    AppendCovers(m, last, gap, i);
  }

  lemma AppendCovers(m: seq<Segment>, last: Segment, gap: int, i: int)
    requires last.start <= last.end
    requires m != [] ==> m[|m| - 1].start <= m[|m| - 1].end < last.start
    ensures var merged := if m != [] && last.start - m[|m| - 1].end - 1 <= gap
                          then m[..|m| - 1] + [Segment(m[|m| - 1].start, last.end)] else m + [last];
            Covers(merged, i) <==> Covers(m, i) || last.start <= i <= last.end
                                   || (m != [] && m[|m| - 1].end < i < last.start && last.start - m[|m| - 1].end - 1 <= gap)
  {
    CoversAppendAt(m, last, i);
    if m != [] {
      var k := |m| - 1;
      assert m == m[..k] + [m[k]];
      CoversAppendAt(m[..k], m[k], i);
      CoversAppendAt(m[..k], Segment(m[k].start, last.end), i);
    }
  }

  lemma BetweenAppend(init: seq<Segment>, last: Segment, gap: int, i: int)
    ensures Between(init + [last], i, gap)
       <==> Between(init, i, gap)
            || (init != [] && init[|init| - 1].end < i < last.start && last.start - init[|init| - 1].end - 1 <= gap)
  {
    var segs := init + [last];
    if j :| 0 <= j < |init| - 1 && init[j].end < i < init[j + 1].start && init[j + 1].start - init[j].end - 1 <= gap {
      assert segs[j] == init[j] && segs[j + 1] == init[j + 1];
    }
    if init != [] {
      assert segs[|init| - 1] == init[|init| - 1] && segs[|init| - 1 + 1] == last;
    }
  }

  lemma BetweenIsFilled(s: seq<bool>, segs: seq<Segment>, gap: int, i: int)
    requires IsSegmentation(s, 0, segs) && 0 <= i < |s| && Between(segs, i, gap)
    ensures Filled(s, i, gap)
  {
    var j :| 0 <= j < |segs| - 1 && segs[j].end < i < segs[j + 1].start && segs[j + 1].start - segs[j].end - 1 <= gap;
    assert Covers(segs, segs[j].end) && Covers(segs, segs[j + 1].start);
    forall k | segs[j].end < k < segs[j + 1].start
      ensures !s[k]
    {
      NothingBetweenNeighbours(segs, j, k);
    }
    assert InGap(s, i, segs[j].end, segs[j + 1].start, gap);
  }

  lemma InGapIsBetween(s: seq<bool>, segs: seq<Segment>, gap: int, i: int, l: int, r: int)
    requires IsSegmentation(s, 0, segs) && InGap(s, i, l, r, gap)
    ensures Between(segs, i, gap)
  {
    var j :| 0 <= j < |segs| && segs[j].start <= l <= segs[j].end;
    var m :| 0 <= m < |segs| && segs[m].start <= r <= segs[m].end;
    assert segs[j].end == l by {
      assert !s[l + 1] && !Covers(segs, l + 1);
    }
    assert segs[m].start == r by {
      assert !s[r - 1] && !Covers(segs, r - 1);
    }
    assert j + 1 == m by {
      assert j < m;
      assert Covers(segs, segs[j + 1].start) && s[segs[j + 1].start];
    }
  }

  lemma FilledIsBetween(s: seq<bool>, segs: seq<Segment>, gap: int, i: int)
    requires IsSegmentation(s, 0, segs) && 0 <= i < |s|
    ensures Filled(s, i, gap) <==> Covers(segs, i) || Between(segs, i, gap)
  {
    if Between(segs, i, gap) {
      BetweenIsFilled(s, segs, gap, i);
    }
    if l, r :| InGap(s, i, l, r, gap) {
      InGapIsBetween(s, segs, gap, i, l, r);
    }
  }

  lemma NothingBetweenNeighbours(segs: seq<Segment>, j: nat, k: int)
    requires Spaced(segs) && j + 1 < |segs| && segs[j].end < k < segs[j + 1].start
    ensures !Covers(segs, k)
  {
  }

  /** The segments of the bridged array are the merged segments of the original one. */
  lemma BridgingIsMerging(s: seq<bool>, b: seq<bool>, segs: seq<Segment>, gap: int)
    requires IsBridged(s, b, gap) && IsSegmentation(s, 0, segs)
    ensures IsSegmentation(b, 0, Merge(segs, gap))
  {
    if segs != [] {
      MergeShape(segs, gap);
    }
    var m := Merge(segs, gap);
    forall j | 0 <= j < |m|
      ensures 0 <= m[j].start && m[j].end < |b|
    {
      assert j > 0 ==> m[0].end + 1 < m[j].start;
      assert j < |m| - 1 ==> m[j].end + 1 < m[|m| - 1].start;
    }
    forall i | 0 <= i < |b|
      ensures b[i] <==> Covers(m, i)
    {
      FilledIsBetween(s, segs, gap, i);
      MergeCovers(segs, gap, i);
    }
  }

  /** The composition used on a track: bridge in place, then cut.  Whatever the segments of the
      original activity were, the result is those segments with close neighbours merged. */
  method BridgedSegments(active: array<bool>, maxGap: int) returns (segs: seq<Segment>)
    modifies active
    ensures IsBridged(old(active[..]), active[..], maxGap)
    ensures IsSegmentation(active[..], 0, segs)
    ensures forall original :: IsSegmentation(old(active[..]), 0, original) ==> segs == Merge(original, maxGap)
  {
    ghost var s := active[..];
    BridgeSmallGaps(active, maxGap);
    ghost var b := active[..];
    segs := Segments(active[..]);
    forall original | IsSegmentation(s, 0, original)
      ensures segs == Merge(original, maxGap)
    {
      BridgingIsMerging(s, b, original, maxGap);
      SegmentationIsUnique(b, 0, segs, Merge(original, maxGap));
    }
  }
}
