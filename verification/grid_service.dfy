/**
 The click executor from the outside: when it refuses, when it serves a page to the end, which tile
 indexes it reports, where the cursor goes, and in which order tiles are visited.
 */
module GridService {
  import opened Common
  import opened GridActions

  // ----- the order, from the rectangles alone

  /** The middle of a tile's rectangle. */
  function Middle(tiles: seq<Mark>, i: nat): Point
    requires i < |tiles| && tiles[i].bounds.Some?
  {
    var b := tiles[i].bounds.value;
    Point(b.x + b.width / 2.0, b.y + b.height / 2.0)
  }

  predicate HasMiddle(tiles: seq<Mark>, i: nat)
  {
    i < |tiles| && tiles[i].bounds.Some? && tiles[i].bounds.value.width > 0.0 && tiles[i].bounds.value.height > 0.0
  }

  /** Higher first, then further left, then listed earlier. */
  predicate ReadsBefore(tiles: seq<Mark>, a: nat, b: nat)
    requires HasMiddle(tiles, a) && HasMiddle(tiles, b)
  {
    var p, q := Middle(tiles, a), Middle(tiles, b);
    p.y < q.y || (p.y == q.y && (p.x < q.x || (p.x == q.x && a < b)))
  }

  function Squared(p: Point, q: Point): real
  {
    (p.x - q.x) * (p.x - q.x) + (p.y - q.y) * (p.y - q.y)
  }

  lemma NearerMeans(tiles: seq<Mark>, from: Option<Point>, a: nat, b: nat)
    requires Nearer(tiles, from, a, b)
    ensures HasMiddle(tiles, a) && HasMiddle(tiles, b)
    ensures match from
            case None => ReadsBefore(tiles, a, b)
            case Some(p) =>
              var d, e := Squared(Middle(tiles, a), p), Squared(Middle(tiles, b), p);
              d < e || (d == e && ReadsBefore(tiles, a, b))
  {
  }

  /** The visiting order of distinct tiles that all have a size: it starts at the tile that reads first,
      and from each tile goes to the nearest of those to come, ties going to the one that reads first. */
  lemma VisitsNearestFirst(tiles: seq<Mark>, selected: seq<nat>, i: nat, j: nat)
    requires |selected| > 1 && !HasDuplicates(selected) && forall k :: 0 <= k < |selected| ==> HasMiddle(tiles, selected[k])
    requires var order := Order(tiles, selected); i < j < |order| && order[i] != order[j]
    ensures var order := Order(tiles, selected);
            && HasMiddle(tiles, order[i]) && HasMiddle(tiles, order[j])
            && (i == 0 ==> ReadsBefore(tiles, order[0], order[j]))
            && (i > 0 ==>
                  && HasMiddle(tiles, order[i - 1])
                  && var from := Middle(tiles, order[i - 1]);
                     var d, e := Squared(Middle(tiles, order[i]), from), Squared(Middle(tiles, order[j]), from);
                     d < e || (d == e && ReadsBefore(tiles, order[i], order[j])))
  {
    var order := Order(tiles, selected);
    GreedyPicksNearest(tiles, None, selected, i, j);
    var from := Before(tiles, order, i, None);
    NearerMeans(tiles, from, order[i], order[j]);
    if i > 0 {
      assert order[i - 1] in selected;
      var k :| 0 <= k < |selected| && selected[k] == order[i - 1];
    }
  }

  /** A selection with a tile that has no size, or with one listed twice, is visited in the given order. */
  lemma UnknownPlacesKeepTheOrder(tiles: seq<Mark>, selected: seq<nat>)
    requires (exists k :: 0 <= k < |selected| && !HasMiddle(tiles, selected[k])) || exists i, j :: 0 <= i < j < |selected| && selected[i] == selected[j]
    ensures Order(tiles, selected) == selected
  {
    if k :| 0 <= k < |selected| && !HasMiddle(tiles, selected[k]) {
      assert !Resolved(tiles, selected);
    }
  }

  // ----- when a call refuses

  /** The first tile with this id has a size. */
  ghost predicate Reachable(s: GridState, id: string)
  {
    exists k: nat :: FirstWithId(Tiles(s.marks), id, k) && HasMiddle(Tiles(s.marks), k)
  }

  ghost predicate ShowsId(s: GridState, id: string)
  {
    exists k: nat :: FirstWithId(Tiles(s.marks), id, k)
  }

  lemma FindMeans(s: GridState, id: string)
    ensures var k := Find(Tiles(s.marks), id);
            && (k.Some? <==> ShowsId(s, id))
            && (k.Some? && Center(Tiles(s.marks)[k.value].bounds).Some? <==> Reachable(s, id))
  {
    FindIsFirst(Tiles(s.marks), id);
    var found := Find(Tiles(s.marks), id);
    if found.Some? {
      assert forall k: nat :: FirstWithId(Tiles(s.marks), id, k) ==> k == found.value;
    }
  }

  /** The clicks end with the plan done; or at the first planned id, the last state polled being another
      grid or without that id; or, on the same grid, the tile with the id having no size or its click
      having failed. */
  ghost predicate StopsAt(c: Clicking, planned: seq<string>, observed: GridState)
  {
    if |c.indexes| >= |planned| then |c.indexes| == |planned| && c.reason == ""
    else
      var id, acts := planned[|c.indexes|], c.trace.acts;
      if !SameGrid(c.state, observed) || !ShowsId(c.state, id) then c.reason == "stale-grid-during-selection" && |acts| > 0 && acts[|acts| - 1] == Polled(c.state)
      else
        && c.reason == "click-unresolved" && |acts| >= 2
        && if Reachable(c.state, id) then acts[|acts| - 2] == Polled(c.state) && Fails(acts[|acts| - 1], id) else acts[|acts| - 1] == Polled(c.state)
  }

  predicate Fails(a: Act, id: string)
  {
    a.Clicked? && a.id == Some(id) && !a.done
  }

  lemma {:induction false} LoopStops(page: Page, planned: seq<string>, observed: GridState, k: nat, w: Trace, indexes: seq<nat>, last: GridState)
    requires |indexes| == k <= |planned| && w.acts != []
    ensures var c := ClickAll(page, planned, Fingerprint(observed), k, w, indexes, last);
            && StopsAt(c, planned, observed)
            && (|c.indexes| == |planned| ==> c.trace.polls == w.polls + |planned| - k && c.trace.clicks == w.clicks + |planned| - k)
    decreases |planned| - k
  {
    hide StopsAt, Matches, Fingerprint, Find, Tiles, Center;
    var c := ClickAll(page, planned, Fingerprint(observed), k, w, indexes, last);
    if k == |planned| {
      Done(c, planned, observed);
    } else {
      var s, w1 := page.poll(w.polls), AfterPoll(page, w);
      MatchesIffSameGrid(s, observed);
      FindMeans(s, planned[k]);
      var resolved := Find(Tiles(s.marks), planned[k]);
      if !Matches(s, Fingerprint(observed)) || resolved.None? {
        StoppedByPoll(c, planned, observed);
      } else {
        var target := Center(Tiles(s.marks)[resolved.value].bounds);
        if target.None? {
          StoppedByPoll(c, planned, observed);
        } else {
          var w2 := AfterClick(page, w1, s, target.value, Some(planned[k]));
          if page.click(w1.clicks) {
            LoopStops(page, planned, observed, k + 1, w2, indexes + [resolved.value], s);
          } else {
            StoppedByClick(c, planned, observed);
          }
        }
      }
    }
  }

  lemma Done(c: Clicking, planned: seq<string>, observed: GridState)
    requires |c.indexes| == |planned| && c.reason == ""
    ensures StopsAt(c, planned, observed)
  {
  }

  lemma StoppedByPoll(c: Clicking, planned: seq<string>, observed: GridState)
    requires |c.indexes| < |planned| && |c.trace.acts| >= 2 && c.trace.acts[|c.trace.acts| - 1] == Polled(c.state)
    requires !Reachable(c.state, planned[|c.indexes|]) || !SameGrid(c.state, observed)
    requires c.reason == if !SameGrid(c.state, observed) || !ShowsId(c.state, planned[|c.indexes|]) then "stale-grid-during-selection" else "click-unresolved"
    ensures StopsAt(c, planned, observed)
  {
  }

  lemma StoppedByClick(c: Clicking, planned: seq<string>, observed: GridState)
    requires |c.indexes| < |planned| && |c.trace.acts| >= 2 && c.trace.acts[|c.trace.acts| - 2] == Polled(c.state)
    requires SameGrid(c.state, observed) && Reachable(c.state, planned[|c.indexes|]) && c.reason == "click-unresolved"
    requires Fails(c.trace.acts[|c.trace.acts| - 1], planned[|c.indexes|])
    ensures StopsAt(c, planned, observed)
  {
  }

  /** A call refuses before the first click if and only if it was not given a grid, its plan fails the
      length comparison, or the first poll shows another grid; it then has clicked nothing. */
  lemma RefusesIffStale(page: Page, cursor: Option<Point>, markIds: seq<string>, submit: bool, expected: Option<GridState>)
    ensures var (out, trace) := Applied(page, cursor, markIds, submit, expected);
            var observed := if expected.Some? then expected.value else page.poll(0);
            var current := page.poll(if expected.Some? then 0 else 1);
            var refused := !observed.isGrid || |Plan(observed, Requested(markIds))| != |Requested(markIds)| || !SameGrid(current, observed);
            && (out.reason == "stale-grid-before-selection" <==> refused)
            && (refused ==> out == Outcome([], [], false, "stale-grid-before-selection", current) && forall i :: 0 <= i < |trace.acts| ==> trace.acts[i].Polled?)
  {
    hide Plan, Requested, Fingerprint, Matches, SameGrid, ClickAll;
    var observed := if expected.Some? then expected.value else page.poll(0);
    var w := Opening(page, cursor, expected);
    var current := page.poll(w.polls);
    MatchesIffSameGrid(current, observed);
    LoopStops(page, Plan(observed, Requested(markIds)), observed, 0, AfterPoll(page, w), [], current);
  }

  /** How a call that was not refused ends.  Stopped before the plan is done, it submits nothing and says
      why.  Otherwise it submits exactly if asked to, on a closing poll that shows the same grid, something
      to press and a click that goes through; and it tells apart what was missing. */
  lemma CallEnds(page: Page, cursor: Option<Point>, markIds: seq<string>, submit: bool, expected: Option<GridState>)
    requires Applied(page, cursor, markIds, submit, expected).0.reason != "stale-grid-before-selection"
    ensures var (out, trace) := Applied(page, cursor, markIds, submit, expected);
            var observed := if expected.Some? then expected.value else page.poll(0);
            var planned := Plan(observed, Requested(markIds));
            if |out.clickedIndexes| < |planned| then
              !out.submitted && StopsAt(Clicking(trace, out.clickedIndexes, out.reason, out.state), planned, observed)
            else
              var n := |planned| + if expected.Some? then 1 else 2;
              var same := SameGrid(page.poll(n), observed);
              && |out.clickedIndexes| == |planned| && out.state == page.poll(n + 1)
              && (out.submitted <==> submit && same && HasSubmit(page, page.poll(n)) && page.click(|planned|))
              && out.reason == if !submit || out.submitted then "" else if same then "submit-not-confirmed" else "stale-grid-before-submit"
  {
    hide Plan, Requested, Fingerprint, Matches, SameGrid, ClickAll, Reachable, ShowsId, Center;
    var observed := if expected.Some? then expected.value else page.poll(0);
    var planned := Plan(observed, Requested(markIds));
    var w := Opening(page, cursor, expected);
    var current, w1 := page.poll(w.polls), AfterPoll(page, w);
    LoopStops(page, planned, observed, 0, w1, [], current);
    var c := ClickAll(page, planned, Fingerprint(observed), 0, w1, [], current);
    if c.reason == "" {
      MatchesIffSameGrid(page.poll(c.trace.polls), observed);
      CenterIsMiddle(page.poll(c.trace.polls).submitBounds);
    }
  }

  /** There is something to press: a submit control with a size, or the confirmation control. */
  ghost predicate HasSubmit(page: Page, s: GridState)
  {
    page.confirmation.Some? || exists p :: IsMiddle(s.submitBounds, p)
  }

  // ----- when a call is served to the end

  /** The page keeps showing the observed grid, every planned tile keeps a place, and clicks work. */
  ghost predicate Cooperates(page: Page, observed: GridState, planned: seq<string>)
  {
    && (forall i :: SameGrid(page.poll(i), observed))
    && (forall i, k :: 0 <= k < |planned| ==> Reachable(page.poll(i), planned[k]))
    && (forall j :: page.click(j))
  }

  lemma {:induction false} CooperativeLoop(page: Page, observed: GridState, planned: seq<string>, k: nat, w: Trace, indexes: seq<nat>, last: GridState)
    requires Cooperates(page, observed, planned) && k <= |planned| && |indexes| == k
    ensures var c := ClickAll(page, planned, Fingerprint(observed), k, w, indexes, last);
            c.reason == "" && |c.indexes| == |planned|
    decreases |planned| - k
  {
    if k < |planned| {
      var s, w1 := page.poll(w.polls), AfterPoll(page, w);
      MatchesIffSameGrid(s, observed);
      assert SameGrid(s, observed) && Reachable(s, planned[k]);
      FindMeans(s, planned[k]);
      hide SameGrid, Reachable, Matches, Fingerprint, Find, Tiles, Center;
      var found := Find(Tiles(s.marks), planned[k]).value;
      var target := Center(Tiles(s.marks)[found].bounds).value;
      assert page.click(w1.clicks);
      CooperativeLoop(page, observed, planned, k + 1, AfterClick(page, w1, s, target, Some(planned[k])), indexes + [found], s);
    }
  }

  ghost predicate OffersSubmit(page: Page)
  {
    page.confirmation.Some? || forall i :: Center(page.poll(i).submitBounds).Some?
  }

  /** On a page that keeps showing the observed grid a call is never turned away: the whole plan is
      clicked, and the form is submitted if that was asked for and there is something to press. */
  lemma CooperativePageIsServed(page: Page, cursor: Option<Point>, markIds: seq<string>, submit: bool, observed: GridState)
    requires observed.isGrid && |Plan(observed, Requested(markIds))| == |Requested(markIds)|
    requires Cooperates(page, observed, Plan(observed, Requested(markIds))) && (submit ==> OffersSubmit(page))
    ensures var (out, _) := Applied(page, cursor, markIds, submit, Some(observed));
            out.clickedMarkIds == Plan(observed, Requested(markIds)) && out.submitted == submit && out.reason == ""
  {
    hide Plan, Requested, Fingerprint, Matches, SameGrid, Reachable, ClickAll, Center;
    var planned := Plan(observed, Requested(markIds));
    var w := AfterPoll(page, Trace([], 0, 0, cursor));
    var current := page.poll(0);
    MatchesIffSameGrid(current, observed);
    CooperativeLoop(page, observed, planned, 0, w, [], current);
    var c := ClickAll(page, planned, Fingerprint(observed), 0, w, [], current);
    MatchesIffSameGrid(page.poll(c.trace.polls), observed);
    assert SameGrid(page.poll(c.trace.polls), observed);
  }

  // ----- the indexes reported

  /** Click `j` of the loop and the poll before it: the index reported is that of the first tile with
      the planned id in that poll. */
  ghost predicate ReportsIndex(acts: seq<Act>, base: nat, planned: seq<string>, indexes: seq<nat>, j: nat)
  {
    && j < |indexes| && j < |planned| && base + 2 * j + 1 < |acts|
    && acts[base + 2 * j].Polled? && acts[base + 2 * j + 1].Clicked? && acts[base + 2 * j + 1].done
    && acts[base + 2 * j + 1].id == Some(planned[j])
    && FirstWithId(Tiles(acts[base + 2 * j].state.marks), planned[j], indexes[j])
  }

  lemma {:induction false} LoopReportsIndexes(page: Page, planned: seq<string>, visual: seq<string>, k: nat, w: Trace, indexes: seq<nat>,
                                              last: GridState, base: nat)
    requires |indexes| == k <= |planned| && |w.acts| == base + 2 * k
    requires forall j :: 0 <= j < k ==> ReportsIndex(w.acts, base, planned, indexes, j)
    ensures var c := ClickAll(page, planned, visual, k, w, indexes, last);
            && w.acts <= c.trace.acts && |c.indexes| <= |planned|
            && forall j :: 0 <= j < |c.indexes| ==> ReportsIndex(c.trace.acts, base, planned, c.indexes, j)
    decreases |planned| - k
  {
    if k < |planned| {
      hide Matches, Tiles, Center, FirstWithId, Find;
      var s, w1 := page.poll(w.polls), AfterPoll(page, w);
      LongerStillReports(w.acts, w1.acts, base, planned, indexes, indexes);
      var resolved := Find(Tiles(s.marks), planned[k]);
      if Matches(s, visual) && resolved.Some? {
        FindIsFirst(Tiles(s.marks), planned[k]);
        var target := Center(Tiles(s.marks)[resolved.value].bounds);
        if target.Some? {
          var w2 := AfterClick(page, w1, s, target.value, Some(planned[k]));
          LongerStillReports(w.acts, w2.acts, base, planned, indexes, indexes);
          if page.click(w1.clicks) {
            var more := indexes + [resolved.value];
            LongerStillReports(w.acts, w2.acts, base, planned, indexes, more);
            assert ReportsIndex(w2.acts, base, planned, more, k);
            LoopReportsIndexes(page, planned, visual, k + 1, w2, more, s, base);
          }
        }
      }
    }
  }

  lemma LongerStillReports(acts: seq<Act>, longer: seq<Act>, base: nat, planned: seq<string>, indexes: seq<nat>, more: seq<nat>)
    requires acts <= longer && indexes <= more
    requires forall j :: 0 <= j < |indexes| ==> ReportsIndex(acts, base, planned, indexes, j)
    ensures forall j :: 0 <= j < |indexes| ==> ReportsIndex(longer, base, planned, more, j)
  {
    hide FirstWithId, Tiles;
    forall j | 0 <= j < |indexes|
      ensures ReportsIndex(longer, base, planned, more, j)
    {
      assert ReportsIndex(acts, base, planned, indexes, j);
    }
  }

  /** Over a whole call, click by click: the indexes reported are those of the clicked tiles. */
  lemma ReportedIndexesWereClicked(page: Page, cursor: Option<Point>, markIds: seq<string>, submit: bool, expected: Option<GridState>)
    ensures var (out, trace) := Applied(page, cursor, markIds, submit, expected);
            var planned := Plan(if expected.Some? then expected.value else page.poll(0), Requested(markIds));
            var base := if expected.Some? then 1 else 2;
            forall j :: 0 <= j < |out.clickedIndexes| ==> ReportsIndex(trace.acts, base, planned, out.clickedIndexes, j)
  {
    hide Plan, Requested, Fingerprint, Matches, ClickAll, ReportsIndex, Center;
    var w := Opening(page, cursor, expected);
    var observed := Observed(page, expected);
    var planned, visual := Plan(observed, Requested(markIds)), Fingerprint(observed);
    var current, w1 := page.poll(w.polls), AfterPoll(page, w);
    LoopReportsIndexes(page, planned, visual, 0, w1, [], current, |w1.acts|);
    var c := ClickAll(page, planned, visual, 0, w1, [], current);
    var later := Submit(page, submit, visual, planned, c).1.acts;
    LongerStillReports(c.trace.acts, later, |w1.acts|, planned, c.indexes, c.indexes);
  }

  /** The submit click presses the middle of the submit control shown by the poll before it, or, if that
      has no place, the confirmation control. */
  ghost predicate PressesSubmit(page: Page, acts: seq<Act>, i: nat)
    requires i < |acts|
  {
    acts[i].Clicked? && acts[i].id.None? ==>
      && i > 0 && acts[i - 1].Polled?
      && var b := acts[i - 1].state.submitBounds;
         if exists p :: IsMiddle(b, p) then IsMiddle(b, acts[i].target) else page.confirmation == Some(acts[i].target)
  }

  ghost predicate NothingPressed(acts: seq<Act>)
  {
    forall i :: 0 <= i < |acts| ==> !acts[i].Clicked? || acts[i].id.Some?
  }

  lemma {:induction false} LoopPressesNothing(page: Page, planned: seq<string>, visual: seq<string>, k: nat, w: Trace, indexes: seq<nat>, last: GridState)
    requires NothingPressed(w.acts)
    ensures NothingPressed(ClickAll(page, planned, visual, k, w, indexes, last).trace.acts)
    decreases |planned| - k
  {
    if k < |planned| {
      hide Matches, Tiles, Center, Find;
      var s, w1 := page.poll(w.polls), AfterPoll(page, w);
      assert NothingPressed(w1.acts);
      var resolved := Find(Tiles(s.marks), planned[k]);
      if Matches(s, visual) && resolved.Some? {
        var target := Center(Tiles(s.marks)[resolved.value].bounds);
        if target.Some? {
          var w2 := AfterClick(page, w1, s, target.value, Some(planned[k]));
          assert NothingPressed(w2.acts);
          if page.click(w1.clicks) {
            LoopPressesNothing(page, planned, visual, k + 1, w2, indexes + [resolved.value], s);
          }
        }
      }
    }
  }

  lemma SubmitPresses(page: Page, submit: bool, visual: seq<string>, planned: seq<string>, c: Clicking)
    requires NothingPressed(c.trace.acts)
    ensures var acts := Submit(page, submit, visual, planned, c).1.acts;
            forall i :: 0 <= i < |acts| ==> PressesSubmit(page, acts, i)
  {
    hide Matches, Center, IsMiddle;
    CenterIsMiddle(page.poll(c.trace.polls).submitBounds);
    var acts := Submit(page, submit, visual, planned, c).1.acts;
    var n := |c.trace.acts|;
    assert acts[..n] == c.trace.acts && acts[n] == Polled(page.poll(c.trace.polls));
    forall i | 0 <= i < |acts|
      ensures PressesSubmit(page, acts, i)
    {
      assert i < n ==> acts[i] == c.trace.acts[i];
    }
  }

  lemma SubmitIsPressed(page: Page, cursor: Option<Point>, markIds: seq<string>, submit: bool, expected: Option<GridState>)
    ensures var acts := Applied(page, cursor, markIds, submit, expected).1.acts;
            forall i :: 0 <= i < |acts| ==> PressesSubmit(page, acts, i)
  {
    hide Plan, Requested, Fingerprint, Matches, ClickAll, Submit, Center, IsMiddle;
    var w := Opening(page, cursor, expected);
    var observed := Observed(page, expected);
    var planned, visual := Plan(observed, Requested(markIds)), Fingerprint(observed);
    var current, w1 := page.poll(w.polls), AfterPoll(page, w);
    LoopPressesNothing(page, planned, visual, 0, w1, [], current);
    var c := ClickAll(page, planned, visual, 0, w1, [], current);
    SubmitPresses(page, submit, visual, planned, c);
  }

  lemma CenterIsMiddle(b: Option<Bounds>)
    ensures Center(b).Some? <==> exists p :: IsMiddle(b, p)
    ensures Center(b).Some? ==> IsMiddle(b, Center(b).value)
  {
    if Center(b).Some? {
      assert IsMiddle(b, Center(b).value);
    }
  }

  // ----- the cursor

  /** Where the cursor is after some acts. */
  function CursorAfter(acts: seq<Act>, start: Option<Point>): Option<Point>
  {
    if acts == [] then start
    else
      var a := acts[|acts| - 1];
      if a.Clicked? then Some(if a.done then a.target else a.from) else CursorAfter(acts[..|acts| - 1], start)
  }

  /** A click sets out from where the last one left the cursor; the first one of all from the middle of
      the viewport, or from its target where the viewport is unknown. */
  ghost predicate SetsOut(acts: seq<Act>, start: Option<Point>, i: nat)
    requires i < |acts|
  {
    acts[i].Clicked? ==>
      && i > 0 && acts[i - 1].Polled?
      && var s, target := acts[i - 1].state, acts[i].target;
         acts[i].from == match CursorAfter(acts[..i], start)
           case Some(p) => p
           case None => Point(if s.width > 0.0 then s.width / 2.0 else target.x, if s.height > 0.0 then s.height / 2.0 else target.y)
  }

  ghost predicate CursorFollows(w: Trace, start: Option<Point>)
  {
    w.cursor == CursorAfter(w.acts, start) && forall i :: 0 <= i < |w.acts| ==> SetsOut(w.acts, start, i)
  }

  lemma SetsOutStill(acts: seq<Act>, a: Act, start: Option<Point>)
    requires forall i :: 0 <= i < |acts| ==> SetsOut(acts, start, i)
    ensures forall i :: 0 <= i < |acts| ==> SetsOut(acts + [a], start, i)
    ensures (acts + [a])[..|acts|] == acts
  {
    forall i | 0 <= i < |acts|
      ensures SetsOut(acts + [a], start, i)
    {
      assert (acts + [a])[..i] == acts[..i] && SetsOut(acts, start, i);
    }
  }

  lemma PollKeepsCursor(page: Page, w: Trace, start: Option<Point>)
    requires CursorFollows(w, start)
    ensures CursorFollows(AfterPoll(page, w), start)
  {
    SetsOutStill(w.acts, Polled(page.poll(w.polls)), start);
  }

  lemma ClickMovesCursor(page: Page, w: Trace, start: Option<Point>, target: Point, id: Option<string>)
    requires CursorFollows(w, start) && w.acts != [] && w.acts[|w.acts| - 1].Polled?
    ensures CursorFollows(AfterClick(page, w, w.acts[|w.acts| - 1].state, target, id), start)
  {
    var v := AfterClick(page, w, w.acts[|w.acts| - 1].state, target, id);
    SetsOutStill(w.acts, v.acts[|w.acts|], start);
  }

  lemma {:induction false} LoopKeepsCursor(page: Page, planned: seq<string>, visual: seq<string>, k: nat, w: Trace, indexes: seq<nat>,
                                           last: GridState, start: Option<Point>)
    requires CursorFollows(w, start)
    ensures CursorFollows(ClickAll(page, planned, visual, k, w, indexes, last).trace, start)
    decreases |planned| - k
  {
    if k < |planned| {
      hide Matches, Tiles, Center, Find, CursorFollows;
      var s, w1 := page.poll(w.polls), AfterPoll(page, w);
      PollKeepsCursor(page, w, start);
      var resolved := Find(Tiles(s.marks), planned[k]);
      if Matches(s, visual) && resolved.Some? {
        var target := Center(Tiles(s.marks)[resolved.value].bounds);
        if target.Some? {
          ClickMovesCursor(page, w1, start, target.value, Some(planned[k]));
          if page.click(w1.clicks) {
            LoopKeepsCursor(page, planned, visual, k + 1, AfterClick(page, w1, s, target.value, Some(planned[k])),
                            indexes + [resolved.value], s, start);
          }
        }
      }
    }
  }

  /** Over a whole call the cursor moves from click to click and stays where a click failed. */
  lemma CursorIsContinuous(page: Page, cursor: Option<Point>, markIds: seq<string>, submit: bool, expected: Option<GridState>)
    ensures CursorFollows(Applied(page, cursor, markIds, submit, expected).1, cursor)
  {
    hide Plan, Requested, Fingerprint, Matches, ClickAll, CursorFollows, Center;
    var w := Opening(page, cursor, expected);
    var start := Trace([], 0, 0, cursor);
    NothingDone(cursor);
    PollKeepsCursor(page, start, cursor);
    PollKeepsCursor(page, w, cursor);
    var observed := Observed(page, expected);
    var planned, visual := Plan(observed, Requested(markIds)), Fingerprint(observed);
    var current, w1 := page.poll(w.polls), AfterPoll(page, w);
    LoopKeepsCursor(page, planned, visual, 0, w1, [], current, cursor);
    var c := ClickAll(page, planned, visual, 0, w1, [], current);
    SubmitKeepsCursor(page, submit, visual, planned, c, cursor);
  }

  lemma NothingDone(cursor: Option<Point>)
    ensures CursorFollows(Trace([], 0, 0, cursor), cursor)
  {
  }

  lemma SubmitKeepsCursor(page: Page, submit: bool, visual: seq<string>, planned: seq<string>, c: Clicking, start: Option<Point>)
    requires CursorFollows(c.trace, start)
    ensures CursorFollows(Submit(page, submit, visual, planned, c).1, start)
  {
    hide Matches, CursorFollows, Center;
    var current, w := page.poll(c.trace.polls), AfterPoll(page, c.trace);
    PollKeepsCursor(page, c.trace, start);
    PollKeepsCursor(page, w, start);
    var point := if Center(current.submitBounds).Some? then Center(current.submitBounds) else page.confirmation;
    if submit && Matches(current, visual) && point.Some? {
      ClickMovesCursor(page, w, start, point.value, None);
      PollKeepsCursor(page, AfterClick(page, w, current, point.value, None), start);
    }
  }
}
