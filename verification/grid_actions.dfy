/**
 Acting only on an unchanged grid: the nearest-first click order, and a click sequence that
 revalidates the page before every single action.

 The page is adversarial: `Page.poll(i)` is whatever the i-th poll of a call shows, `Page.click(j)`
 whether its j-th click went through.
 */
module GridActions {
  import opened Common

  datatype Point = Point(x: real, y: real)

  datatype Bounds = Bounds(x: real, y: real, width: real, height: real)

  datatype Mark = Mark(isTile: bool, markId: string, source: string, semantic: string, bounds: Option<Bounds>)

  datatype GridState = GridState(isGrid: bool, marks: seq<Mark>, submitBounds: Option<Bounds>, width: real, height: real)

  datatype Page = Page(poll: nat -> GridState, click: nat -> bool, confirmation: Option<Point>)

  // ----- reading a state

  function Tiles(marks: seq<Mark>): seq<Mark>
  {
    if marks == [] then []
    else if marks[0].isTile then [marks[0]] + Tiles(marks[1..]) else Tiles(marks[1..])
  }

  /** `_visual_fingerprint`: what the tiles show, in order. */
  function Fingerprint(s: GridState): seq<string>
  {
    var tiles := Tiles(s.marks);
    seq(|tiles|, i requires 0 <= i < |tiles| => if tiles[i].source != "" then tiles[i].source else tiles[i].semantic)
  }

  function Center(b: Option<Bounds>): Option<Point>
  {
    if b.None? || b.value.width <= 0.0 || b.value.height <= 0.0 then None
    else Some(Point(b.value.x + b.value.width / 2.0, b.value.y + b.value.height / 2.0))
  }

  predicate Matches(s: GridState, visual: seq<string>)
  {
    s.isGrid && Fingerprint(s) == visual
  }

  /** The first tile with this id, if any. */
  function Find(tiles: seq<Mark>, id: string): (k: Option<nat>)
    ensures k.Some? ==> k.value < |tiles| && tiles[k.value].markId == id
    ensures k.None? ==> forall i :: 0 <= i < |tiles| ==> tiles[i].markId != id
  {
    if tiles == [] then None
    else if tiles[0].markId == id then Some(0)
    else var rest := Find(tiles[1..], id); if rest.Some? then Some(rest.value + 1) else None
  }

  // ----- the click order

  /** Sort key of a candidate: squared distance from the cursor (0 for the first pick), then y, x
      and the index. */
  datatype Key = Key(distance: real, y: real, x: real, index: nat)

  predicate Less(a: Key, b: Key)
  {
    || a.distance < b.distance
    || (a.distance == b.distance && (a.y < b.y || (a.y == b.y && (a.x < b.x || (a.x == b.x && a.index < b.index)))))
  }

  predicate Resolved(tiles: seq<Mark>, selected: seq<nat>)
  {
    forall i :: 0 <= i < |selected| ==> selected[i] < |tiles| && Center(tiles[selected[i]].bounds).Some?
  }

  function KeyOf(tiles: seq<Mark>, from: Option<Point>, index: nat): Key
    requires index < |tiles| && Center(tiles[index].bounds).Some?
  {
    var c := Center(tiles[index].bounds).value;
    var d := match from case None => 0.0 case Some(p) => (c.x - p.x) * (c.x - p.x) + (c.y - p.y) * (c.y - p.y);
    Key(d, c.y, c.x, index)
  }

  /** From the cursor, tile `a` comes strictly before tile `b`. */
  ghost predicate Nearer(tiles: seq<Mark>, from: Option<Point>, a: nat, b: nat)
  {
    && a < |tiles| && Center(tiles[a].bounds).Some? && b < |tiles| && Center(tiles[b].bounds).Some?
    && Less(KeyOf(tiles, from, a), KeyOf(tiles, from, b))
  }

  /** `min(remaining, key=...)`. */
  function Best(tiles: seq<Mark>, from: Option<Point>, remaining: seq<nat>): (b: nat)
    requires remaining != [] && Resolved(tiles, remaining)
    ensures b in remaining && b < |tiles| && Center(tiles[b].bounds).Some?
    ensures forall i :: 0 <= i < |remaining| && remaining[i] != b ==> Nearer(tiles, from, b, remaining[i])
  {
    if |remaining| == 1 then remaining[0]
    else
      var b := Best(tiles, from, remaining[1..]);
      if b == remaining[0] || Less(KeyOf(tiles, from, b), KeyOf(tiles, from, remaining[0])) then b else remaining[0]
  }

  function Remove(s: seq<nat>, v: nat): (r: seq<nat>)
    requires v in s
    ensures |r| == |s| - 1 && forall i :: 0 <= i < |r| ==> r[i] in s
  {
    if s[0] == v then s[1..] else [s[0]] + Remove(s[1..], v)
  }

  /** Nearest first, from `from` on. */
  function Greedy(tiles: seq<Mark>, from: Option<Point>, remaining: seq<nat>): (order: seq<nat>)
    requires Resolved(tiles, remaining)
    ensures |order| == |remaining| && forall i :: 0 <= i < |order| ==> order[i] in remaining
    decreases |remaining|
  {
    if remaining == [] then []
    else
      var b := Best(tiles, from, remaining);
      [b] + Greedy(tiles, Center(tiles[b].bounds), Remove(remaining, b))
  }

  predicate HasDuplicates(s: seq<nat>)
  {
    exists i, j :: 0 <= i < j < |s| && s[i] == s[j]
  }

  /** The order the source falls back to when a centre is missing is the given one. */
  function Order(tiles: seq<Mark>, selected: seq<nat>): seq<nat>
  {
    if |selected| <= 1 || !Resolved(tiles, selected) || HasDuplicates(selected) then selected
    else Greedy(tiles, None, selected)
  }

  /** `_ordered_indexes`. The number of resolved centres differs from the number of selected
      indexes exactly when one does not resolve or one is listed twice. */
  method OrderedIndexes(tiles: seq<Mark>, selected: seq<nat>) returns (order: seq<nat>)
    ensures order == Order(tiles, selected)
  {
    hide Nearer, Best, Remove, Center;
    if |selected| <= 1 {
      return selected;
    }
    if !Resolved(tiles, selected) || HasDuplicates(selected) {
      return selected;
    }
    var remaining, from := selected, None;
    order := [];
    while remaining != []
      invariant Resolved(tiles, remaining)
      invariant order + Greedy(tiles, from, remaining) == Greedy(tiles, None, selected)
      decreases |remaining|
    {
      var current := Best(tiles, from, remaining);
      assert order + Greedy(tiles, from, remaining)
          == (order + [current]) + Greedy(tiles, Center(tiles[current].bounds), Remove(remaining, current));
      from := Center(tiles[current].bounds);
      order := order + [current];
      remaining := Remove(remaining, current);
    }
  }

  /** Where the cursor stands before the k-th pick. */
  function Before(tiles: seq<Mark>, order: seq<nat>, k: nat, from: Option<Point>): Option<Point>
    requires k <= |order|
  {
    if k == 0 then from else if order[k - 1] < |tiles| then Center(tiles[order[k - 1]].bounds) else None
  }

  /** At every step the pick is strictly nearer (ties broken by y, x, index) than every other
      candidate that is still to come. */
  lemma {:induction false} GreedyPicksNearest(tiles: seq<Mark>, from: Option<Point>, remaining: seq<nat>, i: nat, j: nat)
    requires Resolved(tiles, remaining)
    requires var order := Greedy(tiles, from, remaining); i < j < |order| && order[i] != order[j]
    ensures var order := Greedy(tiles, from, remaining);
            Nearer(tiles, Before(tiles, order, i, from), order[i], order[j])
    decreases |remaining|
  {
    hide Nearer, Best, Remove, Center;
    var order := Greedy(tiles, from, remaining);
    var b := Best(tiles, from, remaining);
    var rest := Remove(remaining, b);
    var tail := Greedy(tiles, Center(tiles[b].bounds), rest);
    assert order == [b] + tail;
    if i == 0 {
      assert order[j] in remaining;
      var k :| 0 <= k < |remaining| && remaining[k] == order[j];
    } else {
      GreedyPicksNearest(tiles, Center(tiles[b].bounds), rest, i - 1, j - 1);
      assert Before(tiles, order, i, from) == Before(tiles, tail, i - 1, Center(tiles[b].bounds));
    }
  }

  lemma {:induction false} RemoveTakesOne(s: seq<nat>, v: nat)
    requires v in s
    ensures multiset(s) == multiset{v} + multiset(Remove(s, v))
  {
    assert s == [s[0]] + s[1..];
    if s[0] != v {
      RemoveTakesOne(s[1..], v);
    }
  }

  lemma {:induction false} GreedyIsPermutation(tiles: seq<Mark>, from: Option<Point>, remaining: seq<nat>)
    requires Resolved(tiles, remaining)
    ensures multiset(Greedy(tiles, from, remaining)) == multiset(remaining)
    decreases |remaining|
  {
    if remaining != [] {
      var b := Best(tiles, from, remaining);
      RemoveTakesOne(remaining, b);
      GreedyIsPermutation(tiles, Center(tiles[b].bounds), Remove(remaining, b));
    }
  }

  /** Ordering never loses, adds or repeats an index, whatever the marks look like. */
  lemma {:induction false} OrderIsPermutation(tiles: seq<Mark>, selected: seq<nat>)
    ensures multiset(Order(tiles, selected)) == multiset(selected)
  {
    if Resolved(tiles, selected) {
      GreedyIsPermutation(tiles, None, selected);
    }
  }

  lemma BestIsTheSame(tiles: seq<Mark>, from: Option<Point>, a: seq<nat>, b: seq<nat>)
    requires a != [] && b != [] && Resolved(tiles, a) && Resolved(tiles, b)
    requires Best(tiles, from, a) in b && Best(tiles, from, b) in a
    ensures Best(tiles, from, a) == Best(tiles, from, b)
  {
  }

  /** The order depends only on which tiles are selected, not on how they were listed. */
  lemma {:induction false} GreedyIgnoresListing(tiles: seq<Mark>, from: Option<Point>, a: seq<nat>, b: seq<nat>)
    requires Resolved(tiles, a) && Resolved(tiles, b) && multiset(a) == multiset(b)
    ensures Greedy(tiles, from, a) == Greedy(tiles, from, b)
    decreases |a|
  {
    hide Nearer, Best, Remove, Center;
    assert |a| == |multiset(a)| == |multiset(b)| == |b|;
    if a != [] {
      var p, q := Best(tiles, from, a), Best(tiles, from, b);
      assert p in multiset(a) && q in multiset(b);
      BestIsTheSame(tiles, from, a, b);
      RemoveTakesOne(a, p);
      RemoveTakesOne(b, p);
      assert multiset(Remove(a, p)) == multiset(a) - multiset{p} == multiset(Remove(b, p));
      GreedyIgnoresListing(tiles, Center(tiles[p].bounds), Remove(a, p), Remove(b, p));
    }
  }

  // ----- planning the clicks

  /** The indexes of the tiles whose id is requested, in tile order. */
  function SelectedTiles(tiles: seq<Mark>, requested: set<string>, n: nat): (r: seq<nat>)
    requires n <= |tiles|
    ensures forall i :: 0 <= i < |r| ==> r[i] < n && tiles[r[i]].markId in requested
  {
    if n == 0 then []
    else SelectedTiles(tiles, requested, n - 1) + if tiles[n - 1].markId in requested then [n - 1] else []
  }

  function Ids(tiles: seq<Mark>, indexes: seq<nat>): (r: seq<string>)
    ensures |r| == |indexes|
  {
    seq(|indexes|, i requires 0 <= i < |indexes| => if indexes[i] < |tiles| then tiles[indexes[i]].markId else "")
  }

  function Requested(markIds: seq<string>): set<string>
  {
    set id | id in markIds && id != ""
  }

  /** The mark ids to click, in click order. */
  function Plan(observed: GridState, requested: set<string>): seq<string>
  {
    var tiles := Tiles(observed.marks);
    Ids(tiles, Order(tiles, SelectedTiles(tiles, requested, |tiles|)))
  }

  // ----- what a call does to the page

  datatype Act =
    | Polled(state: GridState)
    | Clicked(id: Option<string>, from: Point, target: Point, done: bool)

  /** The interaction so far: everything done, how many polls and clicks it took, the cursor. */
  datatype Trace = Trace(acts: seq<Act>, polls: nat, clicks: nat, cursor: Option<Point>)

  datatype Outcome = Outcome(clickedIndexes: seq<nat>, clickedMarkIds: seq<string>, submitted: bool, reason: string, state: GridState)

  function AfterPoll(page: Page, w: Trace): Trace
  {
    w.(acts := w.acts + [Polled(page.poll(w.polls))], polls := w.polls + 1)
  }

  /** The cursor's first position is the middle of the viewport. */
  function CursorOr(w: Trace, s: GridState, target: Point): Point
  {
    match w.cursor
    case Some(p) => p
    case None => Point(if s.width > 0.0 then s.width / 2.0 else target.x, if s.height > 0.0 then s.height / 2.0 else target.y)
  }

  function AfterClick(page: Page, w: Trace, s: GridState, target: Point, id: Option<string>): Trace
  {
    var from := CursorOr(w, s, target);
    var done := page.click(w.clicks);
    Trace(w.acts + [Clicked(id, from, target, done)], w.polls, w.clicks + 1, Some(if done then target else from))
  }

  /** `state` is the last state polled, `reason` is empty when every click went through. */
  datatype Clicking = Clicking(trace: Trace, indexes: seq<nat>, reason: string, state: GridState)

  /** The click loop from position `k` on. */
  function ClickAll(page: Page, planned: seq<string>, visual: seq<string>, k: nat, w: Trace, indexes: seq<nat>, last: GridState): Clicking
    decreases |planned| - k
  {
    if k >= |planned| then Clicking(w, indexes, "", last)
    else
      var s, w1 := page.poll(w.polls), AfterPoll(page, w);
      var resolved := Find(Tiles(s.marks), planned[k]);
      if !Matches(s, visual) || resolved.None? then Clicking(w1, indexes, "stale-grid-during-selection", s)
      else
        var target := Center(Tiles(s.marks)[resolved.value].bounds);
        if target.None? then Clicking(w1, indexes, "click-unresolved", s)
        else
          var w2 := AfterClick(page, w1, s, target.value, Some(planned[k]));
          if !page.click(w1.clicks) then Clicking(w2, indexes, "click-unresolved", s)
          else ClickAll(page, planned, visual, k + 1, w2, indexes + [resolved.value], s)
  }

  function Prefix(planned: seq<string>, n: nat): seq<string>
  {
    if n <= |planned| then planned[..n] else planned
  }

  /** The end of a call whose clicks all went through. */
  function Submit(page: Page, submit: bool, visual: seq<string>, planned: seq<string>, c: Clicking): (Outcome, Trace)
  {
    var current, w := page.poll(c.trace.polls), AfterPoll(page, c.trace);
    var point := if Center(current.submitBounds).Some? then Center(current.submitBounds) else page.confirmation;
    var tries := submit && Matches(current, visual) && point.Some?;
    var w1 := if tries then AfterClick(page, w, current, point.value, None) else w;
    var submitted := tries && page.click(w.clicks);
    var reason := if !submit || submitted then ""
                  else if !Matches(current, visual) then "stale-grid-before-submit" else "submit-not-confirmed";
    (Outcome(c.indexes, Prefix(planned, |c.indexes|), submitted, reason, page.poll(w1.polls)), AfterPoll(page, w1))
  }

  /** The whole call as a function of the page. */
  function Applied(page: Page, cursor: Option<Point>, markIds: seq<string>, submit: bool, expected: Option<GridState>): (Outcome, Trace)
  {
    var start := Trace([], 0, 0, cursor);
    var observed := if expected.Some? then expected.value else page.poll(0);
    var w := if expected.Some? then start else AfterPoll(page, start);
    var planned, visual := Plan(observed, Requested(markIds)), Fingerprint(observed);
    var current, w1 := page.poll(w.polls), AfterPoll(page, w);
    if !observed.isGrid || |planned| != |Requested(markIds)| || !Matches(current, visual) then
      (Outcome([], [], false, "stale-grid-before-selection", current), w1)
    else
      var c := ClickAll(page, planned, visual, 0, w1, [], current);
      if c.reason != "" then (Outcome(c.indexes, Prefix(planned, |c.indexes|), false, c.reason, c.state), c.trace)
      else Submit(page, submit, visual, planned, c)
  }

  class ProximityGridActionExecutor {
    var cursor: Option<Point>

    constructor ()
      ensures cursor == None
    {
      cursor := None;
    }

    method ClickTo(page: Page, w: Trace, s: GridState, target: Point, id: Option<string>) returns (done: bool, next: Trace)
      requires w.cursor == cursor
      modifies this
      ensures done == page.click(w.clicks) && next == AfterClick(page, w, s, target, id) && cursor == next.cursor
    {
      if cursor.None? {
        cursor := Some(Point(if s.width > 0.0 then s.width / 2.0 else target.x, if s.height > 0.0 then s.height / 2.0 else target.y));
      }
      var from := cursor.value;
      done := page.click(w.clicks);
      if done {
        cursor := Some(target);
      }
      next := Trace(w.acts + [Clicked(id, from, target, done)], w.polls, w.clicks + 1, cursor);
    }

    method ClickMarks(page: Page, planned: seq<string>, visual: seq<string>, w: Trace, last: GridState)
      returns (trace: Trace, indexes: seq<nat>, ids: seq<string>, reason: string, current: GridState)
      requires w.cursor == cursor
      modifies this
      ensures Clicking(trace, indexes, reason, current) == ClickAll(page, planned, visual, 0, w, [], last) && cursor == trace.cursor
      ensures ids == Prefix(planned, |indexes|)
    {
      trace, indexes, ids, reason, current := w, [], [], "", last;
      for k := 0 to |planned|
        invariant ClickAll(page, planned, visual, k, trace, indexes, current) == ClickAll(page, planned, visual, 0, w, [], last)
        invariant reason == "" && cursor == trace.cursor && |indexes| == k && ids == planned[..k]
      {
        current := page.poll(trace.polls);
        trace := AfterPoll(page, trace);
        if !Matches(current, visual) {
          reason := "stale-grid-during-selection";
          return;
        }
        var tiles := Tiles(current.marks);
        var resolved := Find(tiles, planned[k]);
        if resolved.None? {
          reason := "stale-grid-during-selection";
          return;
        }
        var target := Center(tiles[resolved.value].bounds);
        if target.None? {
          reason := "click-unresolved";
          return;
        }
        var done;
        done, trace := ClickTo(page, trace, current, target.value, Some(planned[k]));
        if !done {
          reason := "click-unresolved";
          return;
        }
        indexes := indexes + [resolved.value];
        ids := ids + [planned[k]];
      }
    }

    method SubmitMarks(page: Page, submit: bool, visual: seq<string>, ghost planned: seq<string>, c: Clicking, ids: seq<string>)
      returns (out: Outcome, trace: Trace)
      requires c.trace.cursor == cursor && ids == Prefix(planned, |c.indexes|)
      modifies this
      ensures (out, trace) == Submit(page, submit, visual, planned, c) && cursor == trace.cursor
    {
      var current := page.poll(c.trace.polls);
      trace := AfterPoll(page, c.trace);
      var submitted, reason := false, "";
      if submit {
        if !Matches(current, visual) {
          reason := "stale-grid-before-submit";
        } else {
          var point := if Center(current.submitBounds).Some? then Center(current.submitBounds) else page.confirmation;
          if point.Some? {
            submitted, trace := ClickTo(page, trace, current, point.value, None);
          }
          reason := if submitted then "" else "submit-not-confirmed";
        }
      }
      var final := page.poll(trace.polls);
      trace := AfterPoll(page, trace);
      out := Outcome(c.indexes, ids, submitted, reason, final);
    }

    /** `apply_marks`; `trace` is the interaction it performed. */
    method ApplyMarks(page: Page, markIds: seq<string>, submit: bool, expected: Option<GridState>) returns (out: Outcome, trace: Trace)
      modifies this
      ensures (out, trace) == Applied(page, old(cursor), markIds, submit, expected) && cursor == trace.cursor
    {
      hide ClickAll, Submit, Order, Matches, Fingerprint;
      trace := Trace([], 0, 0, cursor);
      var observed;
      if expected.Some? {
        observed := expected.value;
      } else {
        observed := page.poll(0);
        trace := AfterPoll(page, trace);
      }
      var requested := Requested(markIds);
      var tiles := Tiles(observed.marks);
      var order := OrderedIndexes(tiles, SelectedTiles(tiles, requested, |tiles|));
      var planned := Ids(tiles, order);
      var visual := Fingerprint(observed);
      var current := page.poll(trace.polls);
      trace := AfterPoll(page, trace);
      if !observed.isGrid || |planned| != |requested| {
        return Outcome([], [], false, "stale-grid-before-selection", current), trace;
      }
      if !Matches(current, visual) {
        return Outcome([], [], false, "stale-grid-before-selection", current), trace;
      }
      var indexes, ids, reason;
      trace, indexes, ids, reason, current := ClickMarks(page, planned, visual, trace, current);
      if reason != "" {
        return Outcome(indexes, ids, false, reason, current), trace;
      }
      out, trace := SubmitMarks(page, submit, visual, planned, Clicking(trace, indexes, reason, current), ids);
    }
  }

  // ----- act only on an unchanged grid

  ghost predicate IsCenterOf(s: GridState, id: Option<string>, target: Point)
  {
    id.Some? ==>
      var k := Find(Tiles(s.marks), id.value);
      k.Some? && Center(Tiles(s.marks)[k.value].bounds) == Some(target)
  }

  /** Every click directly follows a poll that still showed the expected grid, and aims at the tile
      that carries the clicked id in that very poll. */
  ghost predicate FollowsMatchingPoll(acts: seq<Act>, visual: seq<string>, i: nat)
    requires i < |acts|
  {
    acts[i].Clicked? ==>
      && i > 0 && acts[i - 1].Polled? && Matches(acts[i - 1].state, visual)
      && IsCenterOf(acts[i - 1].state, acts[i].id, acts[i].target)
  }

  ghost predicate Shows(a: Act, visual: seq<string>)
  {
    a.Polled? ==> Matches(a.state, visual)
  }

  /** ... and after a poll that showed anything else there is no click at all. */
  ghost predicate Disciplined(acts: seq<Act>, visual: seq<string>)
  {
    && (forall i :: 0 <= i < |acts| ==> FollowsMatchingPoll(acts, visual, i))
    && (forall i, j :: 0 <= i < j < |acts| && !Shows(acts[i], visual) ==> acts[j].Polled?)
  }

  ghost predicate Unchanged(acts: seq<Act>, visual: seq<string>)
  {
    forall i :: 0 <= i < |acts| ==> Shows(acts[i], visual)
  }

  lemma PollKeepsDiscipline(acts: seq<Act>, visual: seq<string>, s: GridState)
    requires Disciplined(acts, visual)
    ensures Disciplined(acts + [Polled(s)], visual)
    ensures Unchanged(acts, visual) && Matches(s, visual) ==> Unchanged(acts + [Polled(s)], visual)
  {
    var longer := acts + [Polled(s)];
    forall i | 0 <= i < |longer|
      ensures FollowsMatchingPoll(longer, visual, i)
    {
      assert i < |acts| ==> FollowsMatchingPoll(acts, visual, i);
    }
  }

  lemma ClickKeepsDiscipline(acts: seq<Act>, visual: seq<string>, s: GridState, a: Act)
    requires Disciplined(acts, visual) && Unchanged(acts, visual)
    requires acts != [] && acts[|acts| - 1] == Polled(s) && Matches(s, visual)
    requires a.Clicked? && IsCenterOf(s, a.id, a.target)
    ensures Disciplined(acts + [a], visual) && Unchanged(acts + [a], visual)
  {
    var longer := acts + [a];
    forall i | 0 <= i < |longer|
      ensures FollowsMatchingPoll(longer, visual, i)
    {
      assert i < |acts| ==> FollowsMatchingPoll(acts, visual, i);
    }
  }

  /** The ids whose clicks went through, in order. */
  function DoneIds(acts: seq<Act>): seq<string>
  {
    if acts == [] then []
    else
      var a := acts[|acts| - 1];
      DoneIds(acts[..|acts| - 1]) + if a.Clicked? && a.done && a.id.Some? then [a.id.value] else []
  }

  /** How many submit clicks went through. */
  function Submits(acts: seq<Act>): nat
  {
    if acts == [] then 0
    else
      var a := acts[|acts| - 1];
      Submits(acts[..|acts| - 1]) + if a.Clicked? && a.done && a.id.None? then 1 else 0
  }

  lemma OneMoreAct(acts: seq<Act>, a: Act)
    ensures DoneIds(acts + [a]) == DoneIds(acts) + if a.Clicked? && a.done && a.id.Some? then [a.id.value] else []
    ensures Submits(acts + [a]) == Submits(acts) + if a.Clicked? && a.done && a.id.None? then 1 else 0
  {
  }

  lemma PollAddsNothing(page: Page, w: Trace)
    ensures DoneIds(AfterPoll(page, w).acts) == DoneIds(w.acts) && Submits(AfterPoll(page, w).acts) == Submits(w.acts)
  {
  }

  /** The click loop: disciplined, and what it clicked is a prefix of the plan. */
  lemma {:induction false} ClickAllIsDisciplined(page: Page, planned: seq<string>, visual: seq<string>, k: nat, w: Trace,
                                                 indexes: seq<nat>, last: GridState)
    requires Disciplined(w.acts, visual) && Unchanged(w.acts, visual)
    requires k <= |planned| && |indexes| == k && DoneIds(w.acts) == planned[..k] && Submits(w.acts) == 0
    ensures var c := ClickAll(page, planned, visual, k, w, indexes, last);
            && Disciplined(c.trace.acts, visual) && Submits(c.trace.acts) == 0
            && |c.indexes| <= |planned| && DoneIds(c.trace.acts) == planned[..|c.indexes|]
            && (c.reason == "" ==> Unchanged(c.trace.acts, visual) && |c.indexes| == |planned|)
    decreases |planned| - k
  {
    if k < |planned| {
      hide Disciplined, Unchanged, Matches, DoneIds, Submits, Find, Center, Tiles;
      var s, w1 := page.poll(w.polls), AfterPoll(page, w);
      PollKeepsDiscipline(w.acts, visual, s);
      PollAddsNothing(page, w);
      var resolved := Find(Tiles(s.marks), planned[k]);
      if Matches(s, visual) && resolved.Some? {
        var target := Center(Tiles(s.marks)[resolved.value].bounds);
        if target.Some? {
          var w2 := AfterClick(page, w1, s, target.value, Some(planned[k]));
          var act := w2.acts[|w2.acts| - 1];
          ClickKeepsDiscipline(w1.acts, visual, s, act);
          OneMoreAct(w1.acts, act);
          if page.click(w1.clicks) {
            assert planned[..k + 1] == planned[..k] + [planned[k]];
            ClickAllIsDisciplined(page, planned, visual, k + 1, w2, indexes + [resolved.value], s);
          }
        }
      }
    }
  }

  lemma SubmitIsDisciplined(page: Page, submit: bool, visual: seq<string>, planned: seq<string>, c: Clicking)
    requires Disciplined(c.trace.acts, visual) && Unchanged(c.trace.acts, visual)
    requires |c.indexes| == |planned| && DoneIds(c.trace.acts) == planned && Submits(c.trace.acts) == 0
    ensures var (out, trace) := Submit(page, submit, visual, planned, c);
            && Disciplined(trace.acts, visual) && DoneIds(trace.acts) == planned
            && out.clickedIndexes == c.indexes && out.clickedMarkIds == planned
            && Submits(trace.acts) == if out.submitted then 1 else 0
  {
    var current, w := page.poll(c.trace.polls), AfterPoll(page, c.trace);
    PollKeepsDiscipline(c.trace.acts, visual, current);
    PollAddsNothing(page, c.trace);
    var point := if Center(current.submitBounds).Some? then Center(current.submitBounds) else page.confirmation;
    hide Disciplined, Unchanged, Matches, DoneIds, Submits, Center;
    if submit && Matches(current, visual) && point.Some? {
      var w1 := AfterClick(page, w, current, point.value, None);
      var act := w1.acts[|w1.acts| - 1];
      ClickKeepsDiscipline(w.acts, visual, current, act);
      OneMoreAct(w.acts, act);
      PollKeepsDiscipline(w1.acts, visual, page.poll(w1.polls));
      PollAddsNothing(page, w1);
    } else {
      PollKeepsDiscipline(w.acts, visual, page.poll(w.polls));
      PollAddsNothing(page, w);
    }
  }

  /** The state a call plans on. */
  function Observed(page: Page, expected: Option<GridState>): GridState
  {
    if expected.Some? then expected.value else page.poll(0)
  }

  /** Against any page: no click without a matching poll directly before it, none after a
      non-matching one; the tiles clicked are a prefix of the plan; and the form is submitted, once,
      only after the whole plan was clicked. */
  lemma ActsOnlyOnUnchangedGrid(page: Page, cursor: Option<Point>, markIds: seq<string>, submit: bool, expected: Option<GridState>)
    ensures var (out, trace) := Applied(page, cursor, markIds, submit, expected);
            var observed := Observed(page, expected);
            var planned := Plan(observed, Requested(markIds));
            && Disciplined(trace.acts, Fingerprint(observed))
            && |out.clickedIndexes| <= |planned|
            && DoneIds(trace.acts) == out.clickedMarkIds == planned[..|out.clickedIndexes|]
            && Submits(trace.acts) == (if out.submitted then 1 else 0)
            && (out.submitted ==> submit && out.clickedMarkIds == planned && |planned| == |Requested(markIds)|)
  {
    hide Disciplined, Unchanged, Matches, DoneIds, Submits, Plan, Fingerprint, Requested, ClickAll, Submit;
    var observed := Observed(page, expected);
    var planned, visual := Plan(observed, Requested(markIds)), Fingerprint(observed);
    var w := Opening(page, cursor, expected);
    OpeningIsDisciplined(page, cursor, expected);
    var current := page.poll(w.polls);
    var w1 := AfterPoll(page, w);
    if observed.isGrid && |planned| == |Requested(markIds)| && Matches(current, visual) {
      ClickAllIsDisciplined(page, planned, visual, 0, w1, [], current);
      var c := ClickAll(page, planned, visual, 0, w1, [], current);
      if c.reason == "" {
        SubmitIsDisciplined(page, submit, visual, planned, c);
        SubmittedOnlyIfAsked(page, submit, visual, planned, c);
      }
    }
  }

  /** The trace before the first revalidating poll. */
  function Opening(page: Page, cursor: Option<Point>, expected: Option<GridState>): Trace
  {
    if expected.Some? then Trace([], 0, 0, cursor) else AfterPoll(page, Trace([], 0, 0, cursor))
  }

  lemma OpeningIsDisciplined(page: Page, cursor: Option<Point>, expected: Option<GridState>)
    ensures var observed := Observed(page, expected);
            var visual := Fingerprint(observed);
            var w := Opening(page, cursor, expected);
            var w1 := AfterPoll(page, w);
            && Disciplined(w1.acts, visual) && DoneIds(w1.acts) == [] && Submits(w1.acts) == 0
            && (observed.isGrid && Matches(page.poll(w.polls), visual) ==> Unchanged(w1.acts, visual))
  {
    var visual := Fingerprint(Observed(page, expected));
    var start := Trace([], 0, 0, cursor);
    PollKeepsDiscipline([], visual, page.poll(0));
    PollAddsNothing(page, start);
    var w := Opening(page, cursor, expected);
    PollKeepsDiscipline(w.acts, visual, page.poll(w.polls));
    PollAddsNothing(page, w);
  }

  lemma SubmittedOnlyIfAsked(page: Page, submit: bool, visual: seq<string>, planned: seq<string>, c: Clicking)
    ensures Submit(page, submit, visual, planned, c).0.submitted ==> submit
  {
  }

  // ----- what "unchanged" and "aimed" mean, from the states alone

  /** `Tiles` keeps exactly the tiles, in order. */
  lemma {:induction false} TilesAreTheTiles(a: seq<Mark>, b: seq<Mark>)
    ensures Tiles(a + b) == Tiles(a) + Tiles(b)
    ensures forall m :: m in Tiles(a) <==> m in a && m.isTile
    ensures |a| == 1 ==> Tiles(a) == if a[0].isTile then a else []
    decreases |a|
  {
    if a == [] {
      assert a + b == b;
    } else {
      assert (a + b)[1..] == a[1..] + b;
      TilesAreTheTiles(a[1..], b);
      assert forall m :: m in a <==> m == a[0] || m in a[1..];
    }
  }

  /** Both states are grids with as many tiles, and at each position the tiles show the same image --
      or mean the same, where there is no image. */
  ghost predicate SameGrid(s: GridState, observed: GridState)
  {
    var a, b := Tiles(s.marks), Tiles(observed.marks);
    && s.isGrid && |a| == |b|
    && forall i :: 0 <= i < |a| ==>
         (if a[i].source != "" then a[i].source else a[i].semantic) == (if b[i].source != "" then b[i].source else b[i].semantic)
  }

  lemma MatchesIffSameGrid(s: GridState, observed: GridState)
    ensures Matches(s, Fingerprint(observed)) <==> SameGrid(s, observed)
  {
    var a, b := Tiles(s.marks), Tiles(observed.marks);
    assert |Fingerprint(s)| == |a| && |Fingerprint(observed)| == |b|;
    if Fingerprint(s) == Fingerprint(observed) {
      forall i | 0 <= i < |a|
        ensures (if a[i].source != "" then a[i].source else a[i].semantic) == (if b[i].source != "" then b[i].source else b[i].semantic)
      {
        assert Fingerprint(s)[i] == Fingerprint(observed)[i];
      }
    }
  }

  /** The middle of a rectangle that has a size. */
  ghost predicate IsMiddle(b: Option<Bounds>, p: Point)
  {
    b.Some? && b.value.width > 0.0 && b.value.height > 0.0
    && p == Point(b.value.x + b.value.width / 2.0, b.value.y + b.value.height / 2.0)
  }

  /** `p` is the middle of the first tile that carries the id. */
  ghost predicate AimsAt(s: GridState, id: string, p: Point)
  {
    exists k: nat :: FirstWithId(Tiles(s.marks), id, k) && IsMiddle(Tiles(s.marks)[k].bounds, p)
  }

  ghost predicate FirstWithId(tiles: seq<Mark>, id: string, k: nat)
  {
    k < |tiles| && tiles[k].markId == id && forall j :: 0 <= j < k ==> tiles[j].markId != id
  }

  lemma {:induction false} FindIsFirst(tiles: seq<Mark>, id: string)
    ensures Find(tiles, id).Some? ==> FirstWithId(tiles, id, Find(tiles, id).value)
  {
    if tiles != [] && tiles[0].markId != id {
      FindIsFirst(tiles[1..], id);
      var rest := Find(tiles[1..], id);
      if rest.Some? {
        assert forall j :: 0 < j <= rest.value ==> tiles[j] == tiles[1..][j - 1];
      }
    }
  }

  /** What a click of a call on `observed` must follow: a poll that shows the observed grid unchanged,
      with the target in the middle of the tile that carries the id in that poll. */
  ghost predicate Justified(acts: seq<Act>, observed: GridState, i: nat)
    requires i < |acts|
  {
    acts[i].Clicked? ==>
      && i > 0 && acts[i - 1].Polled? && SameGrid(acts[i - 1].state, observed)
      && (acts[i].id.Some? ==> AimsAt(acts[i - 1].state, acts[i].id.value, acts[i].target))
  }

  /** Every click of a call, against any page, directly follows a poll that shows as many tiles as the
      observed state, each with the same image, and hits the middle of the tile with the clicked id;
      after a poll that shows anything else nothing is clicked. */
  lemma ClicksAreJustified(page: Page, cursor: Option<Point>, markIds: seq<string>, submit: bool, expected: Option<GridState>)
    ensures var acts := Applied(page, cursor, markIds, submit, expected).1.acts;
            var observed := if expected.Some? then expected.value else page.poll(0);
            && (forall i :: 0 <= i < |acts| ==> Justified(acts, observed, i))
            && (forall i, j :: 0 <= i < j < |acts| && acts[i].Polled? && !SameGrid(acts[i].state, observed) ==> acts[j].Polled?)
  {
    hide Applied, Matches, Fingerprint, SameGrid, DoneIds, Submits, Plan, Requested;
    var acts := Applied(page, cursor, markIds, submit, expected).1.acts;
    var observed := Observed(page, expected);
    ActsOnlyOnUnchangedGrid(page, cursor, markIds, submit, expected);
    forall i | 0 <= i < |acts|
      ensures Justified(acts, observed, i)
    {
      assert FollowsMatchingPoll(acts, Fingerprint(observed), i);
      if acts[i].Clicked? {
        var s := acts[i - 1].state;
        MatchesIffSameGrid(s, observed);
        if acts[i].id.Some? {
          FindIsFirst(Tiles(s.marks), acts[i].id.value);
          assert IsCenterOf(s, acts[i].id, acts[i].target);
          var k := Find(Tiles(s.marks), acts[i].id.value).value;
          assert FirstWithId(Tiles(s.marks), acts[i].id.value, k) && IsMiddle(Tiles(s.marks)[k].bounds, acts[i].target);
        }
      }
    }
    forall i, j | 0 <= i < j < |acts| && acts[i].Polled? && !SameGrid(acts[i].state, observed)
      ensures acts[j].Polled?
    {
      MatchesIffSameGrid(acts[i].state, observed);
      assert !Shows(acts[i], Fingerprint(observed));
    }
  }

  // ----- duplicate ids

  /** No two selected tiles carry the same id. */
  ghost predicate DistinctIds(tiles: seq<Mark>, requested: set<string>)
  {
    forall i, j :: 0 <= i < j < |tiles| && tiles[i].markId in requested && tiles[j].markId in requested ==>
      tiles[i].markId != tiles[j].markId
  }

  ghost predicate NoRepeats(s: seq<string>)
  {
    forall i, j :: 0 <= i < j < |s| ==> s[i] != s[j]
  }

  lemma {:induction false} SelectedTilesAreExact(tiles: seq<Mark>, requested: set<string>, n: nat)
    requires n <= |tiles|
    ensures var r := SelectedTiles(tiles, requested, n);
            && (forall i, j :: 0 <= i < j < |r| ==> r[i] < r[j])
            && (forall t :: 0 <= t < n && tiles[t].markId in requested ==> t in r)
  {
    if n != 0 {
      SelectedTilesAreExact(tiles, requested, n - 1);
      var rest, r := SelectedTiles(tiles, requested, n - 1), SelectedTiles(tiles, requested, n);
      forall t | 0 <= t < n && tiles[t].markId in requested
        ensures t in r
      {
        if t == n - 1 {
          assert r[|rest|] == t;
        } else {
          assert t in rest;
        }
      }
    }
  }

  ghost predicate AllDifferent(s: seq<nat>)
  {
    forall i, j :: 0 <= i < j < |s| ==> s[i] != s[j]
  }

  lemma SameMembers(a: seq<nat>, b: seq<nat>, x: nat)
    requires multiset(a) == multiset(b)
    ensures x in a <==> x in b
  {
    assert x in a <==> x in multiset(a);
    assert x in b <==> x in multiset(b);
  }

  /** A rearrangement of distinct indexes is distinct. */
  lemma {:induction false} RearrangedStaysDistinct(a: seq<nat>, b: seq<nat>)
    requires AllDifferent(a) && multiset(a) == multiset(b)
    ensures AllDifferent(b)
    decreases |b|
  {
    if b != [] {
      var v := b[0];
      SameMembers(a, b, v);
      assert b == [v] + b[1..];
      RemoveTakesOne(a, v);
      RemovedStaysDistinct(a, v);
      var rest := Remove(a, v);
      hide Remove, AllDifferent;
      assert multiset(rest) == multiset(a) - multiset{v} == multiset(b[1..]);
      RearrangedStaysDistinct(rest, b[1..]);
      SameMembers(rest, b[1..], v);
      PrependFresh(v, b[1..]);
    }
  }

  lemma PrependFresh(v: nat, s: seq<nat>)
    requires AllDifferent(s) && v !in s
    ensures AllDifferent([v] + s)
  {
  }

  lemma TailIsFresh(a: seq<nat>)
    requires a != [] && AllDifferent(a)
    ensures AllDifferent(a[1..]) && a[0] !in a[1..]
  {
    assert forall i :: 0 <= i < |a| - 1 ==> a[1..][i] == a[i + 1];
  }

  lemma {:induction false} RemovedStaysDistinct(a: seq<nat>, v: nat)
    requires AllDifferent(a) && v in a
    ensures v !in Remove(a, v) && AllDifferent(Remove(a, v))
  {
    hide AllDifferent;
    TailIsFresh(a);
    if a[0] != v {
      var rest := Remove(a[1..], v);
      RemovedStaysDistinct(a[1..], v);
      assert a[0] !in rest;
      PrependFresh(a[0], rest);
    }
  }

  /** The click order visits each requested tile exactly once. */
  ghost predicate Visits(tiles: seq<Mark>, requested: set<string>, order: seq<nat>)
  {
    && AllDifferent(order)
    && (forall p :: 0 <= p < |order| ==> order[p] < |tiles| && tiles[order[p]].markId in requested)
    && (forall t :: 0 <= t < |tiles| && tiles[t].markId in requested ==> t in order)
  }

  lemma OrderVisits(tiles: seq<Mark>, requested: set<string>)
    ensures Visits(tiles, requested, Order(tiles, SelectedTiles(tiles, requested, |tiles|)))
  {
    var selected := SelectedTiles(tiles, requested, |tiles|);
    var order := Order(tiles, selected);
    SelectedTilesAreExact(tiles, requested, |tiles|);
    OrderIsPermutation(tiles, selected);
    RearrangedStaysDistinct(selected, order);
    hide Order, SelectedTiles;
    forall p | 0 <= p < |order|
      ensures order[p] < |tiles| && tiles[order[p]].markId in requested
    {
      SameMembers(selected, order, order[p]);
    }
    forall t: nat | t < |tiles| && tiles[t].markId in requested
      ensures t in order
    {
      SameMembers(selected, order, t);
    }
  }

  /** When does a plan click every tile id at most once?  If and only if the selected tiles carry
      distinct ids -- which the length comparison of the source does not check. */
  lemma PlanRepeatsIffIdsRepeat(observed: GridState, requested: set<string>)
    ensures NoRepeats(Plan(observed, requested)) <==> DistinctIds(Tiles(observed.marks), requested)
  {
    var tiles := Tiles(observed.marks);
    OrderVisits(tiles, requested);
    VisitsRepeatIff(tiles, requested, Order(tiles, SelectedTiles(tiles, requested, |tiles|)));
  }

  lemma VisitsRepeatIff(tiles: seq<Mark>, requested: set<string>, order: seq<nat>)
    requires Visits(tiles, requested, order)
    ensures NoRepeats(Ids(tiles, order)) <==> DistinctIds(tiles, requested)
  {
    if i, j :| 0 <= i < j < |tiles| && tiles[i].markId in requested && tiles[i].markId == tiles[j].markId {
      assert i in order && j in order;
      var p :| 0 <= p < |order| && order[p] == i;
      var q :| 0 <= q < |order| && order[q] == j;
      assert Ids(tiles, order)[p] == Ids(tiles, order)[q];
    }
  }

  function IdSet(s: seq<string>): set<string>
  {
    set id | id in s
  }

  lemma {:induction false} RepeatsShrinkTheSet(s: seq<string>)
    ensures |IdSet(s)| <= |s|
    ensures |IdSet(s)| == |s| <==> NoRepeats(s)
  {
    if s == [] {
      assert IdSet(s) == {};
    } else {
      var init, last := s[..|s| - 1], s[|s| - 1];
      RepeatsShrinkTheSet(init);
      assert s == init + [last];
      assert IdSet(s) == IdSet(init) + {last};
      if last in init {
        var i :| 0 <= i < |init| && init[i] == last;
        assert IdSet(s) == IdSet(init) && s[i] == s[|s| - 1];
      } else {
        assert forall i :: 0 <= i < |init| ==> s[i] == init[i];
      }
    }
  }

  lemma FullSubset(a: set<string>, b: set<string>)
    requires a <= b
    ensures |a| == |b| <==> a == b
  {
    assert b == a + (b - a);
  }

  lemma PlanStaysRequested(observed: GridState, requested: set<string>)
    ensures IdSet(Plan(observed, requested)) <= requested
  {
    var tiles := Tiles(observed.marks);
    OrderVisits(tiles, requested);
    var order := Order(tiles, SelectedTiles(tiles, requested, |tiles|));
    hide Order, SelectedTiles, Tiles;
    forall id | id in Ids(tiles, order)
      ensures id in requested
    {
      var p :| 0 <= p < |order| && Ids(tiles, order)[p] == id;
    }
  }

  /** Every requested id is carried by some tile. */
  ghost predicate AllPresent(tiles: seq<Mark>, requested: set<string>)
  {
    forall id :: id in requested ==> exists t :: 0 <= t < |tiles| && tiles[t].markId == id
  }

  lemma VisitsAreCompleteIffPresent(tiles: seq<Mark>, requested: set<string>, order: seq<nat>)
    requires Visits(tiles, requested, order)
    ensures (forall id :: id in requested ==> id in Ids(tiles, order)) <==> AllPresent(tiles, requested)
  {
    if AllPresent(tiles, requested) {
      forall id | id in requested
        ensures id in Ids(tiles, order)
      {
        var t :| 0 <= t < |tiles| && tiles[t].markId == id;
        var p :| 0 <= p < |order| && order[p] == t;
        assert Ids(tiles, order)[p] == id;
      }
    }
    forall id | id in Ids(tiles, order)
      ensures exists t :: 0 <= t < |tiles| && tiles[t].markId == id
    {
      var p :| 0 <= p < |order| && Ids(tiles, order)[p] == id;
      assert tiles[order[p]].markId == id;
    }
  }

  /** The plan reaches every requested id if and only if all of them are on the page. */
  lemma PlanIsCompleteIffPresent(observed: GridState, requested: set<string>)
    ensures IdSet(Plan(observed, requested)) == requested <==> AllPresent(Tiles(observed.marks), requested)
  {
    var tiles := Tiles(observed.marks);
    var order := Order(tiles, SelectedTiles(tiles, requested, |tiles|));
    hide Order, SelectedTiles, Tiles, Visits, Ids, AllPresent;
    PlanStaysRequested(observed, requested);
    OrderVisits(tiles, requested);
    VisitsAreCompleteIffPresent(tiles, requested, order);
    assert forall id :: id in IdSet(Ids(tiles, order)) <==> id in Ids(tiles, order);
  }

  /** For ids taken from the observed state, as both callers take them, the length comparison is
      exact: it passes if and only if the tiles carrying them have distinct ids. */
  lemma LengthCheckIsExactForPresentIds(observed: GridState, requested: set<string>)
    requires AllPresent(Tiles(observed.marks), requested)
    ensures IdSet(Plan(observed, requested)) == requested
    ensures |Plan(observed, requested)| == |requested| <==> DistinctIds(Tiles(observed.marks), requested)
  {
    hide Plan, DistinctIds, NoRepeats, IdSet, AllPresent;
    PlanIsCompleteIffPresent(observed, requested);
    RepeatsShrinkTheSet(Plan(observed, requested));
    PlanRepeatsIffIdsRepeat(observed, requested);
  }

  /** For any ids, a plan that passes the length comparison clicks each of them exactly once if and
      only if all of them are on the page. */
  lemma PassingPlanIsRightIffPresent(observed: GridState, requested: set<string>)
    requires |Plan(observed, requested)| == |requested|
    ensures IdSet(Plan(observed, requested)) == requested && NoRepeats(Plan(observed, requested))
       <==> AllPresent(Tiles(observed.marks), requested)
  {
    hide Plan, NoRepeats, IdSet, AllPresent;
    PlanIsCompleteIffPresent(observed, requested);
    RepeatsShrinkTheSet(Plan(observed, requested));
  }

  /** A submitted call clicked exactly the requested ids if and only if the tiles it planned on
      carried distinct ids. */
  lemma SubmittedIsCompleteIffDistinct(page: Page, cursor: Option<Point>, markIds: seq<string>, submit: bool,
                                       expected: Option<GridState>)
    requires Applied(page, cursor, markIds, submit, expected).0.submitted
    ensures IdSet(Applied(page, cursor, markIds, submit, expected).0.clickedMarkIds) == Requested(markIds)
       <==> DistinctIds(Tiles(Observed(page, expected).marks), Requested(markIds))
  {
    var observed, requested := Observed(page, expected), Requested(markIds);
    hide Applied, Plan, Requested, DistinctIds, NoRepeats, IdSet;
    ActsOnlyOnUnchangedGrid(page, cursor, markIds, submit, expected);
    PlanStaysRequested(observed, requested);
    RepeatsShrinkTheSet(Plan(observed, requested));
    FullSubset(IdSet(Plan(observed, requested)), requested);
    PlanRepeatsIffIdsRepeat(observed, requested);
  }

  /** An id that is not on the page is what the length comparison can miss: two tiles sharing an id
      pass in place of it, and the plan clicks one of them twice. */
  lemma SharedIdsPassTheLengthCheck()
    ensures var tile := Mark(true, "a", "s", "", None);
            var observed := GridState(true, [tile, tile], None, 0.0, 0.0);
            var requested := Requested(["a", "b"]);
            |Plan(observed, requested)| == |requested| && "b" !in Plan(observed, requested)
  {
    var tile := Mark(true, "a", "s", "", None);
    var tiles := [tile, tile];
    assert tiles[1..] == [tile] && [tile][1..] == [];
    assert Tiles([tile]) == [tile] + Tiles([]);
    assert Tiles(tiles) == tiles;
    var requested := Requested(["a", "b"]);
    assert requested == {"a", "b"} by {
      assert "a" in ["a", "b"] && "b" in ["a", "b"];
    }
    assert SelectedTiles(tiles, requested, 0) == [];
    assert SelectedTiles(tiles, requested, 1) == [0];
    assert SelectedTiles(tiles, requested, 2) == [0, 1];
    assert !Resolved(tiles, [0, 1]) by {
      assert Center(tiles[[0, 1][0]].bounds).None?;
    }
    assert Order(tiles, [0, 1]) == [0, 1];
    assert Ids(tiles, [0, 1]) == ["a", "a"];
  }
}
