/**
 The controller and the click executor together: the executor is called with the ids of the selected
 tiles and the very state they were read from, and its answer decides the attempt.
 */
module GridController {
  import opened Common
  import Actions = GridActions
  import opened GridAttempts

  /** The mark ids of the tiles of a state, in order. */
  function TileIds(s: Actions.GridState): (ids: seq<string>)
    ensures |ids| == |Actions.Tiles(s.marks)|
  {
    var tiles := Actions.Tiles(s.marks);
    seq(|tiles|, i requires 0 <= i < |tiles| => tiles[i].markId)
  }

  /** Tile `i` is selected and carries the id. */
  predicate Carries(v: View, vision: Vision, i: int, id: string)
  {
    0 <= i < |v.markIds| && i in Selected(v, vision) && id != "" && v.markIds[i] == id
  }

  /** `selected_mark_ids`: the ids of the selected tiles below `n`, in tile order. */
  function MarkIds(v: View, vision: Vision, n: nat): (ids: seq<string>)
    requires n <= |v.markIds|
    ensures forall id :: id in ids <==> exists i :: i < n && Carries(v, vision, i, id)
  {
    if n == 0 then []
    else
      assert forall i, id :: i < n && Carries(v, vision, i, id) ==> i == n - 1 || i < n - 1;
      MarkIds(v, vision, n - 1) + if Carries(v, vision, n - 1, v.markIds[n - 1]) then [v.markIds[n - 1]] else []
  }

  /** What the executor does when the controller calls it. */
  function Execute(page: Actions.Page, cursor: Option<Actions.Point>, s: Actions.GridState, v: View, vision: Vision)
    : (Actions.Outcome, Actions.Trace)
  {
    Actions.Applied(page, cursor, MarkIds(v, vision, |v.markIds|), true, Some(s))
  }

  /** A call whose view was read from `s` and whose executor answer came from `page`. */
  ghost predicate CarriedOut(call: Call, page: Actions.Page, cursor: Option<Actions.Point>, s: Actions.GridState)
  {
    var out := Execute(page, cursor, s, call.view, call.vision).0;
    && call.view.markIds == TileIds(s)
    && call.applied == Applied(|out.clickedIndexes|, Actions.IdSet(out.clickedMarkIds), out.submitted, out.reason)
  }

  /** The ids that reach the executor are those of the selected tiles, and all are on the page. */
  lemma RequestedAreMapped(s: Actions.GridState, v: View, vision: Vision)
    requires v.markIds == TileIds(s)
    ensures Actions.Requested(MarkIds(v, vision, |v.markIds|)) == MappedIds(v, vision)
    ensures Actions.AllPresent(Actions.Tiles(s.marks), MappedIds(v, vision))
  {
    var ids := MarkIds(v, vision, |v.markIds|);
    forall id
      ensures id in Actions.Requested(ids) <==> id in MappedIds(v, vision)
    {
      assert id in Actions.Requested(ids) <==> id in ids && id != "";
      if i :| i < |v.markIds| && Carries(v, vision, i, id) {
        assert v.markIds[i] in MappedIds(v, vision);
      }
      if id in MappedIds(v, vision) {
        var i :| i in Selected(v, vision) && 0 <= i < |v.markIds| && v.markIds[i] != "" && v.markIds[i] == id;
        assert Carries(v, vision, i, id);
      }
    }
    forall id | id in MappedIds(v, vision)
      ensures exists t :: 0 <= t < |Actions.Tiles(s.marks)| && Actions.Tiles(s.marks)[t].markId == id
    {
      assert id in Actions.Requested(ids) && id in ids;
      var i :| i < |v.markIds| && Carries(v, vision, i, id);
      assert TileIds(s)[i] == Actions.Tiles(s.marks)[i].markId;
    }
  }

  function Image(sel: set<int>, ids: seq<string>): set<string>
    requires forall i :: i in sel ==> 0 <= i < |ids|
  {
    set i | i in sel :: ids[i]
  }

  lemma SomeMember<T>(sel: set<T>) returns (k: T)
    requires sel != {}
    ensures k in sel
  {
    k :| k in sel;
  }

  lemma {:induction false} InjectiveImage(sel: set<int>, ids: seq<string>)
    requires forall i :: i in sel ==> 0 <= i < |ids|
    requires forall i, j :: i in sel && j in sel && ids[i] == ids[j] ==> i == j
    ensures |Image(sel, ids)| == |sel|
  {
    if sel != {} {
      var k := SomeMember(sel);
      InjectiveImage(sel - {k}, ids);
      assert Image(sel, ids) == Image(sel - {k}, ids) + {ids[k]};
    }
  }

  /** As many ids as selected tiles, when the tiles carrying them have distinct ids. */
  lemma DistinctTilesCount(s: Actions.GridState, call: Call)
    requires call.view.markIds == TileIds(s) && Plannable(call)
    requires Actions.DistinctIds(Actions.Tiles(s.marks), MappedIds(call.view, call.vision))
    ensures |MappedIds(call.view, call.vision)| == |Selected(call.view, call.vision)|
  {
    var v, sel, ids := call.view, Selected(call.view, call.vision), MappedIds(call.view, call.vision);
    forall i | i in sel
      ensures 0 <= i < |v.markIds| && v.markIds[i] in ids && v.markIds[i] == Actions.Tiles(s.marks)[i].markId
    {
      assert i in Mapped(v, call.vision);
    }
    InjectiveImage(sel, v.markIds);
    assert Image(sel, v.markIds) == ids;
  }

  /** The executor on behalf of the controller, against any page: it clicks at all only if the
      selected tiles carry distinct ids, never clicks one id twice, clicks every selected one before
      it submits, and submits once. */
  lemma ExecutorServesController(call: Call, page: Actions.Page, cursor: Option<Actions.Point>, s: Actions.GridState)
    requires CarriedOut(call, page, cursor, s) && Plannable(call)
    ensures var (out, trace) := Execute(page, cursor, s, call.view, call.vision);
            var wanted := MappedIds(call.view, call.vision);
            && Actions.Disciplined(trace.acts, Actions.Fingerprint(s))
            && Actions.DoneIds(trace.acts) == out.clickedMarkIds
            && Actions.NoRepeats(out.clickedMarkIds) && Actions.IdSet(out.clickedMarkIds) <= wanted
            && (out.clickedMarkIds != [] ==> Actions.DistinctIds(Actions.Tiles(s.marks), wanted))
            && Actions.Submits(trace.acts) == (if out.submitted then 1 else 0)
            && (out.submitted ==> Actions.IdSet(out.clickedMarkIds) == wanted && |out.clickedMarkIds| == |Selected(call.view, call.vision)|)
    ensures call.applied.submitted ==> AllClicked(call)
  {
    var ids := MarkIds(call.view, call.vision, |call.view.markIds|);
    var wanted := MappedIds(call.view, call.vision);
    var (out, trace) := Execute(page, cursor, s, call.view, call.vision);
    hide Actions.Applied, Actions.Plan, Actions.Disciplined, Actions.DoneIds, Actions.Submits, Actions.NoRepeats, Actions.DistinctIds,
         Actions.IdSet, Actions.Requested, Actions.AllPresent, Actions.Tiles, Actions.Fingerprint, Plannable, MarkIds;
    RequestedAreMapped(s, call.view, call.vision);
    var planned := Actions.Plan(s, wanted);
    Actions.ActsOnlyOnUnchangedGrid(page, cursor, ids, true, Some(s));
    Actions.LengthCheckIsExactForPresentIds(s, wanted);
    Actions.PlanRepeatsIffIdsRepeat(s, wanted);
    ClicksOnlyPassingPlans(page, cursor, ids, s);
    if Actions.DistinctIds(Actions.Tiles(s.marks), wanted) {
      DistinctTilesCount(s, call);
      PrefixOfPlan(planned, |out.clickedIndexes|);
    }
  }

  /** A plan that fails the length comparison is refused before the first click. */
  lemma ClicksOnlyPassingPlans(page: Actions.Page, cursor: Option<Actions.Point>, ids: seq<string>, s: Actions.GridState)
    ensures var (out, trace) := Actions.Applied(page, cursor, ids, true, Some(s));
            |Actions.Plan(s, Actions.Requested(ids))| != |Actions.Requested(ids)| ==>
              out.clickedIndexes == [] && out.clickedMarkIds == [] && !out.submitted && out.reason == "stale-grid-before-selection"
  {
  }

  lemma PrefixOfPlan(planned: seq<string>, n: nat)
    requires Actions.NoRepeats(planned) && n <= |planned|
    ensures Actions.NoRepeats(planned[..n]) && Actions.IdSet(planned[..n]) <= Actions.IdSet(planned)
  {
  }

  /** A signature is taken for solved only by a call that clicked each selected tile's id exactly
      once, each click directly after a poll showing the expected grid, then submitted once, and then
      saw explicit completion.  The controller's own comparison of clicked and selected ids never
      rejects a submitted call. */
  lemma SolvedMeansClickedOnce(c: Controller, call: ValidCall, page: Actions.Page, cursor: Option<Actions.Point>, s: Actions.GridState)
    requires CarriedOut(call, page, cursor, s)
    ensures Verifies(c, call) <==>
              MayAct(c, call.view) && !call.vision.error && Plannable(call) && call.applied.submitted && Verify(call).verified
    ensures Verifies(c, call) ==>
              var (out, trace) := Execute(page, cursor, s, call.view, call.vision);
              && Actions.NoRepeats(Actions.DoneIds(trace.acts))
              && Actions.IdSet(Actions.DoneIds(trace.acts)) == MappedIds(call.view, call.vision)
              && |Actions.DoneIds(trace.acts)| == |Selected(call.view, call.vision)|
              && Actions.Submits(trace.acts) == 1 && Actions.Disciplined(trace.acts, Actions.Fingerprint(s))
  {
    hide Handle, Verifies, MayAct, Verify, Execute;
    ActsExactlyWhenAllowed(c, call);
    if Plannable(call) {
      ExecutorServesController(call, page, cursor, s);
      hide Plannable;
      assert call.applied.submitted == Execute(page, cursor, s, call.view, call.vision).0.submitted;
    }
  }
}
