/**
 Resolving a frame path step by step, and why it agrees with discovery on a static frame tree.
 */
module FrameResolution {
  import opened Common
  import opened FrameDiscovery

  datatype Box = Box(x: real, y: real, width: real, height: real)

  /** A frame tree that does not change while it is being read: the answers depend on the frame
      and the selector only.  `box` is the content box of the owner element, None when missing. */
  datatype Site = Site(document: FrameId -> Option<Document>, child: (FrameId, string) -> Option<FrameId>,
                       box: (FrameId, string) -> Option<Box>)

  datatype Located = Located(frame: FrameId, x: real, y: real)

  function AsPage(site: Site): Page
  {
    Page((p, f) => site.document(f), (p: Path, f) => if p.Child? then site.child(f, p.selector) else None)
  }

  /** One step: geometry first when offsets are wanted, then the child frame. */
  function StepInto(site: Site, f: FrameId, selector: string, offsets: bool): Result<Located>
  {
    var box := site.box(f, selector);
    if offsets && box.None? then Err("frame path no longer resolves")
    else if offsets && (box.value.width <= 0.0 || box.value.height <= 0.0) then Err("frame is not visible")
    else match site.child(f, selector)
      case None => Err("frame path no longer resolves")
      case Some(g) => Ok(if offsets then Located(g, box.value.x, box.value.y) else Located(g, 0.0, 0.0))
  }

  function Shift(r: Result<Located>, x: real, y: real): Result<Located>
  {
    match r case Err(e) => Err(e) case Ok(l) => Ok(Located(l.frame, x + l.x, y + l.y))
  }

  /** The meaning of a path: its steps from `f`, empty selectors skipped, offsets added up. */
  function Resolve(site: Site, f: FrameId, path: seq<string>, offsets: bool): Result<Located>
    decreases |path|
  {
    if path == [] then Ok(Located(f, 0.0, 0.0))
    else if path[0] == "" then Resolve(site, f, path[1..], offsets)
    else match StepInto(site, f, path[0], offsets)
      case Err(e) => Err(e)
      case Ok(l) => Shift(Resolve(site, l.frame, path[1..], offsets), l.x, l.y)
  }

  method ResolvePath(site: Site, root: FrameId, path: seq<string>, offsets: bool) returns (r: Result<Located>)
    ensures r == Resolve(site, root, path, offsets)
  {
    var current, x, y := root, 0.0, 0.0;
    for i := 0 to |path|
      invariant Resolve(site, root, path, offsets) == Shift(Resolve(site, current, path[i..], offsets), x, y)
    {
      assert path[i..][0] == path[i] && path[i..][1..] == path[i + 1..];
      var selector := path[i];
      if selector == "" {
        continue;
      }
      if offsets {
        var box := site.box(current, selector);
        if box.None? {
          return Err("frame path no longer resolves");
        }
        if box.value.width <= 0.0 || box.value.height <= 0.0 {
          return Err("frame is not visible");
        }
        x := x + box.value.x;
        y := y + box.value.y;
      }
      var child := site.child(current, selector);
      if child.None? {
        return Err("frame path no longer resolves");
      }
      current := child.value;
    }
    r := Ok(Located(current, x, y));
  }

  /** Resolving a concatenated path is resolving its parts in turn, with the offsets adding. */
  lemma {:induction false} ResolveConcat(site: Site, f: FrameId, p: seq<string>, q: seq<string>, offsets: bool)
    ensures Resolve(site, f, p + q, offsets)
         == match Resolve(site, f, p, offsets)
            case Err(e) => Err(e)
            case Ok(l) => Shift(Resolve(site, l.frame, q, offsets), l.x, l.y)
    decreases |p|
  {
    if p == [] {
      assert p + q == q;
    } else {
      assert (p + q)[1..] == p[1..] + q;
      if p[0] == "" {
        ResolveConcat(site, f, p[1..], q, offsets);
      } else {
        var step := StepInto(site, f, p[0], offsets);
        if step.Ok? {
          ResolveConcat(site, step.value.frame, p[1..], q, offsets);
        }
      }
    }
  }

  // ----- resolution as a walk

  function NonEmpty(path: seq<string>): seq<string>
  {
    if path == [] then [] else (if path[0] == "" then [] else [path[0]]) + NonEmpty(path[1..])
  }

  /** Empty selectors are skipped. */
  lemma {:induction false} EmptySelectorsDoNothing(site: Site, f: FrameId, path: seq<string>, offsets: bool)
    ensures Resolve(site, f, path, offsets) == Resolve(site, f, NonEmpty(path), offsets)
    decreases |path|
  {
    if path != [] {
      if path[0] == "" {
        assert NonEmpty(path) == NonEmpty(path[1..]);
        EmptySelectorsDoNothing(site, f, path[1..], offsets);
      } else {
        assert NonEmpty(path)[0] == path[0] && NonEmpty(path)[1..] == NonEmpty(path[1..]);
        var step := StepInto(site, f, path[0], offsets);
        if step.Ok? {
          EmptySelectorsDoNothing(site, step.value.frame, path[1..], offsets);
        }
      }
    }
  }

  /** `frames` are the frames met from the first one on: each step leads to the next, and when offsets
      are wanted the owner element of each is present and has a size. */
  ghost predicate Walk(site: Site, path: seq<string>, frames: seq<FrameId>, offsets: bool)
  {
    && |frames| == |path| + 1
    && forall i :: 0 <= i < |path| ==> StepsTo(site, frames[i], path[i], frames[i + 1], offsets)
  }

  ghost predicate StepsTo(site: Site, f: FrameId, selector: string, g: FrameId, offsets: bool)
  {
    && site.child(f, selector) == Some(g)
    && (offsets ==> site.box(f, selector).Some? && site.box(f, selector).value.width > 0.0 && site.box(f, selector).value.height > 0.0)
  }

  /** The positions of the owner elements on the way, added up. */
  function OwnersX(site: Site, path: seq<string>, frames: seq<FrameId>): real
    requires |frames| == |path| + 1
    decreases |path|
  {
    if path == [] then 0.0
    else (match site.box(frames[0], path[0]) case Some(b) => b.x case None => 0.0) + OwnersX(site, path[1..], frames[1..])
  }

  function OwnersY(site: Site, path: seq<string>, frames: seq<FrameId>): real
    requires |frames| == |path| + 1
    decreases |path|
  {
    if path == [] then 0.0
    else (match site.box(frames[0], path[0]) case Some(b) => b.y case None => 0.0) + OwnersY(site, path[1..], frames[1..])
  }

  /** A path resolves along each of its walks: to the last frame, at the sum of the owners' positions. */
  lemma {:induction false} WalkResolves(site: Site, path: seq<string>, frames: seq<FrameId>, offsets: bool)
    requires "" !in path && Walk(site, path, frames, offsets)
    ensures Resolve(site, frames[0], path, offsets)
         == Ok(if offsets then Located(frames[|path|], OwnersX(site, path, frames), OwnersY(site, path, frames))
               else Located(frames[|path|], 0.0, 0.0))
    decreases |path|
  {
    if path != [] {
      assert StepsTo(site, frames[0], path[0], frames[1], offsets);
      forall i | 0 <= i < |path| - 1
        ensures StepsTo(site, frames[1..][i], path[1..][i], frames[1..][i + 1], offsets)
      {
        assert StepsTo(site, frames[i + 1], path[i + 1], frames[i + 2], offsets);
      }
      WalkResolves(site, path[1..], frames[1..], offsets);
    }
  }

  /** ... and it resolves only along a walk. */
  lemma {:induction false} ResolvedMeansWalk(site: Site, f: FrameId, path: seq<string>, offsets: bool) returns (frames: seq<FrameId>)
    requires "" !in path && Resolve(site, f, path, offsets).Ok?
    ensures Walk(site, path, frames, offsets) && frames[0] == f
    decreases |path|
  {
    if path == [] {
      frames := [f];
    } else {
      var g := StepInto(site, f, path[0], offsets).value.frame;
      var rest := ResolvedMeansWalk(site, g, path[1..], offsets);
      frames := [f] + rest;
      forall i | 0 <= i < |path|
        ensures StepsTo(site, frames[i], path[i], frames[i + 1], offsets)
      {
        if i > 0 {
          assert StepsTo(site, rest[i - 1], path[1..][i - 1], rest[i], offsets);
        }
      }
    }
  }

  predicate HasSize(b: Box)
  {
    b.width > 0.0 && b.height > 0.0
  }

  /** A path that does not resolve can be walked up to some step.  There the owner element or the child
      frame is missing, or, when offsets are wanted, the owner has no size; the error tells which. */
  lemma {:induction false} ErrorsMean(site: Site, f: FrameId, path: seq<string>, offsets: bool) returns (frames: seq<FrameId>, k: nat)
    requires "" !in path && Resolve(site, f, path, offsets).Err?
    ensures k < |path| && Walk(site, path[..k], frames, offsets) && frames[0] == f
    ensures var box := site.box(frames[k], path[k]);
            && (site.child(frames[k], path[k]).None? || (offsets && (box.None? || !HasSize(box.value))))
            && Resolve(site, f, path, offsets)
               == Err(if offsets && box.Some? && !HasSize(box.value) then "frame is not visible" else "frame path no longer resolves")
    decreases |path|
  {
    var step := StepInto(site, f, path[0], offsets);
    if step.Err? {
      frames, k := [f], 0;
    } else {
      var rest, before := ErrorsMean(site, step.value.frame, path[1..], offsets);
      frames, k := [f] + rest, before + 1;
      assert path[1..][before] == path[k] && path[1..][..before] == path[1..k];
      forall i | 0 <= i < k
        ensures StepsTo(site, frames[i], path[..k][i], frames[i + 1], offsets)
      {
        if i > 0 {
          assert StepsTo(site, rest[i - 1], path[1..][..before][i - 1], rest[i], offsets);
        }
      }
    }
  }

  // ----- discovery and resolution

  /** The selectors of a discovered path, outermost first. */
  function Selectors(p: Path): seq<string>
  {
    if p.Root? then [] else Selectors(p.parent) + [p.selector]
  }

  /** Every owner element on the way is present and has a positive size. */
  predicate Visible(site: Site, root: FrameId, p: Path)
  {
    p.Child? ==>
      && Visible(site, root, p.parent)
      && var f := FrameAt(AsPage(site), root, p.parent);
         f.Some? && var box := site.box(f.value, p.selector); box.Some? && box.value.width > 0.0 && box.value.height > 0.0
  }

  lemma ResolveOne(site: Site, f: FrameId, selector: string, offsets: bool)
    requires selector != ""
    ensures Resolve(site, f, [selector], offsets) == StepInto(site, f, selector, offsets)
  {
  }

  /** Every path discovery can enqueue resolves to the very frame discovery found: always without
      offsets, and with offsets exactly when every owner element on the way is visible. */
  lemma {:induction false} DiscoveredPathsResolve(site: Site, root: FrameId, p: Path, offsets: bool)
    requires FrameAt(AsPage(site), root, p).Some?
    ensures var r := Resolve(site, root, Selectors(p), offsets);
            && (r.Ok? <==> !offsets || Visible(site, root, p))
            && (r.Ok? ==> r.value.frame == FrameAt(AsPage(site), root, p).value)
  {
    if p.Child? {
      var f := FrameAt(AsPage(site), root, p.parent).value;
      DiscoveredPathsResolve(site, root, p.parent, offsets);
      ResolveConcat(site, root, Selectors(p.parent), [p.selector], offsets);
      ResolveOne(site, f, p.selector, offsets);
    }
  }
}
