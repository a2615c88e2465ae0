/**
 Document epochs: the per-frame navigation counter laid over the registry, and what a lock taken
 on (epoch, routing generation) guarantees when it is accepted again later.
 */
module DocumentEpochs {
  import opened Common
  import opened RegistryFacts

  type Epochs = map<FrameId, nat>

  function EpochOf(m: Epochs, f: FrameId): nat
  {
    if f in m then m[f] else 0
  }

  function Bump(m: Epochs, f: FrameId): Epochs
  {
    if f == "" then m else m[f := EpochOf(m, f) + 1]
  }

  function EpochStep(m: Epochs, e: Event): Epochs
  {
    match e
    case FrameAttached(f) => if f == "" || f in m then m else m[f := 0]
    case FrameNavigated(f) => Bump(m, f)
    case NavigatedWithinDocument(f) => Bump(m, f)
    case FrameDetached(f) => if f == "" then m else m - {f}
    case _ => m
  }

  function EpochRun(m: Epochs, es: seq<Event>): Epochs
    decreases |es|
  {
    if es == [] then m else EpochRun(EpochStep(m, es[0]), es[1..])
  }

  predicate Navigates(e: Event, f: FrameId)
  {
    e == FrameNavigated(f) || e == NavigatedWithinDocument(f)
  }

  /** How many events of the run navigated `f`. */
  function Navigations(es: seq<Event>, f: FrameId): nat
  {
    if es == [] then 0 else (if Navigates(es[0], f) then 1 else 0) + Navigations(es[1..], f)
  }

  ghost predicate NeverDetached(es: seq<Event>, f: FrameId)
  {
    FrameDetached(f) !in es
  }

  /** While a frame is not detached its epoch counts its navigations exactly. */
  lemma {:induction false} EpochCountsNavigations(m: Epochs, es: seq<Event>, f: FrameId)
    requires f != "" && NeverDetached(es, f)
    ensures EpochOf(EpochRun(m, es), f) == EpochOf(m, f) + Navigations(es, f)
    decreases |es|
  {
    if es != [] {
      EpochCountsNavigations(EpochStep(m, es[0]), es[1..], f);
    }
  }

  lemma {:induction false} EpochRunConcat(m: Epochs, es: seq<Event>, fs: seq<Event>)
    ensures EpochRun(m, es + fs) == EpochRun(EpochRun(m, es), fs)
    decreases |es|
  {
    if es == [] {
      assert es + fs == fs;
    } else {
      assert (es + fs)[1..] == es[1..] + fs;
      EpochRunConcat(EpochStep(m, es[0]), es[1..], fs);
    }
  }

  /** A detach forgets the count: afterwards the epoch counts from the last detach only. */
  lemma EpochRestartsAtDetach(m: Epochs, es: seq<Event>, fs: seq<Event>, f: FrameId)
    requires f != "" && NeverDetached(fs, f)
    ensures EpochOf(EpochRun(m, es + [FrameDetached(f)] + fs), f) == Navigations(fs, f)
  {
    EpochRunConcat(m, es + [FrameDetached(f)], fs);
    EpochRunConcat(m, es, [FrameDetached(f)]);
    var base := EpochRun(m, es + [FrameDetached(f)]);
    assert base == EpochStep(EpochRun(m, es), FrameDetached(f)) by {
      assert [FrameDetached(f)][1..] == [];
    }
    EpochCountsNavigations(base, fs, f);
  }

  /** The navigations of `f` since its last detach, as positions in the stream. */
  function NavigatedSince(es: seq<Event>, f: FrameId): set<int>
  {
    set i | 0 <= i < |es| && (es[i] == FrameNavigated(f) || es[i] == NavigatedWithinDocument(f))
            && forall j :: i < j < |es| ==> es[j] != FrameDetached(f)
  }

  lemma NavigatedSnoc(es: seq<Event>, f: FrameId)
    requires es != []
    ensures var init, last := es[..|es| - 1], es[|es| - 1];
            NavigatedSince(es, f) == if last == FrameDetached(f) then {}
                                     else if last == FrameNavigated(f) || last == NavigatedWithinDocument(f)
                                     then NavigatedSince(init, f) + {|es| - 1} else NavigatedSince(init, f)
  {
    var init, last := es[..|es| - 1], es[|es| - 1];
    assert forall i :: 0 <= i < |init| ==> init[i] == es[i];
    forall i
      ensures i in NavigatedSince(es, f) <==>
                last != FrameDetached(f)
                && (i in NavigatedSince(init, f) || (i == |es| - 1 && (last == FrameNavigated(f) || last == NavigatedWithinDocument(f))))
    {
      if i in NavigatedSince(es, f) && i < |init| {
        assert forall j :: i < j < |init| ==> init[j] != FrameDetached(f);
        assert es[|es| - 1] != FrameDetached(f);
      }
    }
  }

  lemma EpochRunSnoc(m: Epochs, es: seq<Event>)
    requires es != []
    ensures EpochRun(m, es) == EpochStep(EpochRun(m, es[..|es| - 1]), es[|es| - 1])
  {
    var init, last := es[..|es| - 1], es[|es| - 1];
    assert es == init + [last] && [last][1..] == [];
    EpochRunConcat(m, init, [last]);
  }

  lemma EpochAfterStep(m: Epochs, e: Event, f: FrameId)
    requires f != ""
    ensures EpochOf(EpochStep(m, e), f)
         == if e == FrameDetached(f) then 0
            else EpochOf(m, f) + if e == FrameNavigated(f) || e == NavigatedWithinDocument(f) then 1 else 0
  {
  }

  /** After any stream the epoch of a frame is the number of its navigations since its last detach. */
  lemma {:induction false} EpochFromMessages(es: seq<Event>, f: FrameId)
    requires f != ""
    ensures EpochOf(EpochRun(map[], es), f) == |NavigatedSince(es, f)|
    decreases |es|
  {
    if es != [] {
      var init, last := es[..|es| - 1], es[|es| - 1];
      EpochFromMessages(init, f);
      EpochRunSnoc(map[], es);
      NavigatedSnoc(es, f);
      EpochAfterStep(EpochRun(map[], init), last, f);
      hide EpochRun, EpochOf, EpochStep;
      assert |es| - 1 !in NavigatedSince(init, f);
      hide NavigatedSince;
    } else {
      assert NavigatedSince(es, f) == {};
    }
  }

  // ----- locks

  /** The routing generation a frame evaluation reports: 0 when the frame has no route. */
  ghost function RoutingGeneration(w: Facts, f: FrameId): nat
  {
    match Route(w, f) case Some(c) => c.generation case None => 0
  }

  /** The two comparisons a frame lock makes between the moment it was built and a later read. */
  ghost predicate LockAccepted(w: Facts, m: Epochs, es: seq<Event>, f: FrameId)
  {
    && EpochOf(EpochRun(m, es), f) == EpochOf(m, f)
    && RoutingGeneration(Run(w, es), f) == RoutingGeneration(w, f)
  }

  /** Equal routing generations at both ends of a run: the frame has no route at either end, or it is
      served by the same session, which stayed registered at every moment in between. */
  lemma RoutingLockIsSound(w: Facts, es: seq<Event>, f: FrameId)
    requires WellFormed(w) && RoutingGeneration(Run(w, es), f) == RoutingGeneration(w, f)
    ensures Route(w, f).Some? <==> Route(Run(w, es), f).Some?
    ensures Route(w, f).Some? ==>
              var s := Route(w, f).value.sessionId;
              && Route(Run(w, es), f).value.sessionId == s
              && s in w.live
              && forall k :: 0 <= k <= |es| ==> s in Run(w, es[..k]).live && Run(w, es[..k]).live[s].info == w.live[s].info
  {
    var v := Run(w, es);
    ReachableIsWellFormed(w, es);
    RouteIsTheNewest(w, f, Route(w, f));
    RouteIsTheNewest(v, f, Route(v, f));
    if Route(w, f).Some? {
      var s, t := Route(w, f).value.sessionId, Route(v, f).value.sessionId;
      assert es[..0] == [] && es[..|es|] == es;
      forall k | 0 <= k <= |es|
        ensures t in Run(w, es[..k]).live && Run(w, es[..k]).live[t].info == v.live[t].info
      {
        OldStampsMeanContinuousLife(w, es, t, k);
      }
      assert t in Run(w, es[..0]).live;
      assert s == t;
    }
  }

  /** An accepted lock on a frame that was not detached: nothing navigated the frame, and it is
      served by the same session, which stayed registered at every moment in between. */
  lemma AcceptedLockIsSound(w: Facts, m: Epochs, es: seq<Event>, f: FrameId)
    requires WellFormed(w) && f != "" && NeverDetached(es, f)
    requires LockAccepted(w, m, es, f)
    ensures Navigations(es, f) == 0
    ensures Route(w, f).Some? <==> Route(Run(w, es), f).Some?
    ensures Route(w, f).Some? ==>
              var s := Route(w, f).value.sessionId;
              && Route(Run(w, es), f).value.sessionId == s
              && s in w.live
              && forall k :: 0 <= k <= |es| ==> s in Run(w, es[..k]).live && Run(w, es[..k]).live[s].info == w.live[s].info
  {
    EpochCountsNavigations(m, es, f);
    RoutingLockIsSound(w, es, f);
  }

  /** The epoch half of the lock is exact: without a detach it accepts iff nothing navigated. */
  lemma EpochLockIsExact(m: Epochs, es: seq<Event>, f: FrameId)
    requires f != "" && NeverDetached(es, f)
    ensures EpochOf(EpochRun(m, es), f) == EpochOf(m, f) <==> Navigations(es, f) == 0
  {
    EpochCountsNavigations(m, es, f);
  }

  /** With a detach it is not: a frame that was navigated once, detached and navigated once again
      shows the epoch it had before. */
  lemma DetachedFrameCanReuseEpoch(w: Facts, f: FrameId)
    requires f != ""
    ensures var es := [FrameDetached(f), FrameNavigated(f)];
            LockAccepted(w, map[f := 1], es, f) && Navigations(es, f) == 1
  {
    var es := [FrameDetached(f), FrameNavigated(f)];
    assert es[1..] == [FrameNavigated(f)] && es[1..][1..] == [];
    EpochRestartsAtDetach(map[f := 1], [], [FrameNavigated(f)], f);
    assert [] + [FrameDetached(f)] + [FrameNavigated(f)] == es;
    assert Run(w, es) == Run(Run(w, es[1..]), []) == w;
  }

  // ----- when a route stays

  ghost predicate RoutedTo(w: Facts, f: FrameId, s: SessionId)
  {
    Route(w, f).Some? && Route(w, f).value.sessionId == s
  }

  /** The guards of the branches that take a frame away from the session serving it: a default
      context of another session that is unregistered or newer, or a detach, a clear or a matching
      destroy of the session itself. */
  predicate Displaces(w: Facts, e: Event, f: FrameId, s: SessionId)
    requires s in w.live && f in w.live[s].contexts
  {
    match e
    case ContextCreated(t, isDefault, g, c) =>
      && isDefault && t != "" && g == f && f != "" && c.Some? && t != s
      && (t !in w.live || w.live[t].info.generation > w.live[s].info.generation)
    case DetachedFromTarget(t) => t == s && s != ""
    case ContextsCleared(t) => t == s && s != ""
    case ContextDestroyed(t, c) => t == s && s != "" && c == Some(Effective(w.live[s].contexts[f]))
    case _ => false
  }

  lemma RoutedMeansHeld(w: Facts, f: FrameId, s: SessionId)
    requires WellFormed(w)
    ensures RoutedTo(w, f, s) <==>
              && HasContext(w, s, f)
              && forall t :: HasContext(w, t, f) ==> w.live[t].info.generation <= w.live[s].info.generation
  {
    RouteIsTheNewest(w, f, Route(w, f));
    var row := Row(w, f);
    assert forall t :: t in row <==> HasContext(w, t, f);
    if HasContext(w, s, f) && forall t :: HasContext(w, t, f) ==> w.live[t].info.generation <= w.live[s].info.generation {
      RouteIsTheNewest(w, f, Some(CandidateOf(w, s, f)));
    }
  }

  /** What one event does to the sessions that hold a context for `f`. */
  lemma HoldersAfterStep(w: Facts, e: Event, f: FrameId, t: SessionId)
    ensures var v := Step(w, e);
            var creates := e.ContextCreated? && e.isDefault && e.envelope == t && t != "" && e.frame == f && f != "" && e.context.Some?;
            var removes := t != "" && ((e.DetachedFromTarget? && e.session == t) || (e.ContextsCleared? && e.envelope == t)
                           || (e.ContextDestroyed? && e.envelope == t && HasContext(w, t, f)
                               && e.context == Some(Effective(w.live[t].contexts[f]))));
            && (HasContext(v, t, f) <==> creates || (HasContext(w, t, f) && !removes))
            && (t in w.live && t in v.live ==> v.live[t].info == w.live[t].info)
            && (creates && t !in w.live ==> v.live[t].info.generation == w.generation + 1)
  {
  }

  /** One event leaves a frame with its session if and only if it is not one of those. */
  lemma RouteStaysOneStep(w: Facts, e: Event, f: FrameId, s: SessionId)
    requires WellFormed(w) && RoutedTo(w, f, s)
    ensures s in w.live && f in w.live[s].contexts
    ensures RoutedTo(Step(w, e), f, s) <==> !Displaces(w, e, f, s)
  {
    var v := Step(w, e);
    StepKeepsWellFormed(w, e);
    RoutedMeansHeld(w, f, s);
    RoutedMeansHeld(v, f, s);
    assert forall t :: Stamp(w, t) <= w.generation;
    hide Step, Route, RoutedTo;
    HoldersAfterStep(w, e, f, s);
    forall t
      ensures HasContext(v, t, f) && t in w.live ==> v.live[t].info == w.live[t].info
      ensures HasContext(v, t, f) && !HasContext(w, t, f) ==> e.ContextCreated? && e.envelope == t
      ensures HasContext(v, t, f) && t !in w.live ==> v.live[t].info.generation == w.generation + 1
    {
      HoldersAfterStep(w, e, f, t);
    }
    if e.ContextCreated? {
      HoldersAfterStep(w, e, f, e.envelope);
    }
    assert Stamp(w, s) == w.live[s].info.generation;
  }

  /** No event of the run displaces `s` from `f` in the state it meets. */
  predicate Undisturbed(w: Facts, es: seq<Event>, f: FrameId, s: SessionId)
    decreases |es|
  {
    es == [] || (s in w.live && f in w.live[s].contexts && !Displaces(w, es[0], f, s) && Undisturbed(Step(w, es[0]), es[1..], f, s))
  }

  /** A frame is served by the same session at every moment of a run if and only if no event of the
      run displaces it. */
  lemma {:induction false} RouteStaysIffUndisturbed(w: Facts, es: seq<Event>, f: FrameId, s: SessionId)
    requires WellFormed(w) && RoutedTo(w, f, s)
    ensures (forall k :: 0 <= k <= |es| ==> RoutedTo(Run(w, es[..k]), f, s)) <==> Undisturbed(w, es, f, s)
    decreases |es|
  {
    hide Displaces, RoutedTo;
    assert es[..0] == [];
    if es != [] {
      var next := Step(w, es[0]);
      StepKeepsWellFormed(w, es[0]);
      RouteStaysOneStep(w, es[0], f, s);
      forall k | 0 < k <= |es|
        ensures Run(w, es[..k]) == Run(next, es[1..][..k - 1])
      {
        assert es[..k][0] == es[0] && es[..k][1..] == es[1..][..k - 1];
      }
      assert es[1..][..0] == [];
      assert Run(w, es[..1]) == next;
      if RoutedTo(next, f, s) {
        RouteStaysIffUndisturbed(next, es[1..], f, s);
        if Undisturbed(next, es[1..], f, s) {
          forall k | 0 < k <= |es|
            ensures RoutedTo(Run(w, es[..k]), f, s)
          {
            var j := k - 1;
            assert RoutedTo(Run(next, es[1..][..j]), f, s);
          }
        } else {
          var k :| 0 <= k <= |es[1..]| && !RoutedTo(Run(next, es[1..][..k]), f, s);
          assert Run(w, es[..k + 1]) == Run(next, es[1..][..k]);
        }
      }
    }
  }

  /** An accepted lock does not exclude such an event: equal routing generations at both ends do not
      mean the route never moved, because a newer session can take the frame and leave again. */
  lemma RouteCanVisitAnotherSession(a: SessionId, b: SessionId, f: FrameId)
    requires a != "" && b != "" && a != b && f != ""
    ensures var w := Run(INITIAL, [ContextCreated(a, true, f, Some(1))]);
            var visit := [ContextCreated(b, true, f, Some(2))];
            && RoutingGeneration(Run(w, visit + [DetachedFromTarget(b)]), f) == RoutingGeneration(w, f)
            && Route(Run(w, visit), f) != Route(w, f)
  {
    var first, second, third := ContextCreated(a, true, f, Some(1)), ContextCreated(b, true, f, Some(2)), DetachedFromTarget(b);
    var w1 := Step(INITIAL, first);
    var w2 := Step(w1, second);
    RunOne(INITIAL, first);
    RunOne(w1, second);
    RunOne(w2, third);
    RunConcat(w1, [second], [third]);
    ReachableIsWellFormed(INITIAL, [first]);
    ReachableIsWellFormed(w1, [second]);
    assert Step(w2, third).live == w1.live;
    OnlyContext(w1, a, f);
    OnlyContext(Step(w2, third), a, f);
    assert b in Row(w2, f) && Row(w2, f)[b].generation == 2;
    RouteIsTheNewest(w2, f, Route(w2, f));
  }

  lemma RunOne(w: Facts, e: Event)
    ensures Run(w, [e]) == Step(w, e)
  {
  }

  /** A state with a single session routes its frames to that session. */
  lemma OnlyContext(w: Facts, a: SessionId, f: FrameId)
    requires WellFormed(w) && w.live.Keys == {a} && HasContext(w, a, f)
    ensures Route(w, f) == Some(CandidateOf(w, a, f))
  {
    assert Row(w, f) == map[a := CandidateOf(w, a, f)];
    RouteIsTheNewest(w, f, Some(CandidateOf(w, a, f)));
  }
}
