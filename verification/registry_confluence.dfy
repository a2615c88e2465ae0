/**
 Event confluence of the registry.

 Messages of different sessions reach the reader loop in any interleaving.  Up to the
 generations handed out, the final state depends only on what each session itself received, in its
 own order; the generations agree exactly when each session that is still live was last registered
 at the same turn.
 */
module RegistryConfluence {
  import opened Common
  import opened RegistryFacts

  /** The stream one session sees, in order. */
  function Projection(es: seq<Event>, s: SessionId): seq<Event>
  {
    if es == [] then []
    else (if Subject(es[0]) == s then [es[0]] else []) + Projection(es[1..], s)
  }

  /** Events that register their subject when it is not live. */
  predicate Creates(e: Event)
  {
    match e
    case AttachedToTarget(_, s, _, _) => s != ""
    case ContextCreated(s, isDefault, f, c) => isDefault && s != "" && f != "" && c.Some?
    case _ => false
  }

  /** The sessions registered while `es` is processed, in registration order. */
  function Registrations(w: Facts, es: seq<Event>): seq<SessionId>
    decreases |es|
  {
    if es == [] then []
    else (if Creates(es[0]) && Subject(es[0]) !in w.live then [Subject(es[0])] else []) + Registrations(Step(w, es[0]), es[1..])
  }

  // ----- one session on its own

  function Local(w: Facts, s: SessionId): Option<Live>
  {
    if s in w.live then Some(w.live[s]) else None
  }

  /** The step of one session in isolation; `stamp` is used only when the event registers it. */
  function LocalStep(l: Option<Live>, e: Event, stamp: nat): Option<Live>
  {
    var s := Subject(e);
    var alone := match l case Some(v) => map[s := v] case None => map[];
    var after := Step(Facts(alone, if stamp == 0 then 0 else stamp - 1), e);
    Local(after, s)
  }

  function LocalRun(l: Option<Live>, es: seq<Event>, stamps: seq<nat>): Option<Live>
    decreases |es|
  {
    if es == [] then l
    else if Creates(es[0]) && l.None? && stamps != [] then
      LocalRun(LocalStep(l, es[0], stamps[0]), es[1..], stamps[1..])
    else
      LocalRun(LocalStep(l, es[0], 0), es[1..], stamps)
  }

  /** The stamps handed to `s` by a registration order that starts at counter value `start`. */
  function StampsFor(s: SessionId, order: seq<SessionId>, start: nat): seq<nat>
  {
    if order == [] then []
    else (if order[0] == s then [start + 1] else []) + StampsFor(s, order[1..], start + 1)
  }

  lemma StepIsLocal(w: Facts, e: Event, s: SessionId)
    ensures Subject(e) != s ==> Local(Step(w, e), s) == Local(w, s)
    ensures Subject(e) == s && s in w.live ==> Local(Step(w, e), s) == LocalStep(Local(w, s), e, 0)
    ensures Subject(e) == s && s !in w.live ==>
              Local(Step(w, e), s) == LocalStep(None, e, if Creates(e) then w.generation + 1 else 0)
    ensures Step(w, e).generation == w.generation + if Creates(e) && Subject(e) !in w.live then 1 else 0
  {
  }

  lemma ProjectionHead(es: seq<Event>, s: SessionId)
    requires es != []
    ensures Subject(es[0]) != s ==> Projection(es, s) == Projection(es[1..], s)
    ensures Subject(es[0]) == s ==>
              Projection(es, s) != [] && Projection(es, s)[0] == es[0] && Projection(es, s)[1..] == Projection(es[1..], s)
  {
  }

  lemma StampsHead(s: SessionId, first: SessionId, later: seq<SessionId>, start: nat)
    ensures var stamps, rest := StampsFor(s, [first] + later, start), StampsFor(s, later, start + 1);
            if first == s then stamps != [] && stamps[0] == start + 1 && stamps[1..] == rest else stamps == rest
  {
    assert ([first] + later)[1..] == later;
  }

  lemma LocalRunHead(l: Option<Live>, stream: seq<Event>, stamps: seq<nat>)
    requires stream != []
    ensures LocalRun(l, stream, stamps)
         == if Creates(stream[0]) && l.None? && stamps != []
            then LocalRun(LocalStep(l, stream[0], stamps[0]), stream[1..], stamps[1..])
            else LocalRun(LocalStep(l, stream[0], 0), stream[1..], stamps)
  {
  }

  /** Each session evolves as if it were alone, given the stamps it receives. */
  lemma {:induction false} RunIsLocal(w: Facts, es: seq<Event>, s: SessionId)
    ensures Local(Run(w, es), s)
         == LocalRun(Local(w, s), Projection(es, s), StampsFor(s, Registrations(w, es), w.generation))
    ensures Run(w, es).generation == w.generation + |Registrations(w, es)|
    decreases |es|
  {
    if es != [] {
      var e, next := es[0], Step(w, es[0]);
      var later := Registrations(next, es[1..]);
      StepIsLocal(w, e, s);
      RunIsLocal(next, es[1..], s);
      ProjectionHead(es, s);
      StampsHead(s, Subject(e), later, w.generation);
      assert Registrations(w, es) == if Creates(e) && Subject(e) !in w.live then [Subject(e)] + later else later;
      if Subject(e) == s {
        LocalRunHead(Local(w, s), Projection(es, s), StampsFor(s, Registrations(w, es), w.generation));
      }
      hide Step, LocalStep, LocalRun, StampsFor, Projection, Creates, Subject, Registrations;
    }
  }

  // ----- the theorems

  ghost predicate SameStreams(es: seq<Event>, fs: seq<Event>)
  {
    forall s :: Projection(es, s) == Projection(fs, s)
  }

  /** Confluence: two interleavings of the same per-session streams that register sessions in the
      same order end in the same state, hence with the same contexts and the same routes. */
  lemma {:induction false} Confluence(w: Facts, es: seq<Event>, fs: seq<Event>)
    requires SameStreams(es, fs)
    requires Registrations(w, es) == Registrations(w, fs)
    ensures Run(w, es) == Run(w, fs)
    ensures forall f :: Route(Run(w, es), f) == Route(Run(w, fs), f)
  {
    var a, b := Run(w, es), Run(w, fs);
    forall s
      ensures Local(a, s) == Local(b, s)
    {
      RunIsLocal(w, es, s);
      RunIsLocal(w, fs, s);
    }
    RunIsLocal(w, es, "");
    RunIsLocal(w, fs, "");
    assert forall s :: s in a.live <==> Local(a, s).Some?;
    assert forall s :: s in b.live <==> Local(b, s).Some?;
    assert a.live.Keys == b.live.Keys;
    assert forall s :: s in a.live ==> Some(a.live[s]) == Local(a, s) && Some(b.live[s]) == Local(b, s);
    assert a.live == b.live;
  }

  // ----- exactly when two interleavings agree

  /** A session without the generation it was handed. */
  function Erased(l: Option<Live>): Option<Live>
  {
    match l case None => None case Some(v) => Some(v.(info := v.info.(generation := 0)))
  }

  /** What a stream makes of its session, generations aside. */
  function Skeleton(l: Option<Live>, stream: seq<Event>): Option<Live>
    decreases |stream|
  {
    if stream == [] then Erased(l) else Skeleton(LocalStep(Erased(l), stream[0], 0), stream[1..])
  }

  lemma ErasedStep(w: Facts, e: Event, s: SessionId)
    ensures Subject(e) == s ==> Erased(Local(Step(w, e), s)) == Erased(LocalStep(Erased(Local(w, s)), e, 0))
    ensures Subject(e) != s ==> Local(Step(w, e), s) == Local(w, s)
  {
  }

  lemma SkeletonErases(l: Option<Live>, k: Option<Live>, stream: seq<Event>)
    requires Erased(l) == Erased(k)
    ensures Skeleton(l, stream) == Skeleton(k, stream)
  {
  }

  /** Up to generations a session depends on its own stream alone. */
  lemma {:induction false} RunHasSkeleton(w: Facts, es: seq<Event>, s: SessionId)
    ensures Erased(Local(Run(w, es), s)) == Skeleton(Local(w, s), Projection(es, s))
    decreases |es|
  {
    if es != [] {
      RunHasSkeleton(Step(w, es[0]), es[1..], s);
      ProjectionHead(es, s);
      ErasedStep(w, es[0], s);
      hide Step, LocalStep, Erased, Projection, Local;
      if Subject(es[0]) == s {
        SkeletonErases(Local(Step(w, es[0]), s), LocalStep(Erased(Local(w, s)), es[0], 0), Projection(es[1..], s));
      }
    }
  }

  /** How often a stream registers its session. */
  function Count(live: bool, stream: seq<Event>): nat
    decreases |stream|
  {
    if stream == [] then 0
    else (if Creates(stream[0]) && !live then 1 else 0) + Count(LiveNext(live, stream[0]), stream[1..])
  }

  predicate LiveNext(live: bool, e: Event)
  {
    (live || Creates(e)) && !(e.DetachedFromTarget? && e.session != "")
  }

  lemma LiveStep(w: Facts, e: Event, s: SessionId)
    ensures s in Step(w, e).live <==> if Subject(e) == s then LiveNext(s in w.live, e) else s in w.live
  {
  }

  /** The registrations of a run, as a multiset, are determined by the streams. */
  lemma {:induction false} RegistrationsAreCounted(w: Facts, es: seq<Event>, s: SessionId)
    ensures multiset(Registrations(w, es))[s] == Count(s in w.live, Projection(es, s))
    decreases |es|
  {
    if es != [] {
      var e, next := es[0], Step(w, es[0]);
      RegistrationsAreCounted(next, es[1..], s);
      ProjectionHead(es, s);
      LiveStep(w, e, s);
      var first := if Creates(e) && Subject(e) !in w.live then [Subject(e)] else [];
      hide Step, Creates, Subject, Projection, LiveNext;
      assert multiset(Registrations(w, es)) == multiset(first) + multiset(Registrations(next, es[1..]));
      assert multiset(first)[s] == if Creates(e) && s !in w.live && Subject(e) == s then 1 else 0;
    }
  }

  lemma SameStreamsSameRegistrations(w: Facts, es: seq<Event>, fs: seq<Event>)
    requires SameStreams(es, fs)
    ensures multiset(Registrations(w, es)) == multiset(Registrations(w, fs))
    ensures |Registrations(w, es)| == |Registrations(w, fs)|
  {
    var a, b := Registrations(w, es), Registrations(w, fs);
    forall s
      ensures multiset(a)[s] == multiset(b)[s]
    {
      RegistrationsAreCounted(w, es, s);
      RegistrationsAreCounted(w, fs, s);
    }
    assert |multiset(a)| == |a| && |multiset(b)| == |b|;
  }

  /** One plus the last position of a session in a registration order; 0 if it is not in it. */
  function LastTurn(order: seq<SessionId>, s: SessionId): (n: nat)
    ensures n <= |order| && (n == 0 <==> s !in order)
    ensures n > 0 ==> order[n - 1] == s && forall i :: n <= i < |order| ==> order[i] != s
  {
    if order == [] then 0 else if order[|order| - 1] == s then |order| else LastTurn(order[..|order| - 1], s)
  }

  lemma LastTurnIs(order: seq<SessionId>, s: SessionId, n: nat)
    requires 0 < n <= |order| && order[n - 1] == s && forall i :: n <= i < |order| ==> order[i] != s
    ensures LastTurn(order, s) == n
  {
    var m := LastTurn(order, s);
    assert s in order && m <= n && n <= m;
  }

  lemma LastTurnHead(first: seq<SessionId>, rest: seq<SessionId>, s: SessionId)
    requires |first| <= 1
    ensures LastTurn(first + rest, s) == if s in rest then LastTurn(rest, s) + |first| else if s in first then 1 else 0
  {
    var whole := first + rest;
    assert forall i :: |first| <= i < |whole| ==> whole[i] == rest[i - |first|];
    hide LastTurn;
    if s in rest {
      LastTurnIs(whole, s, LastTurn(rest, s) + |first|);
    } else if s in first {
      LastTurnIs(whole, s, 1);
    } else {
      assert s !in whole;
    }
  }

  /** The generation of a live session: that of its last registration in the run, or its old one. */
  lemma {:induction false} RunHandsOutTurns(w: Facts, es: seq<Event>, s: SessionId)
    requires s in Run(w, es).live
    ensures var n := LastTurn(Registrations(w, es), s);
            Run(w, es).live[s].info.generation == if n > 0 then w.generation + n else Stamp(w, s)
    ensures s !in Registrations(w, es) ==> s in w.live
    decreases |es|
  {
    if es != [] {
      var e, next := es[0], Step(w, es[0]);
      RunHandsOutTurns(next, es[1..], s);
      var later := Registrations(next, es[1..]);
      var first := if Creates(e) && Subject(e) !in w.live then [Subject(e)] else [];
      LastTurnHead(first, later, s);
      StepIsLocal(w, e, s);
      if s !in later {
        OneStepStamp(w, e, s);
      }
      hide Step, Creates, Subject, LastTurn;
      assert Run(w, es) == Run(next, es[1..]) && Registrations(w, es) == first + later;
      assert next.generation == w.generation + |first|;
    }
  }

  lemma OneStepStamp(w: Facts, e: Event, s: SessionId)
    requires s in Step(w, e).live
    ensures if Creates(e) && Subject(e) == s && s !in w.live then Stamp(Step(w, e), s) == w.generation + 1
            else s in w.live && Stamp(Step(w, e), s) == Stamp(w, s)
  {
  }

  /** Without any condition, the same streams lead to the same live sessions with the same targets,
      parents and contexts, and to the same counter: only generations can differ. */
  lemma OnlyGenerationsCanDiffer(w: Facts, es: seq<Event>, fs: seq<Event>)
    requires SameStreams(es, fs)
    ensures Run(w, es).generation == Run(w, fs).generation && Run(w, es).live.Keys == Run(w, fs).live.Keys
    ensures forall s :: s in Run(w, es).live ==>
                          && Run(w, es).live[s].contexts == Run(w, fs).live[s].contexts
                          && Run(w, es).live[s].info.(generation := 0) == Run(w, fs).live[s].info.(generation := 0)
  {
    var a, b := Run(w, es), Run(w, fs);
    SameStreamsSameRegistrations(w, es, fs);
    RunIsLocal(w, es, "");
    RunIsLocal(w, fs, "");
    forall s
      ensures Erased(Local(a, s)) == Erased(Local(b, s))
    {
      RunHasSkeleton(w, es, s);
      RunHasSkeleton(w, fs, s);
    }
    assert forall s :: (s in a.live <==> Erased(Local(a, s)).Some?) && (s in b.live <==> Erased(Local(b, s)).Some?);
  }

  /** One session ends alike exactly when its last registrations had the same turn. */
  lemma SameTurnSameSession(w: Facts, es: seq<Event>, fs: seq<Event>, s: SessionId)
    requires SameStreams(es, fs) && s in Run(w, es).live
    ensures var m, n := LastTurn(Registrations(w, es), s), LastTurn(Registrations(w, fs), s);
            && s in Run(w, fs).live && (Run(w, es).live[s] == Run(w, fs).live[s] <==> m == n)
            && (s !in Registrations(w, es) ==> m == n)
  {
    hide Run, Registrations, LastTurn, SameStreams;
    OnlyGenerationsCanDiffer(w, es, fs);
    SameStreamsSameRegistrations(w, es, fs);
    RunHandsOutTurns(w, es, s);
    RunHandsOutTurns(w, fs, s);
    assert s in Registrations(w, es) <==> s in multiset(Registrations(w, es));
    assert s in Registrations(w, fs) <==> s in multiset(Registrations(w, fs));
  }

  /** Exact confluence: two interleavings of the same streams end in the same state if and only if
      every session that is live at the end and was registered on the way had its last registration
      at the same turn in both. */
  lemma ExactConfluence(w: Facts, es: seq<Event>, fs: seq<Event>)
    requires SameStreams(es, fs)
    ensures Run(w, es) == Run(w, fs) <==>
            forall s :: s in Run(w, es).live && s in Registrations(w, es) ==>
                          LastTurn(Registrations(w, es), s) == LastTurn(Registrations(w, fs), s)
  {
    hide Run, Registrations, LastTurn, SameStreams;
    OnlyGenerationsCanDiffer(w, es, fs);
    forall s | s in Run(w, es).live
      ensures Run(w, es).live[s] == Run(w, fs).live[s] <==> LastTurn(Registrations(w, es), s) == LastTurn(Registrations(w, fs), s)
      ensures s !in Registrations(w, es) ==> LastTurn(Registrations(w, es), s) == LastTurn(Registrations(w, fs), s)
    {
      SameTurnSameSession(w, es, fs, s);
    }
    SameLive(Run(w, es), Run(w, fs));
  }

  lemma SameLive(a: Facts, b: Facts)
    requires a.generation == b.generation && a.live.Keys == b.live.Keys
    ensures a == b <==> forall s :: s in a.live ==> a.live[s] == b.live[s]
  {
    if forall s :: s in a.live ==> a.live[s] == b.live[s] {
      assert a.live == b.live;
    }
  }

  /** A stream that never (re-)registers its session: no attach or default-context event while the
      session is not live. `live` says whether it is live at the start. */
  predicate Settled(live: bool, stream: seq<Event>)
    decreases |stream|
  {
    stream == []
    || ((Creates(stream[0]) ==> live)
        && Settled(live && !(stream[0].DetachedFromTarget? && stream[0].session != ""), stream[1..]))
  }

  /** An event that registers nothing leaves a session live unless it detaches it. */
  lemma LiveAfter(w: Facts, e: Event, s: SessionId)
    requires Creates(e) ==> Subject(e) in w.live
    ensures s in Step(w, e).live <==> s in w.live && !(Subject(e) == s && e.DetachedFromTarget? && e.session != "")
  {
  }

  /** Whether anything registers can be read off the per-session streams. */
  lemma {:induction false} SettledIffNoRegistration(w: Facts, es: seq<Event>)
    ensures Registrations(w, es) == [] <==> forall s :: Settled(s in w.live, Projection(es, s))
    decreases |es|
  {
    hide Step, Creates, Subject;
    if es != [] {
      var e, next := es[0], Step(w, es[0]);
      SettledIffNoRegistration(next, es[1..]);
      var registers := Creates(e) && Subject(e) !in w.live;
      if registers {
        assert Projection(es, Subject(e))[0] == e;
        assert !Settled(false, Projection(es, Subject(e)));
      } else {
        forall s
          ensures Settled(s in w.live, Projection(es, s)) <==> Settled(s in next.live, Projection(es[1..], s))
        {
          LiveAfter(w, e, s);
          if Subject(e) == s {
            assert ([e] + Projection(es[1..], s))[1..] == Projection(es[1..], s);
          } else {
            assert Projection(es, s) == Projection(es[1..], s);
          }
        }
        assert Registrations(w, es) == Registrations(next, es[1..]);
      }
    }
  }

  /** For sessions that are already registered and whose detach is final, every interleaving of
      their streams ends with the same frame contexts and the same route for every frame. */
  lemma {:induction false} SettledConfluence(w: Facts, es: seq<Event>, fs: seq<Event>)
    requires SameStreams(es, fs)
    requires forall s :: Settled(s in w.live, Projection(es, s))
    ensures Run(w, es) == Run(w, fs)
    ensures forall f :: Route(Run(w, es), f) == Route(Run(w, fs), f)
  {
    SettledIffNoRegistration(w, es);
    SettledIffNoRegistration(w, fs);
    Confluence(w, es, fs);
  }

  /** An order that matters: two sessions that are re-registered by a late context event win the
      shared frame in the order of their re-registration. */
  lemma LateContextsRace(a: SessionId, b: SessionId, f: FrameId)
    requires a != "" && b != "" && a != b && f != ""
    ensures var late := [ContextCreated(a, true, f, Some(1)), ContextCreated(b, true, f, Some(2))];
            var swapped := [late[1], late[0]];
            && SameStreams(late, swapped)
            && Route(Run(INITIAL, late), f).Some? && Route(Run(INITIAL, late), f).value.sessionId == b
            && Route(Run(INITIAL, swapped), f).Some? && Route(Run(INITIAL, swapped), f).value.sessionId == a
  {
    var late := [ContextCreated(a, true, f, Some(1)), ContextCreated(b, true, f, Some(2))];
    var swapped := [late[1], late[0]];
    assert late[1..] == [late[1]] && swapped[1..] == [late[0]];
    forall s
      ensures Projection(late, s) == Projection(swapped, s)
    {
      assert Projection([late[1]], s) == if s == b then [late[1]] else [];
      assert Projection([late[0]], s) == if s == a then [late[0]] else [];
    }
    NewestLast(a, f, 1, b, 2);
    NewestLast(b, f, 2, a, 1);
  }

  lemma NewestLast(a: SessionId, f: FrameId, c: int, b: SessionId, d: int)
    requires a != "" && b != "" && a != b && f != ""
    ensures var w := Run(INITIAL, [ContextCreated(a, true, f, Some(c)), ContextCreated(b, true, f, Some(d))]);
            Route(w, f).Some? && Route(w, f).value.sessionId == b
  {
    var first, second := ContextCreated(a, true, f, Some(c)), ContextCreated(b, true, f, Some(d));
    var w1 := Step(INITIAL, first);
    var w2 := Step(w1, second);
    assert [first, second][1..] == [second];
    assert Run(w1, [second]) == Run(w2, []);
    ReachableIsWellFormed(INITIAL, [first, second]);
    RouteIsTheNewest(w2, f, Some(CandidateOf(w2, b, f)));
  }
}
