/**
 The abstract state of the flattened CDP registry and its simplest possible step function.

 A live session carries its registration record and the execution context it currently
 reports for each frame.  Everything the real registry stores redundantly (candidate tables,
 the per-session frame sets, the cached winner of each frame) is a function of these facts;
 module Registry proves that its four mutable maps always agree with them.
 */
module RegistryFacts {
  import opened Common

  type SessionId = string
  type FrameId = string
  type TargetId = string

  datatype Session = Session(targetId: TargetId, targetType: string, parent: Option<SessionId>, generation: nat)

  datatype Candidate = Candidate(sessionId: SessionId, contextId: int, generation: nat, targetId: TargetId)

  datatype Live = Live(info: Session, contexts: map<FrameId, int>)

  datatype Facts = Facts(live: map<SessionId, Live>, generation: nat)

  /** One message of the browser-level websocket, after typed decoding.  An absent session or
      frame identifier is the empty string, an absent or non-numeric context id is None. */
  datatype Event =
    | AttachedToTarget(envelope: SessionId, session: SessionId, target: TargetId, targetType: string)
    | DetachedFromTarget(session: SessionId)
    | ContextCreated(envelope: SessionId, isDefault: bool, frame: FrameId, context: Option<int>)
    | ContextDestroyed(envelope: SessionId, context: Option<int>)
    | ContextsCleared(envelope: SessionId)
    | FrameAttached(frame: FrameId)
    | FrameNavigated(frame: FrameId)
    | NavigatedWithinDocument(frame: FrameId)
    | FrameDetached(frame: FrameId)

  /** The session whose facts an event may change. */
  function Subject(e: Event): SessionId
  {
    match e
    case AttachedToTarget(_, s, _, _) => s
    case DetachedFromTarget(s) => s
    case ContextCreated(s, _, _, _) => s
    case ContextDestroyed(s, _) => s
    case ContextsCleared(s) => s
    case _ => ""
  }

  const INITIAL := Facts(map[], 0)

  // ----- the reference steps

  function Register(w: Facts, s: SessionId, target: TargetId, targetType: string, parent: Option<SessionId>): Facts
  {
    if s in w.live then w
    else Facts(w.live[s := Live(Session(target, targetType, parent, w.generation + 1), map[])], w.generation + 1)
  }

  function Record(w: Facts, s: SessionId, f: FrameId, c: int): Facts
  {
    var r := Register(w, s, "", "", None);
    r.(live := r.live[s := r.live[s].(contexts := r.live[s].contexts[f := c])])
  }

  /** The id under which a stored context answers a destroy event: the source evaluates
      `contextId or -1`, so a stored 0 is looked up as -1. */
  function Effective(c: int): int
  {
    if c == 0 then -1 else c
  }

  function Survivors(contexts: map<FrameId, int>, c: int): map<FrameId, int>
  {
    map f | f in contexts && Effective(contexts[f]) != c :: contexts[f]
  }

  function Destroy(w: Facts, s: SessionId, c: int): Facts
  {
    if s in w.live then w.(live := w.live[s := w.live[s].(contexts := Survivors(w.live[s].contexts, c))]) else w
  }

  function Clear(w: Facts, s: SessionId): Facts
  {
    if s in w.live then w.(live := w.live[s := w.live[s].(contexts := map[])]) else w
  }

  function Detach(w: Facts, s: SessionId): Facts
  {
    w.(live := w.live - {s})
  }

  function Parent(envelope: SessionId): Option<SessionId>
  {
    if envelope == "" then None else Some(envelope)
  }

  function Step(w: Facts, e: Event): Facts
  {
    match e
    case AttachedToTarget(envelope, s, target, targetType) =>
      if s == "" then w else Register(w, s, target, targetType, Parent(envelope))
    case DetachedFromTarget(s) =>
      if s == "" then w else Detach(w, s)
    case ContextCreated(s, isDefault, f, c) =>
      if isDefault && s != "" && f != "" && c.Some? then Record(w, s, f, c.value) else w
    case ContextDestroyed(s, c) =>
      if s != "" && c.Some? then Destroy(w, s, c.value) else w
    case ContextsCleared(s) =>
      if s == "" then w else Clear(w, s)
    case _ => w
  }

  function Run(w: Facts, es: seq<Event>): Facts
    decreases |es|
  {
    if es == [] then w else Run(Step(w, es[0]), es[1..])
  }

  lemma {:induction false} RunConcat(w: Facts, es: seq<Event>, fs: seq<Event>)
    ensures Run(w, es + fs) == Run(Run(w, es), fs)
    decreases |es|
  {
    if es == [] {
      assert es + fs == fs;
    } else {
      assert (es + fs)[1..] == es[1..] + fs;
      RunConcat(Step(w, es[0]), es[1..], fs);
    }
  }

  // ----- registration order

  /** When a live session was registered; 0 for a session that is not live. */
  function Stamp(w: Facts, s: SessionId): nat
  {
    if s in w.live then w.live[s].info.generation else 0
  }

  /** Registration stamps are positive, never exceed the counter and are never shared. */
  ghost predicate WellFormed(w: Facts)
  {
    && (forall s :: Stamp(w, s) <= w.generation && (Stamp(w, s) == 0 <==> s !in w.live))
    && (forall s, t :: Stamp(w, s) == Stamp(w, t) && Stamp(w, s) != 0 ==> s == t)
  }

  /** A stamp survives a step, disappears, or is the fresh one of the event's own session. */
  lemma StampAfterStep(w: Facts, e: Event, s: SessionId)
    requires Stamp(w, s) <= w.generation
    ensures w.generation <= Step(w, e).generation
    ensures s in Step(w, e).live ==>
              || (s in w.live && Step(w, e).live[s].info == w.live[s].info)
              || (s == Subject(e) && s !in w.live && Stamp(Step(w, e), s) == Step(w, e).generation == w.generation + 1)
  {
  }

  lemma StepKeepsWellFormed(w: Facts, e: Event)
    requires WellFormed(w)
    ensures WellFormed(Step(w, e))
    ensures w.generation <= Step(w, e).generation
  {
    var v := Step(w, e);
    forall s
      ensures Stamp(v, s) <= v.generation && (Stamp(v, s) == 0 <==> s !in v.live)
    {
      assert Stamp(w, s) == 0 <==> s !in w.live;
      StampAfterStep(w, e, s);
    }
    forall s, t | Stamp(v, s) == Stamp(v, t) && Stamp(v, s) != 0
      ensures s == t
    {
      assert Stamp(w, s) <= w.generation && Stamp(w, t) <= w.generation;
      StampAfterStep(w, e, s);
      StampAfterStep(w, e, t);
    }
  }

  /** Every reachable state has distinct live generations bounded by the counter. */
  lemma {:induction false} ReachableIsWellFormed(w: Facts, es: seq<Event>)
    requires WellFormed(w)
    ensures WellFormed(Run(w, es)) && w.generation <= Run(w, es).generation
    decreases |es|
  {
    if es != [] {
      StepKeepsWellFormed(w, es[0]);
      ReachableIsWellFormed(Step(w, es[0]), es[1..]);
    }
  }

  // ----- routing, recomputed from the facts

  ghost predicate HasContext(w: Facts, s: SessionId, f: FrameId)
  {
    s in w.live && f in w.live[s].contexts
  }

  function CandidateOf(w: Facts, s: SessionId, f: FrameId): Candidate
    requires HasContext(w, s, f)
  {
    Candidate(s, w.live[s].contexts[f], w.live[s].info.generation, w.live[s].info.targetId)
  }

  /** The candidates of one frame, one per live session that has a context for it. */
  ghost function Row(w: Facts, f: FrameId): map<SessionId, Candidate>
  {
    map s | s in w.live && HasContext(w, s, f) :: CandidateOf(w, s, f)
  }

  /** What the winner of a row has to be: nothing for an empty row, and otherwise one of its
      candidates that no other outranks. */
  ghost predicate IsWinner(row: map<SessionId, Candidate>, r: Option<Candidate>)
  {
    match r
    case None => row == map[]
    case Some(c) =>
      && c.sessionId in row && row[c.sessionId] == c
      && forall s :: s in row ==> row[s].generation <= c.generation
  }

  /** The route of a frame, recomputed from the facts. */
  ghost function Route(w: Facts, f: FrameId): Option<Candidate>
  {
    if exists r :: IsWinner(Row(w, f), r) then
      var r :| IsWinner(Row(w, f), r); r
    else None
  }

  lemma {:induction false} SomeWinner(row: map<SessionId, Candidate>) returns (r: Option<Candidate>)
    requires forall s :: s in row ==> row[s].sessionId == s
    ensures IsWinner(row, r)
    decreases |row|
  {
    if row == map[] {
      return None;
    }
    var s :| s in row;
    var rest := row - {s};
    assert rest.Keys == row.Keys - {s} && |rest.Keys| == |rest|;
    var best := SomeWinner(rest);
    assert forall t :: t in row ==> t == s || (t in rest && rest[t] == row[t]);
    r := if best.Some? && row[s].generation < best.value.generation then best else Some(row[s]);
  }

  /** In a well-formed state every frame has exactly one route: none when no live session has a
      context for it, otherwise the candidate of the unique newest such session. */
  lemma RouteIsTheNewest(w: Facts, f: FrameId, r: Option<Candidate>)
    requires WellFormed(w)
    ensures IsWinner(Row(w, f), r) <==> r == Route(w, f)
  {
    var _ := SomeWinner(Row(w, f));
  }

  // ----- what single events do to routes

  /** Detaching a session forgets that session's candidates and nothing else. */
  lemma DetachIsLocal(w: Facts, s: SessionId, f: FrameId)
    ensures Row(Detach(w, s), f) == Row(w, f) - {s}
  {
  }

  /** ... so a frame keeps its route unless the detached session owned it, and otherwise falls
      back to the newest of the other sessions that still have a context for the frame. */
  lemma DetachFallsBack(w: Facts, s: SessionId, f: FrameId)
    requires WellFormed(w)
    ensures Route(w, f).Some? && Route(w, f).value.sessionId != s ==> Route(Detach(w, s), f) == Route(w, f)
    ensures IsWinner(Row(w, f) - {s}, Route(Detach(w, s), f))
  {
    DetachIsLocal(w, s, f);
    RouteIsTheNewest(w, f, Route(w, f));
    RouteIsTheNewest(Detach(w, s), f, Route(w, f));
    RouteIsTheNewest(Detach(w, s), f, Route(Detach(w, s), f));
  }

  /** A destroy event changes the state exactly when the named session currently holds a context
      answering to that id: destroys for replaced contexts are inert. */
  lemma DestroyIsInertIffStale(w: Facts, s: SessionId, c: int)
    ensures Destroy(w, s, c) == w <==> forall f :: HasContext(w, s, f) ==> Effective(w.live[s].contexts[f]) != c
  {
    if s in w.live {
      var held := w.live[s].contexts;
      if forall f :: HasContext(w, s, f) ==> Effective(held[f]) != c {
        forall f | f in held
          ensures f in Survivors(held, c) && Survivors(held, c)[f] == held[f]
        {
          assert HasContext(w, s, f);
        }
        assert Survivors(held, c) == held;
      }
      if f :| HasContext(w, s, f) && Effective(held[f]) == c {
        assert f !in Survivors(held, c);
        assert Destroy(w, s, c).live[s].contexts == Survivors(held, c);
      }
    }
  }

  /** A context that replaced another in the same frame survives the late destroy of its
      predecessor, whatever the two positive ids are. */
  lemma ReplacedContextIsSafe(w: Facts, s: SessionId, f: FrameId, before: int, after: int)
    requires 0 < before && 0 < after && before != after
    ensures var w1 := Record(Record(w, s, f, before), s, f, after);
            HasContext(Destroy(w1, s, before), s, f) && Destroy(w1, s, before).live[s].contexts[f] == after
    ensures forall t, g :: t != s ==> (HasContext(Destroy(w, s, before), t, g) <==> HasContext(w, t, g))
  {
  }

  /** After `destroy c` the session holds no context with that id -- for every c except 0, whose
      contexts answer to -1 and therefore outlive their own destroy event. */
  lemma DestroyRemovesItsContext(w: Facts, s: SessionId, f: FrameId, c: int)
    requires HasContext(w, s, f) && w.live[s].contexts[f] == c
    ensures HasContext(Destroy(w, s, c), s, f) <==> c == 0
  {
  }

  // ----- incarnations

  /** A live stamp at or below an earlier counter value belongs to a session that was registered
      then and has stayed registered ever since: stamps are never handed out twice. */
  lemma {:induction false} OldStampsMeanContinuousLife(w: Facts, es: seq<Event>, s: SessionId, k: nat)
    requires WellFormed(w) && k <= |es|
    requires s in Run(w, es).live && Run(w, es).live[s].info.generation <= w.generation
    ensures s in Run(w, es[..k]).live && Run(w, es[..k]).live[s].info == Run(w, es).live[s].info
    decreases |es|
  {
    if es == [] {
      assert es[..k] == [];
    } else {
      var next := Step(w, es[0]);
      StepKeepsWellFormed(w, es[0]);
      assert Stamp(w, s) <= w.generation;
      StampAfterStep(w, es[0], s);
      if k == 0 {
        OldStampsMeanContinuousLife(next, es[1..], s, 0);
        assert es[1..][..0] == [] && es[..0] == [];
      } else {
        OldStampsMeanContinuousLife(next, es[1..], s, k - 1);
        assert es[..k][1..] == es[1..][..k - 1] && es[..k][0] == es[0];
      }
    }
  }
}
