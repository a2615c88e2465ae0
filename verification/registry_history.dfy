/**
 The registry read off its messages: what it holds and what it answers after any stream, stated in
 terms of the positions of messages in the stream and of nothing else.
 */
module RegistryHistory {
  import opened Common
  import opened RegistryFacts

  // ----- contexts

  predicate Stores(e: Event, s: SessionId, f: FrameId, c: int)
  {
    s != "" && f != "" && e == ContextCreated(s, true, f, Some(c))
  }

  /** What ends the life of context `c` of `s` in `f`: a successor, a detach, a clear, or a destroy of
      its id -- except that the destroy of id 0 goes unheard and id -1 is destroyed in its place. */
  predicate Forgets(e: Event, s: SessionId, f: FrameId, c: int)
  {
    || (e.ContextCreated? && e.envelope == s && e.isDefault && e.frame == f && e.context.Some?)
    || e == DetachedFromTarget(s) || e == ContextsCleared(s)
    || e == ContextDestroyed(s, Some(if c == 0 then -1 else c))
  }

  ghost predicate StoredAt(es: seq<Event>, i: nat, s: SessionId, f: FrameId, c: int)
  {
    i < |es| && Stores(es[i], s, f, c) && forall j :: i < j < |es| ==> !Forgets(es[j], s, f, c)
  }

  ghost predicate Holds(w: Facts, s: SessionId, f: FrameId, c: int)
  {
    s in w.live && f in w.live[s].contexts && w.live[s].contexts[f] == c
  }

  lemma HoldsAfterStep(w: Facts, e: Event, s: SessionId, f: FrameId, c: int)
    requires s != "" && f != ""
    ensures Holds(Step(w, e), s, f, c) <==> Stores(e, s, f, c) || (Holds(w, s, f, c) && !Forgets(e, s, f, c))
  {
  }

  lemma RunSnoc(w: Facts, es: seq<Event>)
    requires es != []
    ensures Run(w, es) == Step(Run(w, es[..|es| - 1]), es[|es| - 1])
  {
    var init, last := es[..|es| - 1], es[|es| - 1];
    assert es == init + [last];
    RunConcat(w, init, [last]);
    assert [last][1..] == [];
  }

  lemma StoredAtSnoc(es: seq<Event>, s: SessionId, f: FrameId, c: int)
    requires es != []
    ensures var init, last := es[..|es| - 1], es[|es| - 1];
            (exists i :: StoredAt(es, i, s, f, c))
            <==> Stores(last, s, f, c) || (!Forgets(last, s, f, c) && exists i :: StoredAt(init, i, s, f, c))
  {
    var init, last := es[..|es| - 1], es[|es| - 1];
    if i: nat :| StoredAt(es, i, s, f, c) {
      assert i < |init| ==> StoredAt(init, i, s, f, c);
    }
    if Stores(last, s, f, c) {
      assert StoredAt(es, |es| - 1, s, f, c);
    }
    if i: nat :| StoredAt(init, i, s, f, c) {
      assert !Forgets(last, s, f, c) ==> StoredAt(es, i, s, f, c);
    }
  }

  /** After any stream a session holds a context for a frame if and only if the stream stored it and
      nothing later ended it; the id held is the id of that message. */
  lemma {:induction false} HeldIffStored(es: seq<Event>, s: SessionId, f: FrameId, c: int)
    requires s != "" && f != ""
    ensures Holds(Run(INITIAL, es), s, f, c) <==> exists i :: StoredAt(es, i, s, f, c)
    decreases |es|
  {
    if es != [] {
      var init := es[..|es| - 1];
      HeldIffStored(init, s, f, c);
      RunSnoc(INITIAL, es);
      HoldsAfterStep(Run(INITIAL, init), es[|es| - 1], s, f, c);
      StoredAtSnoc(es, s, f, c);
    }
  }

  // ----- sessions

  predicate Registers(e: Event, s: SessionId)
  {
    s != "" && match e
      case AttachedToTarget(_, t, _, _) => t == s
      case ContextCreated(t, isDefault, f, c) => t == s && isDefault && f != "" && c.Some?
      case _ => false
  }

  /** A message has registered the session and no later one detached it. */
  ghost predicate Open(es: seq<Event>, s: SessionId)
  {
    exists i :: RegisteredSince(es, i, s)
  }

  ghost predicate RegisteredSince(es: seq<Event>, i: nat, s: SessionId)
  {
    i < |es| && Registers(es[i], s) && forall j :: i < j < |es| ==> es[j] != DetachedFromTarget(s)
  }

  /** Message `i` found its session unregistered and registered it. */
  ghost predicate Opens(es: seq<Event>, i: nat)
  {
    i < |es| && Registers(es[i], Subject(es[i])) && !Open(es[..i], Subject(es[i]))
  }

  /** ... and the session has been registered since. */
  ghost predicate OpenedAt(es: seq<Event>, i: nat, s: SessionId)
  {
    Opens(es, i) && Subject(es[i]) == s && forall j :: i < j < |es| ==> es[j] != DetachedFromTarget(s)
  }

  /** How many messages of the stream opened a session. */
  ghost function Openings(es: seq<Event>): nat
    decreases |es|
  {
    if es == [] then 0 else Openings(es[..|es| - 1]) + if Opens(es, |es| - 1) then 1 else 0
  }

  /** What the registering message says about the session: nothing, if it is a context message. */
  function Described(e: Event, generation: nat): Session
  {
    match e
    case AttachedToTarget(envelope, _, target, targetType) =>
      Session(target, targetType, if envelope == "" then None else Some(envelope), generation)
    case _ => Session("", "", None, generation)
  }

  lemma OpenSnoc(es: seq<Event>, s: SessionId)
    requires es != []
    ensures var init, last := es[..|es| - 1], es[|es| - 1];
            Open(es, s) <==> Registers(last, s) || (Open(init, s) && last != DetachedFromTarget(s))
  {
    var init, last := es[..|es| - 1], es[|es| - 1];
    if i: nat :| RegisteredSince(es, i, s) {
      assert i < |init| ==> RegisteredSince(init, i, s);
    }
    if Registers(last, s) {
      assert RegisteredSince(es, |es| - 1, s);
    }
    if i: nat :| RegisteredSince(init, i, s) {
      assert last != DetachedFromTarget(s) ==> RegisteredSince(es, i, s);
    }
  }

  lemma OpenedAtSnoc(es: seq<Event>, i: nat, s: SessionId)
    requires es != []
    ensures var init, last := es[..|es| - 1], es[|es| - 1];
            OpenedAt(es, i, s) <==> if i == |es| - 1 then Opens(es, i) && Subject(last) == s
                                    else OpenedAt(init, i, s) && last != DetachedFromTarget(s)
  {
    if i < |es| - 1 {
      assert es[..|es| - 1][..i] == es[..i];
    }
  }

  /** One message and one session. */
  lemma SessionAfterStep(w: Facts, e: Event, s: SessionId)
    requires s != ""
    ensures s in Step(w, e).live <==> Registers(e, s) || (s in w.live && e != DetachedFromTarget(s))
    ensures s in Step(w, e).live ==>
              Step(w, e).live[s].info == if s in w.live then w.live[s].info else Described(e, w.generation + 1)
    ensures Step(w, e).generation == w.generation + if Registers(e, Subject(e)) && Subject(e) !in w.live then 1 else 0
  {
  }

  /** After any stream a session is live if and only if the stream left it open, and the counter is
      the number of openings. */
  lemma {:induction false} LiveIffOpen(es: seq<Event>, s: SessionId)
    requires s != ""
    ensures s in Run(INITIAL, es).live <==> Open(es, s)
    ensures Run(INITIAL, es).generation == Openings(es)
    decreases |es|
  {
    if es != [] {
      var init, last := es[..|es| - 1], es[|es| - 1];
      LiveIffOpen(init, s);
      if Subject(last) != "" {
        LiveIffOpen(init, Subject(last));
      }
      RunSnoc(INITIAL, es);
      OpenSnoc(es, s);
      SessionAfterStep(Run(INITIAL, init), last, s);
    }
  }

  /** A live session was opened by exactly one message since its last detach; that message says what
      is known of it, and its generation counts the openings up to there. */
  lemma {:induction false} SessionFromMessages(es: seq<Event>, s: SessionId) returns (i: nat)
    requires s != "" && Open(es, s)
    ensures OpenedAt(es, i, s) && s in Run(INITIAL, es).live
    ensures Run(INITIAL, es).live[s].info == Described(es[i], Openings(es[..i + 1]))
    decreases |es|
  {
    var init, last := es[..|es| - 1], es[|es| - 1];
    LiveIffOpen(es, s);
    LiveIffOpen(init, s);
    RunSnoc(INITIAL, es);
    OpenSnoc(es, s);
    SessionAfterStep(Run(INITIAL, init), last, s);
    if Open(init, s) {
      i := SessionFromMessages(init, s);
      OpenedAtSnoc(es, i, s);
      assert init[..i + 1] == es[..i + 1];
    } else {
      i := |es| - 1;
      assert es[..i + 1] == es;
      OpenedAtSnoc(es, i, s);
    }
  }

  lemma OpenedOnce(es: seq<Event>, i: nat, j: nat, s: SessionId)
    requires OpenedAt(es, i, s) && OpenedAt(es, j, s)
    ensures i == j
  {
    if i < j {
      assert RegisteredSince(es[..j], i, s);
    }
    if j < i {
      assert RegisteredSince(es[..i], j, s);
    }
  }

  lemma {:induction false} LaterOpeningsCountHigher(es: seq<Event>, i: nat, j: nat)
    requires i < j < |es| && Opens(es, j)
    ensures Openings(es[..i + 1]) < Openings(es[..j + 1])
  {
    OpeningsGrow(es, i + 1, j);
    assert es[..j + 1][..j] == es[..j] && es[..j + 1][j] == es[j];
  }

  lemma {:induction false} OpeningsGrow(es: seq<Event>, m: nat, n: nat)
    requires m <= n <= |es|
    ensures Openings(es[..m]) <= Openings(es[..n])
    decreases n
  {
    if m < n {
      assert es[..n][..n - 1] == es[..n - 1];
      OpeningsGrow(es, m, n - 1);
    }
  }

  // ----- the answer

  /** The stream makes `c` the answer for `f`: the context was stored and not ended, its session was
      opened by the message at `j`, and no session holding a context for `f` was opened after that. */
  ghost predicate Answers(es: seq<Event>, f: FrameId, c: Candidate, i: nat, j: nat)
  {
    && StoredAt(es, i, c.sessionId, f, c.contextId) && OpenedAt(es, j, c.sessionId)
    && c.generation == Openings(es[..j + 1]) && c.targetId == Described(es[j], 0).targetId
    && forall t, d, m: nat, n: nat :: StoredAt(es, m, t, f, d) && OpenedAt(es, n, t) ==> n <= j
  }

  lemma CandidateFromMessages(es: seq<Event>, s: SessionId, f: FrameId) returns (i: nat, j: nat)
    requires HasContext(Run(INITIAL, es), s, f) && s != "" && f != ""
    ensures var c := CandidateOf(Run(INITIAL, es), s, f);
            && StoredAt(es, i, s, f, c.contextId) && OpenedAt(es, j, s)
            && c.generation == Openings(es[..j + 1]) && c.targetId == Described(es[j], 0).targetId
  {
    var w := Run(INITIAL, es);
    HeldIffStored(es, s, f, w.live[s].contexts[f]);
    i :| StoredAt(es, i, s, f, w.live[s].contexts[f]);
    LiveIffOpen(es, s);
    j := SessionFromMessages(es, s);
  }

  lemma StoredMeansHeld(es: seq<Event>, i: nat, s: SessionId, f: FrameId, c: int)
    requires StoredAt(es, i, s, f, c)
    ensures HasContext(Run(INITIAL, es), s, f) && Run(INITIAL, es).live[s].contexts[f] == c
  {
    HeldIffStored(es, s, f, c);
  }

  lemma {:induction false} NoAnonymousSession(es: seq<Event>)
    ensures "" !in Run(INITIAL, es).live && forall s :: !HasContext(Run(INITIAL, es), s, "")
    decreases |es|
  {
    if es != [] {
      NoAnonymousSession(es[..|es| - 1]);
      RunSnoc(INITIAL, es);
      forall s
        ensures !HasContext(Run(INITIAL, es), s, "")
      {
        assert !HasContext(Run(INITIAL, es[..|es| - 1]), s, "");
      }
    }
  }

  /** The route of a frame after any stream, from the messages alone: an answer exists if and only if
      some context is stored for the frame, and it is the one whose session was opened last. */
  lemma RouteFromMessages(es: seq<Event>, f: FrameId, c: Candidate)
    ensures Route(Run(INITIAL, es), f) == Some(c) <==> exists i, j :: Answers(es, f, c, i, j)
  {
    var w := Run(INITIAL, es);
    ReachableIsWellFormed(INITIAL, es);
    NoAnonymousSession(es);
    RouteIsTheNewest(w, f, Some(c));
    hide Run, Route, StoredAt, OpenedAt;
    if Route(w, f) == Some(c) {
      assert HasContext(w, c.sessionId, f) && c == CandidateOf(w, c.sessionId, f);
      var i, j := CandidateFromMessages(es, c.sessionId, f);
      forall t, d, m: nat, n: nat | StoredAt(es, m, t, f, d) && OpenedAt(es, n, t)
        ensures n <= j
      {
        OpenedNoLater(es, f, c, j, t, d, m, n);
      }
      assert Answers(es, f, c, i, j);
    }
    if i: nat, j: nat :| Answers(es, f, c, i, j) {
      AnswerWins(es, f, c, i, j);
    }
  }

  lemma OpenedNoLater(es: seq<Event>, f: FrameId, c: Candidate, j: nat, t: SessionId, d: int, m: nat, n: nat)
    requires IsWinner(Row(Run(INITIAL, es), f), Some(c)) && OpenedAt(es, j, c.sessionId) && c.generation == Openings(es[..j + 1])
    requires StoredAt(es, m, t, f, d) && OpenedAt(es, n, t)
    ensures n <= j
  {
    hide Run, StoredAt, Openings;
    var w := Run(INITIAL, es);
    StoredMeansHeld(es, m, t, f, d);
    assert t in Row(w, f) && Row(w, f)[t].generation == w.live[t].info.generation;
    assert RegisteredSince(es, n, t);
    var n' := SessionFromMessages(es, t);
    OpenedOnce(es, n, n', t);
    if j < n {
      LaterOpeningsCountHigher(es, j, n);
    }
  }

  lemma AnswerWins(es: seq<Event>, f: FrameId, c: Candidate, i: nat, j: nat)
    requires Answers(es, f, c, i, j)
    ensures Route(Run(INITIAL, es), f) == Some(c)
  {
    var w := Run(INITIAL, es);
    ReachableIsWellFormed(INITIAL, es);
    NoAnonymousSession(es);
    StoredMeansHeld(es, i, c.sessionId, f, c.contextId);
    assert RegisteredSince(es, j, c.sessionId);
    var j' := SessionFromMessages(es, c.sessionId);
    OpenedOnce(es, j, j', c.sessionId);
    assert c == CandidateOf(w, c.sessionId, f);
    forall t | t in Row(w, f)
      ensures Row(w, f)[t].generation <= c.generation
    {
      var m, n := CandidateFromMessages(es, t, f);
      if n < j {
        LaterOpeningsCountHigher(es, n, j);
      }
      assert n <= j;
    }
    assert IsWinner(Row(w, f), Some(c));
    RouteIsTheNewest(w, f, Some(c));
  }
}
