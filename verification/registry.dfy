/**
 The registry as the source keeps it: four redundant maps updated in place by one method per
 event.  Ghost field `facts` is the abstract state of RegistryFacts; `Valid()` says that every
 stored map is the image of the facts, so each method's `facts == ...(old(facts), ...)` says
 exactly what it does to all four maps at once.
 */
module Registry {
  import opened Common
  import opened RegistryFacts
  import opened DocumentEpochs

  /** Frames of `s` restricted to `keep`; the state half way through a removal loop. */
  ghost function Keep(w: Facts, s: SessionId, keep: set<FrameId>): Facts
    requires s in w.live
  {
    var all := w.live[s].contexts;
    w.(live := w.live[s := w.live[s].(contexts := map f | f in all && f in keep :: all[f])])
  }

  type Table = map<FrameId, map<SessionId, Candidate>>

  // ----- what it means for the stored maps to agree with the facts

  ghost predicate SessionsMatch(w: Facts, sessions: map<SessionId, Session>)
  {
    sessions.Keys == w.live.Keys && forall s :: s in sessions ==> sessions[s] == w.live[s].info
  }

  /** The candidate table holds exactly the non-empty rows. */
  ghost predicate RowsMatchBut(w: Facts, table: Table, stale: set<FrameId>)
  {
    forall f :: f !in stale ==> RowMatches(w, table, f)
  }

  ghost predicate RowMatches(w: Facts, table: Table, f: FrameId)
  {
    Row(w, f) == (if f in table then table[f] else map[]) && (f in table ==> table[f] != map[])
  }

  ghost predicate RoutesMatchBut(w: Facts, routes: map<FrameId, Candidate>, stale: set<FrameId>)
  {
    forall f :: f !in stale ==> RouteMatches(w, routes, f)
  }

  ghost predicate RouteMatches(w: Facts, routes: map<FrameId, Candidate>, f: FrameId)
  {
    IsWinner(Row(w, f), if f in routes then Some(routes[f]) else None)
  }

  /** The frame sets are the inverse of the candidate table. */
  ghost predicate FramesMatch(w: Facts, frames: map<SessionId, set<FrameId>>)
  {
    frames.Keys == w.live.Keys && forall s :: s in frames ==> frames[s] == w.live[s].contexts.Keys
  }

  // ----- how the agreement moves from one state to the next

  /** What holds of the frames outside `touched` is not disturbed by a step that leaves their
      rows alone. */
  lemma CarryOver(w: Facts, v: Facts, table: Table, routes: map<FrameId, Candidate>, touched: set<FrameId>)
    requires RowsMatchBut(w, table, {}) && RoutesMatchBut(w, routes, {})
    requires forall f :: f !in touched ==> Row(v, f) == Row(w, f)
    ensures RowsMatchBut(v, table, touched) && RoutesMatchBut(v, routes, touched)
  {
    forall f | f !in touched
      ensures RowMatches(v, table, f) && RouteMatches(v, routes, f)
    {
      assert RowMatches(w, table, f) && RouteMatches(w, routes, f);
    }
  }

  lemma RowsAfterDrop(w: Facts, s: SessionId, keep: set<FrameId>, f: FrameId)
    requires s in w.live && f in keep
    ensures forall g :: Row(Keep(w, s, keep - {f}), g)
                     == if g == f then Row(Keep(w, s, keep), g) - {s} else Row(Keep(w, s, keep), g)
  {
  }

  function Without(table: Table, s: SessionId, f: FrameId): Table
    requires f in table
  {
    if table[f] - {s} == map[] then table - {f} else table[f := table[f] - {s}]
  }

  lemma WithoutKeepsRows(w: Facts, v: Facts, table: Table, s: SessionId, f: FrameId)
    requires RowMatches(w, table, f) && f in table && Row(v, f) == Row(w, f) - {s}
    ensures RowMatches(v, Without(table, s, f), f) && Without(table, s, f) - {f} == table - {f}
  {
  }

  lemma KeepAll(w: Facts, s: SessionId)
    requires s in w.live
    ensures Keep(w, s, w.live[s].contexts.Keys) == w
  {
    var all := w.live[s].contexts;
    assert all == map f | f in all && f in all.Keys :: all[f];
  }

  /** Sessions and frame sets after one of `s`'s context maps was replaced. */
  lemma SessionsAfterContextChange(w: Facts, s: SessionId, contexts: map<FrameId, int>, sessions: map<SessionId, Session>,
                                   frames: map<SessionId, set<FrameId>>)
    requires s in w.live && SessionsMatch(w, sessions) && FramesMatch(w, frames)
    ensures var v := w.(live := w.live[s := w.live[s].(contexts := contexts)]);
            SessionsMatch(v, sessions) && FramesMatch(v, frames[s := contexts.Keys])
  {
  }

  lemma SessionsAfterKeep(w: Facts, s: SessionId, keep: set<FrameId>, sessions: map<SessionId, Session>)
    requires s in w.live && SessionsMatch(w, sessions)
    ensures SessionsMatch(Keep(w, s, keep), sessions)
  {
  }

  lemma StoredContext(w: Facts, s: SessionId, keep: set<FrameId>, table: Table, f: FrameId)
    requires s in w.live && f in keep && f in w.live[s].contexts
    requires RowsMatchBut(Keep(w, s, keep), table, {})
    ensures f in table && s in table[f] && table[f][s].contextId == w.live[s].contexts[f]
  {
    var v := Keep(w, s, keep);
    assert RowMatches(v, table, f) && HasContext(v, s, f) && s in Row(v, f);
  }

  /** Progress of the destroy loop: every frame it has seen is kept iff its context differs. */
  ghost predicate Decided(all: map<FrameId, int>, todo: set<FrameId>, left: set<FrameId>, c: int)
  {
    forall f :: f in all && f !in todo ==> (f in left <==> Effective(all[f]) != c)
  }

  lemma DecideOne(all: map<FrameId, int>, todo: set<FrameId>, left: set<FrameId>, f: FrameId, c: int)
    requires Decided(all, todo, left, c) && f in todo && todo <= left <= all.Keys
    ensures Decided(all, todo - {f}, if Effective(all[f]) == c then left - {f} else left, c)
  {
  }

  lemma UpdateTwice<K, V>(m: map<K, V>, k: K, a: V, b: V)
    ensures m[k := a][k := b] == m[k := b]
  {
  }

  lemma KeepSurvivors(w: Facts, s: SessionId, kept: set<FrameId>, c: int)
    requires s in w.live && kept <= w.live[s].contexts.Keys
    requires Decided(w.live[s].contexts, {}, kept, c)
    ensures Keep(w, s, kept) == Destroy(w, s, c) && kept == Survivors(w.live[s].contexts, c).Keys
  {
    var all := w.live[s].contexts;
    assert Survivors(all, c) == map f | f in all && f in kept :: all[f];
  }

  lemma DetachAfterClear(w: Facts, s: SessionId, sessions: map<SessionId, Session>, frames: map<SessionId, set<FrameId>>)
    requires SessionsMatch(w, sessions) && FramesMatch(w, frames)
    ensures Detach(Clear(w, s), s) == Detach(w, s)
    ensures SessionsMatch(Detach(w, s), sessions - {s}) && FramesMatch(Detach(w, s), frames - {s})
  {
    assert Detach(Clear(w, s), s).live == Detach(w, s).live;
  }

  lemma RegisterInTables(w: Facts, s: SessionId, target: TargetId, targetType: string, parent: Option<SessionId>,
                         sessions: map<SessionId, Session>, frames: map<SessionId, set<FrameId>>)
    requires SessionsMatch(w, sessions) && FramesMatch(w, frames)
    ensures s in sessions ==> Register(w, s, target, targetType, parent) == w && s in w.live && w.live[s].info == sessions[s]
    ensures s !in sessions ==>
              var v, info := Register(w, s, target, targetType, parent), Session(target, targetType, parent, w.generation + 1);
              && s !in w.live && v.generation == w.generation + 1 && v.live - {s} == w.live - {s}
              && s in v.live && v.live[s] == Live(info, map[])
              && SessionsMatch(v, sessions[s := info]) && FramesMatch(v, map[s := {}] + frames)
  {
  }

  lemma RecordAfterRegister(w: Facts, s: SessionId, f: FrameId, c: int)
    ensures Record(Register(w, s, "", "", None), s, f, c) == Record(w, s, f, c)
  {
  }

  lemma RowAfterRecord(w: Facts, s: SessionId, f: FrameId, c: int, g: FrameId)
    requires s in w.live
    ensures Row(Record(w, s, f, c), g)
         == if g == f then Row(w, g)[s := Candidate(s, c, w.live[s].info.generation, w.live[s].info.targetId)] else Row(w, g)
  {
  }

  lemma RowAfterIdleSessionChange(w: Facts, v: Facts, s: SessionId, g: FrameId)
    requires s in w.live ==> w.live[s].contexts == map[]
    requires s in v.live ==> v.live[s].contexts == map[]
    requires w.live - {s} == v.live - {s}
    ensures Row(v, g) == Row(w, g)
  {
    forall t
      ensures t != s ==> (t in v.live <==> t in w.live) && (t in w.live ==> v.live[t] == w.live[t])
    {
      assert t in w.live - {s} <==> t in w.live && t != s;
      assert t in v.live - {s} <==> t in v.live && t != s;
      if t in w.live && t != s {
        assert (w.live - {s})[t] == (v.live - {s})[t];
      }
    }
    assert forall t :: HasContext(v, t, g) <==> HasContext(w, t, g);
  }

  /** `max(candidates.values(), key=generation)`. */
  method NewestCandidate(candidates: map<SessionId, Candidate>) returns (winner: Candidate)
    requires candidates != map[]
    ensures exists s :: s in candidates && candidates[s] == winner
    ensures forall s :: s in candidates ==> candidates[s].generation <= winner.generation
  {
    var first :| first in candidates;
    winner := candidates[first];
    var rest := candidates.Keys - {first};
    while rest != {}
      invariant rest <= candidates.Keys
      invariant exists s :: s in candidates && candidates[s] == winner
      invariant forall s :: s in candidates && s !in rest ==> candidates[s].generation <= winner.generation
      decreases |rest|
    {
      var s :| s in rest;
      if winner.generation < candidates[s].generation {
        winner := candidates[s];
      }
      rest := rest - {s};
    }
  }

  class FlatCdpTargetRegistry {
    var sessions: map<SessionId, Session>
    var frameRoutes: map<FrameId, Candidate>
    var frameContexts: map<FrameId, map<SessionId, Candidate>>
    var sessionFrames: map<SessionId, set<FrameId>>
    var generation: nat
    var documentEpochs: map<FrameId, nat>
    ghost var facts: Facts

    ghost predicate TablesBut(stale: set<FrameId>)
      reads this
    {
      && generation == facts.generation
      && SessionsMatch(facts, sessions)
      && RowsMatchBut(facts, frameContexts, {})
      && RoutesMatchBut(facts, frameRoutes, stale)
    }

    ghost predicate Agrees()
      reads this
    {
      TablesBut({}) && FramesMatch(facts, sessionFrames)
    }

    ghost predicate Valid()
      reads this
    {
      WellFormed(facts) && Agrees()
    }

    /** What agreement with the facts says about the stored maps alone, for any frame and session: a
        frame is routed iff some session has a candidate for it, the cached route is the candidate of
        the unique newest of these sessions, and the frame sets are the inverse of the table. */
    lemma StoredMapsAreConsistent(f: FrameId, s: SessionId)
      requires Valid()
      ensures f in frameRoutes <==> f in frameContexts
      ensures f in frameContexts <==> exists t :: t in sessionFrames && f in sessionFrames[t]
      ensures s in sessionFrames && f in sessionFrames[s] <==> f in frameContexts && s in frameContexts[f]
      ensures f in frameContexts && s in frameContexts[f] ==>
                && s in sessions && f in frameRoutes && frameRoutes[f].sessionId in frameContexts[f]
                && frameContexts[f][s] == Candidate(s, frameContexts[f][s].contextId, sessions[s].generation, sessions[s].targetId)
                && frameContexts[f][frameRoutes[f].sessionId] == frameRoutes[f]
                && (s == frameRoutes[f].sessionId || frameContexts[f][s].generation < frameRoutes[f].generation)
      ensures s in sessions ==> 0 < sessions[s].generation <= generation
      ensures forall t :: s in sessions && t in sessions && sessions[s].generation == sessions[t].generation ==> s == t
    {
      hide IsWinner, RowsMatchBut, RoutesMatchBut;
      StoredRow(f);
      assert forall t :: t in sessionFrames && f in sessionFrames[t] <==> HasContext(facts, t, f);
      assert forall t :: HasContext(facts, t, f) <==> t in Row(facts, f);
      assert forall t :: t in sessions ==> Stamp(facts, t) == sessions[t].generation && Stamp(facts, t) != 0;
      if s in Row(facts, f) {
        assert Stamp(facts, s) == Row(facts, f)[s].generation;
        assert Stamp(facts, frameRoutes[f].sessionId) == frameRoutes[f].generation;
      }
    }

    /** The stored row of a frame and its cached winner. */
    lemma StoredRow(f: FrameId)
      requires Valid()
      ensures Row(facts, f) == (if f in frameContexts then frameContexts[f] else map[])
      ensures f in frameContexts ==> exists t :: t in frameContexts[f]
      ensures f in frameRoutes <==> f in frameContexts
      ensures f in frameRoutes ==>
                && frameRoutes[f].sessionId in frameContexts[f] && frameContexts[f][frameRoutes[f].sessionId] == frameRoutes[f]
                && forall t :: t in frameContexts[f] ==> frameContexts[f][t].generation <= frameRoutes[f].generation
    {
      assert RowMatches(facts, frameContexts, f) && RouteMatches(facts, frameRoutes, f);
      if f in frameContexts {
        assert frameContexts[f].Keys != {};
      }
    }

    constructor ()
      ensures Valid() && facts == INITIAL && documentEpochs == map[]
    {
      sessions, frameRoutes, frameContexts, sessionFrames := map[], map[], map[], map[];
      generation, documentEpochs := 0, map[];
      facts := INITIAL;
    }

    // ----- helpers of the event methods

    method SelectFrameRoute(f: FrameId)
      requires TablesBut({f})
      modifies this`frameRoutes
      ensures TablesBut({})
    {
      assert RowMatches(facts, frameContexts, f);
      if f !in frameContexts {
        frameRoutes := frameRoutes - {f};
      } else {
        var winner := NewestCandidate(frameContexts[f]);
        frameRoutes := frameRoutes[f := winner];
      }
      forall g
        ensures RouteMatches(facts, frameRoutes, g)
      {
        assert g != f ==> RouteMatches(facts, old(frameRoutes), g);
      }
    }

    /** Removes one candidate and re-selects the winner of its frame: the loop body shared by the
        destroy, clear and detach events.  `w` is the state before the loop, `keep` what the loop
        has not removed so far. */
    method DropCandidate(s: SessionId, f: FrameId, ghost w: Facts, ghost keep: set<FrameId>)
      requires s in w.live && f in keep && f in w.live[s].contexts
      requires SessionsMatch(w, sessions) && TablesBut({}) && facts == Keep(w, s, keep)
      modifies this`frameContexts, this`frameRoutes, this`facts
      ensures TablesBut({}) && facts == Keep(w, s, keep - {f})
    {
      ghost var before := facts;
      StoredContext(w, s, keep, frameContexts, f);
      assert RowMatches(before, frameContexts, f);
      SessionsAfterKeep(w, s, keep - {f}, sessions);
      var candidates := frameContexts[f] - {s};
      frameContexts := if candidates == map[] then frameContexts - {f} else frameContexts[f := candidates];
      facts := Keep(w, s, keep - {f});
      RowsAfterDrop(w, s, keep, f);
      WithoutKeepsRows(before, facts, old(frameContexts), s, f);
      Rebase(before, old(frameContexts), f);
      SelectFrameRoute(f);
    }

    /** Re-establishes the table invariant after the row of a single frame was rewritten. */
    ghost method Rebase(before: Facts, table: Table, f: FrameId)
      requires RowsMatchBut(before, table, {}) && RoutesMatchBut(before, frameRoutes, {})
      requires forall g :: g != f ==> Row(facts, g) == Row(before, g)
      requires frameContexts - {f} == table - {f} && RowMatches(facts, frameContexts, f)
      ensures RowsMatchBut(facts, frameContexts, {}) && RoutesMatchBut(facts, frameRoutes, {f})
    {
      CarryOver(before, facts, table, frameRoutes, {f});
      forall g
        ensures RowMatches(facts, frameContexts, g)
      {
        if g != f {
          assert RowMatches(facts, table, g);
          assert g in table - {f} <==> g in table;
          assert g in frameContexts - {f} <==> g in frameContexts;
          if g in table {
            assert (table - {f})[g] == (frameContexts - {f})[g];
          }
        }
      }
    }

    // ----- one method per event

    method RegisterSession(s: SessionId, target: TargetId, targetType: string, parent: Option<SessionId>) returns (stamp: nat)
      requires Agrees()
      modifies this`sessions, this`sessionFrames, this`generation, this`facts
      ensures Agrees() && facts == Register(old(facts), s, target, targetType, parent)
      ensures s in facts.live && stamp == facts.live[s].info.generation
    {
      hide RowsMatchBut, RoutesMatchBut, SessionsMatch, FramesMatch, Register;
      RegisterInTables(facts, s, target, targetType, parent, sessions, sessionFrames);
      if s in sessions {
        stamp := sessions[s].generation;
        return;
      }
      generation := generation + 1;
      stamp := generation;
      sessions := sessions[s := Session(target, targetType, parent, stamp)];
      sessionFrames := map[s := {}] + sessionFrames;
      facts := Register(facts, s, target, targetType, parent);
      KeepTables(old(facts), s);
    }

    method RecordContext(s: SessionId, f: FrameId, contextId: int)
      requires Agrees()
      modifies this`sessions, this`sessionFrames, this`generation, this`frameContexts, this`frameRoutes, this`facts
      ensures Agrees() && facts == Record(old(facts), s, f, contextId)
    {
      var stamp := RegisterSession(s, "", "", None);
      RecordAfterRegister(old(facts), s, f, contextId);
      SessionsAfterContextChange(facts, s, facts.live[s].contexts[f := contextId], sessions, sessionFrames);
      StoreCandidate(f, Candidate(s, contextId, stamp, sessions[s].targetId));
      sessionFrames := sessionFrames[s := sessionFrames[s] + {f}];
    }

    /** The table half of recording a context; it leaves the frame set of the session stale. */
    method StoreCandidate(f: FrameId, candidate: Candidate)
      requires TablesBut({}) && candidate.sessionId in facts.live
      requires candidate.generation == facts.live[candidate.sessionId].info.generation
      requires candidate.targetId == facts.live[candidate.sessionId].info.targetId
      modifies this`frameContexts, this`frameRoutes, this`facts
      ensures TablesBut({}) && facts == Record(old(facts), candidate.sessionId, f, candidate.contextId)
    {
      var s := candidate.sessionId;
      ghost var before, table := facts, frameContexts;
      assert RowMatches(before, frameContexts, f);
      var candidates := if f in frameContexts then frameContexts[f] else map[];
      frameContexts := frameContexts[f := candidates[s := candidate]];
      facts := Record(facts, s, f, candidate.contextId);
      forall g
        ensures Row(facts, g) == if g == f then Row(before, g)[s := candidate] else Row(before, g)
      {
        RowAfterRecord(before, s, f, candidate.contextId, g);
      }
      assert s in frameContexts[f];
      Rebase(before, table, f);
      SelectFrameRoute(f);
    }

    method DestroyContext(s: SessionId, contextId: int)
      requires Agrees()
      modifies this`sessionFrames, this`frameContexts, this`frameRoutes, this`facts
      ensures Agrees() && facts == Destroy(old(facts), s, contextId)
    {
      if s !in sessionFrames {
        return;
      }
      ghost var w, frames := facts, sessionFrames;
      ghost var all := w.live[s].contexts;
      KeepAll(w, s);
      var todo := sessionFrames[s];
      ghost var left := all.Keys;
      while todo != {}
        invariant todo <= left <= all.Keys
        invariant SessionsMatch(w, sessions) && TablesBut({}) && facts == Keep(w, s, left)
        invariant sessionFrames == frames[s := left]
        invariant Decided(all, todo, left, contextId)
        decreases |todo|
      {
        var f :| f in todo;
        DecideOne(all, todo, left, f, contextId);
        DestroyInFrame(s, f, contextId, w, left);
        UpdateTwice(frames, s, left, if Effective(all[f]) == contextId then left - {f} else left);
        left := if Effective(all[f]) == contextId then left - {f} else left;
        todo := todo - {f};
      }
      KeepSurvivors(w, s, left, contextId);
      SessionsAfterContextChange(w, s, Survivors(all, contextId), sessions, frames);
    }

    /** The destroy loop's treatment of one frame. */
    method DestroyInFrame(s: SessionId, f: FrameId, contextId: int, ghost w: Facts, ghost left: set<FrameId>)
      requires s in w.live && f in left && left <= w.live[s].contexts.Keys
      requires SessionsMatch(w, sessions) && TablesBut({}) && facts == Keep(w, s, left)
      requires s in sessionFrames && sessionFrames[s] == left
      modifies this`sessionFrames, this`frameContexts, this`frameRoutes, this`facts
      ensures var rest := if Effective(w.live[s].contexts[f]) == contextId then left - {f} else left;
              TablesBut({}) && facts == Keep(w, s, rest) && sessionFrames == old(sessionFrames)[s := rest]
    {
      StoredContext(w, s, left, frameContexts, f);
      if Effective(frameContexts[f][s].contextId) == contextId {
        DropCandidate(s, f, w, left);
        sessionFrames := sessionFrames[s := sessionFrames[s] - {f}];
      }
    }

    /** The removal loop of the clear and detach events; it leaves the frame set of `s` stale. */
    method DropAllCandidates(s: SessionId)
      requires Agrees() && s in sessions
      modifies this`frameContexts, this`frameRoutes, this`facts
      ensures TablesBut({}) && facts == Clear(old(facts), s)
    {
      ghost var w := facts;
      KeepAll(w, s);
      var todo := sessionFrames[s];
      while todo != {}
        invariant todo <= w.live[s].contexts.Keys
        invariant TablesBut({}) && facts == Keep(w, s, todo)
        decreases |todo|
      {
        var f :| f in todo;
        DropCandidate(s, f, w, todo);
        todo := todo - {f};
      }
      assert Keep(w, s, {}).live[s].contexts == map[];
    }

    method ClearSessionContexts(s: SessionId)
      requires Agrees()
      modifies this`sessionFrames, this`frameContexts, this`frameRoutes, this`facts
      ensures Agrees() && facts == Clear(old(facts), s)
    {
      if s in sessionFrames {
        SessionsAfterContextChange(facts, s, map[], sessions, sessionFrames);
        DropAllCandidates(s);
        sessionFrames := sessionFrames[s := {}];
      }
    }

    method DetachSession(s: SessionId)
      requires Agrees()
      modifies this`sessions, this`sessionFrames, this`frameContexts, this`frameRoutes, this`facts
      ensures Agrees() && facts == Detach(old(facts), s)
    {
      hide RowsMatchBut, RoutesMatchBut;
      if s in sessionFrames {
        DropAllCandidates(s);
      }
      ghost var before := facts;
      sessionFrames := sessionFrames - {s};
      sessions := sessions - {s};
      facts := Detach(facts, s);
      DetachAfterClear(old(facts), s, old(sessions), old(sessionFrames));
      KeepTables(before, s);
    }

    /** Registering or dropping a session without contexts changes no row. */
    ghost method KeepTables(before: Facts, s: SessionId)
      requires RowsMatchBut(before, frameContexts, {}) && RoutesMatchBut(before, frameRoutes, {})
      requires s in before.live ==> before.live[s].contexts == map[]
      requires s in facts.live ==> facts.live[s].contexts == map[]
      requires before.live - {s} == facts.live - {s}
      ensures RowsMatchBut(facts, frameContexts, {}) && RoutesMatchBut(facts, frameRoutes, {})
    {
      forall g
        ensures Row(facts, g) == Row(before, g)
      {
        RowAfterIdleSessionChange(before, facts, s, g);
      }
      CarryOver(before, facts, frameContexts, frameRoutes, {});
    }

    /** The dispatcher of the flattened registry. */
    method HandleEvent(e: Event)
      requires Valid()
      modifies this`sessions, this`sessionFrames, this`generation, this`frameContexts, this`frameRoutes, this`facts
      ensures Valid() && facts == Step(old(facts), e)
    {
      StepKeepsWellFormed(facts, e);
      match e {
        case AttachedToTarget(envelope, s, target, targetType) =>
          if s != "" {
            var _ := RegisterSession(s, target, targetType, if envelope != "" then Some(envelope) else None);
          }
        case DetachedFromTarget(s) =>
          if s != "" {
            DetachSession(s);
          }
        case ContextCreated(s, isDefault, f, c) =>
          if isDefault && s != "" && f != "" && c.Some? {
            RecordContext(s, f, c.value);
          }
        case ContextDestroyed(s, c) =>
          if s != "" && c.Some? {
            DestroyContext(s, c.value);
          }
        case ContextsCleared(s) =>
          if s != "" {
            ClearSessionContexts(s);
          }
        case _ =>
      }
    }

    /** The overlay that also tracks document identity. */
    method HandleEventWithFrameLifecycle(e: Event)
      requires Valid()
      modifies this
      ensures Valid() && facts == Step(old(facts), e)
      ensures documentEpochs == EpochStep(old(documentEpochs), e)
    {
      HandleEvent(e);
      match e {
        case FrameAttached(f) =>
          if f != "" && f !in documentEpochs {
            documentEpochs := documentEpochs[f := 0];
          }
        case FrameNavigated(f) =>
          BumpDocumentEpoch(f);
        case NavigatedWithinDocument(f) =>
          BumpDocumentEpoch(f);
        case FrameDetached(f) =>
          if f != "" {
            documentEpochs := documentEpochs - {f};
          }
        case _ =>
      }
    }

    method BumpDocumentEpoch(f: FrameId)
      modifies this`documentEpochs
      ensures documentEpochs == Bump(old(documentEpochs), f)
    {
      if f != "" {
        documentEpochs := documentEpochs[f := (if f in documentEpochs then documentEpochs[f] else 0) + 1];
      }
    }

    /** The reader loop over any finite stream: after every stream all four maps agree with the
        facts the plain recomputation reaches. */
    method ReaderLoop(es: seq<Event>)
      requires Valid()
      modifies this
      ensures Valid() && facts == Run(old(facts), es)
      ensures documentEpochs == EpochRun(old(documentEpochs), es)
    {
      for i := 0 to |es|
        invariant Valid()
        invariant Run(facts, es[i..]) == Run(old(facts), es)
        invariant EpochRun(documentEpochs, es[i..]) == EpochRun(old(documentEpochs), es)
      {
        assert es[i..][0] == es[i] && es[i..][1..] == es[i + 1..];
        HandleEventWithFrameLifecycle(es[i]);
      }
    }

    /** `_route`: what the cache answers is the recomputed newest candidate. */
    method RouteOf(f: FrameId) returns (r: Option<Candidate>)
      requires Valid()
      ensures r == Route(facts, f)
    {
      assert RouteMatches(facts, frameRoutes, f);
      r := if f in frameRoutes then Some(frameRoutes[f]) else None;
      RouteIsTheNewest(facts, f, r);
    }
  }
}
