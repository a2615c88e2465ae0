/**
 The controller's bounded attempts: how often it may act on one grid signature, and when it takes a
 signature for solved.  Vision, the click executor and the page are oracles.
 */
module GridAttempts {

  const MAX_GRID_ATTEMPTS := 3
  const VERIFY_SECONDS := 2.5

  /** What the controller reads of the grid: its signature, whether it may act on it, and the mark
      ids of its tiles in order ("" for a tile without an id). */
  datatype View = View(signature: string, actionable: bool, tileCount: int, markIds: seq<string>)

  datatype Vision = Vision(error: bool, indexes: seq<int>)

  datatype Applied = Applied(clickedCount: nat, clickedIds: set<string>, submitted: bool, reason: string)

  datatype Poll = Poll(complete: bool, failed: bool, isGrid: bool, signature: string)

  /** The polls of a verification and the clock readings around them: reading 0 sets the deadline,
      reading i guards the look at poll i - 1. */
  datatype Watch = Watch(polls: nat -> Poll, clock: nat -> real)

  datatype Call = Call(view: View, vision: Vision, applied: Applied, watch: Watch)

  // ----- verification

  /** The first look may come at once; the loop sleeps 0.08 seconds between two looks. */
  ghost predicate Ticks(clock: nat -> real)
  {
    clock(0) <= clock(1) && forall i: nat :: i > 0 ==> clock(i + 1) >= clock(i) + 0.08
  }

  type ValidCall = c: Call | Ticks(c.watch.clock) ghost witness
      Call(View("", false, 0, []), Vision(true, []), Applied(0, {}, false, ""), Watch(_ => Poll(false, false, false, ""), i => i as real))

  datatype Verification = Verification(verified: bool, reason: string)

  predicate Transitioned(before: string, p: Poll)
  {
    !p.isGrid || (p.signature != "" && p.signature != before)
  }

  ghost function RoundsLeft(clock: nat -> real, deadline: real, i: nat): int
  {
    ((deadline - clock(i)) * 12.5).Floor
  }

  function VerifyFrom(before: string, w: Watch, deadline: real, i: nat, seen: bool): Verification
    requires i > 0 && Ticks(w.clock)
    decreases RoundsLeft(w.clock, deadline, i)
  {
    if w.clock(i) >= deadline then
      Verification(false, if seen then "transition-without-explicit-success" else "no-explicit-success")
    else
      var p := w.polls(i - 1);
      if p.complete then Verification(true, "explicit-complete")
      else if p.failed then Verification(false, "explicit-failure")
      else
        assert w.clock(i + 1) >= w.clock(i) + 0.08;
        VerifyFrom(before, w, deadline, i + 1, seen || Transitioned(before, p))
  }

  /** `_verify_grid`. */
  method VerifyGrid(before: string, w: Watch) returns (v: Verification)
    requires Ticks(w.clock)
    ensures v == VerifyFrom(before, w, w.clock(0) + VERIFY_SECONDS, 1, false)
  {
    var deadline, seen, i := w.clock(0) + VERIFY_SECONDS, false, 1;
    while w.clock(i) < deadline
      invariant i > 0
      invariant VerifyFrom(before, w, deadline, i, seen) == VerifyFrom(before, w, deadline, 1, false)
      decreases RoundsLeft(w.clock, deadline, i)
    {
      var state := w.polls(i - 1);
      if state.complete {
        return Verification(true, "explicit-complete");
      }
      if state.failed {
        return Verification(false, "explicit-failure");
      }
      if !state.isGrid || (state.signature != "" && state.signature != before) {
        seen := true;
      }
      assert w.clock(i + 1) >= w.clock(i) + 0.08;
      i := i + 1;
    }
    v := Verification(false, if seen then "transition-without-explicit-success" else "no-explicit-success");
  }

  /** Look `i` shows an explicit outcome. */
  predicate Decides(w: Watch, i: nat)
  {
    i > 0 && (w.polls(i - 1).complete || w.polls(i - 1).failed)
  }

  predicate Completes(w: Watch, i: nat)
  {
    i > 0 && w.polls(i - 1).complete
  }

  /** Look `i` happens before the deadline and is the first one from `from` on to decide. */
  ghost predicate FirstOutcomeAt(w: Watch, deadline: real, from: nat, i: nat)
  {
    && from <= i && Decides(w, i)
    && (forall j: nat :: from <= j <= i ==> w.clock(j) < deadline)
    && (forall j: nat :: from <= j < i ==> !Decides(w, j))
  }

  /** A grid is verified if and only if, before the deadline, a poll reports explicit completion and
      no earlier one an outcome. */
  lemma {:induction false} VerifiedIffExplicitlyComplete(before: string, w: Watch, deadline: real, i: nat, seen: bool)
    requires i > 0 && Ticks(w.clock)
    ensures var v := VerifyFrom(before, w, deadline, i, seen);
            && (v.verified <==> exists k: nat :: FirstOutcomeAt(w, deadline, i, k) && Completes(w, k))
            && (v.verified <==> v.reason == "explicit-complete")
            && (v.reason == "explicit-failure" <==> exists k: nat :: FirstOutcomeAt(w, deadline, i, k) && !Completes(w, k))
    decreases RoundsLeft(w.clock, deadline, i)
  {
    if w.clock(i) < deadline {
      if Decides(w, i) {
        assert FirstOutcomeAt(w, deadline, i, i);
        assert forall k: nat :: FirstOutcomeAt(w, deadline, i, k) ==> k == i;
      } else {
        assert w.clock(i + 1) >= w.clock(i) + 0.08;
        VerifiedIffExplicitlyComplete(before, w, deadline, i + 1, seen || Transitioned(before, w.polls(i - 1)));
        forall k: nat
          ensures FirstOutcomeAt(w, deadline, i, k) <==> FirstOutcomeAt(w, deadline, i + 1, k)
        {
          LaterOutcome(w, deadline, i, k);
        }
      }
    } else {
      assert forall k: nat :: !FirstOutcomeAt(w, deadline, i, k);
    }
  }

  /** Look `k` shows something else than the grid acted on. */
  predicate ShowsChange(before: string, w: Watch, k: nat)
  {
    k > 0 && (!w.polls(k - 1).isGrid || (w.polls(k - 1).signature != "" && w.polls(k - 1).signature != before))
  }

  /** Look `k` from `from` on, before the deadline and before any outcome, shows a change. */
  ghost predicate ChangeSeenAt(before: string, w: Watch, deadline: real, from: nat, k: nat)
  {
    && from <= k && ShowsChange(before, w, k)
    && (forall j: nat :: from <= j <= k ==> w.clock(j) < deadline)
    && (forall j: nat :: from <= j <= k ==> !Decides(w, j))
  }

  ghost predicate SomeOutcome(w: Watch, deadline: real, from: nat)
  {
    exists k: nat :: FirstOutcomeAt(w, deadline, from, k)
  }

  ghost predicate SomeChange(before: string, w: Watch, deadline: real, from: nat)
  {
    exists k: nat :: ChangeSeenAt(before, w, deadline, from, k)
  }

  /** A verification that runs into its deadline says whether the page had changed meanwhile. */
  lemma {:induction false} TimeoutReportsChange(before: string, w: Watch, deadline: real, i: nat, seen: bool)
    requires i > 0 && Ticks(w.clock) && !SomeOutcome(w, deadline, i)
    ensures VerifyFrom(before, w, deadline, i, seen).reason
         == if seen || SomeChange(before, w, deadline, i) then "transition-without-explicit-success" else "no-explicit-success"
    decreases RoundsLeft(w.clock, deadline, i)
  {
    if w.clock(i) < deadline {
      assert Decides(w, i) ==> FirstOutcomeAt(w, deadline, i, i);
      assert w.clock(i + 1) >= w.clock(i) + 0.08;
      NextLook(before, w, deadline, i);
      TimeoutReportsChange(before, w, deadline, i + 1, seen || Transitioned(before, w.polls(i - 1)));
    }
  }

  lemma NextLook(before: string, w: Watch, deadline: real, i: nat)
    requires i > 0 && !Decides(w, i) && w.clock(i) < deadline
    ensures SomeOutcome(w, deadline, i + 1) ==> SomeOutcome(w, deadline, i)
    ensures SomeChange(before, w, deadline, i) <==> ShowsChange(before, w, i) || SomeChange(before, w, deadline, i + 1)
  {
    var next := i + 1;
    if SomeOutcome(w, deadline, next) {
      var k: nat :| FirstOutcomeAt(w, deadline, next, k);
      LaterOutcome(w, deadline, i, k);
    }
    if ShowsChange(before, w, i) {
      assert ChangeSeenAt(before, w, deadline, i, i);
    }
    if SomeChange(before, w, deadline, next) {
      var k: nat :| ChangeSeenAt(before, w, deadline, next, k);
      assert ChangeSeenAt(before, w, deadline, i, k);
    }
    if SomeChange(before, w, deadline, i) && !ShowsChange(before, w, i) {
      var k: nat :| ChangeSeenAt(before, w, deadline, i, k);
      assert ChangeSeenAt(before, w, deadline, next, k);
    }
  }

  lemma LaterOutcome(w: Watch, deadline: real, i: nat, k: nat)
    requires !Decides(w, i) && w.clock(i) < deadline
    ensures FirstOutcomeAt(w, deadline, i, k) <==> FirstOutcomeAt(w, deadline, i + 1, k)
  {
  }

  // ----- one call

  datatype Controller = Controller(lastSignature: string, attempts: map<string, nat>)

  function Attempts(c: Controller, signature: string): nat
  {
    if signature in c.attempts then c.attempts[signature] else 0
  }

  /** What a call did: whether the executor was called, and how it ended. */
  datatype Reply = Reply(applied: bool, verified: bool, reason: string, attempt: nat)

  function Selected(v: View, vision: Vision): set<int>
  {
    set i | i in vision.indexes && 0 <= i < v.tileCount
  }

  /** The selected tiles that exist and carry an id. */
  function Mapped(v: View, vision: Vision): set<int>
  {
    set i | i in Selected(v, vision) && i < |v.markIds| && v.markIds[i] != ""
  }

  function MappedIds(v: View, vision: Vision): set<string>
  {
    set i | i in Selected(v, vision) && 0 <= i < |v.markIds| && v.markIds[i] != "" :: v.markIds[i]
  }

  predicate AllClicked(call: Call)
  {
    call.applied.clickedCount == |Selected(call.view, call.vision)|
    && call.applied.clickedIds == MappedIds(call.view, call.vision)
  }

  predicate MayAct(c: Controller, v: View)
  {
    v.actionable && v.signature != "" && v.signature != c.lastSignature && Attempts(c, v.signature) < MAX_GRID_ATTEMPTS
  }

  /** Every selected tile can be addressed. */
  predicate Plannable(call: Call)
  {
    Selected(call.view, call.vision) != {} && Mapped(call.view, call.vision) == Selected(call.view, call.vision)
  }

  function Verify(call: ValidCall): Verification
  {
    VerifyFrom(call.view.signature, call.watch, call.watch.clock(0) + VERIFY_SECONDS, 1, false)
  }

  predicate Solves(call: ValidCall)
  {
    AllClicked(call) && call.applied.submitted && Verify(call).verified
  }

  function Handle(c: Controller, call: ValidCall): (Controller, Reply)
  {
    var sig := call.view.signature;
    if !call.view.actionable || sig == "" then (c, Reply(false, false, "not-actionable", 0))
    else if sig == c.lastSignature then (c, Reply(false, true, "already-handled", 0))
    else if Attempts(c, sig) >= MAX_GRID_ATTEMPTS then (c, Reply(false, false, "max-attempts-reached", Attempts(c, sig)))
    else if call.vision.error then (c, Reply(false, false, "vision-error-retry", Attempts(c, sig)))
    else
      var attempt := Attempts(c, sig) + 1;
      var counted := c.(attempts := c.attempts[sig := attempt]);
      if !Plannable(call) then
        (counted, Reply(false, false, if attempt >= MAX_GRID_ATTEMPTS then "max-attempts-reached" else "no-selection-retry", attempt))
      else if !AllClicked(call) || !call.applied.submitted then
        (counted, Reply(true, false, UnfinishedReason(call, attempt), attempt))
      else if Verify(call).verified then
        (Controller(sig, c.attempts - {sig}), Reply(true, true, "verified", attempt))
      else
        (counted, Reply(true, false, if Verify(call).reason == "explicit-failure" then "explicit-failure"
                                     else if attempt >= MAX_GRID_ATTEMPTS then "max-attempts-reached" else "verification-retry", attempt))
  }

  function UnfinishedReason(call: Call, attempt: nat): string
  {
    var reason := if call.applied.reason != "" then call.applied.reason
                  else if !AllClicked(call) then "incomplete-click-set" else "submit-not-confirmed";
    if attempt >= MAX_GRID_ATTEMPTS && reason != "stale-grid-during-selection" && reason != "stale-grid-before-selection"
    then "max-attempts-reached" else reason
  }

  class AutoInteractionController {
    var lastSignature: string
    var attempts: map<string, nat>

    function State(): Controller
      reads this
    {
      Controller(lastSignature, attempts)
    }

    constructor ()
      ensures State() == Controller("", map[])
    {
      lastSignature, attempts := "", map[];
    }

    method HandleGrid(call: Call) returns (r: Reply)
      requires Ticks(call.watch.clock)
      modifies this
      ensures (State(), r) == Handle(old(State()), call)
    {
      hide Selected, Mapped, AllClicked, UnfinishedReason, VerifyFrom;
      var signature := call.view.signature;
      if !call.view.actionable || signature == "" {
        return Reply(false, false, "not-actionable", 0);
      }
      if signature == lastSignature {
        return Reply(false, true, "already-handled", 0);
      }
      var previous := if signature in attempts then attempts[signature] else 0;
      if previous >= MAX_GRID_ATTEMPTS {
        return Reply(false, false, "max-attempts-reached", previous);
      }
      if call.vision.error {
        return Reply(false, false, "vision-error-retry", previous);
      }
      var attempt := previous + 1;
      attempts := attempts[signature := attempt];
      var selected := Selected(call.view, call.vision);
      if selected == {} || Mapped(call.view, call.vision) != selected {
        return Reply(false, false, if attempt >= MAX_GRID_ATTEMPTS then "max-attempts-reached" else "no-selection-retry", attempt);
      }
      if !AllClicked(call) || !call.applied.submitted {
        return Reply(true, false, UnfinishedReason(call, attempt), attempt);
      }
      var verification := VerifyGrid(signature, call.watch);
      if verification.verified {
        lastSignature := signature;
        attempts := attempts - {signature};
        assert attempts == old(attempts) - {signature};
        return Reply(true, true, "verified", attempt);
      }
      r := Reply(true, false, if verification.reason == "explicit-failure" then "explicit-failure"
                              else if attempt >= MAX_GRID_ATTEMPTS then "max-attempts-reached" else "verification-retry", attempt);
    }
  }

  // ----- whole runs

  function After(c: Controller, calls: seq<ValidCall>): Controller
    decreases |calls|
  {
    if calls == [] then c else After(Handle(c, calls[0]).0, calls[1..])
  }

  /** How often the executor is called for signature `sig`. */
  function Applies(c: Controller, calls: seq<ValidCall>, sig: string): nat
    decreases |calls|
  {
    if calls == [] then 0
    else (if calls[0].view.signature == sig && Handle(c, calls[0]).1.applied then 1 else 0)
         + Applies(Handle(c, calls[0]).0, calls[1..], sig)
  }

  predicate Verifies(c: Controller, call: ValidCall)
  {
    Handle(c, call).1.applied && Handle(c, call).1.verified
  }

  /** How often signature `sig` is verified. */
  function Verifications(c: Controller, calls: seq<ValidCall>, sig: string): nat
    decreases |calls|
  {
    if calls == [] then 0
    else (if calls[0].view.signature == sig && Verifies(c, calls[0]) then 1 else 0)
         + Verifications(Handle(c, calls[0]).0, calls[1..], sig)
  }

  /** The executor is called exactly when acting is allowed, vision answered and every selected tile
      can be addressed; the last signature changes exactly when such a call clicks everything,
      submits and sees explicit completion. */
  lemma ActsExactlyWhenAllowed(c: Controller, call: ValidCall)
    ensures Handle(c, call).1.applied <==> MayAct(c, call.view) && !call.vision.error && Plannable(call)
    ensures Verifies(c, call) <==> Handle(c, call).1.applied && Solves(call)
    ensures Handle(c, call).0.lastSignature == if Verifies(c, call) then call.view.signature else c.lastSignature
  {
  }

  /** The tiles that vision selected and that exist. */
  function Chosen(call: Call): set<int>
  {
    set i | i in call.vision.indexes && 0 <= i < call.view.tileCount
  }

  /** An attempt is counted exactly when a new grid may be acted on, has attempts left and vision answered
      without an error -- even if nothing can be selected.  A verified call takes all attempts of its
      signature back; no other signature is touched. */
  lemma AttemptsAreCountedExactly(c: Controller, call: ValidCall, sig: string)
    ensures var v, (next, reply) := call.view, Handle(c, call);
            var counted := v.actionable && v.signature != "" && v.signature != c.lastSignature
                           && Attempts(c, v.signature) < 3 && !call.vision.error;
            && Attempts(next, sig) == (if sig != v.signature || !counted then Attempts(c, sig)
                                       else if reply.verified then 0 else Attempts(c, sig) + 1)
            && reply.attempt == (if counted then Attempts(c, v.signature) + 1
                                 else if v.actionable && v.signature != "" && v.signature != c.lastSignature then Attempts(c, v.signature) else 0)
  {
  }

  /** What each reply of a call that does not reach verification means. */
  lemma RefusalsMean(c: Controller, call: ValidCall)
    ensures var v, (_, reply) := call.view, Handle(c, call);
            var isNew := v.actionable && v.signature != "" && v.signature != c.lastSignature;
            var left := Attempts(c, v.signature) < 3;
            var chosen := Chosen(call);
            var addressable := chosen != {} && forall i :: i in chosen ==> i < |v.markIds| && v.markIds[i] != "";
            && (reply.reason == "not-actionable" && !reply.applied <==> !v.actionable || v.signature == "")
            && (reply.reason == "already-handled" && !reply.applied <==> v.actionable && v.signature != "" && v.signature == c.lastSignature)
            && (isNew && !left ==> reply == Reply(false, false, "max-attempts-reached", Attempts(c, v.signature)))
            && (reply.reason == "vision-error-retry" && !reply.applied <==> isNew && left && call.vision.error)
            && (reply.applied <==> isNew && left && !call.vision.error && addressable)
            && (isNew && left && !call.vision.error && !addressable ==>
                  reply.reason == if Attempts(c, v.signature) == 2 then "max-attempts-reached" else "no-selection-retry")
  {
    var v, chosen := call.view, Chosen(call);
    assert chosen == Selected(v, call.vision);
    if forall i :: i in chosen ==> i < |v.markIds| && v.markIds[i] != "" {
      assert Mapped(v, call.vision) == chosen;
    } else {
      var i :| i in chosen && !(i < |v.markIds| && v.markIds[i] != "");
      assert i !in Mapped(v, call.vision);
    }
    hide Verify, AllClicked, UnfinishedReason, Selected, Mapped;
  }

  /** What a call that reached the executor reports.  It is unfinished if the executor did not click one
      mark for each chosen tile, with exactly their ids, or did not submit; the last attempt says so --
      unless the grid had gone stale -- and is otherwise told by the verification. */
  lemma OutcomesMean(c: Controller, call: ValidCall)
    requires Handle(c, call).1.applied
    ensures var reply, chosen, did := Handle(c, call).1, Chosen(call), call.applied;
            var ids := set i | i in chosen && 0 <= i < |call.view.markIds| && call.view.markIds[i] != "" :: call.view.markIds[i];
            var complete := did.clickedCount == |chosen| && did.clickedIds == ids;
            var last := Attempts(c, call.view.signature) == 2;
            var stale := did.reason == "stale-grid-during-selection" || did.reason == "stale-grid-before-selection";
            if complete && did.submitted then
              reply.verified == Verify(call).verified
              && reply.reason == if Verify(call).verified then "verified" else if Verify(call).reason == "explicit-failure" then "explicit-failure"
                                 else if last then "max-attempts-reached" else "verification-retry"
            else
              !reply.verified
              && reply.reason == if last && !stale then "max-attempts-reached" else if did.reason != "" then did.reason
                                 else if complete then "submit-not-confirmed" else "incomplete-click-set"
  {
    assert Chosen(call) == Selected(call.view, call.vision);
    hide Verify;
  }

  /** A call that clicked and submitted everything is verified exactly if, within 2.5 seconds of the first
      reading of the clock, a poll reports explicit completion and no earlier one an outcome. */
  lemma VerifiedInTime(c: Controller, call: ValidCall)
    requires Handle(c, call).1.applied && AllClicked(call) && call.applied.submitted
    ensures var (w, end) := (call.watch, call.watch.clock(0) + 2.5);
            Handle(c, call).1.verified <==> exists k: nat :: FirstOutcomeAt(w, end, 1, k) && Completes(w, k)
  {
    hide AllClicked, VerifyFrom;
    VerifiedIffExplicitlyComplete(call.view.signature, call.watch, call.watch.clock(0) + VERIFY_SECONDS, 1, false);
  }

  /** Over any run the executor is called for one signature at most three times per verification of
      that signature, plus the attempts it has left now. */
  lemma {:induction false} AttemptsAreBounded(c: Controller, calls: seq<ValidCall>, sig: string)
    requires Attempts(c, sig) <= MAX_GRID_ATTEMPTS
    ensures Applies(c, calls, sig) + Attempts(c, sig) <= MAX_GRID_ATTEMPTS * (1 + Verifications(c, calls, sig))
    decreases |calls|
  {
    if calls != [] {
      var next := Handle(c, calls[0]).0;
      OneCall(c, calls[0], sig);
      AttemptsAreBounded(next, calls[1..], sig);
    }
  }

  lemma OneCall(c: Controller, call: ValidCall, sig: string)
    requires Attempts(c, sig) <= MAX_GRID_ATTEMPTS
    ensures var next := Handle(c, call).0;
            var mine := call.view.signature == sig;
            && Attempts(next, sig) <= MAX_GRID_ATTEMPTS
            && (mine && Verifies(c, call) ==> Attempts(next, sig) == 0 && Attempts(c, sig) < MAX_GRID_ATTEMPTS)
            && (!(mine && Verifies(c, call)) ==>
                  Attempts(next, sig) >= Attempts(c, sig) + if mine && Handle(c, call).1.applied then 1 else 0)
  {
  }

  /** A signature whose attempts are used up is never acted on again. */
  lemma {:induction false} ExhaustedIsFinal(c: Controller, calls: seq<ValidCall>, sig: string)
    requires Attempts(c, sig) == MAX_GRID_ATTEMPTS
    ensures Applies(c, calls, sig) == 0 && Attempts(After(c, calls), sig) == MAX_GRID_ATTEMPTS
    decreases |calls|
  {
    if calls != [] {
      OneCall(c, calls[0], sig);
      ActsExactlyWhenAllowed(c, calls[0]);
      ExhaustedIsFinal(Handle(c, calls[0]).0, calls[1..], sig);
    }
  }

  ghost predicate NothingVerified(c: Controller, calls: seq<ValidCall>)
  {
    forall sig :: Verifications(c, calls, sig) == 0
  }

  /** The last verified signature is left alone until some other signature is verified. */
  lemma {:induction false} VerifiedIsLeftAlone(c: Controller, calls: seq<ValidCall>)
    requires NothingVerified(c, calls)
    ensures After(c, calls).lastSignature == c.lastSignature
    ensures Applies(c, calls, c.lastSignature) == 0
    decreases |calls|
  {
    if calls != [] {
      var next := Handle(c, calls[0]).0;
      ActsExactlyWhenAllowed(c, calls[0]);
      assert Verifications(c, calls, calls[0].view.signature) == 0;
      forall sig
        ensures Verifications(next, calls[1..], sig) == 0
      {
        assert Verifications(c, calls, sig) == 0;
      }
      VerifiedIsLeftAlone(next, calls[1..]);
    }
  }
}
