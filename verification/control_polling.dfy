/**
 Keeping expensive page work behind control traffic without starving it: the quiet window, the
 deferral ceiling, re-entrancy suppression and passive observation, over arbitrary clocks.
 Clock readings are parameters; they are positive and never decrease.
 */
module ControlPolling {

  const QUIET := 0.9
  const CEILING := 2.0

  datatype Sched = Sched(quietUntil: real, deferralStart: real, navigationPending: bool, passiveDepth: nat, inProgress: bool,
                         attempts: nat, runs: nat, watchdogRuns: nat)

  const INITIAL := Sched(0.0, 0.0, false, 0, false, 0, 0, 0)

  // ----- single operations on the scheduling state

  predicate Suppressed(s: Sched)
  {
    s.passiveDepth > 0 || s.inProgress
  }

  /** The ceiling is reached while the quiet window is still open. */
  predicate Starved(s: Sched, now: real)
  {
    s.deferralStart > 0.0 && now < s.quietUntil && now - s.deferralStart >= CEILING
  }

  /** A poll at this time does the page work. */
  predicate Works(s: Sched, now: real)
  {
    !s.inProgress && (now >= s.quietUntil || Starved(s, now))
  }

  /** `poll_runtime`. */
  function Poll(s: Sched, now: real): Sched
  {
    if s.inProgress then s
    else if !Works(s, now) then s.(attempts := s.attempts + 1)
    else s.(attempts := s.attempts + 1, runs := s.runs + 1, deferralStart := 0.0, navigationPending := false,
            watchdogRuns := s.watchdogRuns + if s.navigationPending then 1 else 0)
  }

  /** The bookkeeping at the end of a note. */
  function Extend(s: Sched, now: real): Sched
  {
    s.(deferralStart := if s.deferralStart <= 0.0 || now >= s.quietUntil then now else s.deferralStart,
       quietUntil := if now + QUIET > s.quietUntil then now + QUIET else s.quietUntil)
  }

  /** `note_control_activity`, with the readings it takes: on entry, inside the poll it may trigger,
      and after that poll.  If the page work of that poll raises, the note ends there. */
  function Note(s: Sched, entry: real, during: real, after: real, raises: bool): Sched
  {
    if Suppressed(s) then s
    else if !Starved(s, entry) then Extend(s, entry)
    else if raises && Works(s, during) then Poll(s, during)
    else Extend(Poll(s, during), after)
  }

  datatype Event =
    | Noted(entry: real, during: real, after: real, raises: bool)
    | Polled(now: real)
    | BeginsPassive
    | EndsPassive
    | Navigated

  function Apply(s: Sched, e: Event): Sched
  {
    match e
    case Noted(a, b, c, x) => Note(s, a, b, c, x)
    case Polled(now) => Poll(s, now)
    case BeginsPassive => s.(passiveDepth := s.passiveDepth + 1)
    case EndsPassive => s.(passiveDepth := if s.passiveDepth > 0 then s.passiveDepth - 1 else 0)
    case Navigated => s.(navigationPending := true)
  }

  function Run(s: Sched, es: seq<Event>): Sched
    decreases |es|
  {
    if es == [] then s else Run(Apply(s, es[0]), es[1..])
  }

  // ----- work done while nothing else may be scheduled

  /** Passive observations in `es` come in matched pairs inside `depth` open ones, and `es` does not
      navigate. */
  predicate Nested(es: seq<Event>, depth: nat)
    decreases |es|
  {
    if es == [] then depth == 0
    else match es[0]
      case BeginsPassive => Nested(es[1..], depth + 1)
      case EndsPassive => depth > 0 && Nested(es[1..], depth - 1)
      case Navigated => false
      case _ => Nested(es[1..], depth)
  }

  ghost predicate PollsNothing(es: seq<Event>)
  {
    forall i :: 0 <= i < |es| ==> !es[i].Polled?
  }

  /** While a poll is running, or telemetry is being read, nothing else is scheduled: notes change
      nothing, and polls inside a poll change nothing. */
  lemma RunningPollAbsorbsEverything(s: Sched, a: real, b: real, c: real, x: bool)
    ensures Suppressed(s) ==> Note(s, a, b, c, x) == s
    ensures s.inProgress ==> Poll(s, a) == s
  {
  }

  /** ... and neither does any sequence of them. */
  lemma {:induction false} WorkIsAbsorbed(s: Sched, es: seq<Event>, depth: nat)
    requires Nested(es, depth) && s.passiveDepth >= depth
    requires s.inProgress || (s.passiveDepth > depth && PollsNothing(es))
    ensures Run(s, es) == s.(passiveDepth := s.passiveDepth - depth)
    decreases |es|
  {
    if es != [] {
      assert PollsNothing(es) ==> PollsNothing(es[1..]) && !es[0].Polled?;
      var deeper := match es[0] case BeginsPassive => depth + 1 case EndsPassive => depth - 1 case _ => depth;
      WorkIsAbsorbed(Apply(s, es[0]), es[1..], deeper);
    }
  }

  /** `passive_observation` of an action that performs `es`, up to its return or exception. */
  function Observed(s: Sched, es: seq<Event>): Sched
  {
    Apply(Run(Apply(s, BeginsPassive), es), EndsPassive)
  }

  /** Reading telemetry is invisible to the scheduling state, however often the reading notes control
      activity and however deeply it nests. */
  lemma ObservationIsFree(s: Sched, es: seq<Event>)
    requires Nested(es, 0) && PollsNothing(es)
    ensures Observed(s, es) == s
  {
    WorkIsAbsorbed(Apply(s, BeginsPassive), es, 0);
  }

  class ControlAwareAdapter {
    var quietUntil: real
    var deferralStart: real
    var navigationPending: bool
    var passiveDepth: nat
    var inProgress: bool
    var attempts: nat
    var runs: nat
    var watchdogRuns: nat

    function State(): Sched
      reads this
    {
      Sched(quietUntil, deferralStart, navigationPending, passiveDepth, inProgress, attempts, runs, watchdogRuns)
    }

    constructor (now: real)
      ensures State() == Note(INITIAL, now, now, now, false)
    {
      quietUntil, deferralStart, navigationPending, passiveDepth, inProgress := 0.0, 0.0, false, 0, false;
      attempts, runs, watchdogRuns := 0, 0, 0;
      new;
      var _ := NoteControlActivity(now, now, now, [], false);
    }

    /** `work` is what the page work of a forced poll calls back, `raises` whether that work raises. */
    method NoteControlActivity(entry: real, during: real, after: real, work: seq<Event>, raises: bool) returns (raised: bool)
      requires Nested(work, 0)
      modifies this
      ensures State() == Note(old(State()), entry, during, after, raises)
      ensures raised == (raises && !Suppressed(old(State())) && Starved(old(State()), entry) && Works(old(State()), during))
      decreases |work|, 2
    {
      if passiveDepth > 0 || inProgress {
        return false;
      }
      var now := entry;
      if deferralStart > 0.0 && now < quietUntil && now - deferralStart >= CEILING {
        raised := PollRuntime(during, work, raises);
        if raised {
          return;
        }
        now := after;
      }
      if deferralStart <= 0.0 || now >= quietUntil {
        deferralStart := now;
      }
      quietUntil := if now + QUIET > quietUntil then now + QUIET else quietUntil;
      raised := false;
    }

    /** The page work is a forced watchdog poll after a navigation and a full poll otherwise.  It
        calls back into the adapter as `work` says and may raise; neither shows in the state. */
    method PollRuntime(now: real, work: seq<Event>, raises: bool) returns (raised: bool)
      requires Nested(work, 0)
      modifies this
      ensures State() == Poll(old(State()), now)
      ensures raised == (raises && Works(old(State()), now))
      decreases |work|, 1
    {
      if inProgress {
        return false;
      }
      inProgress := true;
      attempts := attempts + 1;
      var quietActive := now < quietUntil;
      var age := if deferralStart > 0.0 && now - deferralStart > 0.0 then now - deferralStart else 0.0;
      var forced := quietActive && deferralStart > 0.0 && age >= CEILING;
      raised := false;
      if !quietActive || forced {
        runs := runs + 1;
        deferralStart := 0.0;
        if navigationPending {
          navigationPending := false;
          watchdogRuns := watchdogRuns + 1;
        }
        WorkIsAbsorbed(State(), work, 0);
        Perform(work);
        raised := raises;
      }
      inProgress := false;
    }

    /** Calls made on the adapter, one after the other. */
    method Perform(es: seq<Event>)
      modifies this
      ensures State() == Run(old(State()), es)
      decreases |es|, 0
    {
      for i := 0 to |es|
        invariant Run(State(), es[i..]) == Run(old(State()), es)
      {
        assert es[i..][0] == es[i] && es[i..][1..] == es[i + 1..];
        match es[i] {
          case Noted(a, b, c, x) =>
            var _ := NoteControlActivity(a, b, c, [], x);
          case Polled(now) =>
            var _ := PollRuntime(now, [], false);
          case BeginsPassive =>
            passiveDepth := passiveDepth + 1;
          case EndsPassive =>
            passiveDepth := if passiveDepth > 0 then passiveDepth - 1 else 0;
          case Navigated =>
            navigationPending := true;
        }
      }
    }

    method PassiveObservation(action: seq<Event>)
      modifies this
      ensures State() == Observed(old(State()), action)
      ensures Nested(action, 0) && PollsNothing(action) ==> State() == old(State())
    {
      passiveDepth := passiveDepth + 1;
      Perform(action);
      passiveDepth := if passiveDepth > 0 then passiveDepth - 1 else 0;
      if Nested(action, 0) && PollsNothing(action) {
        ObservationIsFree(old(State()), action);
      }
    }
  }

  // ----- runs

  function LastReading(e: Event, clock: real): real
  {
    match e case Noted(_, _, c, _) => c case Polled(now) => now case _ => clock
  }

  /** The readings of a run never go back before `clock`. */
  ghost predicate Timed(es: seq<Event>, clock: real)
    decreases |es|
  {
    es == []
    || ((match es[0] case Noted(a, b, c, _) => clock <= a <= b <= c case Polled(now) => clock <= now case _ => true)
        && Timed(es[1..], LastReading(es[0], clock)))
  }

  /** Between operations no poll is in progress, and the two time stamps are consistent with the
      clock and with each other. */
  ghost predicate Consistent(s: Sched, clock: real)
  {
    && clock > 0.0 && !s.inProgress
    && 0.0 <= s.deferralStart <= clock && s.quietUntil <= clock + QUIET
    && (s.deferralStart > 0.0 ==> s.deferralStart + QUIET <= s.quietUntil)
  }

  function ClockAfter(es: seq<Event>, clock: real): real
    decreases |es|
  {
    if es == [] then clock else ClockAfter(es[1..], LastReading(es[0], clock))
  }

  /** ... after every run of operations. */
  lemma {:induction false} RunsAreConsistent(s: Sched, es: seq<Event>, clock: real)
    requires Consistent(s, clock) && Timed(es, clock)
    ensures clock <= ClockAfter(es, clock) && Consistent(Run(s, es), ClockAfter(es, clock))
    decreases |es|
  {
    if es != [] {
      RunsAreConsistent(Apply(s, es[0]), es[1..], LastReading(es[0], clock));
    }
  }

  // ----- when a poll works

  /** A poll that is not nested skips exactly when the quiet window is open and the deferral is unset or
      younger than two seconds; otherwise it does the page work once, clears the deferral and settles
      the navigation that was pending. */
  lemma PollSkipsIffQuiet(s: Sched, now: real)
    requires !s.inProgress
    ensures Poll(s, now) == if now < s.quietUntil && (s.deferralStart <= 0.0 || now - s.deferralStart < 2.0)
                            then s.(attempts := s.attempts + 1)
                            else s.(attempts := s.attempts + 1, runs := s.runs + 1, deferralStart := 0.0, navigationPending := false,
                                    watchdogRuns := if s.navigationPending then s.watchdogRuns + 1 else s.watchdogRuns)
  {
  }

  /** Every unsuppressed note of the run is over at least the quiet window before `t`. */
  ghost predicate NotesBefore(s: Sched, es: seq<Event>, t: real)
    decreases |es|
  {
    es == []
    || ((es[0].Noted? && s.passiveDepth == 0 && !s.inProgress ==> es[0].entry + 0.9 <= t && es[0].after + 0.9 <= t)
        && NotesBefore(Apply(s, es[0]), es[1..], t))
  }

  lemma {:induction false} WindowIsOver(s: Sched, es: seq<Event>, t: real)
    requires !s.inProgress && s.quietUntil <= t && NotesBefore(s, es, t)
    ensures !Run(s, es).inProgress && Run(s, es).quietUntil <= t
    decreases |es|
  {
    if es != [] {
      WindowIsOver(Apply(s, es[0]), es[1..], t);
    }
  }

  /** Without control traffic the page work is never held back: after any run, a poll that comes the
      quiet window after the last unsuppressed note works. */
  lemma QuietPollsWork(s: Sched, es: seq<Event>, now: real)
    requires !s.inProgress && s.quietUntil <= now && NotesBefore(s, es, now)
    ensures Run(s, es + [Polled(now)]).runs == Run(s, es).runs + 1
    ensures Run(s, es + [Polled(now)]).deferralStart == 0.0
  {
    WindowIsOver(s, es, now);
    RunSnoc(s, es, Polled(now));
  }

  lemma {:induction false} RunSnoc(s: Sched, es: seq<Event>, e: Event)
    ensures Run(s, es + [e]) == Apply(Run(s, es), e)
    decreases |es|
  {
    if es == [] {
      assert [] + [e] == [e] && [e][1..] == [];
    } else {
      assert (es + [e])[1..] == es[1..] + [e];
      RunSnoc(Apply(s, es[0]), es[1..], e);
    }
  }

  /** A navigation stays pending until the page work runs. */
  lemma {:induction false} NavigationStaysPending(s: Sched, es: seq<Event>)
    requires s.navigationPending && Run(s, es).runs == s.runs
    ensures Run(s, es).navigationPending && Run(s, es).watchdogRuns == s.watchdogRuns
    decreases |es|
  {
    if es != [] {
      RunsOnlyGrow(Apply(s, es[0]), es[1..]);
      NavigationStaysPending(Apply(s, es[0]), es[1..]);
    }
  }

  /** ... and is then answered by a watchdog poll: the first page work after a navigation is one,
      whatever happened in between and whether a poll or a starved note ran it. */
  lemma NavigationIsServed(s: Sched, es: seq<Event>, e: Event)
    requires Run(Apply(s, Navigated), es).runs == s.runs
    requires Run(Apply(s, Navigated), es + [e]).runs > s.runs
    ensures Run(Apply(s, Navigated), es + [e]).watchdogRuns == s.watchdogRuns + 1
    ensures !Run(Apply(s, Navigated), es + [e]).navigationPending
  {
    NavigationStaysPending(Apply(s, Navigated), es);
    RunSnoc(Apply(s, Navigated), es, e);
  }

  /** What an unsuppressed note leaves when it is not starved: the window reaches 0.9 seconds ahead, and
      the deferral starts with the note unless it was running inside an open window. */
  lemma NoteExtendsWindow(s: Sched, t: real, during: real, after: real, raises: bool)
    requires s.passiveDepth == 0 && !s.inProgress
    requires s.deferralStart <= 0.0 || t >= s.quietUntil || t - s.deferralStart < 2.0
    ensures Note(s, t, during, after, raises)
         == s.(quietUntil := if t + 0.9 > s.quietUntil then t + 0.9 else s.quietUntil,
               deferralStart := if s.deferralStart > 0.0 && t < s.quietUntil then s.deferralStart else t)
  {
  }

  /** A starved note polls first, and notes the time after that poll. */
  lemma StarvedNotePolls(s: Sched, t: real, during: real, after: real)
    requires s.passiveDepth == 0 && !s.inProgress && t <= during <= after
    requires s.deferralStart > 0.0 && t < s.quietUntil && t - s.deferralStart >= 2.0
    ensures Poll(s, during).runs == s.runs + 1
    ensures Note(s, t, during, after, true) == Poll(s, during)
    ensures Note(s, t, during, after, false)
         == Poll(s, during).(deferralStart := after, quietUntil := if after + 0.9 > s.quietUntil then after + 0.9 else s.quietUntil)
  {
  }

  // ----- the starvation ceiling

  /** When a note finished its bookkeeping. */
  function NoteTime(s: Sched, entry: real, after: real): real
  {
    if Starved(s, entry) then after else entry
  }

  /** The note ended early because the poll it triggered raised. */
  predicate Aborted(s: Sched, entry: real, raises: bool)
  {
    raises && Starved(s, entry)
  }

  /** After every unsuppressed note the deferral is younger than the ceiling, and the note ran the
      runtime poll exactly when the ceiling had been reached: the poll it triggers never takes the
      skip branch. */
  lemma NoteEnforcesCeiling(s: Sched, clock: real, entry: real, during: real, after: real, raises: bool)
    requires Consistent(s, clock) && !Suppressed(s) && clock <= entry <= during <= after
    ensures var n := Note(s, entry, during, after, raises);
            && n.runs == s.runs + (if Starved(s, entry) then 1 else 0)
            && (if Aborted(s, entry, raises) then n.deferralStart == 0.0
                else n.deferralStart > 0.0 && 0.0 <= NoteTime(s, entry, after) - n.deferralStart < CEILING
                     && NoteTime(s, entry, after) + QUIET <= n.quietUntil)
  {
  }

  /** Every unsuppressed note of the run arrives while the window left by its predecessors is open. */
  ghost predicate Burst(s: Sched, es: seq<Event>)
    decreases |es|
  {
    es == []
    || ((es[0].Noted? && !Suppressed(s) ==> es[0].entry < s.quietUntil) && Burst(Apply(s, es[0]), es[1..]))
  }

  /** A burst without a runtime poll leaves the deferral start alone, and each of its unsuppressed
      notes comes less than the ceiling after it. */
  lemma {:induction false} QuietBurstIsShort(s: Sched, es: seq<Event>, clock: real, k: nat)
    requires Consistent(s, clock) && Timed(es, clock) && Burst(s, es)
    requires s.deferralStart > 0.0 && Run(s, es).runs == s.runs
    requires k < |es| && es[k].Noted? && !Suppressed(Run(s, es[..k]))
    ensures es[k].entry < s.deferralStart + CEILING
    decreases |es|
  {
    var next := Apply(s, es[0]);
    RunsOnlyGrow(next, es[1..]);
    assert next.runs == s.runs;
    if es[0].Noted? && !Suppressed(s) {
      NoteEnforcesCeiling(s, clock, es[0].entry, es[0].during, es[0].after, es[0].raises);
    }
    assert next.deferralStart == s.deferralStart;
    if k == 0 {
      assert es[..0] == [];
    } else {
      assert es[..k][0] == es[0] && es[..k][1..] == es[1..][..k - 1];
      QuietBurstIsShort(next, es[1..], LastReading(es[0], clock), k - 1);
    }
  }

  lemma {:induction false} RunsOnlyGrow(s: Sched, es: seq<Event>)
    ensures Run(s, es).runs >= s.runs
    decreases |es|
  {
    if es != [] {
      RunsOnlyGrow(Apply(s, es[0]), es[1..]);
    }
  }

  /** The starvation bound.  In a burst, when an unsuppressed note arrives at least CEILING after the
      end of an earlier one that was not cut short, a runtime poll has run since -- whatever other notes, polls, passive
      observations and navigations happened in between.  So polls run at least every CEILING seconds
      plus one gap between notes. */
  lemma BurstsAreNotStarved(s: Sched, clock: real, first: Event, es: seq<Event>, k: nat)
    requires Consistent(s, clock) && first.Noted? && !Suppressed(s) && !Aborted(s, first.entry, first.raises)
    requires Timed([first] + es, clock) && Burst(Apply(s, first), es)
    requires k < |es| && es[k].Noted? && !Suppressed(Run(Apply(s, first), es[..k]))
    requires es[k].entry >= NoteTime(s, first.entry, first.after) + CEILING
    ensures Run(Apply(s, first), es).runs > Apply(s, first).runs
  {
    assert ([first] + es)[1..] == es;
    var s1 := Apply(s, first);
    NoteEnforcesCeiling(s, clock, first.entry, first.during, first.after, first.raises);
    RunsOnlyGrow(s1, es);
    if Run(s1, es).runs == s1.runs {
      QuietBurstIsShort(s1, es, first.after, k);
    }
  }

  // ----- notes that let the window lapse

  /** The time of note `i`. */
  function Tick(start: real, period: real, i: nat): real
  {
    start + i as real * period
  }

  lemma TickNext(start: real, period: real, i: nat)
    ensures Tick(start, period, i + 1) == Tick(start, period, i) + period && Tick(start, period, 0) == start
  {
  }

  /** `n` instantaneous notes, one every `period` seconds from `start` on. */
  function Periodic(s: Sched, start: real, period: real, n: nat): Sched
  {
    if n == 0 then s
    else Note(Periodic(s, start, period, n - 1), Tick(start, period, n - 1), Tick(start, period, n - 1), Tick(start, period, n - 1), false)
  }

  /** With a period of at least the quiet window the deferral restarts at every note and no note
      ever triggers a poll, however long the traffic lasts. */
  lemma {:induction false} SlowNotesNeverPoll(start: real, period: real, n: nat)
    requires start > 0.0 && period >= QUIET
    ensures var s := Periodic(INITIAL, start, period, n);
            && s.runs == 0 && !Suppressed(s)
            && (n > 0 ==> s.deferralStart == Tick(start, period, n - 1) && s.quietUntil == s.deferralStart + QUIET)
  {
    hide Note, Tick;
    if n > 0 {
      SlowNotesNeverPoll(start, period, n - 1);
      if n > 1 {
        TickNext(start, period, n - 2);
      }
      TickNext(start, period, 0);
      LapsedNote(Periodic(INITIAL, start, period, n - 1), Tick(start, period, n - 1));
    }
  }

  /** A note after the window has lapsed starts a new deferral and runs nothing. */
  lemma LapsedNote(s: Sched, t: real)
    requires !Suppressed(s) && t >= s.quietUntil && t + QUIET > s.quietUntil
    ensures Note(s, t, t, t, false) == s.(deferralStart := t, quietUntil := t + QUIET)
  {
  }

  /** A note inside the window, before the ceiling, only extends the window. */
  lemma OpenNote(s: Sched, t: real)
    requires !Suppressed(s) && s.deferralStart > 0.0 && t < s.quietUntil < t + QUIET && t - s.deferralStart < CEILING
    ensures Note(s, t, t, t, false) == s.(quietUntil := t + QUIET)
  {
  }

  /** With a shorter period the deferral start stays put until the ceiling forces a poll. */
  lemma {:induction false} FastNotesKeepDeferral(start: real, period: real, n: nat)
    requires start > 0.0 && 0.0 < period < QUIET && n > 0
    requires Tick(start, period, n - 1) < start + CEILING
    ensures var s := Periodic(INITIAL, start, period, n);
            && s.runs == 0 && !Suppressed(s) && s.deferralStart == start
            && s.quietUntil == Tick(start, period, n - 1) + QUIET
  {
    hide Note, Tick;
    TickNext(start, period, 0);
    if n > 1 {
      TickNext(start, period, n - 2);
      FastNotesKeepDeferral(start, period, n - 1);
      OpenNote(Periodic(INITIAL, start, period, n - 1), Tick(start, period, n - 1));
    } else {
      assert Periodic(INITIAL, start, period, 0) == INITIAL;
      LapsedNote(INITIAL, start);
    }
  }

  /** Exactly when does periodic control traffic run the page work on its own?  If and only if its
      period is shorter than the quiet window. */
  lemma PeriodicTrafficPollsIffFast(start: real, period: real)
    requires start > 0.0 && period > 0.0
    ensures (exists n: nat :: Periodic(INITIAL, start, period, n).runs > 0) <==> period < QUIET
  {
    if period < QUIET {
      var n := FirstAtLeast(period, CEILING);
      FastNotesKeepDeferral(start, period, n);
      TickNext(start, period, n - 1);
      assert Periodic(INITIAL, start, period, n + 1).runs > 0;
    } else {
      forall n: nat
        ensures Periodic(INITIAL, start, period, n).runs == 0
      {
        SlowNotesNeverPoll(start, period, n);
      }
    }
  }

  /** The least positive n with n * step >= bound. */
  lemma FirstAtLeast(step: real, bound: real) returns (n: nat)
    requires step > 0.0 && bound > 0.0
    ensures n > 0 && n as real * step >= bound && (n - 1) as real * step < bound
  {
    var q := bound / step;
    assert q * step == bound;
    n := q.Floor + 1;
    assert n as real * step >= bound by {
      assert n as real > q;
      assert (n as real - q) * step >= 0.0;
    }
    if (n - 1) as real * step >= bound {
      assert (n - 1) as real <= q;
      assert (q - (n - 1) as real) * step >= 0.0;
      n := n - 1;
      assert q > 0.0;
      assert (q - (n - 1) as real) * step > 0.0;
    }
  }

  // ----- arbitrary traffic

  ghost predicate Ordered(times: seq<real>)
  {
    && (forall i :: 0 <= i < |times| ==> times[i] > 0.0)
    && (forall i, j :: 0 <= i < j < |times| ==> times[i] <= times[j])
  }

  /** The first `n` of a series of instantaneous notes. */
  function Notes(times: seq<real>, n: nat): Sched
    requires n <= |times|
  {
    if n == 0 then INITIAL else Note(Notes(times, n - 1), times[n - 1], times[n - 1], times[n - 1], false)
  }

  /** When the burst that note `i` belongs to began: notes less than the quiet window apart belong to
      the same burst. */
  function BurstStart(times: seq<real>, i: nat): (start: real)
    requires i < |times|
    ensures exists j :: 0 <= j <= i && times[j] == start
  {
    if i == 0 || times[i] - times[i - 1] >= QUIET then times[i] else BurstStart(times, i - 1)
  }

  predicate Exhausts(times: seq<real>, i: nat)
  {
    i < |times| && times[i] - BurstStart(times, i) >= CEILING
  }

  lemma {:induction false} TrafficSoFar(times: seq<real>, n: nat)
    requires Ordered(times) && 0 < n <= |times|
    ensures var s := Notes(times, n);
            && (s.runs > 0 <==> exists i: nat :: i < n && Exhausts(times, i))
            && (s.runs == 0 ==> !Suppressed(s) && s.deferralStart == BurstStart(times, n - 1) && s.quietUntil == times[n - 1] + QUIET)
  {
    var t := times[n - 1];
    if n == 1 {
      assert Notes(times, 0) == INITIAL;
      assert forall i: nat :: i < 1 && Exhausts(times, i) ==> i == 0;
    } else {
      TrafficSoFar(times, n - 1);
      assert times[n - 2] <= t && BurstStart(times, n - 2) > 0.0;
      assert Notes(times, n).runs >= Notes(times, n - 1).runs;
      assert forall i: nat :: i < n && Exhausts(times, i) ==> i < n - 1 || i == n - 1;
      if Exhausts(times, n - 1) {
        assert exists i: nat :: i < n && Exhausts(times, i);
      }
    }
  }

  /** For any series of notes: control traffic runs the page work on its own if and only if some note
      arrives, its burst unbroken, at least CEILING after the burst began. */
  lemma TrafficPollsIffSomeBurstIsLong(times: seq<real>)
    requires Ordered(times)
    ensures Notes(times, |times|).runs > 0 <==> exists i: nat :: Exhausts(times, i)
  {
    if times != [] {
      TrafficSoFar(times, |times|);
    }
  }

  // ----- deferred navigation work

  function Navigations(es: seq<Event>): nat
  {
    if es == [] then 0 else (if es[0].Navigated? then 1 else 0) + Navigations(es[1..])
  }

  function Pending(s: Sched): nat
  {
    if s.navigationPending then 1 else 0
  }

  /** Every forced watchdog poll is owed to a navigation of its own: none runs twice for the same
      one, and the debt is at most one at any time. */
  lemma {:induction false} WatchdogRunsAreOwed(s: Sched, es: seq<Event>)
    ensures Run(s, es).watchdogRuns + Pending(Run(s, es)) <= s.watchdogRuns + Pending(s) + Navigations(es)
    decreases |es|
  {
    if es != [] {
      WatchdogRunsAreOwed(Apply(s, es[0]), es[1..]);
    }
  }
}
