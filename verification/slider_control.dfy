/**
 The feedback-controlled slider: an overshooting first drag, at most three corrections, and a
 plant gain learned from what the drags actually did.  Fractions are modelled over the reals.
 */
module SliderControl {
  import opened Common

  const TARGET_TOLERANCE := 0.02
  const MAX_CORRECTION_DRAGS := 3
  const END_TARGET_THRESHOLD := 0.94
  const MAX_COMMAND_FRACTION := 1.02
  const MIN_GAIN := 0.15
  const MAX_GAIN := 2.5

  /** What one poll of the slider adapter reports.  `calibration` stands for the payload whose
      hash is the calibration signature. */
  datatype SliderState = SliderState(isSlider: bool, complete: bool, failed: bool, rawFraction: real, nativeRange: bool,
                                     calibration: string)

  /** The outcome of one drag: whether anything moved, and the polls that follow it. */
  datatype Reply = Reply(moved: bool, polls: nat -> SliderState)

  /** How the page answers drag number `i` that commands `command` from fraction `before`. */
  type Plant = (nat, real, real) -> Reply

  datatype Attempt = Attempt(before: real, command: real, after: real, gain: Option<real>)

  // ----- pure helpers

  function Clamp(x: real): real
  {
    Max(0.0, Min(1.0, x))
  }

  function Fraction(s: SliderState): real
  {
    Clamp(s.rawFraction)
  }

  function Direction(x: real): int
  {
    if x > 0.000000001 then 1 else if x < -0.000000001 then -1 else 0
  }

  function InitialCommand(current: real, target: real, overshoot: bool): real
  {
    var error := target - current;
    var direction := Direction(error);
    if direction == 0 || !overshoot then target
    else if direction > 0 && target >= END_TARGET_THRESHOLD then MAX_COMMAND_FRACTION
    else
      var amount := Min(0.035, Max(0.008, Abs(error) * 0.08));
      Max(-0.02, Min(MAX_COMMAND_FRACTION, target + direction as real * amount))
  }

  /** `copysign(min(0.012, |error| * 0.18), error)`, and 0 for no error. */
  function Dither(error: real): real
  {
    var size := Min(0.012, Abs(error) * 0.18);
    if error == 0.0 then 0.0 else if error < 0.0 then -size else size
  }

  function UsableGain(gain: Option<real>): (g: real)
    ensures MIN_GAIN <= g <= MAX_GAIN
  {
    if gain.Some? && MIN_GAIN <= gain.value <= MAX_GAIN then gain.value else 1.0
  }

  /** The correction before it is clamped to the track. */
  function RawCorrection(gain: Option<real>, current: real, target: real): real
  {
    current + (target - current) / UsableGain(gain) + Dither(target - current)
  }

  function CorrectionCommand(gain: Option<real>, current: real, target: real): real
  {
    Clamp(RawCorrection(gain, current, target))
  }

  function LearnGain(gain: Option<real>, commanded: real, observed: real): Option<real>
  {
    if Abs(commanded) < 0.005 || Abs(observed) < 0.001 then gain
    else if commanded * observed <= 0.0 then gain
    else
      var measured := Abs(observed / commanded);
      if !(0.08 <= measured <= 4.0) then gain
      else
        var bounded := Max(MIN_GAIN, Min(MAX_GAIN, measured));
        Some(if gain.None? then bounded else gain.value * 0.6 + bounded * 0.4)
  }

  /** `_poll_after_drag`: the first of five polls that shows a change, or the fifth. */
  function Settled(before: real, polls: nat -> SliderState, index: nat): SliderState
    requires index <= 4
    decreases 4 - index
  {
    var latest := polls(index);
    if latest.complete || latest.failed || !latest.isSlider || Abs(Fraction(latest) - before) >= 0.001 || index == 4
    then latest
    else Settled(before, polls, index + 1)
  }

  // ----- the correction loop as a function

  datatype Run = Run(state: SliderState, current: real, gain: Option<real>, attempts: seq<Attempt>, moved: bool)

  function Command(index: nat, gain: Option<real>, state: SliderState, target: real): real
  {
    if index == 0 then InitialCommand(Fraction(state), target, !state.nativeRange)
    else CorrectionCommand(gain, Fraction(state), target)
  }

  /** Whether the loop issues another drag from this state. */
  predicate Drags(index: nat, gain: Option<real>, state: SliderState, target: real)
  {
    && Abs(target - Fraction(state)) > TARGET_TOLERANCE
    && Abs(Command(index, gain, state, target) - Fraction(state)) >= 0.001
  }

  function AfterDrag(index: nat, gain: Option<real>, state: SliderState, target: real, plant: Plant): SliderState
  {
    var reply := plant(index, Fraction(state), Command(index, gain, state, target));
    if reply.moved then Settled(Fraction(state), reply.polls, 0) else reply.polls(0)
  }

  datatype Iteration = Iteration(run: Run, again: bool)

  /** One pass of the loop body: either it stops before dragging, or it drags, learns and decides
      whether to go on. */
  function Iterate(index: nat, r: Run, target: real, plant: Plant): Iteration
  {
    if !r.state.isSlider || r.state.complete || r.state.failed then Iteration(r, false)
    else
      var current := Fraction(r.state);
      if !Drags(index, r.gain, r.state, target) then Iteration(r.(current := current), false)
      else
        var command := Command(index, r.gain, r.state, target);
        var after := AfterDrag(index, r.gain, r.state, target, plant);
        var position := if after.isSlider then Fraction(after) else current;
        var gain := LearnGain(r.gain, command - current, position - current);
        var moved := plant(index, current, command).moved;
        Iteration(Run(after, current, gain, r.attempts + [Attempt(current, command, position, gain)], r.moved || moved),
                  moved && !after.complete && !after.failed
                  && !(after.isSlider && Abs(target - Fraction(after)) <= TARGET_TOLERANCE))
  }

  function Loop(index: nat, r: Run, target: real, plant: Plant): Run
    decreases MAX_CORRECTION_DRAGS + 1 - index
  {
    if index > MAX_CORRECTION_DRAGS then r
    else
      var step := Iterate(index, r, target, plant);
      if step.again then Loop(index + 1, step.run, target, plant) else step.run
  }

  predicate Verified(r: Run, target: real)
  {
    r.state.complete || (r.state.isSlider && !r.state.failed && Abs(target - Fraction(r.state)) <= TARGET_TOLERANCE)
  }

  datatype Outcome = Outcome(moved: bool, verified: bool, target: real, current: real, state: SliderState, attempts: seq<Attempt>)

  class SliderActionExecutor {
    var gainSignature: string
    var gain: Option<real>

    constructor ()
      ensures gainSignature == "" && gain == None
    {
      gainSignature, gain := "", None;
    }

    /** `apply` from an observed state.  What a run of drags does is the function Loop, started with
        the learned gain or, for a slider with another calibration signature, with none. */
    method Apply(targetFraction: real, state: SliderState, plant: Plant) returns (out: Outcome)
      modifies this
      ensures !state.isSlider ==>
                out == Outcome(false, false, 0.0, 0.0, state, []) && gain == old(gain) && gainSignature == old(gainSignature)
      ensures state.isSlider ==>
                var target := Clamp(targetFraction);
                var start := if state.calibration == old(gainSignature) then old(gain) else None;
                var idle := state.complete || Abs(target - Fraction(state)) <= TARGET_TOLERANCE;
                var first := Run(state, Fraction(state), start, [], false);
                var run := if idle then first else Loop(0, first, target, plant);
                && gainSignature == state.calibration && gain == run.gain
                && out == Outcome(run.moved, idle || Verified(run, target), target,
                                  if run.state.isSlider then Fraction(run.state) else run.current, run.state, run.attempts)
      // the verdict, from the two states alone
      ensures var target := Clamp(targetFraction);
              out.verified <==>
                && state.isSlider
                && (|| state.complete || Abs(target - Fraction(state)) <= 0.02
                    || out.state.complete || (out.state.isSlider && !out.state.failed && Abs(target - Fraction(out.state)) <= 0.02))
    {
      if !state.isSlider {
        return Outcome(false, false, 0.0, 0.0, state, []);
      }
      var target := Clamp(targetFraction);
      if state.calibration != gainSignature {
        gainSignature := state.calibration;
        gain := None;
      }
      var run := Run(state, Fraction(state), gain, [], false);
      if state.complete || Abs(target - run.current) <= TARGET_TOLERANCE {
        return Outcome(false, true, target, run.current, state, []);
      }
      run := CorrectionLoop(run, target, plant);
      out := Outcome(run.moved, Verified(run, target), target,
                     if run.state.isSlider then Fraction(run.state) else run.current, run.state, run.attempts);
    }

    /** The drag loop: an initial drag and at most three corrections. */
    method CorrectionLoop(first: Run, target: real, plant: Plant) returns (run: Run)
      requires gain == first.gain
      modifies this`gain
      ensures run == Loop(0, first, target, plant) && gain == run.gain
    {
      run := first;
      var index, again := 0, true;
      while again && index <= MAX_CORRECTION_DRAGS
        invariant 0 <= index <= MAX_CORRECTION_DRAGS + 1
        invariant Loop(0, first, target, plant) == if again then Loop(index, run, target, plant) else run
        invariant gain == run.gain
        decreases MAX_CORRECTION_DRAGS + 1 - index
      {
        run, again := DragOnce(index, run, target, plant);
        index := index + 1;
      }
    }

    /** The body of the drag loop. */
    method DragOnce(index: nat, r: Run, target: real, plant: Plant) returns (next: Run, again: bool)
      requires gain == r.gain
      modifies this`gain
      ensures Iteration(next, again) == Iterate(index, r, target, plant) && gain == next.gain
    {
      next, again := r, false;
      if !r.state.isSlider || r.state.complete || r.state.failed {
        return;
      }
      var current := Fraction(r.state);
      next := r.(current := current);
      if Abs(target - current) <= TARGET_TOLERANCE {
        return;
      }
      var command := if index == 0 then InitialCommand(current, target, !r.state.nativeRange)
                     else CorrectionCommand(gain, current, target);
      if Abs(command - current) < 0.001 {
        return;
      }
      var drag := plant(index, current, command);
      var after := if drag.moved then Settled(current, drag.polls, 0) else drag.polls(0);
      var position := if after.isSlider then Fraction(after) else current;
      gain := LearnGain(gain, command - current, position - current);
      next := Run(after, current, gain, r.attempts + [Attempt(current, command, position, gain)], r.moved || drag.moved);
      again := drag.moved && !after.complete && !after.failed
               && !(after.isSlider && Abs(target - Fraction(after)) <= TARGET_TOLERANCE);
    }
  }

  // ----- against any page

  ghost predicate GainInRange(gain: Option<real>)
  {
    gain.Some? ==> MIN_GAIN <= gain.value <= MAX_GAIN
  }

  lemma LearningKeepsRange(gain: Option<real>, commanded: real, observed: real)
    requires GainInRange(gain)
    ensures GainInRange(LearnGain(gain, commanded, observed))
  {
  }

  ghost predicate SafeRun(r: Run, target: real, drags: nat)
  {
    && GainInRange(r.gain) && |r.attempts| <= drags
    && (forall j :: 0 <= j < |r.attempts| ==> SafeAttempt(r.attempts[j], target, j))
  }

  /** A drag is commanded only away from the target tolerance, always by a noticeable amount, and
      never beyond the track by more than the overshoot; corrections stay on the track. */
  ghost predicate SafeAttempt(a: Attempt, target: real, j: nat)
  {
    && 0.0 <= a.before <= 1.0 && Abs(target - a.before) > TARGET_TOLERANCE && Abs(a.command - a.before) >= 0.001
    && (if j == 0 then -0.02 <= a.command <= MAX_COMMAND_FRACTION else 0.0 <= a.command <= 1.0)
    && GainInRange(a.gain)
  }

  lemma IterateIsSafe(index: nat, r: Run, target: real, plant: Plant)
    requires 0.0 <= target <= 1.0 && SafeRun(r, target, index) && |r.attempts| == index
    ensures SafeRun(Iterate(index, r, target, plant).run, target, index + 1)
    ensures Iterate(index, r, target, plant).again ==> |Iterate(index, r, target, plant).run.attempts| == index + 1
  {
    var current := Fraction(r.state);
    if Drags(index, r.gain, r.state, target) {
      var after := AfterDrag(index, r.gain, r.state, target, plant);
      var position := if after.isSlider then Fraction(after) else current;
      LearningKeepsRange(r.gain, Command(index, r.gain, r.state, target) - current, position - current);
    }
  }

  /** Whatever the page answers: at most four drags, every command admissible, and the learned gain
      never leaves its range. */
  lemma {:induction false} LoopIsSafe(index: nat, r: Run, target: real, plant: Plant)
    requires 0.0 <= target <= 1.0 && index <= MAX_CORRECTION_DRAGS + 1
    requires SafeRun(r, target, index) && |r.attempts| == index
    ensures SafeRun(Loop(index, r, target, plant), target, MAX_CORRECTION_DRAGS + 1)
    decreases MAX_CORRECTION_DRAGS + 1 - index
  {
    if index <= MAX_CORRECTION_DRAGS {
      IterateIsSafe(index, r, target, plant);
      var step := Iterate(index, r, target, plant);
      if step.again {
        LoopIsSafe(index + 1, step.run, target, plant);
      }
    }
  }

  // ----- what the record of a run says

  /** A poll that ends the wait after a drag: the slider finished, failed, vanished or moved. */
  predicate Shows(before: real, s: SliderState)
  {
    s.complete || s.failed || !s.isSlider || Abs(Fraction(s) - before) >= 0.001
  }

  /** After a drag the first of five polls that shows anything is taken, or else the fifth. */
  lemma {:induction false} SettledIsTheFirstToShow(before: real, polls: nat -> SliderState, index: nat)
    requires index <= 4
    ensures exists i: nat :: index <= i <= 4 && Settled(before, polls, index) == polls(i)
                             && (i == 4 || Shows(before, polls(i))) && forall j: nat :: index <= j < i ==> !Shows(before, polls(j))
    decreases 4 - index
  {
    if Shows(before, polls(index)) || index == 4 {
      assert Settled(before, polls, index) == polls(index);
    } else {
      SettledIsTheFirstToShow(before, polls, index + 1);
    }
  }

  /** The gain known before drag `j`. */
  function GainBefore(attempts: seq<Attempt>, start: Option<real>, j: nat): Option<real>
    requires j <= |attempts|
  {
    if j == 0 then start else attempts[j - 1].gain
  }

  /** Where the slider stands before drag `j`. */
  function PositionBefore(attempts: seq<Attempt>, start: SliderState, j: nat): real
    requires j <= |attempts|
  {
    if j == 0 then Fraction(start) else attempts[j - 1].after
  }

  /** The state taken after a drag: the settled one if it moved anything, else the next poll. */
  function Seen(plant: Plant, a: Attempt, j: nat): SliderState
  {
    var reply := plant(j, a.before, a.command);
    if reply.moved then Settled(a.before, reply.polls, 0) else reply.polls(0)
  }

  /** Drag `j` starts where the previous one ended; the first one aims past the target, unless the
      control is a native range, and each later one corrects by the gain learned so far; it learns from
      the distances commanded and observed, and all drags before the last one moved something. */
  ghost predicate Recorded(attempts: seq<Attempt>, start: SliderState, gain: Option<real>, target: real, plant: Plant, j: nat)
    requires j < |attempts|
  {
    var a, known := attempts[j], GainBefore(attempts, gain, j);
    && a.before == PositionBefore(attempts, start, j)
    && a.command == (if j == 0 then InitialCommand(a.before, target, !start.nativeRange) else CorrectionCommand(known, a.before, target))
    && a.after == (if Seen(plant, a, j).isSlider then Fraction(Seen(plant, a, j)) else a.before)
    && a.gain == LearnGain(known, a.command - a.before, a.after - a.before)
    && (j + 1 < |attempts| ==> plant(j, a.before, a.command).moved)
  }

  /** The record of a run, together with where it ended. */
  ghost predicate Record(r: Run, start: SliderState, gain: Option<real>, target: real, plant: Plant)
  {
    && (forall j :: 0 <= j < |r.attempts| ==> Recorded(r.attempts, start, gain, target, plant, j))
    && r.gain == GainBefore(r.attempts, gain, |r.attempts|)
    && (r.state.isSlider ==> Fraction(r.state) == PositionBefore(r.attempts, start, |r.attempts|))
    && r.state == (if r.attempts == [] then start else Seen(plant, r.attempts[|r.attempts| - 1], |r.attempts| - 1))
    && (r.moved <==> exists j :: 0 <= j < |r.attempts| && Moves(plant, r.attempts, j))
  }

  ghost predicate Moves(plant: Plant, attempts: seq<Attempt>, j: nat)
    requires j < |attempts|
  {
    plant(j, attempts[j].before, attempts[j].command).moved
  }

  /** Nothing is left to do, or nothing more can be done, after the drags recorded. */
  ghost predicate Finished(r: Run, start: SliderState, target: real, plant: Plant)
  {
    var n := |r.attempts|;
    || !r.state.isSlider || r.state.complete || r.state.failed || Abs(target - Fraction(r.state)) <= 0.02
    || n == 4 || (n > 0 && !Moves(plant, r.attempts, n - 1))
    || (n > 0 && Abs(CorrectionCommand(r.gain, Fraction(r.state), target) - Fraction(r.state)) < 0.001)
    || (n == 0 && Abs(InitialCommand(Fraction(start), target, !start.nativeRange) - Fraction(start)) < 0.001)
  }

  /** State before drag `index`: the drags so far are recorded and the last one moved something. */
  ghost predicate Underway(index: nat, r: Run, start: SliderState, gain: Option<real>, target: real, plant: Plant)
  {
    && |r.attempts| == index && Record(r, start, gain, target, plant)
    && (index > 0 ==> Moves(plant, r.attempts, index - 1))
  }

  lemma IterateRecords(index: nat, r: Run, start: SliderState, gain: Option<real>, target: real, plant: Plant)
    requires index <= MAX_CORRECTION_DRAGS && Underway(index, r, start, gain, target, plant)
    ensures var step := Iterate(index, r, target, plant);
            && Record(step.run, start, gain, target, plant)
            && (step.again ==> Underway(index + 1, step.run, start, gain, target, plant))
            && (!step.again ==> Finished(step.run, start, target, plant))
  {
    hide InitialCommand, CorrectionCommand, LearnGain, Settled;
    var step := Iterate(index, r, target, plant);
    var longer := step.run.attempts;
    if longer != r.attempts {
      assert longer[..index] == r.attempts;
      forall j | 0 <= j < |longer|
        ensures Recorded(longer, start, gain, target, plant, j)
      {
        assert j < index ==> Recorded(r.attempts, start, gain, target, plant, j);
      }
      assert Moves(plant, longer, index) <==> plant(index, longer[index].before, longer[index].command).moved;
      assert forall j :: 0 <= j < index ==> (Moves(plant, longer, j) <==> Moves(plant, r.attempts, j));
    }
  }

  /** The attempts a run reports are a faithful record of what it did, and it gives up only for one of
      the reasons listed: finished, failed, gone, on target, four drags, nothing moved, or nothing left
      to command. */
  lemma {:induction false} RunIsRecorded(index: nat, r: Run, start: SliderState, gain: Option<real>, target: real, plant: Plant)
    requires index <= MAX_CORRECTION_DRAGS + 1 && Underway(index, r, start, gain, target, plant)
    ensures var run := Loop(index, r, target, plant);
            Record(run, start, gain, target, plant) && Finished(run, start, target, plant)
    decreases MAX_CORRECTION_DRAGS + 1 - index
  {
    hide Record, Iterate, Underway;
    if index <= MAX_CORRECTION_DRAGS {
      IterateRecords(index, r, start, gain, target, plant);
      var step := Iterate(index, r, target, plant);
      if step.again {
        RunIsRecorded(index + 1, step.run, start, gain, target, plant);
      }
    } else {
      assert |r.attempts| == 4 && Record(r, start, gain, target, plant) by {
        UnderwayMeans(index, r, start, gain, target, plant);
      }
    }
  }

  lemma UnderwayMeans(index: nat, r: Run, start: SliderState, gain: Option<real>, target: real, plant: Plant)
    requires Underway(index, r, start, gain, target, plant)
    ensures |r.attempts| == index && Record(r, start, gain, target, plant)
  {
  }

  // ----- the size of commands

  /** The first command goes past the target by 8% of the distance, but at least by 0.008 and at most by
      0.035 of the track, or to 1.02 when the target is at the end; a native range is not overshot. */
  lemma OvershootIs(current: real, target: real)
    requires 0.0 <= current <= 1.0 && 0.0 <= target <= 1.0 && Abs(target - current) > TARGET_TOLERANCE
    ensures InitialCommand(current, target, false) == target
    ensures var past := InitialCommand(current, target, true) - target;
            var e := Abs(target - current);
            if target > current && target >= 0.94 then past == 1.02 - target
            else
              && (target > current ==> past > 0.0) && (target < current && target > 0.0 ==> past < 0.0)
              && (target >= 0.015 ==>
                    && (e <= 0.1 ==> Abs(past) == 0.008) && (0.1 <= e <= 0.4375 ==> Abs(past) == 0.08 * e)
                    && (e >= 0.4375 ==> Abs(past) == 0.035))
              && InitialCommand(current, target, true) >= -0.02
  {
  }

  /** A correction commands the error divided by the gain -- by 1 while none is known -- and goes past it
      by 18% of the error, at most by 0.012, without leaving the track. */
  lemma CorrectionIs(gain: Option<real>, current: real, target: real)
    requires gain.Some? ==> MIN_GAIN <= gain.value <= MAX_GAIN
    ensures var e := target - current;
            var step := if gain.Some? then e / gain.value else e;
            var past := if e > 1.0 / 15.0 then 0.012 else if e < -1.0 / 15.0 then -0.012 else 0.18 * e;
            var c := current + step + past;
            CorrectionCommand(gain, current, target) == if c < 0.0 then 0.0 else if c > 1.0 then 1.0 else c
  {
  }

  /** A drag teaches something exactly if at least 0.005 was commanded and at least 0.001 observed, in the
      same direction, at a ratio from 0.08 to 4. */
  predicate Teaches(commanded: real, observed: real)
  {
    && Abs(commanded) >= 0.005 && Abs(observed) >= 0.001 && (commanded > 0.0 <==> observed > 0.0)
    && 0.08 * Abs(commanded) <= Abs(observed) <= 4.0 * Abs(commanded)
  }

  /** `m` is the ratio of the two, limited to 0.15 .. 2.5. */
  predicate IsMeasured(m: real, commanded: real, observed: real)
  {
    if Abs(observed) < 0.15 * Abs(commanded) then m == 0.15
    else if Abs(observed) > 2.5 * Abs(commanded) then m == 2.5
    else m * Abs(commanded) == Abs(observed)
  }

  /** Any other drag leaves the gain as it was; the first that teaches sets it to its measurement, and each
      further one moves it 40% of the way there. */
  lemma LearningIs(gain: Option<real>, commanded: real, observed: real)
    ensures var next := LearnGain(gain, commanded, observed);
            if !Teaches(commanded, observed) then next == gain
            else next.Some? && exists m :: IsMeasured(m, commanded, observed)
                                           && next.value == if gain.None? then m else gain.value + 0.4 * (m - gain.value)
  {
    hide LearnGain, Teaches, IsMeasured;
    if Abs(commanded) < 0.005 || Abs(observed) < 0.001 {
      LearningFrom(gain, commanded, observed, 0.0, 0.0);
      assert !Teaches(commanded, observed) by {
        TeachesIff(commanded, observed, 0.0, 0.0);
      }
    } else {
      var ratio := Abs(observed / commanded);
      AbsOfQuotient(observed, commanded);
      SignOfProduct(commanded, observed);
      LearningFrom(gain, commanded, observed, commanded * observed, ratio);
      TeachesIff(commanded, observed, commanded * observed, ratio);
      RatioIsMeasured(commanded, observed, ratio);
    }
  }

  lemma TeachesIff(commanded: real, observed: real, product: real, ratio: real)
    requires Abs(commanded) >= 0.005 && Abs(observed) >= 0.001 ==>
               (product > 0.0 <==> (commanded > 0.0 <==> observed > 0.0)) && ratio * Abs(commanded) == Abs(observed)
    ensures Teaches(commanded, observed) <==>
              Abs(commanded) >= 0.005 && Abs(observed) >= 0.001 && product > 0.0 && 0.08 <= ratio <= 4.0
  {
    if Abs(commanded) >= 0.005 && Abs(observed) >= 0.001 {
      RatioBound(ratio, Abs(commanded), Abs(observed), 0.08);
      RatioBound(ratio, Abs(commanded), Abs(observed), 4.0);
    }
  }

  lemma RatioIsMeasured(commanded: real, observed: real, ratio: real)
    requires commanded != 0.0 && ratio * Abs(commanded) == Abs(observed)
    ensures IsMeasured(Max(0.15, Min(2.5, ratio)), commanded, observed)
  {
    RatioBound(ratio, Abs(commanded), Abs(observed), 0.15);
    RatioBound(ratio, Abs(commanded), Abs(observed), 2.5);
  }

  lemma LearningFrom(gain: Option<real>, commanded: real, observed: real, product: real, ratio: real)
    requires Abs(commanded) >= 0.005 && Abs(observed) >= 0.001 ==> product == commanded * observed && ratio == Abs(observed / commanded)
    ensures LearnGain(gain, commanded, observed)
         == if Abs(commanded) < 0.005 || Abs(observed) < 0.001 || product <= 0.0 || ratio < 0.08 || ratio > 4.0 then gain
            else var m := Max(0.15, Min(2.5, ratio)); Some(if gain.None? then m else gain.value + 0.4 * (m - gain.value))
  {
  }

  lemma AbsOfQuotient(o: real, c: real)
    requires c != 0.0
    ensures Abs(o / c) * Abs(c) == Abs(o)
  {
    var q := o / c;
    assert q * c == o;
  }

  lemma SignOfProduct(c: real, o: real)
    requires c != 0.0 && o != 0.0
    ensures c * o > 0.0 <==> (c > 0.0 <==> o > 0.0)
  {
  }

  lemma RatioBound(ratio: real, c: real, o: real, bound: real)
    requires c > 0.0 && ratio * c == o
    ensures ratio < bound <==> o < bound * c
    ensures ratio > bound <==> o > bound * c
  {
    assert (bound - ratio) * c == bound * c - o;
  }

  // ----- against a linear plant

  /** The slider rests within 0.02 of the target. */
  predicate OnTarget(s: SliderState, target: real)
  {
    s.isSlider && Abs(target - Fraction(s)) <= 0.02
  }

  function Position(k: real, x: real, c: real): real
  {
    x + k * (c - x)
  }

  /** Every drag moves the slider by `k` times the commanded distance, and it then stays put. */
  ghost predicate LinearPlant(plant: Plant, s: SliderState, k: real)
  {
    && s.isSlider && !s.complete && !s.failed
    && forall i, x, c :: plant(i, x, c).moved && Rests(plant(i, x, c).polls, s.(rawFraction := Position(k, x, c)))
  }

  ghost predicate Rests(polls: nat -> SliderState, s: SliderState)
  {
    forall j :: polls(j) == s
  }

  lemma {:induction false} RestingSliderSettles(before: real, polls: nat -> SliderState, s: SliderState, index: nat)
    requires Rests(polls, s) && index <= 4
    ensures Settled(before, polls, index) == s
    decreases 4 - index
  {
    if index < 4 {
      RestingSliderSettles(before, polls, s, index + 1);
    }
  }

  lemma Displacement(k: real, x: real, c: real)
    ensures Position(k, x, c) - x == k * (c - x)
  {
  }

  /** The drags the source learns from: at least 0.005 commanded and 0.001 observed. */
  predicate Noticeable(delta: real, observed: real)
  {
    Abs(delta) >= 0.005 && Abs(observed) >= 0.001
  }

  lemma ProductSign(a: real, b: real)
    requires a >= 0.0 && b >= 0.0
    ensures a * b >= 0.0
  {
  }

  lemma AbsOfProduct(k: real, d: real)
    requires k > 0.0
    ensures Abs(-(k * d)) == k * Abs(d)
  {
    assert d >= 0.0 ==> k * d >= 0.0;
    assert d < 0.0 ==> k * -d >= 0.0;
  }

  /** A drag of 0.008 is noticeable on every plant in the learnable range. */
  lemma LongDragsAreNoticeable(k: real, delta: real, observed: real)
    requires MIN_GAIN <= k <= MAX_GAIN && Abs(delta) >= 0.008 && observed == k * delta
    ensures Noticeable(delta, observed)
  {
    AbsOfProduct(k, delta);
    assert Abs(observed) == Abs(-(k * delta));
    MoreThan(k, MIN_GAIN, Abs(delta));
  }

  lemma MoreThan(a: real, b: real, size: real)
    requires a >= b && size >= 0.0
    ensures a * size >= b * size
  {
    ProductSign(a - b, size);
    assert (a - b) * size == a * size - b * size;
  }

  /** A proportional response is measured exactly: without a gain the plant's own is learned, and the
      error of a stale gain shrinks to 0.6 of what it was.  Nothing is learned from a drag that is too
      short to notice. */
  lemma ExactMeasurement(k: real, delta: real, observed: real, gain: Option<real>)
    requires MIN_GAIN <= k <= MAX_GAIN && observed == k * delta
    ensures LearnGain(gain, delta, observed)
         == if !Noticeable(delta, observed) then gain
            else match gain case None => Some(k) case Some(stale) => Some(k + 0.6 * (stale - k))
  {
    if Noticeable(delta, observed) {
      ProductSign(k, Abs(delta));
      ProductSign(Abs(delta), Abs(delta));
      assert delta * observed == k * (delta * delta);
      assert delta * delta > 0.0;
      assert observed / delta == k;
    }
  }

  /** The gain after drags of the given lengths on a plant of gain k. */
  function LearnAll(gain: Option<real>, k: real, deltas: seq<real>): Option<real>
    decreases |deltas|
  {
    if deltas == [] then gain else LearnAll(LearnGain(gain, deltas[0], k * deltas[0]), k, deltas[1..])
  }

  function Shrunk(error: real, n: nat): real
    decreases n
  {
    if n == 0 then error else Shrunk(0.6 * error, n - 1)
  }

  function NoticeableDrags(k: real, deltas: seq<real>): nat
  {
    if deltas == [] then 0 else (if Noticeable(deltas[0], k * deltas[0]) then 1 else 0) + NoticeableDrags(k, deltas[1..])
  }

  /** A gain learned on another plant is forgotten geometrically: after drags of any lengths, n of
      them noticeable, its error is 0.6 to the n-th power of what it was. */
  lemma {:induction false} StaleGainConverges(stale: real, k: real, deltas: seq<real>)
    requires MIN_GAIN <= k <= MAX_GAIN
    ensures LearnAll(Some(stale), k, deltas) == Some(k + Shrunk(stale - k, NoticeableDrags(k, deltas)))
    decreases |deltas|
  {
    hide LearnGain, Noticeable;
    if deltas != [] {
      ExactMeasurement(k, deltas[0], k * deltas[0], Some(stale));
      StaleGainConverges(if Noticeable(deltas[0], k * deltas[0]) then k + 0.6 * (stale - k) else stale, k, deltas[1..]);
    }
  }

  /** The first command lies beyond the target, or on it. */
  lemma FirstCommandIsFar(x: real, target: real, overshoot: bool)
    requires 0.0 <= x <= 1.0 && 0.0 <= target <= 1.0 && Abs(target - x) > TARGET_TOLERANCE
    ensures Abs(InitialCommand(x, target, overshoot) - x) >= 0.02
  {
  }

  /** Dividing by a gain of at most 2.5 keeps the sign and at least 0.4 of the size. */
  lemma QuotientIsFar(e: real, q: real, k: real)
    requires 0.0 < k <= MAX_GAIN && q * k == e
    ensures e > 0.0 ==> q >= e * 0.4
    ensures e < 0.0 ==> q <= e * 0.4
  {
    var size := Abs(q);
    ProductSign(size, k);
    ProductSign(size, MAX_GAIN - k);
    assert size * (MAX_GAIN - k) == size * MAX_GAIN - size * k;
    assert size * k == if q < 0.0 then -e else e;
  }

  /** A correction with the true gain lands past the target by exactly k times the dither. */
  lemma CorrectionLands(k: real, x: real, target: real)
    requires MIN_GAIN <= k <= MAX_GAIN && Abs(target - x) > TARGET_TOLERANCE
    ensures var c := RawCorrection(Some(k), x, target);
            && Abs(c - x) >= 0.008
            && target - Position(k, x, c) == -(k * Dither(target - x))
  {
    var e := target - x;
    var q := e / k;
    assert q * k == e;
    QuotientIsFar(e, q, k);
    var c := RawCorrection(Some(k), x, target);
    assert c - x == q + Dither(e);
    assert k * (q + Dither(e)) == k * q + k * Dither(e);
  }

  lemma ScaledBound(k: real, d: real, bound: real)
    requires 0.0 <= k && Abs(d) <= bound
    ensures Abs(k * d) <= k * bound
  {
    assert k * d <= k * bound && k * -d <= k * bound;
  }

  /** No position or correction of the (at most three) drags runs into an end of the track. */
  predicate Unsaturated(k: real, x0: real, target: real, overshoot: bool)
    requires MIN_GAIN <= k <= MAX_GAIN
  {
    var x1 := Position(k, x0, InitialCommand(x0, target, overshoot));
    var c2 := RawCorrection(Some(k), x1, target);
    var x2 := Position(k, x1, c2);
    var c3 := RawCorrection(Some(k), x2, target);
    var x3 := Position(k, x2, c3);
    && 0.0 <= x1 <= 1.0
    && (Abs(target - x1) > TARGET_TOLERANCE ==>
          && 0.0 <= c2 <= 1.0 && 0.0 <= x2 <= 1.0
          && (Abs(target - x2) > TARGET_TOLERANCE ==> 0.0 <= c3 <= 1.0 && 0.0 <= x3 <= 1.0))
  }

  /** One pass of the loop against a linear plant, away from the ends of the track: commanded to
      `c` from `x`, the slider comes to rest at `y`. */
  lemma DragOnPlant(index: nat, r: Run, target: real, plant: Plant, s: SliderState, k: real, x: real, c: real, y: real)
    requires LinearPlant(plant, s, k) && r.state == s.(rawFraction := x) && 0.0 <= x <= 1.0
    requires Abs(target - x) > TARGET_TOLERANCE
    requires c == Command(index, r.gain, r.state, target) && Abs(c - x) >= 0.001
    requires y == Position(k, x, c) && 0.0 <= y <= 1.0
    ensures var gain := LearnGain(r.gain, c - x, y - x);
            Iterate(index, r, target, plant)
            == Iteration(Run(s.(rawFraction := y), x, gain, r.attempts + [Attempt(x, c, y, gain)], true),
                         Abs(target - y) > TARGET_TOLERANCE)
  {
    assert Fraction(r.state) == x;
    var reply := plant(index, x, c);
    assert reply.moved && Rests(reply.polls, s.(rawFraction := y));
    RestingSliderSettles(x, reply.polls, s.(rawFraction := y), 0);
    assert AfterDrag(index, r.gain, r.state, target, plant) == s.(rawFraction := y);
    assert Fraction(s.(rawFraction := y)) == y;
  }

  /** A correction on the plant once the gain is known: it keeps the gain and leaves an error of k
      times the dither. */
  lemma CorrectOnPlant(index: nat, r: Run, target: real, plant: Plant, s: SliderState, k: real, x: real, c: real, y: real)
    requires index > 0 && MIN_GAIN <= k <= MAX_GAIN && r.gain == Some(k)
    requires LinearPlant(plant, s, k) && r.state == s.(rawFraction := x) && 0.0 <= x <= 1.0
    requires Abs(target - x) > TARGET_TOLERANCE
    requires c == RawCorrection(Some(k), x, target) && 0.0 <= c <= 1.0
    requires y == Position(k, x, c) && 0.0 <= y <= 1.0
    ensures var step := Iterate(index, r, target, plant);
            && step.run.state == s.(rawFraction := y) && step.run.gain == Some(k)
            && |step.run.attempts| == |r.attempts| + 1
            && (step.again <==> Abs(target - y) > TARGET_TOLERANCE)
    ensures target - y == -(k * Dither(target - x))
  {
    hide LearnGain, Dither, RawCorrection, Position, Noticeable;
    CorrectionLands(k, x, target);
    Displacement(k, x, c);
    LongDragsAreNoticeable(k, c - x, y - x);
    ExactMeasurement(k, c - x, y - x, Some(k));
    assert Command(index, r.gain, r.state, target) == c;
    DragOnPlant(index, r, target, plant, s, k, x, c, y);
  }

  /** How far a correction can miss. */
  lemma MissIsSmall(k: real, e: real, miss: real)
    requires MIN_GAIN <= k <= MAX_GAIN && miss == -(k * Dither(e))
    ensures Abs(miss) <= k * 0.012
    ensures Abs(e) <= 0.03 ==> Abs(miss) <= k * 0.0054
  {
    ScaledBound(k, Dither(e), 0.012);
    if Abs(e) <= 0.03 {
      ScaledBound(k, Dither(e), 0.0054);
    }
  }

  /** Convergence: on a linear plant with any gain in the learnable range, away from the ends, a
      fresh calibration reaches the target within three drags -- within two when the gain is at
      most 5/3. */
  lemma {:induction false} LinearPlantConverges(plant: Plant, s: SliderState, k: real, x0: real, target: real)
    requires MIN_GAIN <= k <= MAX_GAIN && LinearPlant(plant, s, k)
    requires 0.0 <= x0 <= 1.0 && 0.0 <= target <= 1.0 && Abs(target - x0) > TARGET_TOLERANCE
    requires Unsaturated(k, x0, target, !s.nativeRange)
    ensures var run := Loop(0, Run(s.(rawFraction := x0), x0, None, [], false), target, plant);
            && Verified(run, target) && OnTarget(run.state, target) && run.gain == Some(k)
            && 1 <= |run.attempts| <= 3 && (k <= 5.0 / 3.0 ==> |run.attempts| <= 2)
  {
    hide RawCorrection, Position, Dither, LearnGain, Iterate, InitialCommand;
    var r0 := Run(s.(rawFraction := x0), x0, None, [], false);
    var c1 := InitialCommand(x0, target, !s.nativeRange);
    var x1 := Position(k, x0, c1);
    FirstDragOnPlant(plant, s, k, x0, target);
    var r1 := Iterate(0, r0, target, plant).run;
    if Abs(target - x1) > TARGET_TOLERANCE {
      SecondDragConverges(plant, s, k, x1, target, r1);
    }
  }

  lemma FirstDragOnPlant(plant: Plant, s: SliderState, k: real, x0: real, target: real)
    requires MIN_GAIN <= k <= MAX_GAIN && LinearPlant(plant, s, k)
    requires 0.0 <= x0 <= 1.0 && 0.0 <= target <= 1.0 && Abs(target - x0) > TARGET_TOLERANCE
    requires 0.0 <= Position(k, x0, InitialCommand(x0, target, !s.nativeRange)) <= 1.0
    ensures var x1 := Position(k, x0, InitialCommand(x0, target, !s.nativeRange));
            var step := Iterate(0, Run(s.(rawFraction := x0), x0, None, [], false), target, plant);
            && step.run.state == s.(rawFraction := x1) && step.run.gain == Some(k) && |step.run.attempts| == 1
            && (step.again <==> Abs(target - x1) > TARGET_TOLERANCE)
  {
    hide LearnGain, InitialCommand, Position, Noticeable, Iterate;
    var r0 := Run(s.(rawFraction := x0), x0, None, [], false);
    var c1 := InitialCommand(x0, target, !s.nativeRange);
    var x1 := Position(k, x0, c1);
    FirstCommandIsFar(x0, target, !s.nativeRange);
    Displacement(k, x0, c1);
    LongDragsAreNoticeable(k, c1 - x0, x1 - x0);
    ExactMeasurement(k, c1 - x0, x1 - x0, None);
    DragOnPlant(0, r0, target, plant, s, k, x0, c1, x1);
  }

  /** From the second drag on the gain is known. */
  lemma {:induction false} SecondDragConverges(plant: Plant, s: SliderState, k: real, x1: real, target: real, r1: Run)
    requires MIN_GAIN <= k <= MAX_GAIN && LinearPlant(plant, s, k) && r1.gain == Some(k) && |r1.attempts| == 1
    requires r1.state == s.(rawFraction := x1) && 0.0 <= x1 <= 1.0 && Abs(target - x1) > TARGET_TOLERANCE
    requires var c2 := RawCorrection(Some(k), x1, target);
             var x2 := Position(k, x1, c2);
             var c3 := RawCorrection(Some(k), x2, target);
             && 0.0 <= c2 <= 1.0 && 0.0 <= x2 <= 1.0
             && (Abs(target - x2) > TARGET_TOLERANCE ==> 0.0 <= c3 <= 1.0 && 0.0 <= Position(k, x2, c3) <= 1.0)
    ensures var run := Loop(1, r1, target, plant);
            && Verified(run, target) && OnTarget(run.state, target) && run.gain == Some(k)
            && 2 <= |run.attempts| <= 3 && (k <= 5.0 / 3.0 ==> |run.attempts| == 2)
            && (|run.attempts| == 2 <==> k * Abs(Dither(target - x1)) <= TARGET_TOLERANCE)
  {
    hide RawCorrection, Position, Dither, LearnGain, Iterate;
    var c2 := RawCorrection(Some(k), x1, target);
    var x2 := Position(k, x1, c2);
    CorrectOnPlant(1, r1, target, plant, s, k, x1, c2, x2);
    MissIsSmall(k, target - x1, target - x2);
    var r2 := Iterate(1, r1, target, plant).run;
    assert Abs(target - x2) == k * Abs(Dither(target - x1)) by {
      AbsOfProduct(k, Dither(target - x1));
    }
    assert Abs(target - x2) <= 0.03;
    if Abs(target - x2) > TARGET_TOLERANCE {
      var c3 := RawCorrection(Some(k), x2, target);
      var x3 := Position(k, x2, c3);
      CorrectOnPlant(2, r2, target, plant, s, k, x2, c3, x3);
      MissIsSmall(k, target - x2, target - x3);
      assert Loop(2, r2, target, plant) == Iterate(2, r2, target, plant).run;
    }
  }

  /** From 0.4 to 0.5: where the first two drags of a strong plant end. */
  lemma StrongPlantOvershoots(k: real)
    requires 5.0 / 3.0 < k <= MAX_GAIN
    ensures var x1 := Position(k, 0.4, InitialCommand(0.4, 0.5, true));
            var c2 := RawCorrection(Some(k), x1, 0.5);
            && x1 == 0.4 + k * 0.108 && Dither(0.5 - x1) == -0.012
            && 0.0 <= c2 <= 1.0 && 0.5 - Position(k, x1, c2) == k * 0.012
  {
    assert InitialCommand(0.4, 0.5, true) == 0.508;
    var x1 := 0.4 + k * 0.108;
    assert Dither(0.5 - x1) == -0.012;
    CorrectionLands(k, x1, 0.5);
    QuotientBounds(0.5 - x1, k);
  }

  /** ... and where the third one does. */
  lemma ThirdDragStaysInside(k: real, x2: real)
    requires 5.0 / 3.0 < k <= MAX_GAIN && 0.5 - x2 == k * 0.012
    ensures var c3 := RawCorrection(Some(k), x2, 0.5); 0.0 <= c3 <= 1.0 && 0.0 <= Position(k, x2, c3) <= 1.0
  {
    CorrectionLands(k, x2, 0.5);
    QuotientBounds(0.5 - x2, k);
    ScaledBound(k, Dither(0.5 - x2), 0.0054);
  }

  /** The bound 5/3 is sharp: for every larger gain there is a start, away from the ends, that
      needs the third drag. */
  lemma {:induction false} LargerGainsNeedThreeDrags(plant: Plant, s: SliderState, k: real)
    requires 5.0 / 3.0 < k <= MAX_GAIN && LinearPlant(plant, s, k) && !s.nativeRange
    ensures Unsaturated(k, 0.4, 0.5, true)
    ensures |Loop(0, Run(s.(rawFraction := 0.4), 0.4, None, [], false), 0.5, plant).attempts| == 3
  {
    hide Iterate, LearnGain, InitialCommand, RawCorrection, Position, Dither;
    var x1 := Position(k, 0.4, InitialCommand(0.4, 0.5, true));
    StrongPlantOvershoots(k);
    ThirdDragStaysInside(k, Position(k, x1, RawCorrection(Some(k), x1, 0.5)));
    FirstDragOnPlant(plant, s, k, 0.4, 0.5);
    var r1 := Iterate(0, Run(s.(rawFraction := 0.4), 0.4, None, [], false), 0.5, plant).run;
    SecondDragConverges(plant, s, k, x1, 0.5, r1);
  }

  lemma QuotientBounds(e: real, k: real)
    requires k >= 1.0
    ensures Abs(e / k) <= Abs(e)
  {
    var q := e / k;
    assert q * k == e;
    assert q >= 0.0 ==> q * k >= q;
    assert q < 0.0 ==> -q * k >= -q;
  }
}
