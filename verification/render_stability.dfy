/**
 When a rendered document counts as stable: the polling loop of the monitor browser.
 */
module RenderStability {
  import opened Common

  const POLL_MS := 100

  datatype Snapshot = Snapshot(url: string, title: string, readyState: string, htmlLength: nat, textLength: nat)

  predicate Ready(s: Snapshot)
  {
    s.readyState == "interactive" || s.readyState == "complete"
  }

  /** How many consecutive comparisons up to snapshot `i` saw an unchanged, ready document. */
  function StableRun(snapshots: nat -> Snapshot, i: nat): nat
  {
    if i > 0 && snapshots(i) == snapshots(i - 1) && Ready(snapshots(i)) then StableRun(snapshots, i - 1) + 1 else 0
  }

  datatype Verdict = Verdict(snapshot: Option<Snapshot>, stable: bool)

  /** Reading 0 is the start, reading i the deadline test before snapshot i - 1.  The first test may
      come at once; two tests are at least the 0.1 s sleep apart. */
  ghost predicate Ticks(clock: nat -> real)
  {
    clock(0) <= clock(1) && forall i: nat :: i > 0 ==> clock(i + 1) >= clock(i) + 0.1
  }

  /** The deadline test before snapshot `i`. */
  predicate InTime(clock: nat -> real, timeoutMs: real, i: nat)
  {
    (clock(i + 1) - clock(0)) * 1000.0 < timeoutMs
  }

  /** `_rendered_document` after navigation. `taken` is the number of snapshots it looked at. */
  method RenderedDocument(snapshots: nat -> Snapshot, clock: nat -> real, stableMs: int, timeoutMs: real)
    returns (v: Verdict, taken: nat)
    requires Ticks(clock)
    ensures forall i: nat :: i < taken ==> InTime(clock, timeoutMs, i)
    ensures v.snapshot == if taken == 0 then None else Some(snapshots(taken - 1))
    // it stops before the timeout when stable, and only after it otherwise
    ensures v.stable ==> (clock(taken) - clock(0)) * 1000.0 < timeoutMs
    ensures !v.stable ==> (clock(taken + 1) - clock(0)) * 1000.0 >= timeoutMs
    // stable: at the first snapshot whose run is long enough
    ensures v.stable ==> taken > 0 && StableRun(snapshots, taken - 1) * POLL_MS >= stableMs
    ensures forall i: nat :: i + 1 < taken ==> StableRun(snapshots, i) * POLL_MS < stableMs
    // not stable: no snapshot before the deadline had a long enough run
    ensures !v.stable ==> !InTime(clock, timeoutMs, taken)
                          && forall i: nat :: i < taken ==> StableRun(snapshots, i) * POLL_MS < stableMs
  {
    var stableFor, lastFingerprint, lastSnapshot: Option<Snapshot> := 0, None, None;
    taken := 0;
    while InTime(clock, timeoutMs, taken)
      invariant forall i: nat :: i < taken ==> InTime(clock, timeoutMs, i)
      invariant lastSnapshot == if taken == 0 then None else Some(snapshots(taken - 1))
      invariant lastFingerprint == lastSnapshot
      invariant taken > 0 ==> stableFor == StableRun(snapshots, taken - 1) * POLL_MS
      invariant forall i: nat :: i < taken ==> StableRun(snapshots, i) * POLL_MS < stableMs
      decreases ((timeoutMs - (clock(taken + 1) - clock(0)) * 1000.0) * 0.01).Floor
    {
      var snapshot := snapshots(taken);
      lastSnapshot := Some(snapshot);
      if Some(snapshot) == lastFingerprint && Ready(snapshot) {
        stableFor := stableFor + POLL_MS;
      } else {
        stableFor := 0;
        lastFingerprint := Some(snapshot);
      }
      assert clock(taken + 1 + 1) >= clock(taken + 1) + 0.1;
      taken := taken + 1;
      if stableFor >= stableMs {
        return Verdict(lastSnapshot, true), taken;
      }
    }
    v := Verdict(lastSnapshot, false);
  }

  /** What the count means: the last `StableRun` comparisons all saw one and the same document, and
      it was interactive or complete each time. */
  lemma {:induction false} StableRunMeaning(snapshots: nat -> Snapshot, i: nat, j: nat)
    requires i - StableRun(snapshots, i) <= j <= i
    ensures snapshots(j) == snapshots(i)
    ensures StableRun(snapshots, i) > 0 ==> Ready(snapshots(j))
    ensures StableRun(snapshots, i) <= i
  {
    if StableRun(snapshots, i) > 0 {
      StableRunMeaning(snapshots, i - 1, if j < i then j else i - 1);
    }
  }

  /** Comparison `k` saw the same document twice, interactive or complete. */
  predicate Unchanged(snapshots: nat -> Snapshot, k: nat)
  {
    k > 0 && snapshots(k) == snapshots(k - 1) && (snapshots(k).readyState == "interactive" || snapshots(k).readyState == "complete")
  }

  /** The run is `n` or longer if and only if each of the last `n` comparisons saw one ready document. */
  lemma {:induction false} StableRunIsLongIff(snapshots: nat -> Snapshot, i: nat, n: nat)
    ensures StableRun(snapshots, i) >= n <==> n <= i && forall k: nat :: i - n < k <= i ==> Unchanged(snapshots, k)
  {
    if n > 0 {
      if i > 0 {
        StableRunIsLongIff(snapshots, i - 1, n - 1);
      }
      assert i > 0 && StableRun(snapshots, i) > 0 <==> Unchanged(snapshots, i);
    }
  }

  /** ... and the count is maximal: the comparison before the run saw a change or an unready document. */
  lemma {:induction false} StableRunIsMaximal(snapshots: nat -> Snapshot, i: nat)
    ensures var k := i - StableRun(snapshots, i);
            k > 0 ==> snapshots(k) != snapshots(k - 1) || !Ready(snapshots(k))
  {
    StableRunMeaning(snapshots, i, i);
    if StableRun(snapshots, i) > 0 {
      StableRunIsMaximal(snapshots, i - 1);
    }
  }
}
