/**
 The single-owner scheduler: callers sleep on their command queue for `QueueTimeout` and then give
 the browser owner a chance with `PollIfDue`.
 */
module RuntimeScheduler {

  class SingleOwnerRuntimeScheduler {
    const interval: real
    var nextPollAt: real
    var polls: nat

    constructor (requested: real, now: real)
      ensures interval >= 0.05 && interval >= requested && (interval == 0.05 || interval == requested)
      ensures nextPollAt == now + interval && polls == 0
    {
      interval := if requested > 0.05 then requested else 0.05;
      nextPollAt := now + if requested > 0.05 then requested else 0.05;
      polls := 0;
    }

    /** The wait never exceeds what was asked, never sleeps past the due time, and is long enough:
        if the caller may wait that long, the poll is due when it wakes up. */
    method QueueTimeout(maxWait: real, now: real) returns (wait: real)
      ensures 0.0 <= wait && (wait <= maxWait || wait == 0.0)
      ensures now + wait <= nextPollAt || wait == 0.0
      ensures maxWait >= nextPollAt - now ==> now + wait >= nextPollAt
    {
      var remaining := nextPollAt - now;
      var bounded := if maxWait > 0.0 then maxWait else 0.0;
      var least := if remaining < bounded then remaining else bounded;
      wait := if least > 0.0 then least else 0.0;
    }

    method PollIfDue(force: bool, now: real) returns (polled: bool)
      modifies this
      ensures polled == (force || now >= old(nextPollAt))
      ensures nextPollAt == if polled then now + interval else old(nextPollAt)
      ensures nextPollAt == Next(old(nextPollAt), interval, Call(force, now))
      ensures polls == old(polls) + if polled then 1 else 0
    {
      if !force && now < nextPollAt {
        return false;
      }
      nextPollAt := now + interval;
      polls := polls + 1;
      polled := true;
    }
  }

  // ----- whole runs

  datatype Call = Call(force: bool, now: real)

  predicate Fires(nextPollAt: real, c: Call)
  {
    c.force || c.now >= nextPollAt
  }

  function Next(nextPollAt: real, interval: real, c: Call): real
  {
    if Fires(nextPollAt, c) then c.now + interval else nextPollAt
  }

  function Fired(nextPollAt: real, interval: real, calls: seq<Call>): nat
    decreases |calls|
  {
    if calls == [] then 0
    else (if Fires(nextPollAt, calls[0]) then 1 else 0) + Fired(Next(nextPollAt, interval, calls[0]), interval, calls[1..])
  }

  ghost predicate Monotone(calls: seq<Call>)
  {
    forall i, j :: 0 <= i < j < |calls| ==> calls[i].now <= calls[j].now
  }

  /** How many calls of a run poll without being forced. */
  function FiredUnforced(nextPollAt: real, interval: real, calls: seq<Call>): nat
    decreases |calls|
  {
    if calls == [] then 0
    else (if !calls[0].force && Fires(nextPollAt, calls[0]) then 1 else 0)
         + FiredUnforced(Next(nextPollAt, interval, calls[0]), interval, calls[1..])
  }

  lemma OneMore(n: nat, interval: real)
    requires n > 0
    ensures n as real * interval == (n - 1) as real * interval + interval
  {
    var less, more := (n - 1) as real, n as real;
    assert more == less + 1.0;
  }

  lemma FirstCall(calls: seq<Call>)
    requires calls != [] && Monotone(calls)
    ensures Monotone(calls[1..]) && forall i :: 0 <= i < |calls| - 1 ==> calls[1..][i] == calls[i + 1] && calls[0].now <= calls[i + 1].now
  {
  }

  /** Unforced polls are at least an interval apart, from each other and from the forced ones in
      between: `n` of them, the first due at `nextPollAt`, fit before `end` only if the last one does.
      The timer was last armed, one interval ahead, no later than the first call. */
  lemma {:induction false} UnforcedPollsAreSpaced(nextPollAt: real, interval: real, calls: seq<Call>, end: real)
    requires interval > 0.0 && Monotone(calls)
    requires forall i :: 0 <= i < |calls| ==> nextPollAt - interval <= calls[i].now <= end
    ensures FiredUnforced(nextPollAt, interval, calls) > 0 ==>
              nextPollAt + (FiredUnforced(nextPollAt, interval, calls) - 1) as real * interval <= end
    decreases |calls|
  {
    if calls != [] {
      var next := Next(nextPollAt, interval, calls[0]);
      FirstCall(calls);
      UnforcedPollsAreSpaced(next, interval, calls[1..], end);
      var rest := FiredUnforced(next, interval, calls[1..]);
      if !calls[0].force && Fires(nextPollAt, calls[0]) && rest > 0 {
        OneMore(rest, interval);
      }
    }
  }

  /** ... and none is lost: a series of calls polls at all if and only if one of them is forced or
      reaches the due time. */
  lemma {:induction false} PollsIffSomeCallIsDue(nextPollAt: real, interval: real, calls: seq<Call>)
    ensures Fired(nextPollAt, interval, calls) > 0 <==> exists i :: 0 <= i < |calls| && Fires(nextPollAt, calls[i])
    decreases |calls|
  {
    if calls != [] {
      PollsIffSomeCallIsDue(nextPollAt, interval, calls[1..]);
      assert forall i :: 1 <= i < |calls| ==> calls[i] == calls[1..][i - 1];
      assert forall i :: 0 <= i < |calls| - 1 ==> calls[1..][i] == calls[i + 1];
    }
  }
}
