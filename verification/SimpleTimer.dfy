// The software timers of simple-timer.c. The clock is a parameter: each routine reads it once.
module SimpleTimer {

  const TWO_64: nat := 0x1_0000_0000_0000_0000
  // tick_count is 32 bits wide.
  const TICKS: nat := 0x1_0000_0000

  // ----- The timer as a value -----

  datatype TimerState = TimerState(waitTime: nat, targetTime: nat, autoReset: bool, elapsed: bool)

  function Armed(waitTime: nat, autoReset: bool, now: nat): TimerState {
    TimerState(waitTime, (now + waitTime) % TWO_64, autoReset, false)
  }

  function Reset(t: TimerState, now: nat): TimerState { Armed(t.waitTime, t.autoReset, now) }

  // Whether a check at `now` reports that the timer has elapsed.
  predicate Fires(t: TimerState, now: nat) { !t.elapsed && now >= t.targetTime }

  // The timer after that check.
  function Checked(t: TimerState, now: nat): TimerState {
    if !Fires(t, now) then t
    else if t.autoReset then t.(targetTime := (t.targetTime + t.waitTime) % TWO_64)
    else t.(elapsed := true)
  }

  // ----- The routines -----

  class Timer {
    var wait_time: nat
    var target_time: nat
    var auto_reset: bool
    var timer_elapsed: bool

    ghost function Value(): TimerState
      reads this
    {
      TimerState(wait_time, target_time, auto_reset, timer_elapsed)
    }

    constructor (waitTime: nat, autoReset: bool, now: nat)
      ensures Value() == Armed(waitTime, autoReset, now)
    {
      wait_time := waitTime;
      target_time := (now + waitTime) % TWO_64;
      auto_reset := autoReset;
      timer_elapsed := false;
    }

    method Init(waitTime: nat, autoReset: bool, now: nat)
      modifies this
      ensures Value() == Armed(waitTime, autoReset, now)
    {
      wait_time := waitTime;
      target_time := (now + waitTime) % TWO_64;
      auto_reset := autoReset;
      timer_elapsed := false;
    }

    method HasElapsed(now: nat) returns (result: bool)
      modifies this
      ensures result == Fires(old(Value()), now)
      ensures Value() == Checked(old(Value()), now)
    {
      var hasElapsed := now >= target_time;
      if timer_elapsed {
        return false;
      }
      if hasElapsed {
        var drift := now - target_time;
        if auto_reset {
          // the drift is taken back, so that a late check does not move the schedule
          target_time := ((now + wait_time) - drift) % TWO_64;
        } else {
          timer_elapsed := true;
        }
      }
      result := hasElapsed;
    }

    method Rearm(now: nat)
      modifies this
      ensures Value() == Reset(old(Value()), now)
    {
      Init(wait_time, auto_reset, now);
    }
  }

  // ----- Runs of checks -----

  // The timer after checks at the given times.
  function After(t: TimerState, times: seq<nat>): TimerState {
    if times == [] then t else Checked(After(t, times[..|times| - 1]), times[|times| - 1])
  }

  // Whether check i of the run reports that the timer has elapsed.
  predicate FiresAt(t: TimerState, times: seq<nat>, i: nat)
    requires i < |times|
  {
    Fires(After(t, times[..i]), times[i])
  }

  function Firings(t: TimerState, times: seq<nat>): nat {
    if times == [] then 0
    else Firings(t, times[..|times| - 1]) + (if FiresAt(t, times, |times| - 1) then 1 else 0)
  }

  // A one-shot timer has elapsed for good once one of its checks has come at or after the target.
  lemma {:induction false} OneShotElapsed(t: TimerState, times: seq<nat>)
    requires !t.autoReset && !t.elapsed
    ensures After(t, times) == t.(elapsed := exists k :: 0 <= k < |times| && times[k] >= t.targetTime)
  {
    if times != [] {
      var n := |times| - 1;
      OneShotElapsed(t, times[..n]);
      assert forall k :: 0 <= k < n ==> times[k] == times[..n][k];
      if times[n] >= t.targetTime {
        assert exists k :: 0 <= k < |times| && times[k] >= t.targetTime;
      }
    }
  }

  // Between two resets a one-shot timer fires at its first check that comes at or after the target,
  // and at no other.
  lemma OneShotFiresOnce(t: TimerState, times: seq<nat>, i: nat)
    requires !t.autoReset && !t.elapsed && i < |times|
    ensures FiresAt(t, times, i) <==> times[i] >= t.targetTime && forall k :: 0 <= k < i ==> times[k] < t.targetTime
  {
    OneShotElapsed(t, times[..i]);
    assert forall k :: 0 <= k < i ==> times[k] == times[..i][k];
  }

  lemma WrapOnce(a: nat, w: nat)
    ensures (a % TWO_64 + w) % TWO_64 == (a + w) % TWO_64
  {}

  // The n-th deadline of a periodic timer.
  function Deadline(t: TimerState, n: nat): nat {
    if n == 0 then t.targetTime else (Deadline(t, n - 1) + t.waitTime) % TWO_64
  }

  lemma {:induction false} DeadlineIsMultiple(t: TimerState, n: nat)
    requires t.targetTime < TWO_64
    ensures Deadline(t, n) == (t.targetTime + n * t.waitTime) % TWO_64
  {
    if n > 0 {
      DeadlineIsMultiple(t, n - 1);
      WrapOnce(t.targetTime + (n - 1) * t.waitTime, t.waitTime);
      assert t.targetTime + (n - 1) * t.waitTime + t.waitTime == t.targetTime + n * t.waitTime;
    }
  }

  lemma {:induction false} PeriodicFollowsDeadlines(t: TimerState, times: seq<nat>)
    requires t.autoReset && !t.elapsed
    ensures After(t, times) == t.(targetTime := Deadline(t, Firings(t, times)))
  {
    if times != [] {
      PeriodicFollowsDeadlines(t, times[..|times| - 1]);
    }
  }

  // A periodic timer is free of drift: however late its checks come, after n firings its target is the
  // first target plus n waiting times.
  lemma PeriodicTarget(t: TimerState, times: seq<nat>)
    requires t.autoReset && !t.elapsed && t.targetTime < TWO_64
    ensures After(t, times) == t.(targetTime := (t.targetTime + Firings(t, times) * t.waitTime) % TWO_64)
  {
    PeriodicFollowsDeadlines(t, times);
    DeadlineIsMultiple(t, Firings(t, times));
  }

  // A one-shot timer armed at `now` can fire before the tick counter wraps exactly when its deadline
  // is still representable; one armed in the last waitTime ticks never fires.
  lemma FiresBeforeWrapExactlyWhen(waitTime: nat, now: nat)
    requires now < TICKS && now + waitTime < TWO_64
    ensures (exists later: nat :: now <= later < TICKS && Fires(Armed(waitTime, false, now), later))
      <==> now + waitTime < TICKS
  {
    if now + waitTime < TICKS {
      assert Fires(Armed(waitTime, false, now), now + waitTime);
    }
  }
}
