/**
 The reconnect rate limiter of a Modbus slave (`novena_gateway/connectors/modbus/slave.py`,
 `connect`).  Times are milliseconds of a clock that does not run backwards.
 */
module Reconnect {
  /** Settings after the constructor's clamping. */
  datatype Limits = Limits(attempts: nat, spacing: real, backOff: real)

  /** The constructor's lower bounds: each setting is raised to its bound, and kept when it is above. */
  function Clamp(attempts: int, spacing: real, backOff: real): (l: Limits)
    ensures Sensible(l)
    ensures l.attempts >= attempts && l.spacing >= spacing && l.backOff >= backOff
    ensures (l.attempts == attempts || l.attempts == 2) && (l.spacing == spacing || l.spacing == 500.0)
    ensures l.backOff == backOff || l.backOff == 30000.0
  {
    Limits(if attempts >= 2 then attempts else 2,
           if spacing > 500.0 then spacing else 500.0,
           if backOff > 30000.0 then backOff else 30000.0)
  }

  predicate Sensible(l: Limits) { l.attempts >= 2 && l.spacing >= 500.0 && l.backOff >= 30000.0 }

  datatype State = State(
    count: nat,            // connection_attempt_count
    last: real,            // last_connection_attempt_time
    attempts: seq<real>)   // history: times of the attempts made

  const FRESH := State(0, 0.0, [])

  predicate MayTry(l: Limits, s: State, now: real) {
    s.count < l.attempts && (now - s.last >= l.spacing || s.last == 0.0)
  }

  /** The back-off is over: the attempts count from zero again. */
  function Refreshed(l: Limits, s: State, now: real): State {
    if s.count >= l.attempts && now - s.last >= l.backOff then s.(count := 0) else s
  }

  function Tried(s: State, now: real): State {
    s.(count := s.count + 1, last := now, attempts := s.attempts + [now])
  }

  /** A call during which the master stays disconnected. */
  function Failed(l: Limits, s: State, now: real): State {
    var r := Refreshed(l, s, now);
    if MayTry(l, r, now) then Tried(r, now) else r
  }

  /** What a call leaves behind, whether the master is connected, and what it returns. */
  datatype Result = Result(state: State, connected: bool, ok: bool)

  /** `outcome`: whether an attempt, if one is made, connects the master. */
  function Called(l: Limits, s: State, now: real, connected: bool, stopped: bool, outcome: bool): Result {
    if connected then Result(s.(count := 0, last := now), true, true)
    else if stopped then Result(Refreshed(l, s, now), false, false)
    else if !MayTry(l, Refreshed(l, s, now), now) || !outcome then Result(Failed(l, s, now), false, false)
    else
      var t := Failed(l, s, now);
      if t.count == l.attempts then Result(t, true, false) else Result(t.(count := 0), true, true)
  }

  /**
   What a call returns differs from whether the master is connected in exactly one case:
   an attempt that succeeds is reported as a failure when it is the last of its batch.
   */
  lemma LastAttemptReportsFailure(l: Limits, s: State, now: real, connected: bool, stopped: bool, outcome: bool)
    ensures var r := Called(l, s, now, connected, stopped, outcome);
            && (r.ok ==> r.connected)
            && (r.connected && !r.ok <==>
                  && !connected && !stopped && outcome
                  && MayTry(l, Refreshed(l, s, now), now) && Refreshed(l, s, now).count + 1 == l.attempts)
  {
  }

  /**
   While the master stays away, a call makes an attempt if and only if the spacing since
   the last one is over, or there was none, and the batch is not used up or the back-off is
   over; otherwise nothing changes but the count of an expired batch.
   */
  lemma AttemptsExactly(l: Limits, s: State, now: real)
    ensures var t := Failed(l, s, now);
            && (t.attempts == s.attempts + [now] && t.last == now <==>
                  (s.last == 0.0 || now - s.last >= l.spacing) && (s.count < l.attempts || now - s.last >= l.backOff)
                  && l.attempts > 0)
            && (t.attempts == s.attempts || t.attempts == s.attempts + [now])
            && (t.attempts == s.attempts ==> t.last == s.last)
  {
    assert |s.attempts + [now]| == |s.attempts| + 1;
  }

  /** The first call makes an attempt, and so does every call a spacing and a back-off after the last attempt. */
  lemma RetriesNeverStop(l: Limits, s: State, now: real)
    requires Sensible(l) && (s == FRESH || (now - s.last >= l.spacing && now - s.last >= l.backOff))
    ensures Failed(l, s, now).attempts == s.attempts + [now]
  {
  }

  /** Inside a batch every call a spacing after the last attempt makes the next one. */
  lemma BatchGoesOn(l: Limits, s: State, now: real)
    requires s.count < l.attempts && now - s.last >= l.spacing
    ensures Failed(l, s, now).attempts == s.attempts + [now]
  {
  }

  /** An attempt that succeeds before the last of its batch connects, says so, and starts the count again. */
  lemma SuccessConnects(l: Limits, s: State, now: real)
    requires (s.last == 0.0 || now - s.last >= l.spacing) && s.count + 1 < l.attempts
    ensures var r := Called(l, s, now, false, false, true);
            r.connected && r.ok && r.state.count == 0 && r.state.last == now && r.state.attempts == s.attempts + [now]
  {
  }

  /** A call on a connected master makes no attempt and reports success; a stopped slave makes none and reports failure. */
  lemma NoNeedlessAttempt(l: Limits, s: State, now: real, stopped: bool, outcome: bool)
    ensures var r := Called(l, s, now, true, stopped, outcome);
            r.connected && r.ok && r.state.attempts == s.attempts && r.state.count == 0
    ensures var r := Called(l, s, now, false, true, outcome); !r.connected && !r.ok && r.state.attempts == s.attempts
  {
  }

  class Slave {
    const limits: Limits
    var connected: bool
    var stopped: bool
    var count: nat
    var last: real
    ghost var attempts: seq<real>

    ghost function View(): (s: State)
      reads this
    {
      State(count, last, attempts)
    }

    constructor (attempts: int, spacing: real, backOff: real)
      ensures limits == Clamp(attempts, spacing, backOff) && View() == FRESH && !connected && !stopped
    {
      limits := Clamp(attempts, spacing, backOff);
      connected, stopped, count, last := false, false, 0, 0.0;
      this.attempts := [];
    }

    method Connect(now: real, outcome: bool) returns (ok: bool)
      requires Sensible(limits) && now > 0.0
      modifies this
      ensures Result(View(), connected, ok) == Called(limits, old(View()), now, old(connected), stopped, outcome)
      ensures stopped == old(stopped)
    {
      if !connected {
        if count >= limits.attempts && now - last >= limits.backOff {
          count := 0;
        }
        var made := false;
        while !connected && count < limits.attempts && (now - last >= limits.spacing || last == 0.0)
          invariant !made ==> View() == Refreshed(limits, old(View()), now) && !connected
          invariant made ==>
                      && !stopped && MayTry(limits, Refreshed(limits, old(View()), now), now)
                      && View() == Failed(limits, old(View()), now) && connected == outcome
                      && last == now && count != limits.attempts
          invariant stopped == old(stopped)
          decreases !made
        {
          if stopped { return false; }
          count := count + 1;
          last := now;
          attempts := attempts + [now];
          connected := outcome;
          made := true;
          if count == limits.attempts { return false; }
        }
      }
      if connected {
        count := 0;
        last := now;
        return true;
      }
      return false;
    }
  }

  // ---------------------------------------------------------------- the rate limit

  predicate Monotone(times: seq<real>) {
    && (forall i :: 0 <= i < |times| ==> times[i] > 0.0)
    && (forall i, j :: 0 <= i < j < |times| ==> times[i] <= times[j])
  }

  /** Calls at the given times while the master stays disconnected. */
  function Run(l: Limits, times: seq<real>): State
    decreases |times|
  {
    if times == [] then FRESH else Failed(l, Run(l, times[..|times| - 1]), times[|times| - 1])
  }

  /**
   The current batch is the last `count` attempts; it was opened a back-off after the
   attempt before it, or, when it is still empty, may be opened now for that reason.
   */
  ghost predicate BatchInv(l: Limits, s: State, now: real) {
    var n := |s.attempts|;
    && s.count <= l.attempts && s.count <= n
    && Monotone(s.attempts)
    && (n == 0 ==> s.last == 0.0)
    && (n > 0 ==> s.last == s.attempts[n - 1] <= now)
    && (n > 0 && s.count == 0 ==> now - s.last >= l.backOff)
    && (0 < s.count < n ==> s.attempts[n - s.count] - s.attempts[n - s.count - 1] >= l.backOff)
    && Limited(l, s.attempts)
  }

  /** Attempts that are a batch apart are a back-off apart. */
  ghost predicate Limited(l: Limits, attempts: seq<real>) {
    forall i, j :: 0 <= i < j < |attempts| && j - i >= l.attempts ==> attempts[j] - attempts[i] >= l.backOff
  }

  lemma AppendKeepsLimit(l: Limits, attempts: seq<real>, now: real)
    requires Limited(l, attempts) && Monotone(attempts) && now > 0.0
    requires forall i :: 0 <= i < |attempts| ==> attempts[i] <= now
    requires forall i :: 0 <= i < |attempts| && |attempts| - i >= l.attempts ==> now - attempts[i] >= l.backOff
    ensures Limited(l, attempts + [now]) && Monotone(attempts + [now])
  {
  }

  /** When a new attempt is allowed, everything a batch back is a back-off ago. */
  lemma OldAttemptsAreOld(l: Limits, s: State, was: real, now: real, i: nat)
    requires Sensible(l) && BatchInv(l, s, was) && was <= now && MayTry(l, Refreshed(l, s, now), now)
    requires i < |s.attempts| && |s.attempts| - i >= l.attempts
    ensures now - s.attempts[i] >= l.backOff
  {
    hide Limited;
    var r := Refreshed(l, s, now);
    var n := |s.attempts|;
    assert s.attempts[i] <= s.attempts[n - 1];
    if r.count > 0 {
      assert s.attempts[i] <= s.attempts[n - r.count - 1] && s.attempts[n - r.count] <= s.attempts[n - 1];
    }
  }

  lemma AttemptKeepsLimit(l: Limits, s: State, was: real, now: real)
    requires Sensible(l) && BatchInv(l, s, was) && was <= now && now > 0.0 && MayTry(l, Refreshed(l, s, now), now)
    ensures Limited(l, s.attempts + [now]) && Monotone(s.attempts + [now])
  {
    forall i | 0 <= i < |s.attempts|
      ensures s.attempts[i] <= now
      ensures |s.attempts| - i >= l.attempts ==> now - s.attempts[i] >= l.backOff
    {
      assert s.attempts[i] <= s.attempts[|s.attempts| - 1];
      if |s.attempts| - i >= l.attempts { OldAttemptsAreOld(l, s, was, now, i); }
    }
    AppendKeepsLimit(l, s.attempts, now);
  }

  lemma CallKeepsBatches(l: Limits, s: State, was: real, now: real)
    requires Sensible(l) && BatchInv(l, s, was) && was <= now && now > 0.0
    ensures BatchInv(l, Failed(l, s, now), now)
    ensures |Failed(l, s, now).attempts| <= |s.attempts| + 1
  {
    hide Limited, Monotone;
    if MayTry(l, Refreshed(l, s, now), now) {
      AttemptKeepsLimit(l, s, was, now);
    }
  }

  lemma {:induction false} RunKeepsBatches(l: Limits, times: seq<real>)
    requires Sensible(l) && Monotone(times)
    ensures BatchInv(l, Run(l, times), if times == [] then 0.0 else times[|times| - 1])
    ensures |Run(l, times).attempts| <= |times|
    decreases |times|
  {
    if times != [] {
      var before := times[..|times| - 1];
      RunKeepsBatches(l, before);
      CallKeepsBatches(l, Run(l, before), if before == [] then 0.0 else before[|before| - 1], times[|times| - 1]);
    }
  }

  /**
   Against a device that stays unreachable, a time window shorter than the back-off never
   contains more attempts than one batch, however often `connect` is called; and a call
   makes at most one attempt.
   */
  lemma AttemptsAreRateLimited(l: Limits, times: seq<real>, i: nat, j: nat)
    requires Sensible(l) && Monotone(times)
    requires i <= j < |Run(l, times).attempts|
    requires Run(l, times).attempts[j] - Run(l, times).attempts[i] < l.backOff
    ensures j - i + 1 <= l.attempts
    ensures |Run(l, times).attempts| <= |times|
  {
    RunKeepsBatches(l, times);
  }
}
