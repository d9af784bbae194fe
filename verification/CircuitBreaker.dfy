// The circuit breaker: one atomic Redis script over one hash per downstream target.
module CircuitBreaker {
  import opened Prelude

  datatype State = Closed | Open | HalfOpen

  // `window` bounds the gap between two failures of one streak, `openFor` is how long the
  // breaker stays open after a failure.
  datatype Config = Config(threshold: int, window: real, openFor: real) {
    ghost predicate Sensible() {
      window >= 0.0 && openFor >= 0.0
    }

    function Ttl(): int {
      Ceil(openFor + window) + 60
    }
  }

  // `lastFailure` is None until a failure has been written.
  datatype Key =
    | Missing
    | Present(state: State, failures: int, lastFailure: Option<real>, deadline: real)
  {
    function At(now: real): Key {
      if Present? && now > deadline then Missing else this
    }

    // The fields as the script reads them, with its defaults.
    function StateRead(): State {
      if Present? then state else Closed
    }

    function FailuresRead(): int {
      if Present? then failures else 0
    }

    function LastFailureRead(): real {
      if Present? && lastFailure.Some? then lastFailure.value else 0.0
    }
  }

  datatype Op = Check | Success | Failure

  datatype Call = Call(op: Op, now: real)

  // The answer: a state, with the seconds still to wait for a check that finds it open.
  datatype Reply = Reply(state: State, retryAfter: real)

  // ----- One call -------------------------------------------------------------------

  // A failure continues the current streak when it comes within the window.
  function FailuresAfter(cfg: Config, key: Key, now: real): int {
    if now - key.LastFailureRead() > cfg.window then 1 else key.FailuresRead() + 1
  }

  function AfterFailure(cfg: Config, key: Key, now: real): Key {
    if key.StateRead() == HalfOpen then Present(Open, 1, Some(now), now + cfg.Ttl() as real)
    else
      var n := FailuresAfter(cfg, key, now);
      Present(if n >= cfg.threshold then Open else key.StateRead(), n, Some(now), now + cfg.Ttl() as real)
  }

  function AfterCheck(cfg: Config, key: Key, now: real): Key {
    if key.Missing? then Missing
    else if key.state == Open && now - key.LastFailureRead() >= cfg.openFor then
      key.(state := HalfOpen, failures := 0, deadline := now + cfg.Ttl() as real)
    else key.(deadline := now + cfg.Ttl() as real)
  }

  function After(cfg: Config, stored: Key, call: Call): Key {
    var key := stored.At(call.now);
    match call.op
    case Check => AfterCheck(cfg, key, call.now)
    case Success =>
      Present(Closed, 0, if key.Present? then key.lastFailure else None, call.now + cfg.Ttl() as real)
    case Failure => AfterFailure(cfg, key, call.now)
  }

  function ReplyTo(cfg: Config, stored: Key, call: Call): Reply {
    var next := After(cfg, stored, call).StateRead();
    Reply(next, if call.op == Check && next == Open
                then cfg.openFor - (call.now - stored.At(call.now).LastFailureRead()) else 0.0)
  }

  // What a check answers and leaves, by the fields of the key it finds.
  lemma CheckMeans(cfg: Config, stored: Key, now: real)
    ensures
      var live := stored.Present? && now <= stored.deadline;
      var last := if live && stored.lastFailure.Some? then stored.lastFailure.value else 0.0;
      var open := live && stored.state == Open;
      var over := now - last >= cfg.openFor;
      var reply, key := ReplyTo(cfg, stored, Call(Check, now)), After(cfg, stored, Call(Check, now));
      && (reply.state == Closed <==> !live || stored.state == Closed)
      && (reply.state == Open <==> open && !over)
      && (reply.state == HalfOpen <==> live && (stored.state == HalfOpen || (open && over)))
      && reply.retryAfter == (if open && !over then last + cfg.openFor - now else 0.0)
      && (!live ==> key == Missing)
      && (live ==>
            && key.Present? && key.state == reply.state && key.lastFailure == stored.lastFailure
            && key.failures == (if open && over then 0 else stored.failures)
            && LifeIs(cfg, key, now))
  {
  }

  // The key lives a minute longer than both periods together, in whole seconds.
  ghost predicate LifeIs(cfg: Config, key: Key, now: real)
    requires key.Present?
  {
    var life := key.deadline - now;
    cfg.openFor + cfg.window + 60.0 <= life < cfg.openFor + cfg.window + 61.0 && life.Floor as real == life
  }

  // A success closes the breaker and starts the count anew.
  lemma SuccessMeans(cfg: Config, stored: Key, now: real)
    ensures
      var live := stored.Present? && now <= stored.deadline;
      var key := After(cfg, stored, Call(Success, now));
      && ReplyTo(cfg, stored, Call(Success, now)) == Reply(Closed, 0.0)
      && key.Present? && key.state == Closed && key.failures == 0 && LifeIs(cfg, key, now)
      && key.lastFailure == (if live then stored.lastFailure else None)
  {
  }

  // A failure opens a half-open breaker; else it is counted, from one if the last failure is out
  // of the window, and opens the breaker when the count reaches the threshold.
  lemma FailureMeans(cfg: Config, stored: Key, now: real)
    ensures
      var live := stored.Present? && now <= stored.deadline;
      var last := if live && stored.lastFailure.Some? then stored.lastFailure.value else 0.0;
      var count := if live && now - last <= cfg.window then stored.failures + 1 else 1;
      var reply, key := ReplyTo(cfg, stored, Call(Failure, now)), After(cfg, stored, Call(Failure, now));
      && reply == Reply(key.state, 0.0) && key.lastFailure == Some(now) && LifeIs(cfg, key, now)
      && (live && stored.state == HalfOpen ==> key.state == Open && key.failures == 1)
      && (!(live && stored.state == HalfOpen) ==>
            && key.failures == count
            && key.state == (if count >= cfg.threshold || (live && stored.state == Open) then Open else Closed))
  {
  }

  class Breaker {
    var key: Key

    constructor ()
      ensures key == Missing
    {
      key := Missing;
    }

    // CIRCUIT_BREAKER_LUA, with the server clock as a parameter.
    method Run(cfg: Config, op: Op, now: real) returns (reply: Reply)
      modifies this
      ensures key == After(cfg, old(key), Call(op, now))
      ensures reply == ReplyTo(cfg, old(key), Call(op, now))
    {
      key := key.At(now);
      var state := key.StateRead();
      var failures := key.FailuresRead();
      var lastFailure := key.LastFailureRead();
      var deadline := now + cfg.Ttl() as real;

      if op == Check {
        if state == Open {
          if now - lastFailure >= cfg.openFor {
            key := Present(HalfOpen, 0, key.lastFailure, deadline);
            return Reply(HalfOpen, 0.0);
          }
          key := key.(deadline := deadline);
          return Reply(Open, cfg.openFor - (now - lastFailure));
        }
        if key.Present? {
          key := key.(deadline := deadline);
        }
        return Reply(state, 0.0);
      }

      if op == Success {
        key := Present(Closed, 0, if key.Present? then key.lastFailure else None, deadline);
        return Reply(Closed, 0.0);
      }

      if state == HalfOpen {
        key := Present(Open, 1, Some(now), deadline);
        return Reply(Open, 0.0);
      }
      if now - lastFailure > cfg.window {
        failures := 1;
      } else {
        failures := failures + 1;
      }
      lastFailure := now;
      if failures >= cfg.threshold {
        state := Open;
      }
      key := Present(state, failures, Some(lastFailure), deadline);
      reply := Reply(state, 0.0);
    }
  }

  // ----- Runs ------------------------------------------------------------------------

  ghost predicate Timely(calls: seq<Call>) {
    forall i, j :: 0 <= i <= j < |calls| ==> calls[i].now <= calls[j].now
  }

  // The stored key before call n of a run over a new target.
  function KeyBefore(cfg: Config, calls: seq<Call>, n: nat): Key
    requires n <= |calls|
  {
    if n == 0 then Missing else After(cfg, KeyBefore(cfg, calls, n - 1), calls[n - 1])
  }

  // The state a call at `now` would find after the first n calls.
  function StateFound(cfg: Config, calls: seq<Call>, n: nat, now: real): State
    requires n <= |calls|
  {
    KeyBefore(cfg, calls, n).At(now).StateRead()
  }

  function StateLeft(cfg: Config, calls: seq<Call>, n: nat): State
    requires n <= |calls|
  {
    KeyBefore(cfg, calls, n).StateRead()
  }

  // ----- The trip condition ---------------------------------------------------------------

  // The streak of failures a history of reports ends with: how many, and when the last was.
  // It knows nothing of breaker states or key expiry.
  datatype Streak = Streak(length: nat, last: real)

  function StreakAfter(cfg: Config, calls: seq<Call>, n: nat): Streak
    requires n <= |calls|
  {
    if n == 0 then Streak(0, 0.0)
    else
      var before := StreakAfter(cfg, calls, n - 1);
      match calls[n - 1].op
      case Check => before
      case Success => Streak(0, 0.0)
      case Failure => Streak(Extended(cfg, before, calls[n - 1].now), calls[n - 1].now)
  }

  function Extended(cfg: Config, streak: Streak, now: real): nat {
    if streak.length > 0 && now - streak.last <= cfg.window then streak.length + 1 else 1
  }

  // What the stored key says of the streak, whatever the state.
  ghost predicate Tracks(cfg: Config, key: Key, streak: Streak, now: real) {
    && (streak.length > 0 ==> streak.last <= now)
    && match key
       case Missing => streak.length == 0 || now - streak.last > cfg.window
       case Present(state, failures, lastFailure, deadline) =>
         && (streak.length > 0 ==> lastFailure == Some(streak.last) && deadline >= streak.last + cfg.Ttl() as real)
         && (state == Closed ==> failures == streak.length && (failures == 0 || failures < cfg.threshold))
         && (state == Open ==> streak.length > 0)
  }

  lemma {:induction false} KeyTracksStreak(cfg: Config, calls: seq<Call>, n: nat, now: real)
    requires cfg.Sensible() && Timely(calls) && n <= |calls|
    requires n > 0 ==> calls[n - 1].now <= now
    ensures Tracks(cfg, KeyBefore(cfg, calls, n).At(now), StreakAfter(cfg, calls, n), now)
    decreases n
  {
    if n == 0 {
    } else {
      KeyTracksStreak(cfg, calls, n - 1, calls[n - 1].now);
    }
  }

  // A stretch i, ..., j - 1 of the history that begins with a failure, has no success in
  // it, and in which every further failure comes within the window of an earlier one.
  ghost predicate FailureRun(cfg: Config, calls: seq<Call>, i: nat, j: nat)
    requires j <= |calls|
  {
    && i < j && calls[i].op == Failure
    && (forall m :: i <= m < j ==> calls[m].op != Success)
    && (forall m: nat :: i < m < j && calls[m].op == Failure ==> Backed(cfg, calls, i, m))
  }

  ghost predicate Backed(cfg: Config, calls: seq<Call>, i: nat, m: nat)
    requires m < |calls|
  {
    exists k :: i <= k < m && calls[k].op == Failure && calls[m].now - calls[k].now <= cfg.window
  }

  function Failures(calls: seq<Call>, i: nat, j: nat): nat
    requires i <= j <= |calls|
  {
    if i == j then 0 else Failures(calls, i, j - 1) + if calls[j - 1].op == Failure then 1 else 0
  }

  // The streak is a failure run ...
  lemma {:induction false} StreakIsARun(cfg: Config, calls: seq<Call>, n: nat) returns (i: nat, f: nat)
    requires Timely(calls) && n <= |calls| && StreakAfter(cfg, calls, n).length > 0
    ensures i <= f < n && FailureRun(cfg, calls, i, n)
    ensures Failures(calls, i, n) == StreakAfter(cfg, calls, n).length
    ensures calls[f].op == Failure && calls[f].now == StreakAfter(cfg, calls, n).last
    decreases n
  {
    var before, call := StreakAfter(cfg, calls, n - 1), calls[n - 1];
    if call.op == Failure && !(before.length > 0 && call.now - before.last <= cfg.window) {
      i, f := n - 1, n - 1;
      assert Failures(calls, i, n - 1) == 0;
    } else {
      i, f := StreakIsARun(cfg, calls, n - 1);
      if call.op == Failure {
        assert Backed(cfg, calls, i, n - 1);
        f := n - 1;
      }
      hide Timely;
      RunGoesOn(cfg, calls, i, n);
      hide FailureRun, Failures, Backed;
    }
  }

  lemma RunGoesOn(cfg: Config, calls: seq<Call>, i: nat, n: nat)
    requires i < n - 1 < |calls| && FailureRun(cfg, calls, i, n - 1) && calls[n - 1].op != Success
    requires calls[n - 1].op == Failure ==> Backed(cfg, calls, i, n - 1)
    ensures FailureRun(cfg, calls, i, n)
    ensures Failures(calls, i, n) == Failures(calls, i, n - 1) + if calls[n - 1].op == Failure then 1 else 0
  {
    hide Backed;
  }

  // ... and no failure run that ends there is longer.
  lemma {:induction false} NoRunIsLonger(cfg: Config, calls: seq<Call>, i: nat, n: nat)
    requires Timely(calls) && n <= |calls| && FailureRun(cfg, calls, i, n)
    ensures 0 < Failures(calls, i, n) <= StreakAfter(cfg, calls, n).length
    ensures forall m :: i <= m < n && calls[m].op == Failure ==> calls[m].now <= StreakAfter(cfg, calls, n).last
    decreases n
  {
    if i == n - 1 {
      assert Failures(calls, i, n - 1) == 0;
    } else {
      NoRunIsLonger(cfg, calls, i, n - 1);
      if calls[n - 1].op == Failure {
        assert Backed(cfg, calls, i, n - 1);
      }
    }
  }

  // Call k completes a failure run of at least `threshold` failures that began at i.
  ghost predicate Completes(cfg: Config, calls: seq<Call>, i: nat, k: nat)
    requires k < |calls|
  {
    FailureRun(cfg, calls, i, k + 1) && Failures(calls, i, k + 1) >= cfg.threshold
  }

  lemma CompletedIsLong(cfg: Config, calls: seq<Call>, i: nat, k: nat)
    requires Timely(calls) && k < |calls| && Completes(cfg, calls, i, k)
    ensures StreakAfter(cfg, calls, k + 1).length >= cfg.threshold
  {
    hide FailureRun, Failures, Timely, StreakAfter;
    NoRunIsLonger(cfg, calls, i, k + 1);
  }

  lemma LongCompletes(cfg: Config, calls: seq<Call>, k: nat) returns (i: nat)
    requires Timely(calls) && k < |calls| && calls[k].op == Failure
    requires StreakAfter(cfg, calls, k + 1).length >= cfg.threshold
    ensures Completes(cfg, calls, i, k)
  {
    hide FailureRun, Failures, Timely;
    var f: nat;
    i, f := StreakIsARun(cfg, calls, k + 1);
  }

  lemma ThresholdReached(cfg: Config, calls: seq<Call>, k: nat)
    requires Timely(calls) && k < |calls| && calls[k].op == Failure
    ensures StreakAfter(cfg, calls, k + 1).length >= cfg.threshold <==> exists i: nat :: Completes(cfg, calls, i, k)
  {
    hide *;
    if StreakAfter(cfg, calls, k + 1).length >= cfg.threshold {
      var i := LongCompletes(cfg, calls, k);
    }
    if i: nat :| Completes(cfg, calls, i, k) {
      CompletedIsLong(cfg, calls, i, k);
    }
  }

  // A closed breaker opens on precisely the failure report that completes a run of
  // `threshold` failures, key expiry and re-creation included; and while it is closed it
  // has counted fewer than that.
  lemma TripsExactlyAtThreshold(cfg: Config, calls: seq<Call>, k: nat)
    requires cfg.Sensible() && Timely(calls) && k < |calls| && calls[k].op == Failure
    requires StateFound(cfg, calls, k, calls[k].now) == Closed
    ensures StateLeft(cfg, calls, k + 1) == Open <==> exists i: nat :: Completes(cfg, calls, i, k)
    ensures var counted := KeyBefore(cfg, calls, k).At(calls[k].now).FailuresRead();
      counted == 0 || counted < cfg.threshold
    ensures StateLeft(cfg, calls, k + 1) != HalfOpen
  {
    KeyTracksStreak(cfg, calls, k, calls[k].now);
    ThresholdReached(cfg, calls, k);
  }

  // Nothing but a failure report opens a breaker.
  lemma OnlyFailuresOpen(cfg: Config, key: Key, call: Call)
    requires call.op != Failure && After(cfg, key, call).StateRead() == Open
    ensures call.op == Check && key.At(call.now).StateRead() == Open
  {
  }

  // ----- The open period ---------------------------------------------------------------------

  // The last failure reported before call n.
  function LastFailureBefore(calls: seq<Call>, n: nat): Option<real>
    requires n <= |calls|
  {
    if n == 0 then None
    else if calls[n - 1].op == Failure then Some(calls[n - 1].now)
    else LastFailureBefore(calls, n - 1)
  }

  ghost predicate NoSuccess(calls: seq<Call>, i: nat, j: nat)
    requires j <= |calls|
  {
    forall m :: i <= m < j ==> calls[m].op != Success
  }

  // Once a failure report k has left the breaker open, and while no success is reported,
  // the breaker is open at every instant before the end of the period that the latest
  // failure began; the key cannot expire earlier.
  lemma {:induction false} StaysOpen(cfg: Config, calls: seq<Call>, k: nat, n: nat, now: real)
    requires cfg.Sensible() && Timely(calls) && k < n <= |calls|
    requires calls[k].op == Failure && StateLeft(cfg, calls, k + 1) == Open && NoSuccess(calls, k, n)
    requires calls[n - 1].now <= now < calls[k].now + cfg.openFor
    ensures LastFailureBefore(calls, n).Some? && calls[k].now <= LastFailureBefore(calls, n).value <= calls[n - 1].now
    ensures StateFound(cfg, calls, n, now) == Open
    ensures KeyBefore(cfg, calls, n).At(now).lastFailure == LastFailureBefore(calls, n)
    ensures KeyBefore(cfg, calls, n).deadline > calls[k].now + cfg.openFor
    decreases n
  {
    if n == k + 1 {
    } else {
      StaysOpen(cfg, calls, k, n - 1, calls[n - 1].now);
    }
  }

  // Open-period safety: such a check is answered OPEN, with a hint that lies in (0, openFor]
  // and names the instant at which the period of the latest failure ends.
  lemma OpenPeriodIsSafe(cfg: Config, calls: seq<Call>, k: nat, n: nat)
    requires cfg.Sensible() && Timely(calls) && k < n < |calls|
    requires calls[k].op == Failure && StateLeft(cfg, calls, k + 1) == Open && NoSuccess(calls, k, n)
    requires calls[n].op == Check && calls[n].now < calls[k].now + cfg.openFor
    ensures
      var reply := ReplyTo(cfg, KeyBefore(cfg, calls, n), calls[n]);
      && LastFailureBefore(calls, n).Some?
      && reply.state == Open && 0.0 < reply.retryAfter <= cfg.openFor
      && calls[n].now + reply.retryAfter == LastFailureBefore(calls, n).value + cfg.openFor
      && LastFailureBefore(calls, n).value >= calls[k].now
  {
    StaysOpen(cfg, calls, k, n, calls[n].now);
  }

  // The period also ends on time: with only checks since the failure that left the breaker
  // open, a check is answered OPEN exactly before the end of the period.
  lemma OpenPeriodIsExact(cfg: Config, calls: seq<Call>, k: nat, n: nat)
    requires cfg.Sensible() && Timely(calls) && k < n < |calls|
    requires calls[k].op == Failure && StateLeft(cfg, calls, k + 1) == Open
    requires forall m :: k < m <= n ==> calls[m].op == Check
    ensures ReplyTo(cfg, KeyBefore(cfg, calls, n), calls[n]).state == Open
      <==> calls[n].now < calls[k].now + cfg.openFor
  {
    if calls[n].now < calls[k].now + cfg.openFor {
      OpenPeriodIsSafe(cfg, calls, k, n);
    } else {
      ChecksKeepFailure(cfg, calls, k, n);
    }
  }

  lemma {:induction false} ChecksKeepFailure(cfg: Config, calls: seq<Call>, k: nat, n: nat)
    requires Timely(calls) && k < n < |calls|
    requires calls[k].op == Failure
    requires forall m :: k < m <= n ==> calls[m].op == Check
    ensures
      var key := KeyBefore(cfg, calls, n);
      key.Present? ==> key.lastFailure == Some(calls[k].now)
    decreases n
  {
    if n == k + 1 {
    } else {
      ChecksKeepFailure(cfg, calls, k, n - 1);
    }
  }

  // ----- Half-open admission -------------------------------------------------------------------

  // The design note promises a single probe once the open period is over. The script keeps no
  // such promise: until somebody reports, no check that follows a half-open answer is refused.
  lemma {:induction false} HalfOpenAdmitsEveryCheck(cfg: Config, calls: seq<Call>, k: nat, n: nat)
    requires k < n < |calls|
    requires forall m :: k <= m <= n ==> calls[m].op == Check
    requires ReplyTo(cfg, KeyBefore(cfg, calls, k), calls[k]).state == HalfOpen
    ensures ReplyTo(cfg, KeyBefore(cfg, calls, n), calls[n]).state != Open
    ensures StateLeft(cfg, calls, n) != Open
    decreases n
  {
    if n == k + 1 {
    } else {
      HalfOpenAdmitsEveryCheck(cfg, calls, k, n - 1);
    }
  }

  // A failed probe opens the breaker again whatever the threshold is, a successful one closes it.
  lemma ProbeDecides(cfg: Config, key: Key, now: real)
    requires key.At(now).StateRead() == HalfOpen
    ensures After(cfg, key, Call(Failure, now)).StateRead() == Open
    ensures After(cfg, key, Call(Success, now)).StateRead() == Closed
  {
  }

  // How many of the calls k, ..., n - 1 are checks that are not answered OPEN.
  function Admitted(cfg: Config, calls: seq<Call>, k: nat, n: nat): nat
    requires k <= n <= |calls|
  {
    if n == k then 0
    else
      var lets := calls[n - 1].op == Check && ReplyTo(cfg, KeyBefore(cfg, calls, n - 1), calls[n - 1]).state != Open;
      Admitted(cfg, calls, k, n - 1) + if lets then 1 else 0
  }

  // From a half-open answer to the next report every check is admitted, so that at most one is
  // exactly when at most one comes.
  lemma {:induction false} EveryCheckIsAProbe(cfg: Config, calls: seq<Call>, k: nat, n: nat)
    requires k < n <= |calls|
    requires forall m :: k <= m < n ==> calls[m].op == Check
    requires ReplyTo(cfg, KeyBefore(cfg, calls, k), calls[k]).state == HalfOpen
    ensures Admitted(cfg, calls, k, n) == n - k
    ensures Admitted(cfg, calls, k, n) <= 1 <==> n == k + 1
  {
    if n == k + 1 {
      assert Admitted(cfg, calls, k, k) == 0;
    } else {
      EveryCheckIsAProbe(cfg, calls, k, n - 1);
      HalfOpenAdmitsEveryCheck(cfg, calls, k, n - 1);
    }
  }

  lemma {:induction false} FailuresAddUp(cfg: Config, calls: seq<Call>, t: real, n: nat)
    requires cfg.Sensible() && t > 0.0 && 0 < n <= |calls| && forall m :: 0 <= m < n ==> calls[m] == Call(Failure, t)
    ensures KeyBefore(cfg, calls, n).Present? && KeyBefore(cfg, calls, n).lastFailure == Some(t)
    ensures KeyBefore(cfg, calls, n).deadline == t + cfg.Ttl() as real && KeyBefore(cfg, calls, n).failures == n
    ensures KeyBefore(cfg, calls, n).state == if n >= cfg.threshold then Open else Closed
  {
    if n == 1 {
      assert KeyBefore(cfg, calls, 0) == Missing;
    } else {
      FailuresAddUp(cfg, calls, t, n - 1);
    }
  }

  // A new target that fails `threshold` times at once, and is checked twice when the open period
  // is over: both checks are probes.
  lemma TwoProbes(cfg: Config, t: real) returns (calls: seq<Call>, k: nat)
    requires cfg.Sensible() && t > cfg.window
    ensures Timely(calls) && |calls| == k + 2 && calls[k].op == Check && calls[k + 1].op == Check
    ensures ReplyTo(cfg, KeyBefore(cfg, calls, k), calls[k]).state == HalfOpen
    ensures ReplyTo(cfg, KeyBefore(cfg, calls, k + 1), calls[k + 1]).state == HalfOpen
    ensures
      var key := KeyBefore(cfg, calls, k + 2);
      key.Present? && key.state == HalfOpen && key.deadline == calls[k + 1].now + cfg.Ttl() as real
  {
    k := MaxInt(cfg.threshold, 1);
    var probe := Call(Check, t + cfg.openFor);
    calls := seq(k, _ => Call(Failure, t)) + [probe, probe];
    FailuresAddUp(cfg, calls, t, k);
    assert calls[k] == calls[k + 1] == probe;
    assert KeyBefore(cfg, calls, k + 1) == After(cfg, KeyBefore(cfg, calls, k), probe);
    assert KeyBefore(cfg, calls, k + 2) == After(cfg, KeyBefore(cfg, calls, k + 1), probe);
  }

  // ----- How the states are entered -----------------------------------------------------------------

  // No failure before call n completes a run of `threshold` failures.
  ghost predicate NoneCompletes(cfg: Config, calls: seq<Call>, n: nat)
    requires n <= |calls|
  {
    forall k: nat, i: nat {:trigger Completes(cfg, calls, i, k)} ::
      k < n && calls[k].op == Failure ==> !Completes(cfg, calls, i, k)
  }

  // A breaker that nothing has tripped is closed at every instant, whatever else it was asked.
  lemma {:induction false} ClosedUntilTripped(cfg: Config, calls: seq<Call>, n: nat, now: real)
    requires cfg.Sensible() && Timely(calls) && n <= |calls| && NoneCompletes(cfg, calls, n)
    requires n > 0 ==> calls[n - 1].now <= now
    ensures StateFound(cfg, calls, n, now) == Closed
  {
    if n == 0 {
    } else {
      var call := calls[n - 1];
      ClosedUntilTripped(cfg, calls, n - 1, call.now);
      hide Completes;
      if call.op == Failure {
        TripsExactlyAtThreshold(cfg, calls, n - 1);
      }
    }
  }

  // A key remembers the last failure of the history, if it remembers one; an open or half-open
  // one does.
  lemma {:induction false} KeyRemembersLastFailure(cfg: Config, calls: seq<Call>, n: nat)
    requires n <= |calls|
    ensures
      var key := KeyBefore(cfg, calls, n);
      && (key.Present? && key.lastFailure.Some? ==> key.lastFailure == LastFailureBefore(calls, n))
      && (key.Present? && key.state != Closed ==> key.lastFailure.Some?)
  {
    if n == 0 {
    } else {
      KeyRemembersLastFailure(cfg, calls, n - 1);
    }
  }

  // A check is answered HALF_OPEN exactly if the breaker was found so, or was found open with the
  // period that its last failure began over.
  lemma HalfOpenIsEarned(cfg: Config, calls: seq<Call>, k: nat)
    requires k < |calls| && calls[k].op == Check
    ensures
      var found, last := StateFound(cfg, calls, k, calls[k].now), LastFailureBefore(calls, k);
      ReplyTo(cfg, KeyBefore(cfg, calls, k), calls[k]).state == HalfOpen <==>
        || found == HalfOpen
        || (found == Open && last.Some? && calls[k].now >= last.value + cfg.openFor)
  {
    KeyRemembersLastFailure(cfg, calls, k);
    CheckMeans(cfg, KeyBefore(cfg, calls, k), calls[k].now);
    assert calls[k] == Call(Check, calls[k].now);
    hide KeyBefore, After, ReplyTo;
  }

  // And CLOSED exactly if it was found so.
  lemma ChecksKeepClosed(cfg: Config, calls: seq<Call>, k: nat)
    requires k < |calls| && calls[k].op == Check
    ensures ReplyTo(cfg, KeyBefore(cfg, calls, k), calls[k]).state == Closed
      <==> StateFound(cfg, calls, k, calls[k].now) == Closed
  {
    CheckMeans(cfg, KeyBefore(cfg, calls, k), calls[k].now);
    assert calls[k] == Call(Check, calls[k].now);
    hide KeyBefore, After, ReplyTo;
  }
}
