// Requests of several gateways on the circuit breaker of one target: how a half-open breaker
// recovers.
module Recovery {
  import opened Prelude
  import opened CircuitBreaker
  import Proxy

  // A request on its way through its permitted attempts. `opens` tells for each attempt made so
  // far whether the circuit was open; `waiting` that the last of them has been sent; `told` is what
  // the breaker has been told.
  datatype Visit = Visit(answers: seq<Proxy.Answer>, opens: seq<bool>, waiting: bool, ended: bool, told: seq<bool>)
  {
    // The attempt that is next, or is waiting for its answer.
    function Attempt(): int {
      if waiting then |opens| - 1 else |opens|
    }

    predicate OnLast() {
      Attempt() == |answers| - 1
    }

    // The attempts as the request sees them; those not made count as let through.
    function Attempts(): (attempts: seq<Proxy.Attempt>)
      ensures |attempts| == |answers|
    {
      seq(|answers|, a requires 0 <= a < |answers| => Proxy.Attempt(a < |opens| && opens[a], answers[a]))
    }
  }

  predicate Usable(answer: Proxy.Answer) {
    answer.Answered? && answer.status < 500
  }

  type Id = nat

  // The key of the breaker, the requests, and when the breaker was last called.
  datatype World = World(key: Key, visits: map<Id, Visit>, since: real)

  // Requests arrive, check the circuit before an attempt, and get its answer, in any order.
  datatype Action = Arrive(id: Id, answers: seq<Proxy.Answer>) | Check(id: Id) | Answer(id: Id)

  datatype Event = Event(action: Action, now: real)

  function NewVisit(answers: seq<Proxy.Answer>): Visit {
    Visit(answers, [], false, answers == [], [])
  }

  // Attempt `next` has come to nothing: try again, or give up.
  function GoOn(v: Visit): Visit {
    v.(waiting := false, ended := |v.opens| == |v.answers|)
  }

  function AfterCheck(cfg: Config, world: World, id: Id, now: real): World
    requires id in world.visits
  {
    var v, call := world.visits[id], Call(Op.Check, now);
    var open := ReplyTo(cfg, world.key, call).state == Open;
    var checked := v.(opens := v.opens + [open], waiting := !open);
    World(CircuitBreaker.After(cfg, world.key, call), world.visits[id := if open then GoOn(checked) else checked], now)
  }

  function AfterAnswer(cfg: Config, world: World, id: Id, now: real): World
    requires id in world.visits && world.visits[id].waiting
    requires 0 < |world.visits[id].opens| <= |world.visits[id].answers|
  {
    var v := world.visits[id];
    var call := Call(if Usable(v.answers[v.Attempt()]) then Success else Failure, now);
    // Only the last permitted attempt is reported.
    if v.OnLast() then
      World(CircuitBreaker.After(cfg, world.key, call), world.visits[id := Answered(v)], now)
    else world.(visits := world.visits[id := Answered(v)])
  }

  function Answered(v: Visit): Visit
    requires 0 < |v.opens| <= |v.answers| && v.waiting
  {
    var usable := Usable(v.answers[v.Attempt()]);
    var told := if v.OnLast() then [usable] else v.told;
    if usable then v.(waiting := false, ended := true, told := told) else GoOn(v.(told := told))
  }

  predicate MayCheck(world: World, id: Id) {
    id in world.visits && !world.visits[id].ended && !world.visits[id].waiting &&
    |world.visits[id].opens| < |world.visits[id].answers|
  }

  predicate MayAnswer(world: World, id: Id) {
    id in world.visits && !world.visits[id].ended && world.visits[id].waiting &&
    0 < |world.visits[id].opens| <= |world.visits[id].answers|
  }

  function AfterEvent(cfg: Config, world: World, event: Event): World {
    match event.action
    case Arrive(id, answers) =>
      if id in world.visits then world
      else world.(visits := world.visits[id := NewVisit(answers)])
    case Check(id) => if MayCheck(world, id) then AfterCheck(cfg, world, id, event.now) else world
    case Answer(id) => if MayAnswer(world, id) then AfterAnswer(cfg, world, id, event.now) else world
  }

  datatype Run = Run(cfg: Config, start: World, events: seq<Event>) {
    function At(n: nat): World
      requires n <= |events|
    {
      if n == 0 then start else AfterEvent(cfg, At(n - 1), events[n - 1])
    }
  }

  // ----- A visit is a request of the proxy -----------------------------------------------------------

  // No attempt before the current one was usable, and one that ended the visit was, or was the
  // last.
  ghost predicate Proper(v: Visit) {
    && |v.opens| <= |v.answers| && (v.waiting ==> |v.opens| > 0 && !v.opens[|v.opens| - 1] && !v.ended)
    && (forall a :: 0 <= a < |v.opens| - 1 ==> !v.Attempts()[a].Usable())
    && (!v.ended && !v.waiting ==> |v.opens| < |v.answers|)
    && (!v.ended && !v.waiting && |v.opens| > 0 ==> !v.Attempts()[|v.opens| - 1].Usable())
    && (v.ended && |v.opens| < |v.answers| ==> |v.opens| > 0 && v.Attempts()[|v.opens| - 1].Usable())
    && v.told == (if v.ended then Proxy.Reports(v.Attempts(), |v.opens|) else [])
  }

  ghost predicate AllProper(world: World) {
    forall id :: id in world.visits ==> Proper(world.visits[id])
  }

  lemma CheckKeepsProper(v: Visit, open: bool)
    requires Proper(v) && !v.ended && !v.waiting
    ensures
      var checked := v.(opens := v.opens + [open], waiting := !open);
      Proper(if open then GoOn(checked) else checked)
  {
    var checked := v.(opens := v.opens + [open], waiting := !open);
    assert forall a :: 0 <= a < |v.opens| ==> checked.Attempts()[a] == v.Attempts()[a];
  }

  lemma AnswerKeepsProper(v: Visit)
    requires Proper(v) && v.waiting
    ensures Proper(Answered(v))
  {
    var after := Answered(v);
    assert after.Attempts() == v.Attempts();
    assert v.Attempts()[|v.opens| - 1].Usable() <==> Usable(v.answers[v.Attempt()]);
  }

  lemma {:induction false} VisitsAreProper(run: Run, n: nat)
    requires n <= |run.events| && AllProper(run.start)
    ensures AllProper(run.At(n))
  {
    if n == 0 {
    } else {
      VisitsAreProper(run, n - 1);
      var world, event := run.At(n - 1), run.events[n - 1];
      hide Run.At, Proper, GoOn, Answered, CircuitBreaker.After, ReplyTo;
      match event.action {
        case Arrive(id, answers) => NewVisitIsProper(answers);
        case Check(id) =>
          if MayCheck(world, id) {
            CheckKeepsProper(world.visits[id], ReplyTo(run.cfg, world.key, Call(Op.Check, event.now)).state == Open);
          }
        case Answer(id) =>
          if MayAnswer(world, id) {
            AnswerKeepsProper(world.visits[id]);
          }
      }
    }
  }

  lemma NewVisitIsProper(answers: seq<Proxy.Answer>)
    ensures Proper(NewVisit(answers))
  {
  }

  // When a visit has ended, the attempt that served it is the one the proxy chooses, and it has
  // reported what the proxy reports.
  lemma EndedVisitIsServed(v: Visit)
    requires Proper(v) && v.ended && v.answers != []
    ensures
      var served := |v.opens| - 1;
      && served >= 0
      && Proxy.Serves(v.Attempts(), |v.answers|, if v.Attempts()[served].Usable() then served else |v.answers|)
      && (!v.Attempts()[served].Usable() ==> |v.opens| == |v.answers|)
      && v.told == Proxy.Reports(v.Attempts(), served + 1)
  {
  }

  // ----- A half-open breaker --------------------------------------------------------------------------

  // The key is half-open and lives until its time to live after the last call is over.
  ghost predicate HalfOpenSince(cfg: Config, key: Key, since: real) {
    key.Present? && key.state == HalfOpen && key.deadline >= since + cfg.Ttl() as real
  }

  // Time does not run backwards, and no event comes when the key has expired.
  ghost predicate LivelyAt(run: Run, k: nat)
    requires k < |run.events|
  {
    run.At(k).since <= run.events[k].now <= run.At(k).since + run.cfg.Ttl() as real
  }

  ghost predicate Lively(run: Run) {
    forall k: nat {:trigger LivelyAt(run, k)} :: k < |run.events| ==> LivelyAt(run, k)
  }

  // Event k reports the answer of a last permitted attempt.
  ghost predicate Reports(run: Run, k: nat)
    requires k < |run.events|
  {
    var event := run.events[k];
    event.action.Answer? && MayAnswer(run.At(k), event.action.id) && run.At(k).visits[event.action.id].OnLast()
  }

  ghost predicate NoReports(run: Run, n: nat)
    requires n <= |run.events|
  {
    forall k: nat {:trigger Reports(run, k)} :: k < n ==> !Reports(run, k)
  }

  ghost predicate HalfOpenNow(cfg: Config, world: World) {
    HalfOpenSince(cfg, world.key, world.since)
  }

  lemma CheckKeepsHalfOpen(cfg: Config, key: Key, since: real, now: real)
    requires HalfOpenSince(cfg, key, since) && since <= now <= since + cfg.Ttl() as real
    ensures HalfOpenSince(cfg, CircuitBreaker.After(cfg, key, Call(Op.Check, now)), now)
    ensures ReplyTo(cfg, key, Call(Op.Check, now)).state == HalfOpen
  {
  }

  // However the requests interleave, until one of them reports its last permitted attempt the
  // breaker stays half-open and lets every attempt through.
  lemma {:induction false} HalfOpenUntilReport(run: Run, n: nat)
    requires n <= |run.events| && HalfOpenNow(run.cfg, run.start) && Lively(run) && NoReports(run, n)
    ensures HalfOpenNow(run.cfg, run.At(n))
    ensures n < |run.events| && run.events[n].action.Check? && MayCheck(run.At(n), run.events[n].action.id) ==>
      run.At(n + 1).visits[run.events[n].action.id].opens == run.At(n).visits[run.events[n].action.id].opens + [false]
  {
    if n == 0 {
    } else {
      HalfOpenUntilReport(run, n - 1);
      StepKeepsHalfOpen(run, n - 1);
    }
    if n < |run.events| {
      hide HalfOpenSince, ReplyTo, CircuitBreaker.After;
      assert LivelyAt(run, n);
      CheckKeepsHalfOpen(run.cfg, run.At(n).key, run.At(n).since, run.events[n].now);
    }
  }

  lemma StepKeepsHalfOpen(run: Run, k: nat)
    requires k < |run.events| && HalfOpenNow(run.cfg, run.At(k)) && Lively(run) && !Reports(run, k)
    ensures HalfOpenNow(run.cfg, run.At(k + 1))
  {
    hide HalfOpenSince, ReplyTo, CircuitBreaker.After, GoOn, Answered;
    assert LivelyAt(run, k);
    CheckKeepsHalfOpen(run.cfg, run.At(k).key, run.At(k).since, run.events[k].now);
  }

  // The first report decides: a success closes the breaker, a failure opens it again.
  lemma FirstReportDecides(run: Run, k: nat)
    requires k < |run.events| && HalfOpenNow(run.cfg, run.start) && Lively(run)
    requires NoReports(run, k) && Reports(run, k)
    ensures
      var v := run.At(k).visits[run.events[k].action.id];
      run.At(k + 1).key.StateRead() == if Usable(v.answers[|v.answers| - 1]) then Closed else Open
  {
    HalfOpenUntilReport(run, k);
    assert LivelyAt(run, k);
    ProbeDecides(run.cfg, run.At(k).key, run.events[k].now);
    hide Run.At, CircuitBreaker.After;
  }

  // ----- A target that has recovered -----------------------------------------------------------------

  // Some answer before the last permitted attempt's is a success.
  ghost predicate EarlySuccess(answers: seq<Proxy.Answer>) {
    exists a :: 0 <= a < |answers| - 1 && Usable(answers[a])
  }

  // The requests that arrive find a target that has recovered.
  ghost predicate Recovered(run: Run) {
    && run.start.visits == map[]
    && forall k :: 0 <= k < |run.events| && run.events[k].action.Arrive? ==> EarlySuccess(run.events[k].action.answers)
  }

  // A visit that will not come to its last attempt: none was turned away, and a success is ahead.
  ghost predicate Ahead(v: Visit) {
    v.ended || exists a :: AheadAt(v, a)
  }

  ghost predicate AheadAt(v: Visit, a: int) {
    0 <= v.Attempt() <= a < |v.answers| - 1 && Usable(v.answers[a])
  }

  ghost predicate AllAhead(world: World) {
    forall id :: id in world.visits ==> Ahead(world.visits[id])
  }

  lemma CheckKeepsAhead(v: Visit)
    requires Ahead(v) && !v.ended && !v.waiting
    ensures Ahead(v.(opens := v.opens + [false], waiting := true))
  {
    var a :| AheadAt(v, a);
    assert AheadAt(v.(opens := v.opens + [false], waiting := true), a);
  }

  lemma AnswerKeepsAhead(v: Visit)
    requires Ahead(v) && !v.ended && v.waiting && 0 < |v.opens| <= |v.answers|
    ensures !v.OnLast()
    ensures Ahead(Answered(v))
  {
    var a :| AheadAt(v, a);
    if !Usable(v.answers[v.Attempt()]) {
      assert AheadAt(Answered(v), a);
    }
  }

  lemma NewVisitIsAhead(answers: seq<Proxy.Answer>)
    requires EarlySuccess(answers)
    ensures Ahead(NewVisit(answers))
  {
    var a :| 0 <= a < |answers| - 1 && Usable(answers[a]);
    assert AheadAt(NewVisit(answers), a);
  }

  lemma EventKeepsAhead(run: Run, k: nat)
    requires k < |run.events| && HalfOpenNow(run.cfg, run.At(k)) && Lively(run) && Recovered(run) && AllAhead(run.At(k))
    ensures !Reports(run, k) && AllAhead(run.At(k + 1))
  {
    var world, event := run.At(k), run.events[k];
    assert LivelyAt(run, k);
    CheckKeepsHalfOpen(run.cfg, world.key, world.since, event.now);
    assert run.At(k + 1) == AfterEvent(run.cfg, world, event);
    hide Run.At, Ahead, GoOn, Answered, HalfOpenSince, CircuitBreaker.After, ReplyTo;
    match event.action {
      case Arrive(id, answers) => NewVisitIsAhead(answers);
      case Check(id) =>
        if MayCheck(world, id) {
          CheckKeepsAhead(world.visits[id]);
        }
      case Answer(id) =>
        if MayAnswer(world, id) {
          AnswerKeepsAhead(world.visits[id]);
        }
    }
  }

  // With more than one permitted attempt, a downstream that has recovered and answers every
  // request before the last of them keeps its breaker half-open for as long as the traffic of all
  // gateways lasts: nobody ever reports.
  lemma {:induction false} SuccessesKeepHalfOpen(run: Run, n: nat)
    requires n <= |run.events| && HalfOpenNow(run.cfg, run.start) && Lively(run) && Recovered(run)
    ensures NoReports(run, n) && HalfOpenNow(run.cfg, run.At(n)) && AllAhead(run.At(n))
  {
    if n == 0 {
    } else {
      SuccessesKeepHalfOpen(run, n - 1);
      hide HalfOpenNow, Lively, Recovered, AllAhead, Reports, Run.At;
      EventKeepsAhead(run, n - 1);
      HalfOpenUntilReport(run, n);
    }
  }

  // With one permitted attempt every answer is reported, so the first one decides.
  lemma SingleAttemptReports(run: Run, k: nat)
    requires k < |run.events| && run.events[k].action.Answer? && MayAnswer(run.At(k), run.events[k].action.id)
    requires |run.At(k).visits[run.events[k].action.id].answers| == 1
    ensures Reports(run, k)
  {
  }

  // ----- Such runs exist ---------------------------------------------------------------------------------

  // Whatever happens at one instant is lively.
  lemma {:induction false} OneInstant(run: Run, n: nat)
    requires n <= |run.events| && forall k :: 0 <= k < |run.events| ==> run.events[k].now == run.start.since
    ensures run.At(n).since == run.start.since
  {
    if n == 0 {
    } else {
      OneInstant(run, n - 1);
      hide CircuitBreaker.After, ReplyTo, GoOn, Answered;
    }
  }

  lemma OneInstantIsLively(run: Run)
    requires run.cfg.Sensible() && forall k :: 0 <= k < |run.events| ==> run.events[k].now == run.start.since
    ensures Lively(run)
  {
    forall k: nat | k < |run.events| ensures LivelyAt(run, k) {
      OneInstant(run, k);
      hide Run.At;
    }
  }

  // A new target comes to be half-open: after failures and two probes.
  lemma HalfOpenIsReached(cfg: Config, t: real) returns (calls: seq<Call>)
    requires cfg.Sensible() && t > cfg.window
    ensures calls != [] && HalfOpenSince(cfg, KeyBefore(cfg, calls, |calls|), calls[|calls| - 1].now)
  {
    var k: nat;
    calls, k := TwoProbes(cfg, t);
  }
}
