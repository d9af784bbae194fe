// The monthly quota: a Redis counter shared by all requests of one user, stepped by a
// reserve script and a refund script, and what any interleaving of requests keeps.
module MonthlyQuota {
  import opened Prelude

  // A Redis counter; a counter without a deadline never expires.
  datatype Counter = Missing | Present(count: int, deadline: Option<real>) {
    function At(now: real): Counter {
      if Present? && deadline.Some? && now > deadline.value then Missing else this
    }

    // The number a reader sees.
    function Value(): int {
      if Present? then count else 0
    }

    // INCR and DECR start a missing counter at zero, without a deadline.
    function Plus(delta: int): Counter {
      if Present? then Present(count + delta, deadline) else Present(delta, None)
    }

    // EXPIRE deletes a key whose time to live is not positive.
    function Expire(now: real, ttl: int): Counter {
      if Missing? || ttl <= 0 then Missing else Present(count, Some(now + ttl as real))
    }
  }

  // ----- The scripts ------------------------------------------------------------------

  function AfterReserve(stored: Counter, quota: int, ttl: int, now: real): Counter {
    var counter := stored.At(now);
    if counter.Present? && counter.count >= quota then counter
    else
      var raised := counter.Plus(1);
      var kept := if raised.count == 1 then raised.Expire(now, ttl) else raised;
      if raised.count > quota then kept.Plus(-1) else kept
  }

  function Grants(stored: Counter, quota: int, now: real): bool {
    stored.At(now).Value() < quota
  }

  function AfterRefund(stored: Counter, now: real): Counter {
    var lowered := stored.At(now).Plus(-1);
    if lowered.count < 0 then Present(0, None) else lowered
  }

  // The time to live the gateway passes: whole seconds to the end of the month.
  function SecondsLeft(end: real, now: real): int {
    if now > end then 1 else (end - now).Floor
  }

  // What a reservation decides and leaves, by the fields of the counter it finds.
  lemma ReserveMeans(stored: Counter, quota: int, ttl: int, now: real)
    requires quota > 0
    ensures
      var live := stored.Present? && (stored.deadline.Some? ==> now <= stored.deadline.value);
      var held := if live then stored.count else 0;
      var after := AfterReserve(stored, quota, ttl, now);
      && (Grants(stored, quota, now) <==> held < quota)
      && (held >= quota ==> after == stored)
      && (held < quota && held != 0 ==> after == Present(held + 1, stored.deadline))
      && (held == 0 ==> after == if ttl > 0 then Present(1, Some(now + ttl as real)) else Missing)
  {
  }

  // What a refund leaves: one less with the same deadline, or a zero that never expires.
  lemma RefundMeans(stored: Counter, now: real)
    ensures
      var live := stored.Present? && (stored.deadline.Some? ==> now <= stored.deadline.value);
      AfterRefund(stored, now) ==
        if live && stored.count >= 1 then Present(stored.count - 1, stored.deadline) else Present(0, None)
  {
  }

  // The counter is to live for the whole seconds left of the month, and one second after its end.
  lemma SecondsLeftMeans(end: real, now: real)
    ensures now <= end ==> SecondsLeft(end, now) as real <= end - now < (SecondsLeft(end, now) + 1) as real
    ensures now > end ==> SecondsLeft(end, now) == 1
  {
  }

  class QuotaCounter {
    var counter: Counter

    constructor ()
      ensures counter == Missing
    {
      counter := Missing;
    }

    // MONTHLY_QUOTA_RESERVE_LUA. The reported number is the one the script returns.
    method Reserve(quota: int, ttl: int, now: real) returns (granted: bool, reported: int)
      modifies this
      ensures counter == AfterReserve(old(counter), quota, ttl, now)
      ensures quota > 0 ==> granted == Grants(old(counter), quota, now)
      ensures quota > 0 ==> reported == old(counter).At(now).Value() + if granted then 1 else 0
    {
      counter := counter.At(now);
      if counter.Present? && counter.count >= quota {
        return false, counter.count;
      }
      counter := counter.Plus(1);
      var raised := counter.count;
      if raised == 1 {
        counter := counter.Expire(now, ttl);
      }
      if raised > quota {
        counter := counter.Plus(-1);
        return false, raised - 1;
      }
      return true, raised;
    }

    // MONTHLY_QUOTA_REFUND_LUA.
    method Refund(now: real) returns (reported: int)
      modifies this
      ensures counter == AfterRefund(old(counter), now)
      ensures reported == MaxInt(old(counter).At(now).Value() - 1, 0)
    {
      counter := counter.At(now).Plus(-1);
      if counter.count < 0 {
        counter := Present(0, None);
        return 0;
      }
      return counter.count;
    }

    // reserve_monthly_quota: a tier without a quota reserves nothing.
    method ReserveMonthly(quota: int, end: real, now: real) returns (granted: bool)
      modifies this
      ensures quota <= 0 ==> granted && counter == old(counter)
      ensures quota > 0 ==> granted == Grants(old(counter), quota, now)
      ensures quota > 0 ==> counter == AfterReserve(old(counter), quota, SecondsLeft(end, now), now)
    {
      if quota <= 0 {
        return true;
      }
      var ok, _ := Reserve(quota, SecondsLeft(end, now), now);
      granted := ok;
    }
  }

  // The roll-back after the increment never fires: one script is one atomic step.
  lemma RollbackNeverFires(stored: Counter, quota: int, ttl: int, now: real)
    requires quota > 0
    ensures Grants(stored, quota, now) ==> stored.At(now).Plus(1).count <= quota
    ensures !Grants(stored, quota, now) ==> AfterReserve(stored, quota, ttl, now) == stored.At(now)
  {
  }

  // The first reservation of a month is remembered exactly when a whole second of the month
  // is left, or the clock is already past its last second.
  lemma FirstReservationIsKeptIff(quota: int, end: real, now: real)
    requires quota > 0
    ensures AfterReserve(Missing, quota, SecondsLeft(end, now), now).Value() == 1
      <==> now <= end - 1.0 || now > end
  {
  }

  // ----- Interleaved requests -----------------------------------------------------------

  // What one request does to the counter, in the order in which it does it.
  datatype Step = Ask(granted: bool) | GiveBack

  // The shapes a request that is metered can leave, finished or not ...
  ghost predicate MeteredShape(steps: seq<Step>) {
    || steps == []
    || (exists granted :: steps == [Ask(granted)])
    || steps == [Ask(true), GiveBack]
  }

  // ... and those of a request whose tier has no quota: it reserves nothing, and yet
  // gives one unit back when its downstream fails.
  ghost predicate UnmeteredShape(steps: seq<Step>) {
    steps == [] || steps == [GiveBack]
  }

  type Id = nat

  datatype Action = Reserve(quota: int) | Refund

  // One step of one request on the shared counter.
  datatype Event = Event(id: Id, action: Action, now: real)

  function After(end: real, stored: Counter, event: Event): Counter {
    match event.action
    case Reserve(quota) => AfterReserve(stored, quota, SecondsLeft(end, event.now), event.now)
    case Refund => AfterRefund(stored, event.now)
  }

  function CounterBefore(end: real, events: seq<Event>, n: nat): Counter
    requires n <= |events|
  {
    if n == 0 then Missing else After(end, CounterBefore(end, events, n - 1), events[n - 1])
  }

  // The step event k is for its own request.
  function StepAt(end: real, events: seq<Event>, k: nat): Step
    requires k < |events|
  {
    match events[k].action
    case Reserve(quota) => Ask(Grants(CounterBefore(end, events, k), quota, events[k].now))
    case Refund => GiveBack
  }

  // What request `id` has done in the first n events.
  function StepsOf(end: real, events: seq<Event>, id: Id, n: nat): seq<Step>
    requires n <= |events|
  {
    if n == 0 then []
    else StepsOf(end, events, id, n - 1) + if events[n - 1].id == id then [StepAt(end, events, n - 1)] else []
  }

  // The requests that have reserved a unit and not given it back.
  function Holders(end: real, events: seq<Event>, n: nat): set<Id>
    requires n <= |events|
  {
    if n == 0 then {}
    else
      var before, id := Holders(end, events, n - 1), events[n - 1].id;
      match StepAt(end, events, n - 1)
      case Ask(granted) => if granted then before + {id} else before
      case GiveBack => before - {id}
  }

  // Reservations granted, and units given back, in the first n events.
  function Reservations(end: real, events: seq<Event>, n: nat): nat
    requires n <= |events|
  {
    if n == 0 then 0
    else Reservations(end, events, n - 1) + if StepAt(end, events, n - 1) == Ask(true) then 1 else 0
  }

  function Refunds(events: seq<Event>, n: nat): nat
    requires n <= |events|
  {
    if n == 0 then 0 else Refunds(events, n - 1) + if events[n - 1].action == Refund then 1 else 0
  }

  // Any interleaving of requests within one life of the counter: the clock does not run
  // backwards and the month has at least a second left.
  ghost predicate WithinMonth(end: real, events: seq<Event>) {
    && (forall i, j :: 0 <= i <= j < |events| ==> events[i].now <= events[j].now)
    && (forall k :: 0 <= k < |events| ==> events[k].now <= end - 1.0)
    && (forall k :: 0 <= k < |events| && events[k].action.Reserve? ==> events[k].action.quota > 0)
  }

  ghost predicate Shaped(end: real, events: seq<Event>, id: Id, n: nat)
    requires n <= |events|
  {
    MeteredShape(StepsOf(end, events, id, n)) || UnmeteredShape(StepsOf(end, events, id, n))
  }

  ghost predicate WellShaped(end: real, events: seq<Event>, n: nat)
    requires n <= |events|
  {
    forall id: Id :: Shaped(end, events, id, n)
  }

  ghost predicate Stray(end: real, events: seq<Event>, k: nat)
    requires k < |events|
  {
    events[k].action == Refund && StepsOf(end, events, events[k].id, k) == []
  }

  ghost predicate Conserved(end: real, events: seq<Event>, n: nat)
    requires n <= |events|
  {
    CounterBefore(end, events, n).Value() == |Holders(end, events, n)|
  }

  // Shapes are closed under forgetting the last step.
  lemma ShapesArePrefixClosed(end: real, events: seq<Event>, n: nat)
    requires 0 < n <= |events| && WellShaped(end, events, n)
    ensures WellShaped(end, events, n - 1)
  {
    var m := n - 1;
    forall id: Id ensures Shaped(end, events, id, m) {
      assert Shaped(end, events, id, n);
      var before, now := StepsOf(end, events, id, n - 1), StepsOf(end, events, id, n);
      assert before == now[..|before|];
      assert now == [Ask(true), GiveBack] && |before| == 1 ==> before == [Ask(true)];
    }
  }

  // The holders are the requests whose own story so far is one granted reservation.
  lemma {:induction false} HoldersReserved(end: real, events: seq<Event>, n: nat, id: Id)
    requires n <= |events| && WellShaped(end, events, n)
    ensures id in Holders(end, events, n) <==> StepsOf(end, events, id, n) == [Ask(true)]
    decreases n
  {
    if n == 0 {
    } else {
      ShapesArePrefixClosed(end, events, n);
      HoldersReserved(end, events, n - 1, id);
      var before, now := StepsOf(end, events, id, n - 1), StepsOf(end, events, id, n);
      if events[n - 1].id == id {
        assert now == before + [StepAt(end, events, n - 1)];
        assert now[|before|] == StepAt(end, events, n - 1);
        assert Shaped(end, events, id, n);
      }
    }
  }

  // Which shape a request has before it takes its next step.
  lemma NextStepNeeds(end: real, events: seq<Event>, k: nat)
    requires k < |events| && WellShaped(end, events, k + 1)
    ensures
      var before := StepsOf(end, events, events[k].id, k);
      match StepAt(end, events, k)
      case Ask(_) => before == []
      case GiveBack => before == [] || before == [Ask(true)]
  {
    var id := events[k].id;
    var before, now := StepsOf(end, events, id, k), StepsOf(end, events, id, k + 1);
    assert Shaped(end, events, id, k + 1);
    assert now == before + [StepAt(end, events, k)];
    assert before == now[..|now| - 1] && now[|now| - 1] == StepAt(end, events, k);
  }

  lemma {:induction false} ShapedThroughout(end: real, events: seq<Event>, n: nat, m: nat)
    requires m <= n <= |events| && WellShaped(end, events, n)
    ensures WellShaped(end, events, m)
    decreases n - m
  {
    if m == n {
    } else {
      ShapedThroughout(end, events, n, m + 1);
      ShapesArePrefixClosed(end, events, m + 1);
    }
  }

  // A counter that counts something lives on to the last second of the month.
  ghost predicate Alive(end: real, counter: Counter) {
    counter.Present? ==>
      counter.count >= 0 && (counter.count > 0 ==> counter.deadline.Some? && counter.deadline.value > end - 1.0)
  }

  lemma {:induction false} CounterStaysAlive(end: real, events: seq<Event>, n: nat)
    requires WithinMonth(end, events) && n <= |events|
    ensures Alive(end, CounterBefore(end, events, n))
    ensures n < |events| ==>
      CounterBefore(end, events, n).At(events[n].now).Value() == CounterBefore(end, events, n).Value()
    decreases n
  {
    if n == 0 {
    } else {
      CounterStaysAlive(end, events, n - 1);
    }
  }

  lemma ValueAfter(end: real, counter: Counter, event: Event)
    requires counter.At(event.now).Value() >= 0 && event.now <= end - 1.0
    requires event.action.Reserve? ==> event.action.quota > 0
    ensures
      var v := counter.At(event.now).Value();
      After(end, counter, event).Value() ==
        match event.action
        case Reserve(quota) => if v < quota then v + 1 else v
        case Refund => if v >= 1 then v - 1 else 0
  {
  }

  lemma HoldersChange(end: real, events: seq<Event>, k: nat)
    requires k < |events| && WellShaped(end, events, k + 1)
    ensures
      var n := |Holders(end, events, k)|;
      match StepAt(end, events, k)
      case Ask(granted) => |Holders(end, events, k + 1)| == n + if granted then 1 else 0
      case GiveBack =>
        if Stray(end, events, k) then |Holders(end, events, k + 1)| == n
        else n >= 1 && |Holders(end, events, k + 1)| == n - 1
  {
    NextStepNeeds(end, events, k);
    ShapesArePrefixClosed(end, events, k + 1);
    HoldersReserved(end, events, k, events[k].id);
    hide StepsOf, WellShaped;
    var holders, id := Holders(end, events, k), events[k].id;
    assert id !in holders ==> holders - {id} == holders;
    assert id in holders ==> |holders - {id}| == |holders| - 1;
  }

  // One event keeps the counter equal to the number of holders, unless it is a stray refund
  // that takes a unit somebody holds.
  lemma ConservationStep(end: real, events: seq<Event>, k: nat)
    requires WithinMonth(end, events) && k < |events| && WellShaped(end, events, k + 1)
    requires Conserved(end, events, k)
    ensures Conserved(end, events, k + 1) <==> (Stray(end, events, k) ==> Holders(end, events, k) == {})
    ensures StepAt(end, events, k) == GiveBack && !Stray(end, events, k) ==>
      CounterBefore(end, events, k).At(events[k].now).Value() >= 1
  {
    var counter := CounterBefore(end, events, k);
    var event := events[k];
    assert CounterBefore(end, events, k + 1) == After(end, counter, event);
    assert event.now <= end - 1.0 && (event.action.Reserve? ==> event.action.quota > 0);
    hide CounterBefore, After, StepsOf, Holders, WellShaped;
    CounterStaysAlive(end, events, k);
    hide WithinMonth;
    ValueAfter(end, counter, event);
    HoldersChange(end, events, k);
  }

  lemma ConservedAtFirst(end: real, events: seq<Event>)
    ensures Conserved(end, events, 0)
  {
  }

  lemma {:induction false} ConservedWhileStraysFindNothing(end: real, events: seq<Event>, n: nat)
    requires WithinMonth(end, events) && n <= |events| && WellShaped(end, events, n)
    requires forall k :: 0 <= k < n && Stray(end, events, k) ==> Holders(end, events, k) == {}
    ensures Conserved(end, events, n)
    decreases n
  {
    hide *;
    if n == 0 {
      ConservedAtFirst(end, events);
    } else {
      ShapesArePrefixClosed(end, events, n);
      ConservedWhileStraysFindNothing(end, events, n - 1);
      ConservationStep(end, events, n - 1);
    }
  }

  // The counter equals the number of holders throughout a run exactly when every refund by an
  // unmetered request comes while nobody holds a unit.
  lemma ConservationIffStraysFindNothing(end: real, events: seq<Event>)
    requires WithinMonth(end, events) && WellShaped(end, events, |events|)
    ensures (forall n: nat :: n <= |events| ==> Conserved(end, events, n))
      <==> (forall k: nat :: k < |events| && Stray(end, events, k) ==> Holders(end, events, k) == {})
  {
    if forall k: nat :: k < |events| && Stray(end, events, k) ==> Holders(end, events, k) == {} {
      forall n: nat | n <= |events| ensures Conserved(end, events, n) {
        ShapedThroughout(end, events, |events|, n);
        ConservedWhileStraysFindNothing(end, events, n);
      }
    }
    if forall n: nat :: n <= |events| ==> Conserved(end, events, n) {
      forall k: nat | k < |events| && Stray(end, events, k) ensures Holders(end, events, k) == {} {
        ShapedThroughout(end, events, |events|, k + 1);
        assert Conserved(end, events, k) && Conserved(end, events, k + 1);
        ConservationStep(end, events, k);
      }
    }
  }

  ghost predicate AllMetered(end: real, events: seq<Event>) {
    forall k: nat {:trigger Stray(end, events, k)} :: k < |events| ==> !Stray(end, events, k)
  }

  lemma {:induction false} HoldersAreReservationsLessRefunds(end: real, events: seq<Event>, n: nat)
    requires n <= |events| && WellShaped(end, events, n) && AllMetered(end, events)
    ensures |Holders(end, events, n)| == Reservations(end, events, n) - Refunds(events, n)
    decreases n
  {
    hide CounterBefore, AfterReserve, AfterRefund, WellShaped, Shaped, MeteredShape, UnmeteredShape, Grants;
    if n == 0 {
    } else {
      ShapesArePrefixClosed(end, events, n);
      HoldersAreReservationsLessRefunds(end, events, n - 1);
      NextStepNeeds(end, events, n - 1);
      HoldersReserved(end, events, n - 1, events[n - 1].id);
      assert !Stray(end, events, n - 1);
      var holders, id := Holders(end, events, n - 1), events[n - 1].id;
      if id in holders {
        assert |holders - {id}| == |holders| - 1;
      }
    }
  }

  // Conservation: in any interleaving of metered requests the counter equals reservations
  // minus refunds, which is the number of requests that still hold a unit; a reservation is
  // granted exactly while fewer than `quota` units are held; and a refund always finds a unit,
  // so that its clamp never fires.
  lemma QuotaIsConserved(end: real, events: seq<Event>, n: nat)
    requires WithinMonth(end, events) && WellShaped(end, events, |events|) && AllMetered(end, events)
    requires n <= |events|
    ensures CounterBefore(end, events, n).Value() == Reservations(end, events, n) - Refunds(events, n)
    ensures CounterBefore(end, events, n).Value() == |Holders(end, events, n)| >= 0
    ensures n < |events| ==>
      match events[n].action
      case Reserve(quota) =>
        Grants(CounterBefore(end, events, n), quota, events[n].now) <==> |Holders(end, events, n)| < quota
      case Refund => CounterBefore(end, events, n).At(events[n].now).Value() >= 1
  {
    ShapedThroughout(end, events, |events|, n);
    ConservedWhileStraysFindNothing(end, events, n);
    HoldersAreReservationsLessRefunds(end, events, n);
    CounterStaysAlive(end, events, n);
    if n < |events| {
      ShapedThroughout(end, events, |events|, n + 1);
      ConservationStep(end, events, n);
    }
  }

  ghost predicate FixedQuota(events: seq<Event>, quota: nat) {
    forall k :: 0 <= k < |events| && events[k].action.Reserve? ==> events[k].action.quota == quota
  }

  lemma GrantNeedsRoom(end: real, events: seq<Event>, quota: nat, k: nat)
    requires WithinMonth(end, events) && WellShaped(end, events, |events|) && AllMetered(end, events)
    requires FixedQuota(events, quota) && k < |events|
    ensures StepAt(end, events, k) == Ask(true) ==> |Holders(end, events, k)| < quota
  {
    QuotaIsConserved(end, events, k);
  }

  lemma HoldersGrowByGrants(end: real, events: seq<Event>, k: nat)
    requires k < |events|
    ensures |Holders(end, events, k + 1)|
         <= |Holders(end, events, k)| + if StepAt(end, events, k) == Ask(true) then 1 else 0
  {
    var holders, id := Holders(end, events, k), events[k].id;
    if id in holders {
      assert holders + {id} == holders;
    } else {
      assert holders - {id} == holders && |holders + {id}| == |holders| + 1;
    }
  }

  lemma NobodyHoldsAtFirst(end: real, events: seq<Event>)
    ensures Holders(end, events, 0) == {}
  {
  }

  lemma StaysUnderQuota(end: real, events: seq<Event>, quota: nat, k: nat)
    requires WithinMonth(end, events) && WellShaped(end, events, |events|) && AllMetered(end, events)
    requires FixedQuota(events, quota) && k < |events| && |Holders(end, events, k)| <= quota
    ensures |Holders(end, events, k + 1)| <= quota
  {
    GrantNeedsRoom(end, events, quota, k);
    HoldersGrowByGrants(end, events, k);
  }

  // So a user whose quota is fixed never has more than that many requests served and charged.
  lemma {:induction false} NeverOverQuota(end: real, events: seq<Event>, quota: nat, n: nat)
    requires WithinMonth(end, events) && WellShaped(end, events, |events|) && AllMetered(end, events)
    requires FixedQuota(events, quota) && n <= |events|
    ensures |Holders(end, events, n)| <= quota
    decreases n
  {
    hide *;
    if n == 0 {
      NobodyHoldsAtFirst(end, events);
    } else {
      NeverOverQuota(end, events, quota, n - 1);
      StaysUnderQuota(end, events, quota, n - 1);
    }
  }

  // Without that premise it fails. Under a quota of one, an unmetered request of the same user
  // gives back a unit it never took, and two metered requests end up served and charged.
  const OVERSPENT: seq<Event> :=
    [Event(0, Reserve(1), 0.0), Event(1, Refund, 0.0), Event(2, Reserve(1), 0.0)]

  lemma OverspentSteps()
    ensures StepAt(100.0, OVERSPENT, 0) == Ask(true)
    ensures StepAt(100.0, OVERSPENT, 1) == GiveBack
    ensures StepAt(100.0, OVERSPENT, 2) == Ask(true)
  {
    assert CounterBefore(100.0, OVERSPENT, 0) == Missing;
    assert CounterBefore(100.0, OVERSPENT, 1) == Present(1, Some(100.0));
    assert CounterBefore(100.0, OVERSPENT, 2) == Present(0, Some(100.0));
  }

  lemma StrayRefundOverspends()
    ensures WithinMonth(100.0, OVERSPENT) && WellShaped(100.0, OVERSPENT, 3) && FixedQuota(OVERSPENT, 1)
    ensures |Holders(100.0, OVERSPENT, 3)| == 2
  {
    var end, events := 100.0, OVERSPENT;
    OverspentSteps();
    hide CounterBefore, StepAt;
    assert Holders(end, events, 1) == {0};
    assert Holders(end, events, 2) == {0};
    assert Holders(end, events, 3) == {0, 2};
    forall id: Id ensures Shaped(end, events, id, 3) {
      assert StepsOf(end, events, id, 1) == if id == 0 then [Ask(true)] else [];
      assert StepsOf(end, events, id, 2) == if id == 0 then [Ask(true)] else if id == 1 then [GiveBack] else [];
      assert StepsOf(end, events, id, 3) ==
        if id == 0 then [Ask(true)] else if id == 1 then [GiveBack] else if id == 2 then [Ask(true)] else [];
    }
  }
}
