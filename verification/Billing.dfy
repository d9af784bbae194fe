// What users are charged: the requests of the proxy on the counter of the quota.
module Billing {
  import opened MonthlyQuota
  import Proxy

  // A request of a tier with a quota, with the outcome of its attempts and its answer.
  datatype Ended = Ended(
    settings: Proxy.Settings, route: Proxy.Route, request: Proxy.Request,
    attempts: seq<Proxy.Attempt>, fallback: Proxy.Answer, reply: Proxy.Reply)
  {
    // The reply is one that handling the request can give.
    ghost predicate Valid() {
      && Proxy.AsksQuota(settings, route, request)
      && (!request.quotaLeft ==> reply.Refused?)
      && (!reply.Refused? && !reply.Replayed? ==> Proxy.Outcome(route, attempts, fallback, reply))
    }

    // What the request does to the counter.
    function Steps(): seq<Step> {
      Proxy.StepsOfAccount(Proxy.Account(settings, route, request, attempts, reply))
    }

    // It passed the quota check, and the client did not see the downstream fail.
    predicate Charged() {
      request.quotaLeft && !Proxy.Failed(reply)
    }
  }

  // These are the quota steps of the log that handling the request leaves.
  lemma StepsAreThoseOfLog(ended: Ended, log: seq<Proxy.Event>)
    requires Proxy.Audit(log) == Proxy.Account(ended.settings, ended.route, ended.request, ended.attempts, ended.reply)
    ensures Proxy.QuotaSteps(log) == ended.Steps()
  {
    Proxy.AccountGivesSteps(log);
    hide Proxy.StepsOfAccount, Proxy.QuotaSteps, Proxy.Audit;
  }

  // The requests of a user have all ended, and their steps, in any order, are all there is.
  ghost predicate AllEnded(end: real, events: seq<Event>, requests: map<Id, Ended>) {
    && WithinMonth(end, events)
    && (forall k :: 0 <= k < |events| ==> events[k].id in requests)
    && (forall id :: id in requests ==>
          requests[id].Valid() && StepsOf(end, events, id, |events|) == requests[id].Steps())
  }

  lemma StepsAreMetered(ended: Ended)
    requires ended.Valid()
    ensures MeteredShape(ended.Steps())
    ensures ended.Steps() == [Ask(true)] <==> ended.Charged()
  {
    assert ended.route.requiresAuth;
    hide Proxy.Reaching, Proxy.Reports, Proxy.Streams, Proxy.Outcome, Proxy.AsksQuota, Proxy.Tried, Proxy.FellBack;
    var l := Proxy.Account(ended.settings, ended.route, ended.request, ended.attempts, ended.reply);
    assert l.asked == 1 && l.granted == (if ended.request.quotaLeft then 1 else 0);
    assert l.refunded == if Proxy.Failed(ended.reply) then 1 else 0;
    assert ended.Steps() == [Ask(ended.request.quotaLeft)] + if l.refunded == 1 then [GiveBack] else [];
    assert |ended.Steps()| == 1 + l.refunded && ended.Steps()[0] == Ask(ended.request.quotaLeft);
    if l.refunded == 0 {
      assert ended.Steps() == [Ask(ended.request.quotaLeft)];
    } else {
      assert ended.Steps() == [Ask(true), GiveBack];
    }
  }

  lemma {:induction false} OthersTakeNoSteps(end: real, events: seq<Event>, id: Id, n: nat)
    requires n <= |events| && forall k :: 0 <= k < |events| ==> events[k].id != id
    ensures StepsOf(end, events, id, n) == []
  {
    if n == 0 {
    } else {
      OthersTakeNoSteps(end, events, id, n - 1);
    }
  }

  lemma {:induction false} EarlierStepsComeFirst(end: real, events: seq<Event>, id: Id, m: nat, n: nat)
    requires m <= n <= |events|
    ensures StepsOf(end, events, id, m) <= StepsOf(end, events, id, n)
  {
    if m == n {
    } else {
      EarlierStepsComeFirst(end, events, id, m, n - 1);
    }
  }

  lemma StrayComesFirst(end: real, events: seq<Event>, k: nat)
    requires k < |events| && Stray(end, events, k)
    ensures StepsOf(end, events, events[k].id, k + 1) == [GiveBack]
  {
  }

  lemma MeteredNeverGivesFirst(steps: seq<Step>)
    requires MeteredShape(steps)
    ensures !([GiveBack] <= steps)
  {
    assert steps != [] ==> steps[0] != GiveBack;
  }

  lemma NoStepStrays(end: real, events: seq<Event>, requests: map<Id, Ended>, k: nat)
    requires AllEnded(end, events, requests) && k < |events|
    ensures !Stray(end, events, k)
  {
    hide StepsOf, WithinMonth, Ended.Valid, Ended.Charged, Ended.Steps;
    var id := events[k].id;
    EarlierStepsComeFirst(end, events, id, k + 1, |events|);
    StepsAreMetered(requests[id]);
    MeteredNeverGivesFirst(requests[id].Steps());
    if Stray(end, events, k) {
      StrayComesFirst(end, events, k);
    }
  }

  lemma EndedIsWellShaped(end: real, events: seq<Event>, requests: map<Id, Ended>)
    requires AllEnded(end, events, requests)
    ensures WellShaped(end, events, |events|) && AllMetered(end, events)
  {
    forall id: Id ensures Shaped(end, events, id, |events|) {
      if id in requests {
        StepsAreMetered(requests[id]);
      } else {
        OthersTakeNoSteps(end, events, id, |events|);
      }
    }
    forall k: nat | k < |events| ensures !Stray(end, events, k) {
      NoStepStrays(end, events, requests, k);
    }
  }

  // The account from end to end: once all requests of a user have ended, the counter is the
  // number of those that were admitted and whose client did not see the downstream fail.
  lemma CounterIsRequestsServed(end: real, events: seq<Event>, requests: map<Id, Ended>)
    requires AllEnded(end, events, requests)
    ensures CounterBefore(end, events, |events|).Value() == |set id | id in requests && requests[id].Charged()|
  {
    EndedIsWellShaped(end, events, requests);
    QuotaIsConserved(end, events, |events|);
    var charged := set id | id in requests && requests[id].Charged();
    forall id: Id ensures id in Holders(end, events, |events|) <==> id in charged {
      HoldersReserved(end, events, |events|, id);
      if id in requests {
        StepsAreMetered(requests[id]);
      } else {
        OthersTakeNoSteps(end, events, id, |events|);
      }
    }
    assert Holders(end, events, |events|) == charged;
  }
}
