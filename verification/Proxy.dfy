// One request through the gateway: admission, quota, retries, fallback, refund.
//
// The outside world is a parameter: what every check answers, and for each attempt whether
// the circuit is open and what the downstream sends back. Effects are written to a log.
module Proxy {
  import opened Prelude
  import MonthlyQuota

  // ----- The outside world ------------------------------------------------------------

  // A connection that fails or times out gives no answer.
  datatype Answer = NoAnswer | Answered(status: int)

  datatype Attempt = Attempt(circuitOpen: bool, answer: Answer) {
    predicate Usable() {
      !circuitOpen && answer.Answered? && answer.status < 500
    }
  }

  datatype Settings = Settings(
    maxRetries: int,
    idempotencyEnabled: bool,
    globalLimit: bool,
    maxBody: int)

  datatype Route = Route(requiresAuth: bool, hasFallback: bool)

  // What authentication says of the key; a metered key belongs to a tier with a quota.
  datatype KeyCheck = BadKey | WrongAddress | GoodKey(metered: bool)

  datatype Length = Absent | Unreadable | Declared(bytes: int)

  datatype Request = Request(
    certified: bool,          // mutual TLS, where it is enabled
    routed: bool,             // a route matches the path
    methodAllowed: bool,
    keyPresent: bool,
    key: KeyCheck,
    withinKeyLimit: bool,
    withinGlobalLimit: bool,
    quotaLeft: bool,          // the answer of the reserve script
    idempotent: bool,         // a mutating method with a non-empty idempotency key
    contentLength: Length,
    bodyBytes: int,
    replay: Option<int>)      // status of a stored response for the idempotency key

  datatype Reply =
    | Refused(status: int)                                     // by the gateway, before any attempt
    | Replayed(status: int)                                    // from the idempotency store
    | Forwarded(id: nat, status: int, fromFallback: bool)
    | Unavailable                                              // the gateway's own 504

  // ----- Effects --------------------------------------------------------------------------

  // Responses are named by the attempt that opened them; the fallback is the attempt after
  // the last retry.
  datatype Event =
    | Reserve(granted: bool)
    | Refund
    | Send(streamed: bool)
    | Opened(id: nat)
    | Report(success: bool)
    | Closed(id: nat)
    | HandedOver(id: nat)     // to the code that builds the client's response
    | Streaming(id: nat)      // the client's response reads it to the end and closes it

  // The account of a log. `orderly` is lost for good by a quota step out of turn, a send
  // while an earlier response is still open, a response opened twice, closed or handed over
  // without being open, or an event after the response was handed over and released.
  datatype Ledger = Ledger(
    asked: nat, granted: nat, refunded: nat,
    sends: nat, streamed: nat, reports: seq<bool>,
    open: set<nat>, handed: nat, orderly: bool)

  function Note(l: Ledger, e: Event): Ledger {
    match e
    case Reserve(granted) =>
      l.(asked := l.asked + 1, granted := l.granted + if granted then 1 else 0,
         orderly := l.orderly && l.asked == 0 && l.refunded == 0 && l.sends == 0)
    case Refund =>
      l.(refunded := l.refunded + 1, orderly := l.orderly && l.refunded == 0)
    case Send(streamed) =>
      l.(sends := l.sends + 1, streamed := l.streamed + if streamed then 1 else 0,
         orderly := l.orderly && l.open == {} && l.handed == 0)
    case Opened(id) =>
      l.(open := l.open + {id}, orderly := l.orderly && l.open == {} && l.handed == 0)
    case Report(success) =>
      l.(reports := l.reports + [success], orderly := l.orderly && l.handed == 0)
    case Closed(id) =>
      l.(open := l.open - {id}, orderly := l.orderly && id in l.open)
    case HandedOver(id) =>
      l.(handed := l.handed + 1, orderly := l.orderly && l.open == {id})
    case Streaming(id) =>
      l.(open := l.open - {id}, orderly := l.orderly && id in l.open && l.handed > 0)
  }

  const EMPTY := Ledger(0, 0, 0, 0, 0, [], {}, 0, true)

  function Audit(log: seq<Event>): Ledger {
    if log == [] then EMPTY else Note(Audit(log[..|log| - 1]), log[|log| - 1])
  }

  method Record(log: seq<Event>, e: Event) returns (longer: seq<Event>)
    ensures longer == log + [e] && Audit(longer) == Note(Audit(log), e)
  {
    longer := log + [e];
    assert longer[..|log|] == log;
  }

  // What one event adds to an account.
  lemma NoteMeans(l: Ledger, e: Event, id: nat)
    ensures
      var m, one := Note(l, e), multiset{e};
      && m.asked == l.asked + one[Reserve(true)] + one[Reserve(false)] && m.granted == l.granted + one[Reserve(true)]
      && m.refunded == l.refunded + one[Refund]
      && m.sends == l.sends + one[Send(true)] + one[Send(false)] && m.streamed == l.streamed + one[Send(true)]
      && |m.reports| == |l.reports| + one[Report(true)] + one[Report(false)]
      && (id in m.open <==> e == Opened(id) || (id in l.open && e != Closed(id) && e != Streaming(id)))
  {
  }

  // What an account counts: the events of the log, ...
  lemma {:induction false} AccountCounts(log: seq<Event>)
    ensures
      var l, times := Audit(log), multiset(log);
      && l.asked == times[Reserve(true)] + times[Reserve(false)] && l.granted == times[Reserve(true)]
      && l.refunded == times[Refund]
      && l.sends == times[Send(true)] + times[Send(false)] && l.streamed == times[Send(true)]
      && |l.reports| == times[Report(true)] + times[Report(false)]
    decreases |log|
  {
    if log == [] {
    } else {
      var init, e := log[..|log| - 1], log[|log| - 1];
      hide Note;
      AccountCounts(init);
      NoteMeans(Audit(init), e, 0);
      assert log == init + [e];
      assert multiset(log) == multiset(init) + multiset{e};
    }
  }

  // ... and the responses that were opened at some event and neither closed nor passed on since.
  ghost predicate OpenSince(log: seq<Event>, id: nat, i: nat) {
    i < |log| && log[i] == Opened(id) && forall j :: i < j < |log| ==> log[j] != Closed(id) && log[j] != Streaming(id)
  }

  lemma {:induction false} AccountHoldsOpen(log: seq<Event>, id: nat)
    ensures id in Audit(log).open <==> exists i: nat :: OpenSince(log, id, i)
    decreases |log|
  {
    if log == [] {
    } else {
      var init, last := log[..|log| - 1], |log| - 1;
      hide Note, Audit;
      AccountHoldsOpen(init, id);
      AuditOfLonger(log);
      NoteMeans(Audit(init), log[last], id);
      if id in Audit(log).open {
        if log[last] == Opened(id) {
          assert OpenSince(log, id, last);
        } else {
          var i: nat :| OpenSince(init, id, i);
          assert OpenSince(log, id, i);
        }
      }
      if i: nat :| OpenSince(log, id, i) {
        if i < last {
          assert OpenSince(init, id, i);
        }
      }
    }
  }

  // In an orderly log nothing is sent or opened while a response is open, only open responses are
  // handed over, closed or passed on, and no unit of quota is asked or given back twice.
  lemma {:induction false} OrderlyMeans(log: seq<Event>, n: nat)
    requires Audit(log).orderly && n < |log|
    ensures
      var before, e := log[..n], log[n];
      && (e.Send? || e.Opened? ==> forall id: nat, i: nat :: !OpenSince(before, id, i))
      && (e.HandedOver? || e.Closed? || e.Streaming? ==> exists i: nat :: OpenSince(before, e.id, i))
      && (e.Refund? ==> Refund !in before)
      && (e.Reserve? ==> forall granted :: Reserve(granted) !in before)
    decreases |log|
  {
    var init, last := log[..|log| - 1], |log| - 1;
    hide Note, Audit;
    AuditOfLonger(log);
    OrderlyBefore(Audit(init), log[last]);
    if n < last {
      OrderlyMeans(init, n);
      assert init[..n] == log[..n];
    } else {
      OrderlyStep(Audit(init), log[last]);
      AccountCounts(init);
      forall id: nat, i: nat ensures (log[n].Send? || log[n].Opened?) ==> !OpenSince(init, id, i) {
        AccountHoldsOpen(init, id);
      }
      if log[n].HandedOver? || log[n].Closed? || log[n].Streaming? {
        AccountHoldsOpen(init, log[n].id);
      }
      hide OpenSince;
    }
  }

  lemma OrderlyStep(l: Ledger, e: Event)
    requires Note(l, e).orderly
    ensures e.Send? || e.Opened? ==> l.open == {}
    ensures e.HandedOver? || e.Closed? || e.Streaming? ==> e.id in l.open
    ensures e.Refund? ==> l.refunded == 0
    ensures e.Reserve? ==> l.asked == 0
  {
  }

  lemma AuditOfLonger(log: seq<Event>)
    requires log != []
    ensures Audit(log) == Note(Audit(log[..|log| - 1]), log[|log| - 1])
  {
  }

  // ----- Admission -------------------------------------------------------------------------

  // The first objection to the key and its limits, in the order of the checks.
  function Objection(settings: Settings, route: Route, request: Request): Option<int> {
    if !request.certified then Some(403)
    else if !request.routed then Some(404)
    else if !request.methodAllowed then Some(405)
    else if !route.requiresAuth then None
    else if !request.keyPresent || request.key.BadKey? then Some(401)
    else if request.key.WrongAddress? then Some(403)
    else if !request.withinKeyLimit || (settings.globalLimit && !request.withinGlobalLimit) then Some(429)
    else None
  }

  // The quota is asked once every other check of the key has passed.
  predicate AsksQuota(settings: Settings, route: Route, request: Request) {
    Objection(settings, route, request).None? && route.requiresAuth && request.key.GoodKey? && request.key.metered
  }

  predicate Admitted(settings: Settings, route: Route, request: Request) {
    Objection(settings, route, request).None? && (AsksQuota(settings, route, request) ==> request.quotaLeft)
  }

  // Who is let through to the body, and what the others are told, by the fields of the request.
  lemma ObjectionMeans(settings: Settings, route: Route, request: Request)
    ensures
      var objection := Objection(settings, route, request);
      var known := request.certified && request.routed && request.methodAllowed;
      var good := request.keyPresent && request.key.GoodKey?;
      var within := request.withinKeyLimit && (settings.globalLimit ==> request.withinGlobalLimit);
      && (AsksQuota(settings, route, request) <==>
            known && route.requiresAuth && good && within && request.key.metered)
      && (Admitted(settings, route, request) <==>
            known && (route.requiresAuth ==> good && within && (request.key.metered ==> request.quotaLeft)))
      && (objection == Some(404) <==> request.certified && !request.routed)
      && (objection == Some(405) <==> request.certified && request.routed && !request.methodAllowed)
      && (objection == Some(401) <==>
            known && route.requiresAuth && (!request.keyPresent || request.key.BadKey?))
      && (objection == Some(403) <==>
            !request.certified || (known && route.requiresAuth && request.keyPresent && request.key.WrongAddress?))
      && (objection == Some(429) <==> known && route.requiresAuth && good && !within)
  {
  }

  method Admit(settings: Settings, route: Route, request: Request)
    returns (log: seq<Event>, refusal: Option<int>)
    // Who is let through, and what the others are told, ...
    ensures
      var known := request.certified && request.routed && request.methodAllowed;
      var good := request.keyPresent && request.key.GoodKey?;
      var within := request.withinKeyLimit && (settings.globalLimit ==> request.withinGlobalLimit);
      && (refusal.None? <==>
            known && (route.requiresAuth ==> good && within && (request.key.metered ==> request.quotaLeft)))
      && (refusal == Some(404) <==> request.certified && !request.routed)
      && (refusal == Some(405) <==> request.certified && request.routed && !request.methodAllowed)
      && (refusal == Some(401) <==>
            known && route.requiresAuth && (!request.keyPresent || request.key.BadKey?))
      && (refusal == Some(403) <==>
            !request.certified || (known && route.requiresAuth && request.keyPresent && request.key.WrongAddress?))
      && (refusal == Some(429) <==>
            known && route.requiresAuth && good && (!within || (request.key.metered && !request.quotaLeft)))
      // ... and who is asked for a unit of quota: a metered key, when everything else is in order.
      && (log != [] <==> known && route.requiresAuth && good && within && request.key.metered)
    ensures log != [] ==> log == [Reserve(request.quotaLeft)]
    ensures refusal.None? <==> Admitted(settings, route, request)
    ensures refusal.Some? ==>
      var objection := Objection(settings, route, request);
      refusal.value == if objection.Some? then objection.value else 429
    ensures Audit(log) == Asked(settings, route, request)
  {
    log := [];
    assert Audit(log) == EMPTY;
    hide Audit;
    if !request.certified { return log, Some(403); }
    if !request.routed { return log, Some(404); }
    if !request.methodAllowed { return log, Some(405); }
    if route.requiresAuth {
      if !request.keyPresent { return log, Some(401); }
      match request.key {
        case BadKey => return log, Some(401);
        case WrongAddress => return log, Some(403);
        case GoodKey(metered) =>
          if !request.withinKeyLimit { return log, Some(429); }
          if settings.globalLimit && !request.withinGlobalLimit { return log, Some(429); }
          if metered {
            log := Record(log, Reserve(request.quotaLeft));
            if !request.quotaLeft { return log, Some(429); }
          }
      }
    }
    return log, None;
  }

  predicate UsesIdempotency(settings: Settings, request: Request) {
    settings.idempotencyEnabled && request.idempotent
  }

  // A body is passed through unread only if it can be needed just once.
  predicate Streams(settings: Settings, route: Route, request: Request) {
    && !UsesIdempotency(settings, request) && settings.maxRetries == 1 && !route.hasFallback
    && !request.contentLength.Absent?
  }

  // What is wrong with the body, judged by its declared length when it is not read.
  function BodyObjection(settings: Settings, route: Route, request: Request): Option<int> {
    if Streams(settings, route, request) then
      match request.contentLength
      case Declared(bytes) => if bytes < 0 then Some(400) else if bytes > settings.maxBody then Some(413) else None
      case _ => Some(400)
    else if request.bodyBytes > settings.maxBody then Some(413)
    else None
  }

  // Which bodies are passed through unread and what is wrong with a body, by its fields.
  lemma BodyMeans(settings: Settings, route: Route, request: Request)
    ensures
      var once := !(settings.idempotencyEnabled && request.idempotent) && settings.maxRetries == 1;
      var unread := once && !route.hasFallback && !request.contentLength.Absent?;
      var length := request.contentLength;
      var objection := BodyObjection(settings, route, request);
      && (UsesIdempotency(settings, request) <==> settings.idempotencyEnabled && request.idempotent)
      && (Streams(settings, route, request) <==> unread)
      && (objection == Some(400) <==> unread && (length.Declared? ==> length.bytes < 0))
      && (objection == Some(413) <==>
            if unread then length.Declared? && 0 <= length.bytes && settings.maxBody < length.bytes
            else settings.maxBody < request.bodyBytes)
      && (objection.Some? ==> objection.value == 400 || objection.value == 413)
  {
  }

  // ----- Attempts ------------------------------------------------------------------------------

  // One attempt against one target. The primary target is guarded by its circuit, which is
  // told the outcome only when `report` is set; the fallback has no circuit.
  method TryTarget(log0: seq<Event>, id: nat, attempt: Attempt, isFallback: bool, report: bool, streamed: bool)
    returns (log: seq<Event>, response: Option<int>, usable: bool)
    ensures
      var guarded := !isFallback && attempt.circuitOpen;
      var told := !isFallback && report;
      var before := Audit(log0);
      && response == (if guarded || attempt.answer.NoAnswer? then None else Some(attempt.answer.status))
      && usable == (response.Some? && response.value < 500)
      && Audit(log) ==
           if guarded then before
           else before.(
             sends := before.sends + 1,
             streamed := before.streamed + if streamed then 1 else 0,
             open := if response.Some? then before.open + {id} else before.open,
             reports := if told then before.reports + [usable] else before.reports,
             orderly := before.orderly && before.open == {} && before.handed == 0)
  {
    hide Audit;
    log := log0;
    if !isFallback && attempt.circuitOpen {
      return log, None, false;
    }
    log := Record(log, Send(streamed));
    if attempt.answer.NoAnswer? {
      if !isFallback && report {
        log := Record(log, Report(false));
      }
      return log, None, false;
    }
    var status := attempt.answer.status;
    log := Record(log, Opened(id));
    if !isFallback && report {
      if status >= 500 {
        log := Record(log, Report(false));
        return log, Some(status), false;
      }
      log := Record(log, Report(true));
    }
    return log, Some(status), status < 500;
  }

  // Hand an opened response to the client: a 5xx is refunded, and the response is either
  // read in full and closed, or streamed.
  method BuildResponse(log0: seq<Event>, id: nat, status: int, route: Route, buffered: bool)
    returns (log: seq<Event>)
    requires Audit(log0).open == {id}
    ensures
      var before := Audit(log0);
      var refunds := route.requiresAuth && status >= 500;
      Audit(log) == before.(
        handed := before.handed + 1, open := {},
        refunded := before.refunded + if refunds then 1 else 0,
        orderly := before.orderly && (refunds ==> before.refunded == 0))
    // A response that is read in full is closed before the client gets it; the others are open
    // until the client has read them.
    ensures log == log0 + [HandedOver(id)] + (if route.requiresAuth && status >= 500 then [Refund] else [])
                   + [if buffered then Closed(id) else Streaming(id)]
  {
    log := Record(log0, HandedOver(id));
    if route.requiresAuth && status >= 500 {
      log := Record(log, Refund);
    }
    assert {id} - {id} == {};
    if buffered {
      log := Record(log, Closed(id));
    } else {
      log := Record(log, Streaming(id));
    }
  }

  // How many of the first n attempts reach the downstream.
  function Reaching(attempts: seq<Attempt>, n: nat): nat
    requires n <= |attempts|
  {
    if n == 0 then 0 else Reaching(attempts, n - 1) + if attempts[n - 1].circuitOpen then 0 else 1
  }

  // The attempt that serves the request: the first usable one, or n if there is none.
  ghost predicate Serves(attempts: seq<Attempt>, n: nat, first: nat)
    requires n <= |attempts|
  {
    && first <= n
    && (forall i :: 0 <= i < first ==> !attempts[i].Usable())
    && (first < n ==> attempts[first].Usable())
  }

  // The retry loop. It leaves no response open but a usable one, and tells the circuit
  // about the last permitted attempt only.
  method TryPrimary(log0: seq<Event>, settings: Settings, attempts: seq<Attempt>, streamed: bool)
    returns (log: seq<Event>, served: nat, response: Option<int>)
    requires |attempts| == MaxInt(settings.maxRetries, 0)
    requires Audit(log0).orderly && Audit(log0).open == {} && Audit(log0).handed == 0 && Audit(log0).sends == 0
    requires Audit(log0).reports == [] && Audit(log0).streamed == 0
    ensures Serves(attempts, |attempts|, served)
    ensures response == if served < |attempts| then Some(attempts[served].answer.status) else None
    ensures
      var n := |attempts|;
      var tried := if served < n then served + 1 else n;
      var sends := Reaching(attempts, tried);
      Audit(log) == Audit(log0).(
        sends := sends,
        streamed := if streamed then sends else 0,
        open := if served < n then {served} else {},
        reports := if n > 0 && tried == n && !attempts[n - 1].circuitOpen then [attempts[n - 1].Usable()] else [])
  {
    hide Audit;
    log := log0;
    response := None;
    var usePrimary := false;
    var attempt := 0;
    while attempt < settings.maxRetries
      invariant 0 <= attempt <= |attempts|
      invariant !usePrimary && response.None?
      invariant forall i :: 0 <= i < attempt ==> !attempts[i].Usable()
      invariant Audit(log) == Audit(log0).(
        sends := Reaching(attempts, attempt),
        streamed := if streamed then Reaching(attempts, attempt) else 0,
        reports := if attempt == |attempts| > 0 && !attempts[attempt - 1].circuitOpen then [false] else [])
    {
      log, response, usePrimary :=
        TryTarget(log, attempt, attempts[attempt], false, attempt == settings.maxRetries - 1, streamed);
      if usePrimary {
        break;
      }
      if response.Some? {
        log := Record(log, Closed(attempt));
        response := None;
      }
      attempt := attempt + 1;
    }
    served := attempt;
  }

  // The part of a request that talks to the downstream: retries, fallback, refund.
  method Forward(log0: seq<Event>, settings: Settings, route: Route, attempts: seq<Attempt>, fallback: Answer,
                 streamed: bool, buffered: bool)
    returns (reply: Reply, log: seq<Event>)
    requires |attempts| == MaxInt(settings.maxRetries, 0)
    requires streamed ==> !route.hasFallback
    requires Audit(log0).orderly && Audit(log0).open == {} && Audit(log0).handed == 0 && Audit(log0).sends == 0
    requires Audit(log0).reports == [] && Audit(log0).streamed == 0 && Audit(log0).refunded == 0
    ensures Outcome(route, attempts, fallback, reply)
    ensures
      var tried := Tried(attempts, reply);
      Audit(log) == Audit(log0).(
        sends := Reaching(attempts, tried) + if FellBack(route, reply) then 1 else 0,
        streamed := if streamed then Reaching(attempts, tried) else 0,
        reports := Reports(attempts, tried),
        handed := if reply.Forwarded? then 1 else 0,
        refunded := if route.requiresAuth && Failed(reply) then 1 else 0)
    ensures reply.Forwarded? ==>
      log != [] && log[|log| - 1] == if buffered then Closed(reply.id) else Streaming(reply.id)
  {
    var served: nat, response: Option<int>;
    hide Audit;
    log, served, response := TryPrimary(log0, settings, attempts, streamed);
    if response.Some? {
      log := BuildResponse(log, served, response.value, route, buffered);
      return Forwarded(served, response.value, false), log;
    }
    if route.hasFallback {
      var usable: bool;
      log, response, usable := TryTarget(log, |attempts|, Attempt(false, fallback), true, true, false);
      if response.Some? {
        log := BuildResponse(log, |attempts|, response.value, route, buffered);
        return Forwarded(|attempts|, response.value, true), log;
      }
    }
    if route.requiresAuth {
      log := Record(log, Refund);
    }
    return Unavailable, log;
  }

  // ----- The request ------------------------------------------------------------------------------

  // Which answer an admitted request gets: the first usable attempt, else the fallback, else a
  // 504. A failure of the primary target is never passed on.
  ghost predicate Outcome(route: Route, attempts: seq<Attempt>, fallback: Answer, reply: Reply) {
    match reply
    case Forwarded(id, status, false) =>
      id < |attempts| && Serves(attempts, |attempts|, id) && attempts[id].answer == Answered(status)
    case Forwarded(id, status, true) =>
      Serves(attempts, |attempts|, |attempts|) && route.hasFallback && fallback == Answered(status) && id == |attempts|
    case Unavailable =>
      Serves(attempts, |attempts|, |attempts|) && (route.hasFallback ==> fallback.NoAnswer?)
    case _ => false
  }

  // The client sees the failure of the downstream.
  predicate Failed(reply: Reply) {
    reply.Unavailable? || (reply.Forwarded? && reply.status >= 500)
  }

  predicate FellBack(route: Route, reply: Reply) {
    (reply.Unavailable? && route.hasFallback) || (reply.Forwarded? && reply.fromFallback)
  }

  // How many of the permitted attempts were made.
  function Tried(attempts: seq<Attempt>, reply: Reply): (n: nat)
    ensures n <= |attempts|
  {
    if reply.Refused? || reply.Replayed? then 0
    else if reply.Forwarded? && !reply.fromFallback && reply.id < |attempts| then reply.id + 1
    else |attempts|
  }

  // The circuit hears of the last permitted attempt, if it was made and reached the target.
  function Reports(attempts: seq<Attempt>, tried: nat): seq<bool> {
    var n := |attempts|;
    if n > 0 && tried == n && !attempts[n - 1].circuitOpen then [attempts[n - 1].Usable()] else []
  }

  // The steps of a log on the quota counter.
  function QuotaSteps(log: seq<Event>): seq<MonthlyQuota.Step> {
    if log == [] then []
    else
      QuotaSteps(log[..|log| - 1]) + StepOf(log[|log| - 1])
  }

  function StepOf(e: Event): seq<MonthlyQuota.Step> {
    match e
    case Reserve(granted) => [MonthlyQuota.Ask(granted)]
    case Refund => [MonthlyQuota.GiveBack]
    case _ => []
  }

  // The steps an account amounts to.
  function StepsOfAccount(l: Ledger): seq<MonthlyQuota.Step> {
    (if l.asked == 1 then [MonthlyQuota.Ask(l.granted == 1)] else []) +
    (if l.refunded == 1 then [MonthlyQuota.GiveBack] else [])
  }

  lemma NoteAddsStep(l: Ledger, e: Event)
    requires Note(l, e).orderly && l.granted <= l.asked <= 1 && l.refunded <= 1
    ensures Note(l, e).granted <= Note(l, e).asked <= 1 && Note(l, e).refunded <= 1
    ensures StepsOfAccount(Note(l, e)) == StepsOfAccount(l) + StepOf(e)
  {
  }

  lemma OrderlyBefore(l: Ledger, e: Event)
    requires Note(l, e).orderly
    ensures l.orderly
  {
  }

  // In an orderly log the account determines those steps.
  lemma {:induction false} AccountGivesSteps(log: seq<Event>)
    requires Audit(log).orderly
    ensures
      var l := Audit(log);
      l.granted <= l.asked <= 1 && l.refunded <= 1 && QuotaSteps(log) == StepsOfAccount(l)
    decreases |log|
  {
    if log == [] {
    } else {
      var init, e := log[..|log| - 1], log[|log| - 1];
      hide Note, StepsOfAccount, StepOf;
      OrderlyBefore(Audit(init), e);
      AccountGivesSteps(init);
      NoteAddsStep(Audit(init), e);
    }
  }

  // What a request has done once it has passed, or failed, the checks of its key.
  function Asked(settings: Settings, route: Route, request: Request): Ledger {
    var asks := AsksQuota(settings, route, request);
    EMPTY.(asked := if asks then 1 else 0, granted := if asks && request.quotaLeft then 1 else 0)
  }

  // What a request with this reply has done.
  function Account(settings: Settings, route: Route, request: Request, attempts: seq<Attempt>, reply: Reply): Ledger {
    var asks := AsksQuota(settings, route, request);
    var tried := Tried(attempts, reply);
    Ledger(
      if asks then 1 else 0,
      if asks && request.quotaLeft then 1 else 0,
      if route.requiresAuth && Failed(reply) then 1 else 0,
      Reaching(attempts, tried) + (if FellBack(route, reply) then 1 else 0),
      if Streams(settings, route, request) then Reaching(attempts, tried) else 0,
      if Failed(reply) || reply.Forwarded? then Reports(attempts, tried) else [],
      {}, if reply.Forwarded? then 1 else 0, true)
  }

  // The quota steps of an account have one of the shapes that interleavings assume.
  ghost predicate HasShape(settings: Settings, route: Route, request: Request, log: seq<Event>) {
    if AsksQuota(settings, route, request) then MonthlyQuota.MeteredShape(QuotaSteps(log))
    else MonthlyQuota.UnmeteredShape(QuotaSteps(log))
  }

  lemma AccountHasShape(settings: Settings, route: Route, request: Request, attempts: seq<Attempt>, reply: Reply,
                        log: seq<Event>)
    requires Audit(log) == Account(settings, route, request, attempts, reply)
    requires AsksQuota(settings, route, request) && !request.quotaLeft ==> reply.Refused?
    ensures HasShape(settings, route, request, log)
  {
    hide Audit, Reaching, Reports, Streams, AsksQuota, QuotaSteps;
    AccountGivesSteps(log);
  }

  // The account of a request that never reaches the downstream, ...
  lemma AccountOfRefused(settings: Settings, route: Route, request: Request, attempts: seq<Attempt>, reply: Reply,
                         log: seq<Event>)
    requires reply.Refused? || (reply.Replayed? && Admitted(settings, route, request))
    requires Audit(log) == Asked(settings, route, request)
    ensures Audit(log) == Account(settings, route, request, attempts, reply)
    ensures HasShape(settings, route, request, log)
  {
    hide Audit, QuotaSteps, HasShape;
    assert Reaching(attempts, 0) == 0;
    AccountHasShape(settings, route, request, attempts, reply, log);
  }

  // ... and of one that does.
  lemma AccountOfForwarded(settings: Settings, route: Route, request: Request, attempts: seq<Attempt>,
                           fallback: Answer, reply: Reply, log: seq<Event>)
    requires Outcome(route, attempts, fallback, reply) && Admitted(settings, route, request)
    requires
      var tried := Tried(attempts, reply);
      Audit(log) == Asked(settings, route, request).(
        sends := Reaching(attempts, tried) + if FellBack(route, reply) then 1 else 0,
        streamed := if Streams(settings, route, request) then Reaching(attempts, tried) else 0,
        reports := Reports(attempts, tried),
        handed := if reply.Forwarded? then 1 else 0,
        refunded := if route.requiresAuth && Failed(reply) then 1 else 0)
    ensures Audit(log) == Account(settings, route, request, attempts, reply)
    ensures HasShape(settings, route, request, log) && !reply.Refused? && !reply.Replayed?
  {
    hide Audit, Reaching, Reports, Streams, AsksQuota, QuotaSteps, HasShape;
    AccountHasShape(settings, route, request, attempts, reply, log);
  }

  lemma AskedIsClean(settings: Settings, route: Route, request: Request)
    ensures
      var l := Asked(settings, route, request);
      && l.orderly && l.open == {} && l.handed == 0 && l.sends == 0 && l.reports == [] && l.streamed == 0
      && l.refunded == 0
  {
  }

  lemma StreamsWithoutFallback(settings: Settings, route: Route, request: Request)
    ensures Streams(settings, route, request) ==> !route.hasFallback
  {
  }

  // Who is asked, and what is streamed, by the fields of the request.
  lemma HandledMeans(settings: Settings, route: Route, request: Request, attempts: seq<Attempt>)
    ensures
      var known := request.certified && request.routed && request.methodAllowed;
      var good := request.keyPresent && request.key.GoodKey?;
      var within := request.withinKeyLimit && (settings.globalLimit ==> request.withinGlobalLimit);
      var once := !(settings.idempotencyEnabled && request.idempotent) && settings.maxRetries == 1;
      var unread := once && !route.hasFallback && !request.contentLength.Absent?;
      var length := request.contentLength;
      var asked := if known && route.requiresAuth && good && within && request.key.metered then 1 else 0;
      && (Admitted(settings, route, request) <==>
            known && (route.requiresAuth ==> good && within && (request.key.metered ==> request.quotaLeft)))
      && (BodyObjection(settings, route, request).None? <==>
            if unread then length.Declared? && 0 <= length.bytes <= settings.maxBody
            else request.bodyBytes <= settings.maxBody)
      && (forall answer: Reply ::
            var account := Account(settings, route, request, attempts, answer);
            && account.asked == asked && account.granted == (if request.quotaLeft then asked else 0)
            && (!unread ==> account.streamed == 0))
  {
    ObjectionMeans(settings, route, request);
    BodyMeans(settings, route, request);
    hide Objection, BodyObjection, Streams, AsksQuota, Admitted, Reaching, Reports, Tried, Failed, FellBack;
  }

  // handle_request. `attempts` are the outcomes of the permitted attempts, `fallback` what the
  // fallback would answer.
  method HandleRequest(settings: Settings, route: Route, request: Request, attempts: seq<Attempt>, fallback: Answer)
    returns (reply: Reply, log: seq<Event>)
    requires |attempts| == MaxInt(settings.maxRetries, 0)
    // By the fields of the request: who is let through, who is asked for a unit of quota, whose body
    // is passed through unread, and who gets a stored response.
    ensures
      var known := request.certified && request.routed && request.methodAllowed;
      var good := request.keyPresent && request.key.GoodKey?;
      var within := request.withinKeyLimit && (settings.globalLimit ==> request.withinGlobalLimit);
      var once := !(settings.idempotencyEnabled && request.idempotent) && settings.maxRetries == 1;
      var unread := once && !route.hasFallback && !request.contentLength.Absent?;
      var length := request.contentLength;
      && (!reply.Refused? <==>
            && known
            && (route.requiresAuth ==> good && within && (request.key.metered ==> request.quotaLeft))
            && (if unread then length.Declared? && 0 <= length.bytes <= settings.maxBody
                else request.bodyBytes <= settings.maxBody))
      && Audit(log).asked ==
           (if known && route.requiresAuth && good && within && request.key.metered then 1 else 0)
      && Audit(log).granted == (if request.quotaLeft then Audit(log).asked else 0)
      && (!unread ==> Audit(log).streamed == 0)
      && (reply.Replayed? <==>
            !reply.Refused? && settings.idempotencyEnabled && request.idempotent && request.replay.Some?)
    // What the others are told, in the order of the checks.
    ensures reply.Refused? <==>
      !Admitted(settings, route, request) || BodyObjection(settings, route, request).Some?
    ensures reply.Refused? ==>
      reply.status == if Objection(settings, route, request).Some? then Objection(settings, route, request).value
                      else if !Admitted(settings, route, request) then 429
                      else BodyObjection(settings, route, request).value
    // Otherwise a stored response, or what the downstream makes of it.
    ensures reply.Replayed? ==> reply.status == request.replay.value
    ensures !reply.Refused? && !reply.Replayed? ==> Outcome(route, attempts, fallback, reply)
    // The whole account: at most one reservation, a refund exactly when the client sees the
    // downstream fail, every response closed or handed over, the sends and the reports.
    ensures Audit(log) == Account(settings, route, request, attempts, reply)
    // On the shared counter the request takes one of the shapes that interleavings assume.
    ensures HasShape(settings, route, request, log)
    // A response is closed before the client gets it exactly when it is kept for a replay.
    ensures reply.Forwarded? ==>
      && log != []
      && log[|log| - 1] ==
           if settings.idempotencyEnabled && request.idempotent then Closed(reply.id) else Streaming(reply.id)
  {
    HandledMeans(settings, route, request, attempts);
    hide Audit, Account, QuotaSteps, Reports, Reaching, Tried, Outcome;
    hide Objection, BodyObjection, Streams, AsksQuota, Asked;
    var refusal: Option<int>;
    log, refusal := Admit(settings, route, request);
    if refusal.Some? {
      reply := Refused(refusal.value);
      AccountOfRefused(settings, route, request, attempts, reply, log);
      return;
    }
    var useIdempotency := settings.idempotencyEnabled && request.idempotent;
    var objection, useStreaming := CheckBody(settings, route, request, useIdempotency);
    if objection.Some? {
      reply := Refused(objection.value);
      AccountOfRefused(settings, route, request, attempts, reply, log);
      return;
    }
    if useIdempotency && request.replay.Some? {
      reply := Replayed(request.replay.value);
      AccountOfRefused(settings, route, request, attempts, reply, log);
      return;
    }
    StreamsWithoutFallback(settings, route, request);
    AskedIsClean(settings, route, request);
    reply, log := Forward(log, settings, route, attempts, fallback, useStreaming, useIdempotency);
    AccountOfForwarded(settings, route, request, attempts, fallback, reply, log);
  }

  // Whether the body is passed through unread, and what is wrong with it.
  method CheckBody(settings: Settings, route: Route, request: Request, useIdempotency: bool)
    returns (objection: Option<int>, useStreaming: bool)
    requires useIdempotency == UsesIdempotency(settings, request)
    ensures objection == BodyObjection(settings, route, request)
    ensures useStreaming == Streams(settings, route, request)
  {
    useStreaming :=
      !useIdempotency && settings.maxRetries == 1 && !route.hasFallback && !request.contentLength.Absent?;
    if useStreaming {
      if request.contentLength.Unreadable? { return Some(400), useStreaming; }
      if request.contentLength.bytes < 0 { return Some(400), useStreaming; }
      if request.contentLength.bytes > settings.maxBody { return Some(413), useStreaming; }
    } else {
      if request.bodyBytes > settings.maxBody { return Some(413), useStreaming; }
    }
    return None, useStreaming;
  }

  // ----- What the account means -----------------------------------------------------------------

  // A body that is streamed is sent at most once, and no request sends more often than the
  // retries allow plus one fallback.
  lemma SendsAreBounded(settings: Settings, route: Route, request: Request, attempts: seq<Attempt>, reply: Reply)
    requires |attempts| == MaxInt(settings.maxRetries, 0)
    ensures Reaching(attempts, Tried(attempts, reply)) <= MaxInt(settings.maxRetries, 0)
    ensures Streams(settings, route, request) ==> Reaching(attempts, Tried(attempts, reply)) <= 1
  {
    ReachingIsBounded(attempts, Tried(attempts, reply));
  }

  lemma {:induction false} ReachingIsBounded(attempts: seq<Attempt>, n: nat)
    requires n <= |attempts|
    ensures Reaching(attempts, n) <= n
  {
    if n == 0 {
    } else {
      ReachingIsBounded(attempts, n - 1);
    }
  }

  // An answer passed on from the primary target is never a 5xx, so an admitted metered request
  // ends uncharged exactly on the gateway's own 504 and on a failing fallback; in all other cases
  // its charge is one unit.
  lemma UnchargedIff(settings: Settings, route: Route, request: Request, attempts: seq<Attempt>, fallback: Answer,
                     reply: Reply)
    requires AsksQuota(settings, route, request) && Admitted(settings, route, request)
    requires !reply.Refused? && !reply.Replayed? ==> Outcome(route, attempts, fallback, reply)
    ensures
      var account := Account(settings, route, request, attempts, reply);
      var charge := account.granted - account.refunded;
      && (charge == 0 <==>
            || reply.Unavailable?
            || (reply.Forwarded? && reply.fromFallback && fallback.Answered? && fallback.status >= 500))
      && (charge == 0 || charge == 1)
  {
    if reply.Forwarded? && !reply.fromFallback {
      assert attempts[reply.id].Usable();
    }
  }

  // Which answer that is: of the first attempt that finds the circuit closed and brings no failure,
  // else of the fallback, else a 504.
  lemma OutcomeMeans(route: Route, attempts: seq<Attempt>, fallback: Answer, reply: Reply)
    requires Outcome(route, attempts, fallback, reply)
    ensures
      var n := |attempts|;
      var failed := set i | 0 <= i < n
        && (attempts[i].circuitOpen || attempts[i].answer.NoAnswer? || attempts[i].answer.status >= 500);
      && (forall i :: 0 <= i < n && i !in failed && (forall j :: 0 <= j < i ==> j in failed)
            ==> reply == Forwarded(i, attempts[i].answer.status, false))
      && ((forall i :: 0 <= i < n ==> i in failed) ==>
            reply == if route.hasFallback && fallback.Answered? then Forwarded(n, fallback.status, true)
                     else Unavailable)
  {
    if reply.Forwarded? && !reply.fromFallback {
      assert attempts[reply.id].Usable();
    }
  }

  // The answer is determined by what the downstream does.
  lemma OutcomeIsUnique(route: Route, attempts: seq<Attempt>, fallback: Answer, a: Reply, b: Reply)
    requires Outcome(route, attempts, fallback, a) && Outcome(route, attempts, fallback, b)
    ensures a == b
  {
    if a.Forwarded? && !a.fromFallback {
      assert attempts[a.id].Usable();
    }
    if b.Forwarded? && !b.fromFallback {
      assert attempts[b.id].Usable();
    }
  }

  // With several retries a success before the last permitted attempt is never told to the
  // circuit; a success is reported exactly when the last one serves the request.
  lemma SuccessIsReportedIff(attempts: seq<Attempt>, route: Route, fallback: Answer, reply: Reply)
    requires Outcome(route, attempts, fallback, reply)
    ensures Reports(attempts, Tried(attempts, reply)) == [true]
      <==> reply.Forwarded? && !reply.fromFallback && reply.id == |attempts| - 1
    ensures reply.Forwarded? && !reply.fromFallback && reply.id < |attempts| - 1
      ==> Reports(attempts, Tried(attempts, reply)) == []
  {
    var n := |attempts|;
    if reply.Forwarded? && !reply.fromFallback {
      assert attempts[reply.id].Usable();
    } else if n > 0 {
      assert !attempts[n - 1].Usable();
    }
  }
}
