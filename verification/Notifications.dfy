// Delivery of anomaly notifications: a consumer group on a stream, webhooks with retries, and
// a stream of dead letters.
module Notifications {
  import opened Prelude

  const MAX_RETRIES := 3

  // What happened, in order. Messages are numbered by their place in the stream.
  datatype Event =
    | Delivered(id: nat)               // handed to the consumer for the first time, now pending
    | Failed(id: nat, url: string)     // an attempt that raised
    | Accepted(id: nat, url: string)
    | DeadLettered(id: nat)
    | Acked(id: nat)

  // How an await ends. One that raises or is cancelled may still have taken effect.
  datatype Ending = Returns | Raises | Cancelled

  datatype Fate = Fate(applied: bool, ending: Ending) {
    predicate TakesEffect() {
      applied || ending.Returns?
    }
  }

  // What the consumer waits for.
  datatype Call = Reading | Posting(id: nat, url: string) | Burying(id: nat) | Acking(id: nat) | Pausing

  // ----- One round of attempts ---------------------------------------------------------------

  function Fails(id: nat, url: string, n: nat): (events: seq<Event>)
    ensures |events| == n && forall k :: 0 <= k < n ==> events[k] == Failed(id, url)
  {
    if n == 0 then [] else Fails(id, url, n - 1) + [Failed(id, url)]
  }

  // All attempts on one target, of which the first `failures` fail.
  function Attempts(id: nat, url: string, failures: nat): seq<Event> {
    Fails(id, url, failures) + if failures < MAX_RETRIES then [Accepted(id, url)] else []
  }

  // One round: every target in turn, the first |failures| of them here.
  function Transcript(id: nat, targets: seq<string>, failures: seq<nat>): seq<Event>
    requires |failures| <= |targets|
  {
    if failures == [] then []
    else
      var last := |failures| - 1;
      Transcript(id, targets, failures[..last]) + Attempts(id, targets[last], failures[last])
  }

  ghost predicate IsRound(targets: seq<string>, failures: seq<nat>) {
    |failures| == |targets| && forall i :: 0 <= i < |failures| ==> failures[i] <= MAX_RETRIES
  }

  predicate Exhausted(failures: seq<nat>) {
    exists i :: 0 <= i < |failures| && failures[i] == MAX_RETRIES
  }

  // A round in numbers.
  lemma RoundMeans(targets: seq<string>, failures: seq<nat>)
    ensures IsRound(targets, failures) <==>
      |failures| == |targets| && forall i :: 0 <= i < |failures| ==> failures[i] <= 3
    ensures Exhausted(failures) <==> exists i :: 0 <= i < |failures| && failures[i] == 3
  {
  }

  // The targets that failed for good.
  function Unreached(targets: seq<string>, failures: seq<nat>): seq<string>
    requires |failures| <= |targets|
  {
    if failures == [] then []
    else
      var last := |failures| - 1;
      Unreached(targets, failures[..last]) + if failures[last] == MAX_RETRIES then [targets[last]] else []
  }

  lemma {:induction false} UnreachedIff(targets: seq<string>, failures: seq<nat>)
    requires |failures| <= |targets|
    ensures Unreached(targets, failures) == [] <==> !Exhausted(failures)
    decreases |failures|
  {
    if failures == [] {
    } else {
      var last := |failures| - 1;
      UnreachedIff(targets, failures[..last]);
      if Exhausted(failures[..last]) {
        var i :| 0 <= i < last && failures[..last][i] == MAX_RETRIES;
        assert failures[i] == MAX_RETRIES;
      }
      if Exhausted(failures) && failures[last] != MAX_RETRIES {
        var i :| 0 <= i < |failures| && failures[i] == MAX_RETRIES;
        assert failures[..last][i] == MAX_RETRIES;
      }
    }
  }

  // MAX_RETRIES failures in a row.
  ghost predicate FailedRun(log: seq<Event>, at: nat) {
    at + MAX_RETRIES <= |log| && forall k :: at <= k < at + MAX_RETRIES ==> log[k].Failed?
  }

  ghost predicate HasFailedRun(log: seq<Event>) {
    exists at: nat :: FailedRun(log, at)
  }

  lemma {:induction false} ExhaustionShows(id: nat, targets: seq<string>, failures: seq<nat>, i: nat) returns (at: nat)
    requires |failures| <= |targets| && i < |failures| && failures[i] == MAX_RETRIES
    ensures FailedRun(Transcript(id, targets, failures), at)
    decreases |failures|
  {
    var last := |failures| - 1;
    var earlier := Transcript(id, targets, failures[..last]);
    if i == last {
      at := |earlier|;
    } else {
      at := ExhaustionShows(id, targets, failures[..last], i);
    }
  }

  lemma {:induction false} NoRunWithoutExhaustion(id: nat, targets: seq<string>, failures: seq<nat>, at: nat)
    requires |failures| <= |targets| && forall i :: 0 <= i < |failures| ==> failures[i] < MAX_RETRIES
    ensures !FailedRun(Transcript(id, targets, failures), at)
    ensures failures != [] ==>
      var t := Transcript(id, targets, failures); t != [] && t[|t| - 1].Accepted?
    decreases |failures|
  {
    if failures == [] {
    } else {
      var last := |failures| - 1;
      var earlier, t := Transcript(id, targets, failures[..last]), Transcript(id, targets, failures);
      NoRunWithoutExhaustion(id, targets, failures[..last], at);
      assert |t| == |earlier| + failures[last] + 1;
      assert earlier != [] ==> t[|earlier| - 1] == earlier[|earlier| - 1];
      assert FailedRun(t, at) ==> t[at].Failed? && t[at + 1].Failed? && t[at + 2].Failed?;
      if FailedRun(t, at) && at + MAX_RETRIES <= |earlier| {
        forall k | at <= k < at + MAX_RETRIES ensures earlier[k].Failed? {
          assert t[k] == earlier[k];
        }
      }
    }
  }

  // A target was given up in a round exactly when the round shows MAX_RETRIES failures in a row.
  lemma ExhaustedIffRun(id: nat, targets: seq<string>, failures: seq<nat>)
    requires IsRound(targets, failures)
    ensures Exhausted(failures) <==> HasFailedRun(Transcript(id, targets, failures))
  {
    if Exhausted(failures) {
      var i :| 0 <= i < |failures| && failures[i] == MAX_RETRIES;
      var at := ExhaustionShows(id, targets, failures, i);
    } else {
      forall at: nat ensures !FailedRun(Transcript(id, targets, failures), at) {
        NoRunWithoutExhaustion(id, targets, failures, at);
      }
    }
    hide Transcript, FailedRun;
  }

  // A target that was not given up accepted the message in the round.
  lemma {:induction false} ReachedTargetAccepted(id: nat, targets: seq<string>, failures: seq<nat>, i: nat)
    requires |failures| <= |targets| && i < |failures| && failures[i] < MAX_RETRIES
    ensures Accepted(id, targets[i]) in Transcript(id, targets, failures)
    decreases |failures|
  {
    var last := |failures| - 1;
    if i < last {
      ReachedTargetAccepted(id, targets, failures[..last], i);
    } else {
      assert Accepted(id, targets[i]) in Attempts(id, targets[i], failures[i]);
    }
  }

  // ----- What a log may contain ------------------------------------------------------------------

  // Delivered and not yet acknowledged.
  predicate Open(log: seq<Event>, id: nat) {
    Delivered(id) in log && Acked(id) !in log
  }

  ghost predicate EndsInRound(targets: seq<string>, log: seq<Event>, id: nat, failures: seq<nat>) {
    && IsRound(targets, failures)
    && var t := Transcript(id, targets, failures);
       |t| <= |log| && log[|log| - |t|..] == t
  }

  // A round that reached every target, or one that did not and was dead-lettered.
  ghost predicate EndsHandled(targets: seq<string>, log: seq<Event>, id: nat, failures: seq<nat>) {
    if Exhausted(failures) then
      log != [] && log[|log| - 1] == DeadLettered(id) && EndsInRound(targets, log[..|log| - 1], id, failures)
    else
      EndsInRound(targets, log, id, failures)
  }

  lemma RoundIsLast(targets: seq<string>, start: seq<Event>, log: seq<Event>, id: nat, failures: seq<nat>)
    requires IsRound(targets, failures) && log == start + Transcript(id, targets, failures)
    ensures EndsInRound(targets, log, id, failures)
    ensures !Exhausted(failures) ==> EndsHandled(targets, log, id, failures)
  {
    hide Transcript, IsRound, Exhausted;
  }

  lemma DeadLetterIsLast(targets: seq<string>, round: seq<Event>, log: seq<Event>, id: nat, failures: seq<nat>)
    requires EndsInRound(targets, round, id, failures) && log == round + [DeadLettered(id)] && Exhausted(failures)
    ensures EndsHandled(targets, log, id, failures)
  {
    hide EndsInRound, Exhausted;
    assert log[..|log| - 1] == round;
  }

  // The event may come next.
  ghost predicate Justified(targets: seq<string>, log: seq<Event>, e: Event) {
    match e
    case Delivered(id) => Delivered(id) !in log && Acked(id) !in log
    case Failed(id, url) => Open(log, id) && url in targets
    case Accepted(id, url) => Open(log, id) && url in targets
    case DeadLettered(id) =>
      Open(log, id) && exists failures :: EndsInRound(targets, log, id, failures) && Exhausted(failures)
    case Acked(id) => Open(log, id) && exists failures :: EndsHandled(targets, log, id, failures)
  }

  ghost predicate JustifiedAt(targets: seq<string>, log: seq<Event>, k: nat)
    requires k < |log|
  {
    Justified(targets, log[..k], log[k])
  }

  ghost predicate Lawful(targets: seq<string>, log: seq<Event>) {
    forall k: nat {:trigger JustifiedAt(targets, log, k)} :: k < |log| ==> JustifiedAt(targets, log, k)
  }

  lemma LawfulGrows(targets: seq<string>, log: seq<Event>, e: Event)
    requires Lawful(targets, log) && Justified(targets, log, e)
    ensures Lawful(targets, log + [e])
  {
    hide Justified;
    forall k: nat | k < |log| + 1 ensures JustifiedAt(targets, log + [e], k) {
      if k < |log| {
        assert JustifiedAt(targets, log, k);
        assert (log + [e])[..k] == log[..k];
      } else {
        assert (log + [e])[..k] == log;
      }
    }
  }

  // At least once: a message is acknowledged only after every target has accepted it or it has
  // been dead-lettered.
  lemma AckedIsSettled(targets: seq<string>, log: seq<Event>, k: nat)
    requires Lawful(targets, log) && k < |log| && log[k].Acked?
    ensures Delivered(log[k].id) in log[..k]
    ensures DeadLettered(log[k].id) in log[..k] || forall url :: url in targets ==> Accepted(log[k].id, url) in log[..k]
  {
    assert JustifiedAt(targets, log, k);
    var before, id := log[..k], log[k].id;
    var failures :| EndsHandled(targets, before, id, failures);
    if !Exhausted(failures) {
      var t := Transcript(id, targets, failures);
      forall url | url in targets ensures Accepted(id, url) in before {
        var i :| 0 <= i < |targets| && targets[i] == url;
        assert failures[i] < MAX_RETRIES;
        ReachedTargetAccepted(id, targets, failures, i);
        assert Accepted(id, url) in before[|before| - |t|..];
      }
    }
  }

  // A message is acknowledged once, and nothing happens to it afterwards.
  lemma AckedIsFinal(targets: seq<string>, log: seq<Event>, j: nat, k: nat)
    requires Lawful(targets, log) && j < k < |log| && log[j].Acked?
    ensures log[k].id != log[j].id
  {
    assert JustifiedAt(targets, log, k);
    assert log[j] in log[..k];
    hide EndsInRound, EndsHandled;
  }

  // Where a round of a log fails MAX_RETRIES times in a row.
  ghost predicate RoundFails(log: seq<Event>, from: nat, until: nat) {
    from <= until <= |log| && HasFailedRun(log[from..until])
  }

  // The attempts from `from` on make up a whole round.
  ghost predicate RoundIs(targets: seq<string>, log: seq<Event>, id: nat, from: nat, until: nat) {
    from <= until <= |log| && exists failures :: RoundWith(targets, log, id, from, until, failures)
  }

  ghost predicate RoundWith(targets: seq<string>, log: seq<Event>, id: nat, from: nat, until: nat, failures: seq<nat>)
    requires from <= until <= |log|
  {
    IsRound(targets, failures) && log[from..until] == Transcript(id, targets, failures)
  }

  // A message is dead-lettered only right after a round in which some target failed every time.
  lemma DeadLetterHasCause(targets: seq<string>, log: seq<Event>, k: nat) returns (from: nat)
    requires Lawful(targets, log) && k < |log| && log[k].DeadLettered?
    ensures RoundIs(targets, log, log[k].id, from, k) && RoundFails(log, from, k)
  {
    assert JustifiedAt(targets, log, k);
    var before, id := log[..k], log[k].id;
    var failures :| EndsInRound(targets, before, id, failures) && Exhausted(failures);
    from := k - |Transcript(id, targets, failures)|;
    assert before[from..] == log[from..k];
    assert RoundWith(targets, log, id, from, k, failures);
    ExhaustedIffRun(id, targets, failures);
  }

  // An acknowledgement follows a whole round, with a dead letter in between exactly when some
  // target failed every time in that round.
  lemma AckFollowsRound(targets: seq<string>, log: seq<Event>, k: nat) returns (from: nat, until: nat)
    requires Lawful(targets, log) && k < |log| && log[k].Acked?
    ensures RoundIs(targets, log, log[k].id, from, until)
    ensures if RoundFails(log, from, until) then until + 1 == k && log[until] == DeadLettered(log[k].id) else until == k
  {
    assert JustifiedAt(targets, log, k);
    var before, id := log[..k], log[k].id;
    var failures :| EndsHandled(targets, before, id, failures);
    until := if Exhausted(failures) then k - 1 else k;
    var t := Transcript(id, targets, failures);
    from := until - |t|;
    assert log[from..until] == t by {
      assert before[..until][from..] == log[from..until];
    }
    assert RoundWith(targets, log, id, from, until, failures);
    ExhaustedIffRun(id, targets, failures);
  }

  // ----- The batch -------------------------------------------------------------------------------

  function Ids(from: nat, n: nat): (ids: seq<nat>)
    ensures |ids| == n && forall i :: 0 <= i < n ==> ids[i] == from + i
  {
    if n == 0 then [] else Ids(from, n - 1) + [from + n - 1]
  }

  function Deliveries(from: nat, n: nat): seq<Event> {
    if n == 0 then [] else Deliveries(from, n - 1) + [Delivered(from + n - 1)]
  }

  ghost predicate Ascending(ids: seq<nat>) {
    forall i, j :: 0 <= i < j < |ids| ==> ids[i] < ids[j]
  }

  function Remove(ids: seq<nat>, id: nat): seq<nat> {
    if ids == [] then [] else if ids[0] == id then ids[1..] else [ids[0]] + Remove(ids[1..], id)
  }

  lemma {:induction false} RemoveMiddle(a: seq<nat>, id: nat, b: seq<nat>)
    requires id !in a
    ensures Remove(a + [id] + b, id) == a + b
  {
    var all := a + [id] + b;
    if a == [] {
      assert all[0] == id && all[1..] == b;
    } else {
      assert all[1..] == a[1..] + [id] + b;
      RemoveMiddle(a[1..], id, b);
    }
  }

  lemma {:induction false} RemoveKeepsOrder(ids: seq<nat>, id: nat)
    requires Ascending(ids)
    ensures Ascending(Remove(ids, id)) && forall x :: x in Remove(ids, id) <==> x in ids && x != id
  {
    if ids == [] {
    } else {
      RemoveKeepsOrder(ids[1..], id);
      var out := Remove(ids, id);
      assert forall x :: x in ids <==> x == ids[0] || x in ids[1..];
      assert forall x :: x in ids[1..] ==> ids[0] < x;
      if ids[0] != id {
        assert forall j :: 0 < j < |out| ==> out[j] in Remove(ids[1..], id);
      }
    }
  }

  // The messages one pass of the loop handles: a page of pending ones, then new ones.
  function Batch(pending: seq<nat>, delivered: nat, page: nat, news: nat): seq<nat>
    requires page <= |pending|
  {
    pending[..page] + Ids(delivered, news)
  }

  // No message occurs twice in a batch, and older ones come first.
  lemma BatchAscends(pending: seq<nat>, delivered: nat, page: nat, news: nat)
    requires Ascending(pending) && page <= |pending| && forall id: nat :: id in pending ==> id < delivered
    ensures Ascending(Batch(pending, delivered, page, news))
  {
    var batch := Batch(pending, delivered, page, news);
    forall i, j | 0 <= i < j < |batch| ensures batch[i] < batch[j] {
      if i < page {
        assert batch[i] == pending[i] && pending[i] in pending;
      }
    }
  }

  function Lesser(a: nat, b: nat): (least: nat)
    ensures least <= a && least <= b && (least == a || least == b)
  {
    if a <= b then a else b
  }

  // What is pending once the first `acked` messages of the batch have been acknowledged.
  function Unacked(pending: seq<nat>, delivered: nat, page: nat, news: nat, acked: nat): seq<nat>
    requires page <= |pending| && acked <= page + news
  {
    var first := Lesser(acked, page);
    pending[first..] + Ids(delivered, news)[acked - first..]
  }

  lemma NothingAcked(pending: seq<nat>, delivered: nat, page: nat, news: nat)
    requires page <= |pending|
    ensures Unacked(pending, delivered, page, news, 0) == pending + Ids(delivered, news)
  {
  }

  lemma AckShrinksBatch(pending: seq<nat>, delivered: nat, page: nat, news: nat, acked: nat)
    requires page <= |pending| && acked < page + news
    requires Older(pending, delivered)
    ensures
      var id := Batch(pending, delivered, page, news)[acked];
      && id in Unacked(pending, delivered, page, news, acked)
      && Remove(Unacked(pending, delivered, page, news, acked), id)
         == Unacked(pending, delivered, page, news, acked + 1)
  {
    if acked < page {
      AckShrinksPage(pending, delivered, page, news, acked);
    } else {
      AckShrinksNews(pending, delivered, page, news, acked);
    }
    hide *;
  }

  lemma AckShrinksPage(pending: seq<nat>, delivered: nat, page: nat, news: nat, acked: nat)
    requires acked < page <= |pending|
    ensures
      var id := Batch(pending, delivered, page, news)[acked];
      && id in Unacked(pending, delivered, page, news, acked)
      && Remove(Unacked(pending, delivered, page, news, acked), id)
         == Unacked(pending, delivered, page, news, acked + 1)
  {
    hide Ids, Remove;
    var ids, id := Ids(delivered, news), pending[acked];
    var rest := pending[acked + 1..] + ids;
    assert Unacked(pending, delivered, page, news, acked) == [] + [id] + rest;
    RemoveMiddle([], id, rest);
    assert [] + rest == rest;
  }

  lemma AckShrinksNews(pending: seq<nat>, delivered: nat, page: nat, news: nat, acked: nat)
    requires page <= |pending| && page <= acked < page + news && Older(pending, delivered)
    ensures
      var id := Batch(pending, delivered, page, news)[acked];
      && id in Unacked(pending, delivered, page, news, acked)
      && Remove(Unacked(pending, delivered, page, news, acked), id)
         == Unacked(pending, delivered, page, news, acked + 1)
  {
    hide Ids, Remove, Ascending;
    var ids, i := Ids(delivered, news), acked - page;
    var rest := ids[i + 1..];
    assert forall id: nat :: id in pending[page..] ==> id in pending;
    assert ids[i] !in pending[page..];
    hide Older;
    assert Unacked(pending, delivered, page, news, acked) == pending[page..] + [ids[i]] + rest;
    RemoveMiddle(pending[page..], ids[i], rest);
  }

  // ----- The consumer -----------------------------------------------------------------------------

  // Whatever was delivered is either pending or acknowledged, and the log is lawful.
  ghost predicate Sound(targets: seq<string>, length: nat, delivered: nat, pending: seq<nat>, log: seq<Event>) {
    && delivered <= length && Ascending(pending)
    && (forall id: nat :: Delivered(id) in log <==> id < delivered)
    && (forall id: nat :: id in pending <==> Open(log, id))
    && (forall id: nat :: Acked(id) in log ==> id < delivered)
    && Lawful(targets, log)
  }

  lemma ReadKeepsSound(targets: seq<string>, length: nat, delivered: nat, pending: seq<nat>, log: seq<Event>, n: nat)
    requires Sound(targets, length, delivered, pending, log) && delivered + n <= length
    ensures Sound(targets, length, delivered + n, pending + Ids(delivered, n), log + Deliveries(delivered, n))
  {
    DeliveriesAreLawful(targets, log, delivered, n);
    NewOnesStayOrdered(pending, delivered, n);
    hide Lawful, Ascending, Ids, Deliveries;
  }

  ghost predicate Older(pending: seq<nat>, delivered: nat) {
    Ascending(pending) && forall id: nat :: id in pending ==> id < delivered
  }

  lemma PendingIsOrdered(targets: seq<string>, length: nat, delivered: nat, pending: seq<nat>, log: seq<Event>)
    requires Sound(targets, length, delivered, pending, log)
    ensures Older(pending, delivered)
  {
  }

  // What a pass may leave: of a page of the pending messages and of what was delivered, the first
  // `acked` are gone, and all of them if the pass is `whole`.
  ghost predicate Handled(count: nat, pending0: seq<nat>, delivered0: nat, length: nat,
                          pending: seq<nat>, delivered: nat, acked: nat, whole: bool) {
    && delivered0 <= delivered <= length
    && (delivered == delivered0 || delivered == delivered0 + Lesser(count, length - delivered0))
    && var page, news := Lesser(count, |pending0|), delivered - delivered0;
       && acked <= page + news
       && pending == Unacked(pending0, delivered0, page, news, acked)
       && (whole ==> news == Lesser(count, length - delivered0) && acked == page + news)
  }

  // A whole pass in numbers: what was pending beyond a page of `count` is left, and as many new
  // messages have come and gone as the page and the stream allow.
  lemma WholePassMeans(count: nat, pending0: seq<nat>, delivered0: nat, length: nat,
                       pending: seq<nat>, delivered: nat, acked: nat)
    requires Handled(count, pending0, delivered0, length, pending, delivered, acked, true)
    requires delivered0 <= length
    ensures pending == pending0[if count <= |pending0| then count else |pending0|..]
    ensures delivered == if delivered0 + count <= length then delivered0 + count else length
  {
  }

  // Nothing has been acknowledged.
  ghost predicate OnlyGrown(pending0: seq<nat>, delivered0: nat, pending: seq<nat>, delivered: nat) {
    delivered0 <= delivered && pending == pending0 + Ids(delivered0, delivered - delivered0)
  }

  // What the reads of a pass may leave, ...
  ghost predicate ReadSome(count: nat, pending0: seq<nat>, delivered0: nat, length: nat,
                           pending: seq<nat>, delivered: nat) {
    && delivered0 <= delivered <= length && OnlyGrown(pending0, delivered0, pending, delivered)
    && (delivered == delivered0 || delivered == delivered0 + Lesser(count, length - delivered0))
  }

  // ... and what they give if they return.
  ghost predicate ReadWhole(count: nat, pending0: seq<nat>, delivered0: nat, length: nat, delivered: nat,
                            entries: seq<nat>) {
    && delivered0 <= delivered <= length && delivered == delivered0 + Lesser(count, length - delivered0)
    && entries == Batch(pending0, delivered0, Lesser(count, |pending0|), delivered - delivered0)
  }

  lemma ReadIsHandled(count: nat, pending0: seq<nat>, delivered0: nat, length: nat,
                      pending: seq<nat>, delivered: nat)
    requires ReadSome(count, pending0, delivered0, length, pending, delivered)
    ensures Handled(count, pending0, delivered0, length, pending, delivered, 0, false)
  {
    NothingAcked(pending0, delivered0, Lesser(count, |pending0|), delivered - delivered0);
    hide Unacked, Ids, Lesser;
  }

  lemma AckIsHandled(count: nat, pending0: seq<nat>, delivered0: nat, length: nat,
                     pending: seq<nat>, delivered: nat, entries: seq<nat>, acked: nat, whole: bool)
    requires ReadWhole(count, pending0, delivered0, length, delivered, entries) && acked <= |entries|
    requires whole ==> acked == |entries|
    requires |entries| == Lesser(count, |pending0|) + delivered - delivered0
    requires pending == Unacked(pending0, delivered0, Lesser(count, |pending0|), delivered - delivered0, acked)
    ensures Handled(count, pending0, delivered0, length, pending, delivered, acked, whole)
  {
    hide Unacked, Ids, Lesser, Batch;
  }

  // A batch that has been read is a page and what was delivered, and none of it is acknowledged.
  lemma BatchIsUnacked(count: nat, pending0: seq<nat>, delivered0: nat, length: nat,
                       pending: seq<nat>, delivered: nat, entries: seq<nat>)
    requires ReadSome(count, pending0, delivered0, length, pending, delivered)
    requires ReadWhole(count, pending0, delivered0, length, delivered, entries)
    ensures
      var page, news := Lesser(count, |pending0|), delivered - delivered0;
      && delivered0 <= delivered && |entries| == page + news && entries == Batch(pending0, delivered0, page, news)
      && pending == Unacked(pending0, delivered0, page, news, 0)
  {
    NothingAcked(pending0, delivered0, Lesser(count, |pending0|), delivered - delivered0);
    hide Unacked, Lesser;
  }

  // The batch starts with the first pending message.
  lemma WholeStarts(count: nat, pending0: seq<nat>, delivered0: nat, length: nat, delivered: nat, entries: seq<nat>)
    requires ReadWhole(count, pending0, delivered0, length, delivered, entries)
    ensures pending0 != [] && entries != [] ==> entries[0] == pending0[0]
  {
  }

  lemma HandledShortens(count: nat, pending0: seq<nat>, delivered0: nat, length: nat,
                        pending: seq<nat>, delivered: nat, acked: nat, whole: bool)
    requires Handled(count, pending0, delivered0, length, pending, delivered, acked, whole)
    ensures whole && count > 0 ==> |pending| + length - delivered <= MaxInt(0, |pending0| + length - delivered0 - 1)
    ensures acked == 0 ==> OnlyGrown(pending0, delivered0, pending, delivered)
  {
  }

  lemma GrowthGoesOn(a: seq<nat>, da: nat, b: seq<nat>, db: nat, c: seq<nat>, dc: nat)
    requires OnlyGrown(a, da, b, db) && OnlyGrown(b, db, c, dc)
    ensures OnlyGrown(a, da, c, dc)
  {
    IdsGoOn(da, db - da, dc - db);
    hide Ids;
    var x, y := Ids(da, db - da), Ids(db, dc - db);
    Associates(a, x, y);
    assert da + (db - da) == db && (db - da) + (dc - db) == dc - da;
  }

  lemma Associates(a: seq<nat>, b: seq<nat>, c: seq<nat>)
    ensures a + b + c == a + (b + c)
  {
  }

  lemma GrowthKeepsHead(a: seq<nat>, da: nat, b: seq<nat>, db: nat)
    requires OnlyGrown(a, da, b, db) && a != []
    ensures b != [] && b[0] == a[0]
  {
  }

  lemma NotYetGrown(a: seq<nat>, da: nat)
    ensures OnlyGrown(a, da, a, da)
  {
  }

  // From await `since` on Redis always answers and nobody cancels; webhooks may fail as they like.
  ghost predicate Steady(fate: (Call, nat) -> Fate, since: nat) {
    forall call: Call, n: nat :: n >= since ==>
      if call.Posting? then !fate(call, n).ending.Cancelled? else fate(call, n).ending.Returns?
  }

  // From await `since` on no target accepts the message, nor can it be dead-lettered.
  ghost predicate Stuck(targets: seq<string>, fate: (Call, nat) -> Fate, id: nat, since: nat) {
    && targets != []
    && (forall url: string, n: nat :: n >= since ==> !fate(Posting(id, url), n).ending.Returns?)
    && (forall n: nat :: n >= since ==> !fate(Burying(id), n).TakesEffect())
  }

  lemma SteadyPauses(fate: (Call, nat) -> Fate, since: nat, n: nat)
    requires since <= n
    ensures Steady(fate, since) ==> fate(Pausing, n).ending.Returns?
  {
  }

  lemma FateGoesOn(targets: seq<string>, fate: (Call, nat) -> Fate, id: nat, since: nat, later: nat)
    requires since <= later
    ensures Steady(fate, since) ==> Steady(fate, later)
    ensures Stuck(targets, fate, id, since) ==> Stuck(targets, fate, id, later)
  {
  }

  // The consumer group as the server keeps it, for one consumer whose name never changes.
  // Fate decides how a call that is the n-th await ends: every pattern of failures is some fate.
  class Consumer {
    const targets: seq<string>
    const fate: (Call, nat) -> Fate
    var length: nat          // messages in the stream
    var delivered: nat       // the first of them not yet delivered
    var pending: seq<nat>    // delivered and not acknowledged
    var log: seq<Event>
    var awaits: nat

    constructor (targets: seq<string>, fate: (Call, nat) -> Fate)
      ensures Valid() && this.targets == targets && this.fate == fate
      ensures length == delivered == 0 && log == [] && pending == []
    {
      this.targets, this.fate := targets, fate;
      length, delivered, pending, log, awaits := 0, 0, [], [], 0;
    }

    ghost predicate Valid()
      reads this`length, this`delivered, this`pending, this`log
    {
      Sound(targets, length, delivered, pending, log)
    }

    // Messages are added to the stream.
    method Append(n: nat)
      requires Valid()
      modifies this`length
      ensures Valid() && length == old(length) + n
    {
      length := length + n;
    }

    method Await(call: Call) returns (f: Fate)
      modifies this`awaits
      ensures awaits == old(awaits) + 1 && f == fate(call, old(awaits))
    {
      f := fate(call, awaits);
      awaits := awaits + 1;
    }

    method Post(id: nat, url: string) returns (ending: Ending)
      requires Valid() && id in pending && url in targets
      modifies this`log, this`awaits
      ensures Valid()
      ensures log == old(log) + match ending
                                case Returns => [Accepted(id, url)]
                                case Raises => [Failed(id, url)]
                                case Cancelled => []
      ensures awaits > old(awaits) && (Steady(fate, old(awaits)) ==> !ending.Cancelled?)
      ensures Stuck(targets, fate, id, old(awaits)) ==> !ending.Returns?
    {
      hide Lawful;
      var f := Await(Posting(id, url));
      match f.ending {
        case Returns =>
          LawfulGrows(targets, log, Accepted(id, url));
          log := log + [Accepted(id, url)];
        case Raises =>
          LawfulGrows(targets, log, Failed(id, url));
          log := log + [Failed(id, url)];
        case Cancelled =>
      }
      return f.ending;
    }

    // Every target gets up to MAX_RETRIES attempts; the round raises if one of them had no
    // success. Without targets there is nothing to do.
    method SendWithRetry(id: nat) returns (ending: Ending, errors: seq<string>, ghost failures: seq<nat>)
      requires Valid() && id in pending
      modifies this`log, this`awaits
      ensures Valid() && old(log) <= log
      ensures !ending.Cancelled? ==>
        && IsRound(targets, failures)
        && log == old(log) + Transcript(id, targets, failures)
        && errors == Unreached(targets, failures)
        && (ending.Raises? <==> Exhausted(failures))
      // In numbers: at most three failures each, and three of them are too many.
      ensures !ending.Cancelled? ==>
        && |failures| == |targets| && (forall i :: 0 <= i < |failures| ==> failures[i] <= 3)
        && (ending.Raises? <==> exists i :: 0 <= i < |failures| && failures[i] == 3)
      ensures awaits >= old(awaits) && (Steady(fate, old(awaits)) ==> !ending.Cancelled?)
      ensures Stuck(targets, fate, id, old(awaits)) ==> !ending.Returns?
    {
      assert targets == [] ==> !Stuck(targets, fate, id, awaits);
      hide Valid, Transcript, Unreached, Exhausted, IsRound, Attempts, Steady, Stuck, RoundSoFar;
      errors, failures := [], [];
      EmptyRound(id, targets, log);
      RoundEnds(id, targets, failures, log, log, errors);
      RoundMeans(targets, failures);
      if targets == [] {
        return Returns, errors, failures;
      }
      for i := 0 to |targets|
        invariant Valid() && |failures| == i && old(log) <= log && awaits >= old(awaits)
        invariant RoundSoFar(id, targets, failures, old(log), log, errors)
        invariant Stuck(targets, fate, id, old(awaits)) && i > 0 ==> errors != []
      {
        FateGoesOn(targets, fate, id, old(awaits), awaits);
        ghost var before, failed := log, 0;
        ending, failed := TryTarget(id, targets[i]);
        if ending.Cancelled? {
          return;
        }
        RoundGoesOn(id, targets, failures, failed, old(log), before, log, errors);
        if ending.Raises? {
          errors := errors + [targets[i]];
        }
        failures := failures + [failed];
      }
      RoundEnds(id, targets, failures, old(log), log, errors);
      RoundMeans(targets, failures);
      ending := if errors != [] then Raises else Returns;
    }

    // The attempts on one target, with a pause after each failure but the last.
    method TryTarget(id: nat, url: string) returns (ending: Ending, ghost failed: nat)
      requires Valid() && id in pending && url in targets
      modifies this`log, this`awaits
      ensures Valid() && old(log) <= log && failed <= MAX_RETRIES
      ensures !ending.Cancelled? ==>
        log == old(log) + Attempts(id, url, failed) && (ending.Raises? <==> failed == MAX_RETRIES)
      // In numbers: up to three failures, and a success unless there were three.
      ensures !ending.Cancelled? ==>
        && failed <= 3 && (ending.Raises? <==> failed == 3)
        && |log| == |old(log)| + failed + (if failed < 3 then 1 else 0)
        && (forall k :: |old(log)| <= k < |old(log)| + failed ==> log[k] == Failed(id, url))
        && (failed < 3 ==> log[|log| - 1] == Accepted(id, url))
      ensures awaits >= old(awaits) && (Steady(fate, old(awaits)) ==> !ending.Cancelled?)
      ensures Stuck(targets, fate, id, old(awaits)) ==> !ending.Returns?
    {
      hide Valid, Fails, Steady, Stuck;
      var attempt := 0;
      failed := 0;
      FailsNone(id, url);
      while attempt < MAX_RETRIES
        invariant 0 <= attempt <= MAX_RETRIES && failed == attempt && Valid() && awaits >= old(awaits)
        invariant log == old(log) + Fails(id, url, failed)
      {
        FateGoesOn(targets, fate, id, old(awaits), awaits);
        ending := Post(id, url);
        match ending {
          case Returns =>
            assert log == old(log) + (Fails(id, url, failed) + [Accepted(id, url)]);
            return;
          case Cancelled => return;
          case Raises =>
            FailsGrow(old(log), id, url, attempt);
            if attempt != MAX_RETRIES - 1 {
              SteadyPauses(fate, old(awaits), awaits);
              var pause := Await(Pausing);
              if pause.ending.Cancelled? {
                return Cancelled, failed;
              }
            }
        }
        attempt, failed := attempt + 1, failed + 1;
      }
      assert Attempts(id, url, failed) == Fails(id, url, failed);
      ending := Raises;
    }

    method WriteDeadLetter(id: nat, ghost failures: seq<nat>) returns (ending: Ending)
      requires Valid() && id in pending
      requires EndsInRound(targets, log, id, failures) && Exhausted(failures)
      modifies this`log, this`awaits
      ensures Valid() && old(log) <= log
      ensures ending.Returns? ==> log == old(log) + [DeadLettered(id)]
      ensures awaits > old(awaits) && (Steady(fate, old(awaits)) ==> ending.Returns?)
      ensures Stuck(targets, fate, id, old(awaits)) ==> !ending.Returns?
    {
      hide Lawful, EndsInRound, Exhausted;
      var f := Await(Burying(id));
      if f.TakesEffect() {
        LawfulGrows(targets, log, DeadLettered(id));
        log := log + [DeadLettered(id)];
      }
      return f.ending;
    }

    method Ack(id: nat, ghost failures: seq<nat>) returns (ending: Ending, ghost acked: bool)
      requires Valid() && id in pending && EndsHandled(targets, log, id, failures)
      modifies this`log, this`awaits, this`pending
      ensures Valid() && old(log) <= log
      ensures ending.Returns? ==> acked
      ensures pending == if acked then Remove(old(pending), id) else old(pending)
      ensures acked ==> Acked(id) in log
      ensures awaits > old(awaits) && (Steady(fate, old(awaits)) ==> ending.Returns?)
    {
      hide Lawful, EndsHandled;
      var f := Await(Acking(id));
      acked := f.TakesEffect();
      if f.TakesEffect() {
        LawfulGrows(targets, log, Acked(id));
        RemoveKeepsOrder(pending, id);
        pending := Remove(pending, id);
        log := log + [Acked(id)];
      }
      return f.ending, acked;
    }

    // One message: a round, a dead letter if the round raised, then the acknowledgement.
    method Handle(id: nat) returns (ending: Ending, ghost acked: bool)
      requires Valid() && id in pending
      modifies this`log, this`awaits, this`pending
      ensures Valid() && old(log) <= log
      ensures ending.Returns? ==> acked
      ensures pending == if acked then Remove(old(pending), id) else old(pending)
      ensures awaits >= old(awaits) && (Steady(fate, old(awaits)) ==> ending.Returns?)
      ensures Stuck(targets, fate, id, old(awaits)) ==> !acked && !ending.Returns?
    {
      hide Valid, Transcript, Exhausted, IsRound, EndsInRound, EndsHandled, Steady, Stuck, Unreached;
      acked := false;
      var errors: seq<string>;
      ghost var failures: seq<nat>;
      ending, errors, failures := SendWithRetry(id);
      FateGoesOn(targets, fate, id, old(awaits), awaits);
      if ending.Cancelled? {
        return;
      }
      RoundIsLast(targets, old(log), log, id, failures);
      if ending.Raises? {
        ghost var round := log;
        ending := WriteDeadLetter(id, failures);
        FateGoesOn(targets, fate, id, old(awaits), awaits);
        if !ending.Returns? {
          return;
        }
        DeadLetterIsLast(targets, round, log, id, failures);
      }
      ending, acked := Ack(id, failures);
    }

    // Read new messages: they become pending even if the answer is lost.
    method ReadNew(count: nat) returns (ending: Ending, ids: seq<nat>)
      requires Valid()
      modifies this`delivered, this`pending, this`log, this`awaits
      ensures Valid() && old(log) <= log && delivered >= old(delivered)
      ensures pending == old(pending) + Ids(old(delivered), delivered - old(delivered))
      ensures delivered == old(delivered) || delivered == old(delivered) + Lesser(count, length - old(delivered))
      ensures ending.Returns? ==>
        && delivered == old(delivered) + Lesser(count, length - old(delivered))
        && ids == Ids(old(delivered), delivered - old(delivered))
      ensures awaits > old(awaits) && (Steady(fate, old(awaits)) ==> ending.Returns?)
    {
      assert delivered <= length && (Steady(fate, awaits) ==> fate(Reading, awaits).ending.Returns?);
      assert pending + Ids(delivered, 0) == pending;
      hide Sound, Ids, Deliveries, Steady, Lesser;
      var f := Await(Reading);
      var n := Lesser(count, length - delivered);
      ids := Ids(delivered, n);
      if f.TakesEffect() {
        ReadKeepsSound(targets, length, delivered, pending, log, n);
        pending := pending + ids;
        log := log + Deliveries(delivered, n);
        delivered := delivered + n;
      }
      return f.ending, ids;
    }

    // Handle the messages of a batch one after the other, until one of them fails.
    method HandleEach(entries: seq<nat>, ghost pending0: seq<nat>, ghost delivered0: nat, ghost page: nat,
                      ghost news: nat)
      returns (ending: Ending, ghost acked: nat)
      requires Valid() && Older(pending0, delivered0) && page <= |pending0| && |entries| == page + news
      requires entries == Batch(pending0, delivered0, page, news)
      requires pending == Unacked(pending0, delivered0, page, news, 0)
      modifies this`pending, this`log, this`awaits
      ensures Valid() && old(log) <= log
      ensures acked <= |entries| && (ending.Returns? ==> acked == |entries|)
      ensures pending == Unacked(pending0, delivered0, page, news, acked)
      ensures awaits >= old(awaits) && (Steady(fate, old(awaits)) ==> ending.Returns?)
      ensures entries != [] && Stuck(targets, fate, entries[0], old(awaits)) ==> acked == 0 && !ending.Returns?
    {
      hide Valid, Unacked, Batch, Older, Steady, Stuck;
      acked, ending := 0, Returns;
      for i := 0 to |entries|
        invariant Valid() && old(log) <= log && acked == i
        invariant pending == Unacked(pending0, delivered0, page, news, acked)
        invariant awaits >= old(awaits) && (i > 0 ==> !Stuck(targets, fate, entries[0], old(awaits)))
      {
        AckShrinksBatch(pending0, delivered0, page, news, acked);
        FateGoesOn(targets, fate, entries[0], old(awaits), awaits);
        ghost var gone: bool;
        ending, gone := Handle(entries[i]);
        acked := if gone then acked + 1 else acked;
        if !ending.Returns? {
          return;
        }
      }
      ending := Returns;
    }

    method HandleAll(entries: seq<nat>, ghost count: nat, ghost pending0: seq<nat>, ghost delivered0: nat)
      returns (ending: Ending, ghost acked: nat)
      requires Valid() && Older(pending0, delivered0)
      requires ReadSome(count, pending0, delivered0, length, pending, delivered)
      requires ReadWhole(count, pending0, delivered0, length, delivered, entries)
      modifies this`pending, this`log, this`awaits
      ensures Valid() && old(log) <= log
      ensures Handled(count, pending0, delivered0, length, pending, delivered, acked, ending.Returns?)
      ensures awaits >= old(awaits) && (Steady(fate, old(awaits)) ==> ending.Returns?)
      ensures pending0 != [] && Stuck(targets, fate, pending0[0], old(awaits)) ==> acked == 0
    {
      hide Sound, Unacked, Batch, Older, Steady, Stuck, Handled, ReadSome, ReadWhole, Lesser;
      BatchIsUnacked(count, pending0, delivered0, length, pending, delivered, entries);
      WholeStarts(count, pending0, delivered0, length, delivered, entries);
      ending, acked := HandleEach(entries, pending0, delivered0, Lesser(count, |pending0|), delivered - delivered0);
      AckIsHandled(count, pending0, delivered0, length, pending, delivered, entries, acked, ending.Returns?);
    }

    // The two reads of a pass: a page of the pending messages, then new ones.
    method ReadBatch(count: nat) returns (ending: Ending, entries: seq<nat>)
      requires Valid()
      modifies this`delivered, this`pending, this`log, this`awaits
      ensures Valid() && old(log) <= log
      ensures ReadSome(count, old(pending), old(delivered), length, pending, delivered)
      ensures ending.Returns? ==> ReadWhole(count, old(pending), old(delivered), length, delivered, entries)
      ensures awaits > old(awaits) && (Steady(fate, old(awaits)) ==> ending.Returns?)
    {
      assert pending + Ids(delivered, 0) == pending && delivered <= length;
      hide Sound, Ids;
      assert Steady(fate, awaits) ==> fate(Reading, awaits).ending.Returns?;
      hide Steady;
      FateGoesOn(targets, fate, 0, awaits, awaits + 1);
      var f := Await(Reading);
      entries := pending[..Lesser(count, |pending|)];
      ending := f.ending;
      if ending.Returns? {
        var ids: seq<nat>;
        ending, ids := ReadNew(count);
        entries := entries + ids;
      }
    }

    // Read a batch and handle it. What was not acknowledged stays pending.
    method HandleBatch(count: nat) returns (ending: Ending, ghost acked: nat)
      requires Valid()
      modifies this`delivered, this`pending, this`log, this`awaits
      ensures Valid() && old(log) <= log && delivered >= old(delivered)
      ensures Handled(count, old(pending), old(delivered), length, pending, delivered, acked, ending.Returns?)
      ensures awaits > old(awaits) && (Steady(fate, old(awaits)) ==> ending.Returns?)
      ensures old(pending) != [] && Stuck(targets, fate, old(pending)[0], old(awaits)) ==> acked == 0
    {
      PendingIsOrdered(targets, length, delivered, pending, log);
      hide Sound, Older, Steady, Stuck, Handled, ReadWhole, OnlyGrown, Lesser;
      acked := 0;
      ghost var head := if pending != [] then pending[0] else 0;
      var entries: seq<nat>;
      ending, entries := ReadBatch(count);
      FateGoesOn(targets, fate, head, old(awaits), awaits);
      ReadIsHandled(count, old(pending), old(delivered), length, pending, delivered);
      if ending.Returns? {
        ending, acked := HandleAll(entries, count, old(pending), old(delivered));
      }
    }

    // One pass of the loop: a batch, and a pause if it ended with an exception.
    method ConsumeBatch(count: nat) returns (ending: Ending, ghost acked: nat)
      requires Valid()
      modifies this`delivered, this`pending, this`log, this`awaits
      ensures Valid() && old(log) <= log && delivered >= old(delivered)
      ensures Handled(count, old(pending), old(delivered), length, pending, delivered, acked, ending.Returns?)
      ensures awaits > old(awaits) && (Steady(fate, old(awaits)) ==> ending.Returns?)
      ensures old(pending) != [] && Stuck(targets, fate, old(pending)[0], old(awaits)) ==> acked == 0
      // A pass that returns leaves of the pending messages those beyond the first `count`, and none
      // of the new ones, of which it takes as many as the stream has, up to `count`.
      ensures ending.Returns? ==>
        && pending == old(pending)[if count <= |old(pending)| then count else |old(pending)|..]
        && delivered == if old(delivered) + count <= length then old(delivered) + count else length
    {
      assert delivered <= length;
      hide Sound, Handled, Stuck;
      FateGoesOn(targets, fate, 0, awaits, awaits + 1);
      ending, acked := HandleBatch(count);
      if ending.Returns? {
        WholePassMeans(count, old(pending), old(delivered), length, pending, delivered, acked);
      }
      if ending.Raises? {
        var pause := Await(Pausing);
        ending := if pause.ending.Cancelled? then Cancelled else Raises;
      }
    }

    // A pass after some messages have arrived. If all goes well it shortens the backlog.
    method Pass(arrived: nat, count: nat) returns (ending: Ending)
      requires Valid()
      modifies this`length, this`delivered, this`pending, this`log, this`awaits
      ensures Valid() && old(log) <= log && delivered >= old(delivered) && awaits > old(awaits)
      ensures length == old(length) + arrived
      ensures Steady(fate, old(awaits)) ==> ending.Returns?
      ensures Steady(fate, old(awaits)) && count > 0 ==>
        |pending| + length - delivered <= MaxInt(0, |old(pending)| + length - old(delivered) - 1)
      ensures old(pending) != [] && Stuck(targets, fate, old(pending)[0], old(awaits)) ==>
        OnlyGrown(old(pending), old(delivered), pending, delivered)
    {
      hide Sound, Handled, OnlyGrown, Steady, Stuck;
      Append(arrived);
      ghost var acked: nat;
      ending, acked := ConsumeBatch(count);
      HandledShortens(count, old(pending), old(delivered), length, pending, delivered, acked, ending.Returns?);
    }

    // The loop, for as many passes as there are arrivals: before pass k, arrivals[k] messages
    // are added. Only a cancellation ends it early; calling it again is a restart.
    method Consume(arrivals: seq<nat>, count: nat) returns (cancelled: bool)
      requires Valid()
      modifies this
      ensures Valid() && old(log) <= log && delivered >= old(delivered)
      ensures forall id: nat :: id < delivered ==> (id in pending <==> Acked(id) !in log)
      // A backlog is worked off, whatever the webhooks do, if Redis answers and nothing arrives.
      ensures Steady(fate, old(awaits)) && count > 0 && (forall k :: 0 <= k < |arrivals| ==> arrivals[k] == 0) &&
              |arrivals| >= |old(pending)| + old(length) - old(delivered) ==>
                pending == [] && delivered == length == old(length) && !cancelled
      // A message that can neither be delivered nor dead-lettered holds up all that follow it.
      ensures old(pending) != [] && Stuck(targets, fate, old(pending)[0], old(awaits)) ==>
        OnlyGrown(old(pending), old(delivered), pending, delivered)
    {
      cancelled := false;
      SoundSplits(targets, length, delivered, pending, log);
      ghost var pending0, delivered0, backlog := pending, delivered, |pending| + length - delivered;
      ghost var calm := Steady(fate, awaits) && count > 0 && forall k :: 0 <= k < |arrivals| ==> arrivals[k] == 0;
      ghost var head := if pending != [] then pending[0] else 0;
      ghost var stuck := pending != [] && Stuck(targets, fate, pending[0], awaits);
      NotYetGrown(pending, delivered);
      hide Sound, Steady, Stuck, OnlyGrown;
      for k := 0 to |arrivals|
        invariant Valid() && old(log) <= log && length >= delivered >= old(delivered) && awaits >= old(awaits)
        invariant calm ==> length == old(length) && |pending| + length - delivered <= MaxInt(0, backlog - k)
        invariant stuck ==> OnlyGrown(pending0, delivered0, pending, delivered)
      {
        FateGoesOn(targets, fate, head, old(awaits), awaits);
        ghost var before, delivered1 := pending, delivered;
        if stuck {
          GrowthKeepsHead(pending0, delivered0, pending, delivered);
        }
        var ending := Pass(arrivals[k], count);
        SoundSplits(targets, length, delivered, pending, log);
        if stuck {
          GrowthGoesOn(pending0, delivered0, before, delivered1, pending, delivered);
        }
        if ending.Cancelled? {
          return true;
        }
      }
      SoundSplits(targets, length, delivered, pending, log);
    }
  }

  lemma {:induction false} IdsGoOn(from: nat, m: nat, n: nat)
    ensures Ids(from, m) + Ids(from + m, n) == Ids(from, m + n)
  {
    if n == 0 {
    } else {
      IdsGoOn(from, m, n - 1);
    }
  }

  lemma SoundSplits(targets: seq<string>, length: nat, delivered: nat, pending: seq<nat>, log: seq<Event>)
    requires Sound(targets, length, delivered, pending, log)
    ensures delivered <= length && forall id: nat :: id < delivered ==> (id in pending <==> Acked(id) !in log)
  {
  }

  // Nothing is lost: in every state the consumer can be in, each delivered message is either
  // pending, or was acknowledged after all targets accepted it or it was dead-lettered.
  lemma NothingIsLost(c: Consumer, id: nat)
    requires c.Valid()
    ensures id < c.delivered <==> id in c.pending || Acked(id) in c.log
    ensures !(id in c.pending && Acked(id) in c.log)
    ensures Acked(id) in c.log ==>
      DeadLettered(id) in c.log || forall url :: url in c.targets ==> Accepted(id, url) in c.log
  {
    if Acked(id) in c.log {
      var k :| 0 <= k < |c.log| && c.log[k] == Acked(id);
      AckedIsSettled(c.targets, c.log, k);
    }
  }

  // The round of the first |failures| targets.
  ghost predicate RoundSoFar(id: nat, targets: seq<string>, failures: seq<nat>,
                             start: seq<Event>, log: seq<Event>, errors: seq<string>) {
    && |failures| <= |targets| && (forall j :: 0 <= j < |failures| ==> failures[j] <= MAX_RETRIES)
    && log == start + Transcript(id, targets, failures) && errors == Unreached(targets, failures)
  }

  lemma EmptyRound(id: nat, targets: seq<string>, log: seq<Event>)
    ensures RoundSoFar(id, targets, [], log, log, [])
  {
  }

  lemma RoundGoesOn(id: nat, targets: seq<string>, failures: seq<nat>, n: nat,
                    start: seq<Event>, before: seq<Event>, log: seq<Event>, errors: seq<string>)
    requires RoundSoFar(id, targets, failures, start, before, errors) && |failures| < |targets| && n <= MAX_RETRIES
    requires log == before + Attempts(id, targets[|failures|], n)
    ensures
      var more := if n == MAX_RETRIES then errors + [targets[|failures|]] else errors;
      RoundSoFar(id, targets, failures + [n], start, log, more)
  {
    RoundGrows(id, targets, failures, n);
    hide Transcript, Unreached, Attempts;
  }

  lemma RoundGrows(id: nat, targets: seq<string>, failures: seq<nat>, n: nat)
    requires |failures| < |targets|
    ensures
      var url := targets[|failures|];
      && Transcript(id, targets, failures + [n]) == Transcript(id, targets, failures) + Attempts(id, url, n)
      && Unreached(targets, failures + [n]) == Unreached(targets, failures) + if n == MAX_RETRIES then [url] else []
  {
    hide Attempts;
    assert (failures + [n])[..|failures|] == failures;
  }

  lemma RoundEnds(id: nat, targets: seq<string>, failures: seq<nat>,
                  start: seq<Event>, log: seq<Event>, errors: seq<string>)
    requires RoundSoFar(id, targets, failures, start, log, errors)
    ensures |failures| == |targets| ==>
      && IsRound(targets, failures) && log == start + Transcript(id, targets, failures)
      && errors == Unreached(targets, failures) && (errors == [] <==> !Exhausted(failures))
  {
    UnreachedIff(targets, failures);
    hide Transcript, Unreached, Exhausted;
  }

  lemma FailsNone(id: nat, url: string)
    ensures Fails(id, url, 0) == []
  {
  }

  lemma FailsGrow(start: seq<Event>, id: nat, url: string, n: nat)
    ensures start + Fails(id, url, n) + [Failed(id, url)] == start + Fails(id, url, n + 1)
  {
  }

  lemma NewOnesStayOrdered(pending: seq<nat>, delivered: nat, n: nat)
    requires Ascending(pending) && forall id: nat :: id in pending ==> id < delivered
    ensures Ascending(pending + Ids(delivered, n))
    ensures forall id: nat :: id in Ids(delivered, n) <==> delivered <= id < delivered + n
  {
    BatchAscends(pending, delivered, |pending|, n);
    assert pending[..|pending|] == pending;
    forall id | delivered <= id < delivered + n ensures id in Ids(delivered, n) {
      assert Ids(delivered, n)[id - delivered] == id;
    }
  }

  lemma {:induction false} DeliveriesAreLawful(targets: seq<string>, log: seq<Event>, delivered: nat, n: nat)
    requires Lawful(targets, log)
    requires forall id: nat :: Delivered(id) in log <==> id < delivered
    requires forall id: nat :: Acked(id) in log ==> id < delivered
    ensures Lawful(targets, log + Deliveries(delivered, n))
    ensures forall e :: e in Deliveries(delivered, n) <==> e.Delivered? && delivered <= e.id < delivered + n
  {
    if n == 0 {
      assert log + Deliveries(delivered, 0) == log;
    } else {
      DeliveriesAreLawful(targets, log, delivered, n - 1);
      hide Lawful;
      var longer, e := log + Deliveries(delivered, n - 1), Delivered(delivered + n - 1);
      LawfulGrows(targets, longer, e);
      assert longer + [e] == log + Deliveries(delivered, n);
    }
  }
}
