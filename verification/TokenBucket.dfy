// The token-bucket rate limiter: one atomic Redis script over one hash.
//
// A bucket is a Redis hash with the fields `tokens` and `last_time` and an expiry
// deadline. The script refills, decides, writes both fields and renews the deadline.
module TokenBucket {
  import opened Prelude

  datatype Limit = Limit(capacity: real, refill: real) {
    // What the theorems about whole runs assume: tokens can be held and do come back.
    ghost predicate Refilling() {
      capacity >= 0.0 && refill > 0.0
    }

    // Seconds a bucket survives after its last call.
    function Ttl(): int {
      if refill > 0.0 then Ceil(capacity / refill) + 60 else 86400
    }

    // Tokens that flow in between two instants.
    function Accrued(from: real, to: real): real {
      (to - from) * refill
    }
  }

  datatype Key = Missing | Present(tokens: real, last: real, deadline: real) {
    // Redis hides a key once its deadline has passed.
    function At(now: real): Key {
      if Present? && now > deadline then Missing else this
    }
  }

  // `Never` stands for the infinite quotient Lua computes when nothing refills.
  datatype Wait = Seconds(s: real) | Never

  datatype Reply = Reply(allowed: bool, remaining: real, retryAfter: Wait)

  datatype Call = Call(now: real, cost: real)

  // ----- One call -------------------------------------------------------------------

  // Tokens available at `now`: a missing bucket is full.
  function Level(limit: Limit, key: Key, now: real): real {
    match key.At(now)
    case Missing => limit.capacity
    case Present(tokens, last, _) => Min(limit.capacity, tokens + limit.Accrued(last, now))
  }

  // A call is granted when the level covers its cost, and only then pays it.
  predicate Admits(limit: Limit, key: Key, call: Call) {
    Level(limit, key, call.now) >= call.cost
  }

  function Left(level: real, cost: real): real {
    if level >= cost then level - cost else level
  }

  // The answer depends on the level alone.
  function Answer(limit: Limit, level: real, cost: real): Reply {
    if level >= cost then Reply(true, level - cost, Seconds(0.0))
    else Reply(false, level, if limit.refill == 0.0 then Never else Seconds((cost - level) / limit.refill))
  }

  function ReplyTo(limit: Limit, key: Key, call: Call): (reply: Reply)
    ensures reply.allowed <==> Admits(limit, key, call)
    ensures reply.remaining == Left(Level(limit, key, call.now), call.cost)
  {
    Answer(limit, Level(limit, key, call.now), call.cost)
  }

  function After(limit: Limit, key: Key, call: Call): Key {
    Present(Left(Level(limit, key, call.now), call.cost), call.now, call.now + limit.Ttl() as real)
  }

  // What a call answers, by the fields of the key it finds: a key that has outlived its deadline
  // counts for nothing, and what has flowed in since the last call is capped at the capacity.
  lemma ReplyMeans(limit: Limit, stored: Key, call: Call)
    ensures
      var live := stored.Present? && call.now <= stored.deadline;
      var flown := if live then stored.tokens + (call.now - stored.last) * limit.refill else limit.capacity;
      var level := if flown < limit.capacity then flown else limit.capacity;
      var reply := ReplyTo(limit, stored, call);
      && (reply.allowed <==> call.cost <= level)
      && reply.remaining == (if call.cost <= level then level - call.cost else level)
      && (call.cost <= level ==> reply.retryAfter == Seconds(0.0))
      && (level < call.cost && limit.refill == 0.0 ==> reply.retryAfter == Never)
      && (level < call.cost && limit.refill != 0.0 ==>
            reply.retryAfter.Seconds? && reply.retryAfter.s * limit.refill == call.cost - level)
  {
    if limit.refill != 0.0 {
      var short := call.cost - Level(limit, stored, call.now);
      assert (short / limit.refill) * limit.refill == short;
    }
  }

  // And what it leaves: what remains, the time of the call, and a deadline that is a minute more
  // than a full refill away, in whole seconds, or a day if nothing refills.
  lemma KeyMeans(limit: Limit, stored: Key, call: Call)
    ensures
      var key := After(limit, stored, call);
      var life := key.deadline - call.now;
      && key.Present? && key.tokens == ReplyTo(limit, stored, call).remaining && key.last == call.now
      && (limit.refill > 0.0 ==>
            var wait := limit.capacity / limit.refill;
            wait + 60.0 <= life < wait + 61.0 && life.Floor as real == life)
      && (limit.refill <= 0.0 ==> life == 86400.0)
  {
  }

  class Bucket {
    var key: Key

    constructor ()
      ensures key == Missing
    {
      key := Missing;
    }

    // TOKEN_BUCKET_LUA, with the server clock as a parameter.
    method Take(limit: Limit, cost: real, now: real) returns (reply: Reply)
      modifies this
      ensures reply == ReplyTo(limit, old(key), Call(now, cost))
      ensures key == After(limit, old(key), Call(now, cost))
    {
      key := key.At(now);
      var tokens, last := limit.capacity, now;
      if key.Present? {
        tokens, last := key.tokens, key.last;
      }
      var delta := now - last;
      var newTokens := Min(limit.capacity, tokens + delta * limit.refill);
      var allowed := false;
      var retryAfter := Seconds(0.0);
      if newTokens >= cost {
        newTokens := newTokens - cost;
        allowed := true;
      } else if limit.refill == 0.0 {
        retryAfter := Never;
      } else {
        retryAfter := Seconds((cost - newTokens) / limit.refill);
      }
      var ttl := 86400;
      if limit.refill > 0.0 {
        ttl := Ceil(limit.capacity / limit.refill) + 60;
      }
      key := Present(newTokens, now, now + ttl as real);
      reply := Reply(allowed, newTokens, retryAfter);
    }
  }

  // ----- Runs ------------------------------------------------------------------------

  // The stored key before call n of a run that starts from `start`.
  function KeyBefore(limit: Limit, start: Key, calls: seq<Call>, n: nat): Key
    requires n <= |calls|
  {
    if n == 0 then start else After(limit, KeyBefore(limit, start, calls, n - 1), calls[n - 1])
  }

  predicate AdmitsAt(limit: Limit, start: Key, calls: seq<Call>, k: nat)
    requires k < |calls|
  {
    Admits(limit, KeyBefore(limit, start, calls, k), calls[k])
  }

  function ReplyAt(limit: Limit, start: Key, calls: seq<Call>, k: nat): Reply
    requires k < |calls|
  {
    ReplyTo(limit, KeyBefore(limit, start, calls, k), calls[k])
  }

  // Clocks do not run backwards, costs are not negative, and the run begins no
  // earlier than the last use of the bucket it finds.
  ghost predicate Timely(start: Key, calls: seq<Call>) {
    && (forall i, j :: 0 <= i <= j < |calls| ==> calls[i].now <= calls[j].now)
    && (forall i :: 0 <= i < |calls| ==> calls[i].cost >= 0.0)
    && (start.Present? ==> forall i :: 0 <= i < |calls| ==> start.last <= calls[i].now)
  }

  // A key this limit could have written: tokens within the capacity and a deadline
  // at least one full refill plus a minute after the last use.
  ghost predicate Sound(limit: Limit, key: Key) {
    key.Present? ==> 0.0 <= key.tokens <= limit.capacity && key.deadline >= key.last + limit.Ttl() as real
  }

  lemma {:induction false} StoredTokensStayInRange(limit: Limit, start: Key, calls: seq<Call>, n: nat)
    requires limit.Refilling() && Sound(limit, start) && Timely(start, calls) && n <= |calls|
    ensures Sound(limit, KeyBefore(limit, start, calls, n))
    ensures n > 0 ==>
      KeyBefore(limit, start, calls, n).Present? && KeyBefore(limit, start, calls, n).last == calls[n - 1].now
    ensures n < |calls| ==> 0.0 <= Level(limit, KeyBefore(limit, start, calls, n), calls[n].now) <= limit.capacity
  {
    if n == 0 {
    } else {
      StoredTokensStayInRange(limit, start, calls, n - 1);
    }
    if n < |calls| {
      var key := KeyBefore(limit, start, calls, n);
      if key.Present? {
        AccruedIsMonotone(limit, key.last, key.last, calls[n].now);
      }
    }
  }

  lemma AccruedIsMonotone(limit: Limit, t0: real, t1: real, t2: real)
    requires limit.refill >= 0.0 && t1 <= t2
    ensures limit.Accrued(t0, t1) <= limit.Accrued(t0, t2)
    ensures limit.Accrued(t0, t2) == limit.Accrued(t0, t1) + limit.Accrued(t1, t2)
    ensures limit.Accrued(t1, t2) >= 0.0 && limit.Accrued(t0, t0) == 0.0
  {
    assert (t2 - t1) * limit.refill >= 0.0;
    assert (t2 - t0) * limit.refill == (t1 - t0) * limit.refill + (t2 - t1) * limit.refill;
  }

  // After the time to live, everything a bucket may lack has flowed back in.
  lemma LongIdleRefills(limit: Limit, last: real, now: real)
    requires limit.Refilling() && now >= last + limit.Ttl() as real
    ensures limit.Accrued(last, now) >= limit.capacity
  {
    var wait := limit.capacity / limit.refill;
    assert now - last >= wait;
    assert (now - last) * limit.refill >= wait * limit.refill == limit.capacity;
  }

  // ----- Observational equivalence of stored keys ---------------------------------------

  // Two keys that have the same level at every instant from `since` on.
  ghost predicate SameFrom(limit: Limit, a: Key, b: Key, since: real) {
    forall t: real :: t >= since ==> Level(limit, a, t) == Level(limit, b, t)
  }

  // Keys with the same levels are never told apart by any run.
  lemma {:induction false} SameLevelsSameAnswers(limit: Limit, a: Key, b: Key, calls: seq<Call>, k: nat)
    requires Timely(Missing, calls) && k < |calls| && SameFrom(limit, a, b, calls[0].now)
    ensures ReplyAt(limit, a, calls, k) == ReplyAt(limit, b, calls, k)
    ensures k > 0 ==> KeyBefore(limit, a, calls, k) == KeyBefore(limit, b, calls, k)
  {
    if k == 0 {
    } else {
      SameLevelsSameAnswers(limit, a, b, calls, k - 1);
    }
  }

  // Level of a key whose deadline is ignored.
  function Forever(key: Key): Option<(real, real)> {
    if key.Missing? then None else Some((key.tokens, key.last))
  }

  function LevelForever(limit: Limit, kept: Option<(real, real)>, now: real): real {
    match kept
    case None => limit.capacity
    case Some((tokens, last)) => Min(limit.capacity, tokens + limit.Accrued(last, now))
  }

  // The same script on a store that never expires anything.
  function KeptBefore(limit: Limit, calls: seq<Call>, n: nat): Option<(real, real)>
    requires n <= |calls|
  {
    if n == 0 then None
    else
      var call := calls[n - 1];
      var level := LevelForever(limit, KeptBefore(limit, calls, n - 1), call.now);
      Some((Left(level, call.cost), call.now))
  }

  function KeptReplyAt(limit: Limit, calls: seq<Call>, k: nat): Reply
    requires k < |calls|
  {
    Answer(limit, LevelForever(limit, KeptBefore(limit, calls, k), calls[k].now), calls[k].cost)
  }

  lemma ExpiredMeansFull(limit: Limit, key: Key, now: real)
    requires limit.Refilling() && Sound(limit, key) && (key.Present? ==> key.last <= now)
    ensures Level(limit, key, now) == LevelForever(limit, Forever(key), now)
  {
    if key.Present? && now > key.deadline {
      LongIdleRefills(limit, key.last, now);
    }
  }

  // Expiry is invisible: the expiring bucket simulates one that is kept for ever.
  lemma {:induction false} ExpiryIsInvisible(limit: Limit, calls: seq<Call>, k: nat)
    requires limit.Refilling() && Timely(Missing, calls) && k < |calls|
    ensures ReplyAt(limit, Missing, calls, k) == KeptReplyAt(limit, calls, k)
    ensures Forever(KeyBefore(limit, Missing, calls, k)) == KeptBefore(limit, calls, k)
  {
    if k == 0 {
    } else {
      ExpiryIsInvisible(limit, calls, k - 1);
    }
    StoredTokensStayInRange(limit, Missing, calls, k);
    ExpiredMeansFull(limit, KeyBefore(limit, Missing, calls, k), calls[k].now);
  }

  // Without a refill the premise is needed: a drained bucket comes back full after a day.
  lemma ExpiryShowsWithoutRefill(limit: Limit, t: real) returns (calls: seq<Call>)
    requires limit.capacity > 0.0 && limit.refill == 0.0
    ensures |calls| == 2 && Timely(Missing, calls)
    ensures ReplyAt(limit, Missing, calls, 1).allowed && !KeptReplyAt(limit, calls, 1).allowed
  {
    calls := [Call(t, limit.capacity), Call(t + 86401.0, limit.capacity)];
    assert KeyBefore(limit, Missing, calls, 1) == After(limit, KeyBefore(limit, Missing, calls, 0), calls[0]);
    assert KeptBefore(limit, calls, 1) == Some((0.0, t));
  }

  // So expiry can be observed by some run exactly when nothing refills.
  lemma ExpiryIsInvisibleIffRefilling(limit: Limit)
    requires limit.capacity > 0.0 && limit.refill >= 0.0
    ensures limit.refill > 0.0 <==>
      forall calls: seq<Call>, k: nat :: Timely(Missing, calls) && k < |calls| ==>
        ReplyAt(limit, Missing, calls, k) == KeptReplyAt(limit, calls, k)
  {
    if limit.refill > 0.0 {
      forall calls: seq<Call>, k: nat | Timely(Missing, calls) && k < |calls|
        ensures ReplyAt(limit, Missing, calls, k) == KeptReplyAt(limit, calls, k)
      {
        ExpiryIsInvisible(limit, calls, k);
      }
    } else {
      var calls := ExpiryShowsWithoutRefill(limit, 0.0);
      assert ReplyAt(limit, Missing, calls, 1) != KeptReplyAt(limit, calls, 1);
    }
  }

  // ----- Denials -----------------------------------------------------------------------

  lemma DenialChangesNoLevel(limit: Limit, key: Key, call: Call, t: real)
    requires limit.Refilling() && Sound(limit, key) && (key.Present? ==> key.last <= call.now) && call.now <= t
    requires call.cost >= 0.0 && !Admits(limit, key, call)
    ensures Level(limit, After(limit, key, call), t) == Level(limit, key, t)
  {
    var next := After(limit, key, call);
    if key.Present? {
      AccruedIsMonotone(limit, key.last, key.last, call.now);
      AccruedIsMonotone(limit, key.last, call.now, t);
    }
    AccruedIsMonotone(limit, call.now, call.now, t);
    ExpiredMeansFull(limit, key, call.now);
    ExpiredMeansFull(limit, key, t);
    ExpiredMeansFull(limit, next, t);
  }

  // Erasing a denied first call leaves every later answer as it was.
  lemma DenialsAreInvisible(limit: Limit, start: Key, denied: Call, rest: seq<Call>, k: nat)
    requires limit.Refilling() && Sound(limit, start) && Timely(start, [denied] + rest) && k < |rest|
    requires !Admits(limit, start, denied)
    ensures ReplyAt(limit, start, [denied] + rest, k + 1) == ReplyAt(limit, start, rest, k)
  {
    var next := After(limit, start, denied);
    var all := [denied] + rest;
    assert all[0] == denied && all[1] == rest[0];
    assert forall i :: 0 <= i < |rest| ==> rest[i] == all[i + 1];
    forall t: real | t >= rest[0].now ensures Level(limit, next, t) == Level(limit, start, t) {
      DenialChangesNoLevel(limit, start, denied, t);
    }
    SameLevelsSameAnswers(limit, next, start, rest, k);
    ShiftRun(limit, start, denied, rest, k);
  }

  lemma {:induction false} ShiftRun(limit: Limit, start: Key, first: Call, rest: seq<Call>, k: nat)
    requires k <= |rest|
    ensures KeyBefore(limit, start, [first] + rest, k + 1) == KeyBefore(limit, After(limit, start, first), rest, k)
  {
    var all := [first] + rest;
    if k == 0 {
      assert KeyBefore(limit, start, all, 1) == After(limit, KeyBefore(limit, start, all, 0), all[0]);
    } else {
      ShiftRun(limit, start, first, rest, k - 1);
      assert all[k] == rest[k - 1];
    }
  }

  // A whole run of denials leaves the levels as they were.
  lemma {:induction false} DenialsKeepLevels(limit: Limit, start: Key, calls: seq<Call>, n: nat, t: real)
    requires limit.Refilling() && Sound(limit, start) && Timely(start, calls) && n <= |calls|
    requires forall k :: 0 <= k < n ==> !AdmitsAt(limit, start, calls, k)
    requires n > 0 ==> calls[n - 1].now <= t
    ensures Level(limit, KeyBefore(limit, start, calls, n), t) == Level(limit, start, t)
  {
    if n == 0 {
    } else {
      DenialsKeepLevels(limit, start, calls, n - 1, t);
      StoredTokensStayInRange(limit, start, calls, n - 1);
      assert !AdmitsAt(limit, start, calls, n - 1);
      DenialChangesNoLevel(limit, KeyBefore(limit, start, calls, n - 1), calls[n - 1], t);
    }
  }

  // retry_after is exact. After a denial with hint w, and whatever further denials
  // follow, a call of the same cost is granted at t exactly from the hinted instant on.
  lemma RetryAfterIsExact(limit: Limit, start: Key, calls: seq<Call>, t: real)
    requires limit.Refilling() && Sound(limit, start) && Timely(start, calls) && |calls| > 0
    requires forall k :: 0 <= k < |calls| ==> !AdmitsAt(limit, start, calls, k)
    requires calls[0].cost <= limit.capacity && calls[|calls| - 1].now <= t
    ensures ReplyAt(limit, start, calls, 0).retryAfter.Seconds?
    ensures
      var hint := ReplyAt(limit, start, calls, 0).retryAfter.s;
      hint > 0.0 &&
      (Admits(limit, KeyBefore(limit, start, calls, |calls|), Call(t, calls[0].cost))
       <==> t >= calls[0].now + hint)
  {
    DenialsKeepLevels(limit, start, calls, |calls|, t);
    LevelGrows(limit, start, calls[0].now, t);
    assert !AdmitsAt(limit, start, calls, 0);
    assert KeyBefore(limit, start, calls, 0) == start;
    LevelReaches(limit, Level(limit, start, calls[0].now), calls[0].cost, calls[0].now, t);
  }

  lemma LevelReaches(limit: Limit, level: real, cost: real, from: real, to: real)
    requires limit.Refilling() && level < cost <= limit.capacity && from <= to
    ensures var hint := (cost - level) / limit.refill;
      hint > 0.0 && (Min(limit.capacity, level + limit.Accrued(from, to)) >= cost <==> to >= from + hint)
  {
    var hint := (cost - level) / limit.refill;
    var waited := to - from;
    assert hint * limit.refill == cost - level;
    assert hint <= 0.0 ==> hint * limit.refill <= 0.0;
    assert limit.Accrued(from, to) == waited * limit.refill;
    assert (waited - hint) * limit.refill == waited * limit.refill - hint * limit.refill;
    if waited >= hint {
      assert (waited - hint) * limit.refill >= 0.0;
    } else {
      assert (waited - hint) * limit.refill < 0.0;
    }
  }

  // Between calls the level rises at the refill rate until it meets the capacity.
  lemma LevelGrows(limit: Limit, key: Key, from: real, to: real)
    requires limit.Refilling() && Sound(limit, key) && (key.Present? ==> key.last <= from) && from <= to
    ensures Level(limit, key, to) == Min(limit.capacity, Level(limit, key, from) + limit.Accrued(from, to))
  {
    AccruedIsMonotone(limit, from, from, to);
    ExpiredMeansFull(limit, key, from);
    ExpiredMeansFull(limit, key, to);
    if key.Present? {
      AccruedIsMonotone(limit, key.last, from, to);
    }
  }

  // A cost above the capacity is refused whenever it comes.
  lemma OversizedIsNeverGranted(limit: Limit, key: Key, call: Call)
    requires limit.Refilling() && call.cost > limit.capacity
    ensures !Admits(limit, key, call)
  {
  }

  // ----- The Retry-After header ----------------------------------------------------------

  // What the proxy sends with a 429: the hint floored to whole seconds, at least one.
  function RetryHeader(hint: real): int {
    MaxInt(1, hint.Floor)
  }

  // A client that waits the advertised whole seconds is served exactly when nothing was
  // lost by flooring; one second more always suffices.
  lemma HeaderSufficesIffNothingWasFloored(limit: Limit, start: Key, denied: Call)
    requires limit.Refilling() && Sound(limit, start) && Timely(start, [denied])
    requires !Admits(limit, start, denied) && denied.cost <= limit.capacity
    ensures ReplyTo(limit, start, denied).retryAfter.Seconds?
    ensures
      var hint := ReplyTo(limit, start, denied).retryAfter.s;
      var later := After(limit, start, denied);
      var header := RetryHeader(hint) as real;
      && (Admits(limit, later, Call(denied.now + header, denied.cost))
          <==> hint <= 1.0 || hint.Floor as real == hint)
      && Admits(limit, later, Call(denied.now + header + 1.0, denied.cost))
  {
    var calls := [denied];
    var hint := ReplyTo(limit, start, denied).retryAfter.s;
    var header := RetryHeader(hint) as real;
    assert KeyBefore(limit, start, calls, 0) == start;
    assert KeyBefore(limit, start, calls, 1) == After(limit, start, denied);
    RetryAfterIsExact(limit, start, calls, denied.now + header);
    RetryAfterIsExact(limit, start, calls, denied.now + header + 1.0);
  }

  // It does happen that something is lost: a bucket for one token that refills in two seconds,
  // drained at 0 and asked again at 0.75, advertises one second and denies the call that waits it.
  lemma HeaderIsTooShort() returns (limit: Limit, calls: seq<Call>)
    ensures limit.Refilling() && |calls| == 3 && Timely(Missing, calls)
    ensures AdmitsAt(limit, Missing, calls, 0) && !AdmitsAt(limit, Missing, calls, 1)
    ensures
      var wait := ReplyAt(limit, Missing, calls, 1).retryAfter;
      && wait.Seconds? && calls[2].now == calls[1].now + RetryHeader(wait.s) as real
      && calls[2].cost == calls[1].cost && !AdmitsAt(limit, Missing, calls, 2)
  {
    limit := Limit(1.0, 0.5);
    calls := [Call(0.0, 1.0), Call(0.75, 1.0), Call(1.75, 1.0)];
    assert limit.Ttl() == 62 by { assert 1.0 / 0.5 == 2.0; }
    assert KeyBefore(limit, Missing, calls, 1) == After(limit, KeyBefore(limit, Missing, calls, 0), calls[0]);
    assert KeyBefore(limit, Missing, calls, 1) == Present(0.0, 0.0, 62.0);
    assert limit.Accrued(0.0, 0.75) == 0.375;
    assert KeyBefore(limit, Missing, calls, 2) == After(limit, KeyBefore(limit, Missing, calls, 1), calls[1]);
    assert KeyBefore(limit, Missing, calls, 2) == Present(0.375, 0.75, 62.75);
    assert limit.Accrued(0.75, 1.75) == 0.5;
    assert ReplyAt(limit, Missing, calls, 1).retryAfter == Seconds((1.0 - 0.375) / 0.5);
    assert (1.0 - 0.375) / 0.5 == 1.25 && 1.25.Floor == 1;
  }
}
