// One instance at work: the operations of the store and a login, with nothing in between.
module Gateway {
  import opened Prelude
  import opened KeyStore
  import opened TtlCache
  import opened Auth

  // ----- Left alone -----------------------------------------------------------------------------------

  function Rank<T>(fetch: Fetch<T>): nat {
    match fetch
    case AtRow => 5
    case AtCopy(_) => 4
    case AtBackfill(_, TheRow) => 3
    case AtBackfill(_, TheCopy) => 2
    case AtBackfill(_, TheCache) => 1
  }

  // A read of the store to its end, from event n on: what it finds, what it leaves, and the number
  // of the event that comes next.
  function FetchOn(local: Local, key: string, fetch: Fetch<Record>, n: nat): (Fetched<Record>, Local, nat)
    decreases Rank(fetch)
  {
    var (fetched, left) := FetchKey(local, key, fetch, false, n);
    if fetched.Going? then FetchOn(left, key, fetched.fetch, n + 1) else (fetched, left, n + 1)
  }

  function FetchTierOn(local: Local, name: string, fetch: Fetch<Tier>, n: nat): (Fetched<Tier>, Local, nat)
    decreases Rank(fetch)
  {
    var (fetched, left) := FetchTier(local, name, fetch, false, n);
    if fetched.Going? then FetchTierOn(left, name, fetched.fetch, n + 1) else (fetched, left, n + 1)
  }

  function ProgressRank(progress: Progress): nat {
    match progress
    case Fetching(again, fetch) => Rank(fetch) + if again then 10 else 20
    case Resolved => 20
    case HasRecord(_) => 9
    case FetchingTier(_, fetch) => Rank(fetch) + 3
    case ReadTier(_, _) => 2
    case Ready(_, _) => 1
    case _ => 0
  }

  // What a login comes to when its instance does nothing else until it is done.
  function Finish(settings: Settings, local: Local, login: Login, n: nat, now: real): (Progress, Local)
    decreases ProgressRank(login.progress)
  {
    if login.progress.Over() then (login.progress, local)
    else
      var (progress, left) := Advance(settings, local, login, false, n, now);
      Finish(settings, left, login.(progress := progress), n + 1, now)
  }

  // What an operation comes to.
  function Performed(local: Local, operation: Operation, part: Part): Local
    decreases match part case TheRow => 3 case TheCopy => 2 case TheCache => 1
  {
    var (left, stage) := Perform(local, operation, part);
    if stage.Todo? && stage == Next(part) then Performed(left, operation, stage.part) else left
  }

  // Both are runs of the machine.
  lemma {:induction false} FinishIsARun(settings: Settings, world: World, c: LoginId, now: real)
    returns (events: seq<Event>)
    requires c in world.logins
    ensures forall k :: 0 <= k < |events| ==> events[k] == Event(Step(c, false), now)
    ensures
      var login, last := world.logins[c], Run(settings, world, events).Last();
      && c in last.logins
      && (last.logins[c].progress, last.LocalOf(login.instance))
         == Finish(settings, world.LocalOf(login.instance), login, world.events, now)
    decreases ProgressRank(world.logins[c].progress)
  {
    hide AfterEvent, Advance;
    var login, step := world.logins[c], Event(Step(c, false), now);
    if login.progress.Over() {
      events := [];
    } else {
      var next := AfterEvent(settings, world, step);
      LoginSteps(settings, world, c, false, now);
      AdvanceRanksLower(settings, world.LocalOf(login.instance), login, world.events, now);
      assert next.LocalOf(login.instance)
          == Advance(settings, world.LocalOf(login.instance), login, false, world.events, now).1;
      var rest := FinishIsARun(settings, next, c, now);
      events := [step] + rest;
      FirstStep(settings, world, step, rest);
    }
  }

  lemma AdvanceRanksLower(settings: Settings, local: Local, login: Login, n: nat, now: real)
    requires !login.progress.Over()
    ensures ProgressRank(Advance(settings, local, login, false, n, now).0) < ProgressRank(login.progress)
  {
    hide Found, AfterGet, AfterSet;
  }

  lemma {:induction false} PerformedIsARun(settings: Settings, world: World, j: JobId, now: real)
    returns (events: seq<Event>)
    requires j in world.jobs && world.jobs[j].stage.Todo?
    ensures forall k :: 0 <= k < |events| ==> events[k] == Event(Work(j), now)
    ensures
      var job, last := world.jobs[j], Run(settings, world, events).Last();
      && j in last.jobs && last.jobs[j].stage == Done
      && last.LocalOf(job.instance) == Performed(world.LocalOf(job.instance), job.operation, job.stage.part)
    decreases match world.jobs[j].stage.part case TheRow => 3 case TheCopy => 2 case TheCache => 1
  {
    hide AfterEvent;
    var job, work := world.jobs[j], Event(Work(j), now);
    var next := AfterEvent(settings, world, work);
    JobWorks(settings, world, j, now);
    var (left, stage) := Perform(world.LocalOf(job.instance), job.operation, job.stage.part);
    assert next.LocalOf(job.instance) == left && (stage == Done || stage == Next(job.stage.part));
    hide Perform;
    if stage == Done {
      events := [work];
      OneEvent(settings, world, work);
    } else {
      var rest := PerformedIsARun(settings, next, j, now);
      events := [work] + rest;
      FirstStep(settings, world, work, rest);
    }
  }

  // A login takes the steps of its reads one after the other.
  lemma {:induction false} FinishFetches(settings: Settings, local: Local, login: Login, n: nat, now: real)
    requires login.progress.Fetching?
    ensures
      var (fetched, left, next) := FetchOn(local, login.key, login.progress.fetch, n);
      Finish(settings, local, login, n, now)
      == Finish(settings, left, login.(progress := AfterFetch(login.progress.again, fetched)), next, now)
    decreases Rank(login.progress.fetch)
  {
    var (fetched, left) := FetchKey(local, login.key, login.progress.fetch, false, n);
    var next := login.(progress := AfterFetch(login.progress.again, fetched));
    assert fetched.Going? ==> Rank(fetched.fetch) < Rank(login.progress.fetch);
    hide FetchKey;
    assert Finish(settings, local, login, n, now) == Finish(settings, left, next, n + 1, now);
    if !fetched.Going? {
    } else {
      FinishFetches(settings, left, next, n + 1, now);
    }
  }

  lemma {:induction false} FinishFetchesTier(settings: Settings, local: Local, login: Login, n: nat, now: real)
    requires login.progress.FetchingTier?
    ensures
      var record := login.progress.record;
      var (fetched, left, next) := FetchTierOn(local, record.value.tier, login.progress.tierFetch, n);
      Finish(settings, local, login, n, now)
      == Finish(settings, left, login.(progress := AfterTierFetch(settings, record, fetched)), next, now)
    decreases Rank(login.progress.tierFetch)
  {
    var record := login.progress.record;
    var (fetched, left) := FetchTier(local, record.value.tier, login.progress.tierFetch, false, n);
    var next := login.(progress := AfterTierFetch(settings, record, fetched));
    assert fetched.Going? ==> Rank(fetched.fetch) < Rank(login.progress.tierFetch);
    hide FetchTier;
    assert Finish(settings, local, login, n, now) == Finish(settings, left, next, n + 1, now);
    if !fetched.Going? {
    } else {
      FinishFetchesTier(settings, left, next, n + 1, now);
    }
  }

  // A read in one go: the row, else the copy, which is then written back, ...
  lemma FetchOnIs(local: Local, key: string, n: nat)
    ensures
      var store := local.store;
      FetchOn(local, key, AtRow, n) ==
        if key in store.keys then (Got(Stamped(store.keys[key], FromRow(n))), local, n + 1)
        else
          match store.CopyOf(key)
          case None => (Nothing(n, n + 1), local, n + 2)
          case Some(Partial) => (Unreadable, local, n + 2)
          case Some(Whole(record)) =>
            (Got(Stamped(record, FromCopy(n, n + 1))),
             local.(store := store.PutKey(key, record).PutKeyCopy(key, record)).ForgetKey(key), n + 5)
  {
    hide Without;
    var store := local.store;
    if key !in store.keys {
      assert FetchOn(local, key, AtRow, n) == FetchOn(local, key, AtCopy(n), n + 1);
      match store.CopyOf(key) {
        case Some(Whole(record)) =>
          var found := Stamped(record, FromCopy(n, n + 1));
          BackfillIs(local, key, found, n + 2);
          assert FetchOn(local, key, AtCopy(n), n + 1) == FetchOn(local, key, AtBackfill(found, TheRow), n + 2);
        case _ =>
      }
    }
  }

  lemma FetchOnEnds(local: Local, key: string, n: nat)
    ensures
      var fetched := FetchOn(local, key, AtRow, n).0;
      if local.store.Gone(key) then fetched.Nothing? else fetched.Got? || fetched.Unreadable?
  {
    FetchOnIs(local, key, n);
    hide FetchOn;
  }

  lemma BackfillIs(local: Local, key: string, found: Stamped<Record>, n: nat)
    ensures
      FetchOn(local, key, AtBackfill(found, TheRow), n)
      == (Got(found),
          local.(store := local.store.PutKey(key, found.value).PutKeyCopy(key, found.value)).ForgetKey(key), n + 3)
  {
    hide Without;
    var rowed := local.(store := local.store.PutKey(key, found.value));
    var copied := rowed.(store := rowed.store.PutKeyCopy(key, found.value));
    assert FetchOn(local, key, AtBackfill(found, TheRow), n) == FetchOn(rowed, key, AtBackfill(found, TheCopy), n + 1);
    assert FetchOn(rowed, key, AtBackfill(found, TheCopy), n + 1)
        == FetchOn(copied, key, AtBackfill(found, TheCache), n + 2);
  }

  // ... and the same for a tier.
  lemma FetchTierOnIs(local: Local, name: string, n: nat)
    ensures
      var store := local.store;
      FetchTierOn(local, name, AtRow, n) ==
        if name in store.tiers then (Got(Stamped(store.tiers[name], FromRow(n))), local, n + 1)
        else if name !in store.tierCopies then (Nothing(n, n + 1), local, n + 2)
        else
          var tier := store.tierCopies[name];
          (Got(Stamped(tier, FromCopy(n, n + 1))),
           local.(store := store.PutTier(name, tier).PutTierCopy(name, tier)), n + 4)
  {
    var store := local.store;
    if name !in store.tiers {
      assert FetchTierOn(local, name, AtRow, n) == FetchTierOn(local, name, AtCopy(n), n + 1);
      if name in store.tierCopies {
        var found := Stamped(store.tierCopies[name], FromCopy(n, n + 1));
        var rowed := local.(store := store.PutTier(name, found.value));
        assert FetchTierOn(local, name, AtCopy(n), n + 1)
            == FetchTierOn(local, name, AtBackfill(found, TheRow), n + 2)
            == FetchTierOn(rowed, name, AtBackfill(found, TheCopy), n + 3);
      }
    }
  }

  // Left alone, a login is refused exactly when the key is gone, breaks exactly when there is no
  // row and its copy cannot be read, and is granted in all other cases.
  lemma LoginAloneIff(settings: Settings, local: Local, login: Login, n: nat, now: real)
    requires login.progress == Fetching(false, AtRow)
    ensures
      var progress := Finish(settings, local, login, n, now).0;
      && (progress.Refused? <==> local.store.Gone(login.key))
      && (progress.Broken? <==> login.key !in local.store.keys && local.store.CopyOf(login.key) == Some(Partial))
      && (progress.Granted? || progress.Refused? || progress.Broken?)
  {
    FinishFetches(settings, local, login, n, now);
    FetchOnIs(local, login.key, n);
    var (fetched, left, next) := FetchOn(local, login.key, AtRow, n);
    hide FetchOn, Advance;
    if fetched.Got? {
      ResolvedIsGranted(settings, left, login.(progress := Resolved), next, now);
    }
  }

  // What a login left alone is granted: with a row and a live entry in the key cache, the pair that
  // is cached; else the record of the row or the copy, with the tier of a live entry in the tier
  // cache, else that of its row, its copy, or the default.
  lemma LoginMeans(settings: Settings, local: Local, login: Login, n: nat, now: real)
    requires login.progress == Fetching(false, AtRow)
    requires Distinct(local.caches.keys) && Distinct(local.caches.tiers)
    ensures
      var store, caches, key := local.store, local.caches, login.key;
      var progress := Finish(settings, local, login, n, now).0;
      progress.Granted? ==>
        var record, tier := progress.record.value, progress.tier;
        && (forall e :: e in caches.keys && e.key == key && now <= e.expires && key in store.keys ==>
              progress == Granted(e.value.0, e.value.1))
        && (key !in store.keys || (forall e :: e in caches.keys && e.key == key ==> now > e.expires) ==>
              && (if key in store.keys then record == store.keys[key]
                  else key in store.keyCopies && store.keyCopies[key] == Whole(record))
              && (forall e :: e in caches.tiers && e.key == record.tier && now <= e.expires ==> tier == e.value)
              && ((forall e :: e in caches.tiers && e.key == record.tier ==> now > e.expires) ==>
                    tier.value ==
                      if record.tier in store.tiers then store.tiers[record.tier]
                      else if record.tier in store.tierCopies then store.tierCopies[record.tier]
                      else settings.defaultTier))
  {
    hide FetchOn, Advance, Finish, Found, Distinct, Without;
    LoginAloneIff(settings, local, login, n, now);
    FinishFetches(settings, local, login, n, now);
    FetchOnIs(local, login.key, n);
    var (fetched, left, next) := FetchOn(local, login.key, AtRow, n);
    if fetched.Got? {
      FoundIsLive(local.caches.keys, login.key, now);
      ResolvedIsGranted(settings, left, login.(progress := Resolved), next, now);
      if login.key !in local.store.keys {
        WithoutIsDistinct(local.caches.keys, login.key);
        FoundIsLive(left.caches.keys, login.key, now);
      }
      FoundIsLive(local.caches.tiers, fetched.found.value.tier, now);
    }
  }

  // The tier that a record of a tier of this name is granted with.
  ghost predicate GivenTier(settings: Settings, local: Local, name: string, now: real, tier: Stamped<Tier>) {
    var found, store := Found(local.caches.tiers, name, now), local.store;
    if found.Some? then tier == found.value
    else
      tier.value ==
        if name in store.tiers then store.tiers[name]
        else if name in store.tierCopies then store.tierCopies[name]
        else settings.defaultTier
  }

  lemma ResolvedIsGranted(settings: Settings, local: Local, login: Login, n: nat, now: real)
    requires login.progress == Resolved && login.key in local.store.keys
    ensures
      var progress := Finish(settings, local, login, n, now).0;
      var found := Found(local.caches.keys, login.key, now);
      progress.Granted? &&
      if found.Some? then progress == Granted(found.value.0, found.value.1)
      else
        && progress.record.value == local.store.keys[login.key]
        && GivenTier(settings, local, progress.record.value.tier, now, progress.tier)
  {
    hide Found, AfterGet, AfterSet, FetchTierOn, FetchOn, GivenTier;
    if Found(local.caches.keys, login.key, now).None? {
      var left := local.(caches := local.caches.(keys := AfterGet(local.caches.keys, login.key, now)));
      var record := Stamped(local.store.keys[login.key], FromRow(n + 1));
      assert Finish(settings, local, login, n, now)
          == Finish(settings, left, login.(progress := Fetching(true, AtRow)), n + 1, now);
      assert Finish(settings, left, login.(progress := Fetching(true, AtRow)), n + 1, now)
          == Finish(settings, left, login.(progress := HasRecord(record)), n + 2, now);
      RecordIsGranted(settings, left, login.(progress := HasRecord(record)), n + 2, now);
      SameTierGiven(settings, left, local, record.value.tier, now);
    }
  }

  lemma SameTierGiven(settings: Settings, a: Local, b: Local, name: string, now: real)
    requires a.store == b.store && a.caches.tiers == b.caches.tiers
    ensures forall tier :: GivenTier(settings, a, name, now, tier) ==> GivenTier(settings, b, name, now, tier)
  {
  }

  lemma RecordIsGranted(settings: Settings, local: Local, login: Login, n: nat, now: real)
    requires login.progress.HasRecord?
    ensures
      var progress := Finish(settings, local, login, n, now).0;
      progress.Granted? && progress.record == login.progress.record &&
      GivenTier(settings, local, progress.record.value.tier, now, progress.tier)
  {
    hide Found, AfterGet, AfterSet, FetchTierOn, FetchOn, FetchTier;
    var record := login.progress.record;
    var name := record.value.tier;
    var found := Found(local.caches.tiers, name, now);
    var left := local.(caches := local.caches.(tiers := AfterGet(local.caches.tiers, name, now)));
    if found.None? {
      var fetching := login.(progress := FetchingTier(record, AtRow));
      assert Finish(settings, local, login, n, now) == Finish(settings, left, fetching, n + 1, now);
      FinishFetchesTier(settings, left, fetching, n + 1, now);
      FetchTierOnIs(left, name, n + 1);
      var (fetched, fetchedLeft, next) := FetchTierOn(left, name, AtRow, n + 1);
      var read := login.(progress := AfterTierFetch(settings, record, fetched));
      assert read.progress.ReadTier?;
      TierIsGranted(settings, fetchedLeft, read, next, now);
    } else {
      TierIsGranted(settings, left, login.(progress := Ready(record, found.value)), n + 1, now);
    }
  }

  lemma TierIsGranted(settings: Settings, local: Local, login: Login, n: nat, now: real)
    requires login.progress.ReadTier? || login.progress.Ready?
    ensures Finish(settings, local, login, n, now).0 == Granted(login.progress.record, login.progress.tier)
    decreases ProgressRank(login.progress)
  {
    hide AfterSet;
    if login.progress.ReadTier? {
      var (progress, left) := Advance(settings, local, login, false, n, now);
      TierIsGranted(settings, left, login.(progress := progress), n + 1, now);
    }
  }

  // ----- The operations in one go ------------------------------------------------------------------

  lemma SaveIs(local: Local, key: string, record: Record)
    ensures Performed(local, SaveKey(key, record), TheRow)
         == local.(store := local.store.PutKey(key, record).PutKeyCopy(key, record)).ForgetKey(key)
  {
    hide Without;
    var rowed := local.(store := local.store.PutKey(key, record));
    var copied := rowed.(store := rowed.store.PutKeyCopy(key, record));
    assert Performed(local, SaveKey(key, record), TheRow) == Performed(rowed, SaveKey(key, record), TheCopy);
    assert Performed(rowed, SaveKey(key, record), TheCopy) == Performed(copied, SaveKey(key, record), TheCache);
  }

  lemma DeleteIs(local: Local, key: string)
    ensures Performed(local, DeleteKey(key), TheRow) ==
      if key in local.store.keys then local.(store := local.store.DropKey(key).DropKeyCopy(key)).ForgetKey(key)
      else local
  {
    hide Without;
    var dropped := local.(store := local.store.DropKey(key));
    if key in local.store.keys {
      assert Performed(local, DeleteKey(key), TheRow) == Performed(dropped, DeleteKey(key), TheCopy);
    } else {
      assert dropped == local;
    }
  }

  lemma CountIs(local: Local, key: string)
    ensures Performed(local, CountRequest(key), TheRow)
         == local.(store := local.store.CountOnCopy(key)).ForgetKey(key)
  {
    hide Without;
    assert Performed(local, CountRequest(key), TheRow) == Performed(local, CountRequest(key), TheCopy);
  }

  lemma SaveTierIs(local: Local, name: string, tier: Tier)
    ensures Performed(local, SaveTier(name, tier), TheRow)
         == local.(store := local.store.PutTier(name, tier).PutTierCopy(name, tier)).ForgetTier(name)
  {
    hide Without;
    var rowed := local.(store := local.store.PutTier(name, tier));
    var copied := rowed.(store := rowed.store.PutTierCopy(name, tier));
    assert Performed(local, SaveTier(name, tier), TheRow) == Performed(rowed, SaveTier(name, tier), TheCopy);
    assert Performed(rowed, SaveTier(name, tier), TheCopy) == Performed(copied, SaveTier(name, tier), TheCache);
  }

  lemma DeleteTierIs(local: Local, name: string)
    ensures Performed(local, DeleteTier(name), TheRow)
         == local.(store := local.store.DropTier(name).DropTierCopy(name)).ForgetTier(name)
  {
    hide Without;
    var dropped := local.(store := local.store.DropTier(name));
    assert Performed(local, DeleteTier(name), TheRow) == Performed(dropped, DeleteTier(name), TheCopy);
  }

  lemma FinishSteps(settings: Settings, local: Local, login: Login, n: nat, now: real)
    requires !login.progress.Over()
    ensures
      var (progress, left) := Advance(settings, local, login, false, n, now);
      Finish(settings, local, login, n, now) == Finish(settings, left, login.(progress := progress), n + 1, now)
  {
  }

  // ----- The instance ------------------------------------------------------------------------------

  datatype Verdict = Accepted(record: Record, tier: Tier, keyId: string) | Denied(status: int) | Failed

  // The checks of the record itself. An expiry of zero never expires.
  function Judge(record: Record, clock: int, addressAllowed: Record -> bool): Option<int> {
    if !record.active then Some(401)
    else if record.expiresAt.Some? && record.expiresAt.value != 0 && clock >= record.expiresAt.value then Some(401)
    else if !addressAllowed(record) then Some(403)
    else None
  }

  function Judged(record: Record, tier: Tier, key: string, clock: int, addressAllowed: Record -> bool): Verdict {
    match Judge(record, clock, addressAllowed)
    case Some(status) => Denied(status)
    case None => Accepted(record, tier, key)
  }

  function VerdictOn(progress: Progress, key: string, clock: int, addressAllowed: Record -> bool): Verdict {
    match progress
    case Granted(record, tier) => Judged(record.value, tier.value, key, clock, addressAllowed)
    case Refused(_, _) => Denied(401)
    case _ => Failed
  }

  function Ended(end: (Progress, Local), key: string, clock: int, addressAllowed: Record -> bool): (Verdict, Local) {
    (VerdictOn(end.0, key, clock, addressAllowed), end.1)
  }

  // The first of the identifiers that the store knows, or how many there are.
  function FirstKnown(store: Stores, ids: seq<string>): (i: nat)
    ensures i <= |ids| && (i < |ids| ==> !store.Gone(ids[i]))
    ensures forall j :: 0 <= j < i ==> store.Gone(ids[j])
  {
    if ids == [] || !store.Gone(ids[0]) then 0 else 1 + FirstKnown(store, ids[1..])
  }

  lemma FirstKnownIs(store: Stores, ids: seq<string>, i: nat)
    requires i <= |ids| && (forall j :: 0 <= j < i ==> store.Gone(ids[j])) && (i < |ids| ==> !store.Gone(ids[i]))
    ensures FirstKnown(store, ids) == i
  {
    assert !(FirstKnown(store, ids) < i);
  }

  // The database and Redis.
  class Shared {
    var store: Stores

    constructor (store: Stores)
      ensures this.store == store
    {
      this.store := store;
    }
  }

  class Instance {
    const settings: Settings
    const shared: Shared
    const keyCache: TTLCache<(Stamped<Record>, Stamped<Tier>)>
    const tierCache: TTLCache<Stamped<Tier>>

    constructor (settings: Settings, shared: Shared)
      ensures this.settings == settings && this.shared == shared && Valid() && fresh(keyCache) && fresh(tierCache)
      ensures Here() == Local(shared.store, Caches([], []))
    {
      this.settings := settings;
      this.shared := shared;
      keyCache := new TTLCache<(Stamped<Record>, Stamped<Tier>)>(settings.bounds.ttl, settings.bounds.maxsize);
      tierCache := new TTLCache<Stamped<Tier>>(settings.bounds.ttl, settings.bounds.maxsize);
    }

    ghost predicate Valid()
      reads this, keyCache, tierCache
    {
      && keyCache.Valid() && keyCache.ttl == settings.bounds.ttl && keyCache.maxsize == settings.bounds.maxsize
      && tierCache.Valid() && tierCache.ttl == settings.bounds.ttl && tierCache.maxsize == settings.bounds.maxsize
    }

    // What the instance sees of the machine.
    ghost function Here(): Local
      reads this, shared, keyCache, tierCache
    {
      Local(shared.store, Caches(keyCache.data, tierCache.data))
    }

    // save_key_record
    method SaveKeyRecord(key: string, record: Record)
      requires Valid()
      modifies shared, keyCache`data
      ensures Valid() && Here() == Performed(old(Here()), SaveKey(key, record), TheRow)
      // The row and the copy of the key are replaced, and an expiry that only the copy has stays.
      ensures
        var before, after := old(shared.store), shared.store;
        var kept := record.expiresAt.None? && key in before.keyCopies && before.keyCopies[key].Whole?;
        var copied := if kept then record.(expiresAt := before.keyCopies[key].record.expiresAt) else record;
        && after.keys == before.keys[key := record] && after.keyCopies == before.keyCopies[key := Whole(copied)]
        && after.tiers == before.tiers && after.tierCopies == before.tierCopies
      ensures forall e :: e in keyCache.data <==> e in old(keyCache.data) && e.key != key
    {
      SaveIs(Here(), key, record);
      shared.store := shared.store.PutKey(key, record);
      shared.store := shared.store.PutKeyCopy(key, record);
      keyCache.Delete(key);
    }

    // delete_key_record
    method DeleteKeyRecord(key: string) returns (deleted: bool)
      requires Valid()
      modifies shared, keyCache`data
      ensures Valid() && Here() == Performed(old(Here()), DeleteKey(key), TheRow)
      ensures deleted <==> key in old(shared.store.keys)
      // A key without a row keeps its copy and its cache entry.
      ensures
        var before, after := old(shared.store), shared.store;
        && after.keys == before.keys - {key}
        && after.keyCopies == (if deleted then before.keyCopies - {key} else before.keyCopies)
        && after.tiers == before.tiers && after.tierCopies == before.tierCopies
      ensures forall e :: e in keyCache.data <==> e in old(keyCache.data) && (deleted ==> e.key != key)
    {
      DeleteIs(Here(), key);
      deleted := key in shared.store.keys;
      if deleted {
        shared.store := shared.store.DropKey(key);
        shared.store := shared.store.DropKeyCopy(key);
        keyCache.Delete(key);
      }
    }

    // increment_request_count
    method CountRequest(key: string)
      requires Valid()
      modifies shared, keyCache`data
      ensures Valid() && Here() == Performed(old(Here()), Operation.CountRequest(key), TheRow)
      // A missing copy is created with nothing but the count.
      ensures
        var before, after := old(shared.store), shared.store;
        && after.keys == before.keys && after.tiers == before.tiers && after.tierCopies == before.tierCopies
        && after.keyCopies ==
             (if key in before.keyCopies then before.keyCopies else before.keyCopies[key := Partial])
      ensures forall e :: e in keyCache.data <==> e in old(keyCache.data) && e.key != key
    {
      CountIs(Here(), key);
      shared.store := shared.store.CountOnCopy(key);
      keyCache.Delete(key);
    }

    // save_tier_config; a backfill leaves out the invalidation.
    method SaveTierConfig(name: string, tier: Tier, backfill: bool)
      requires Valid()
      modifies shared, tierCache`data
      ensures Valid()
      ensures !backfill ==> Here() == Performed(old(Here()), SaveTier(name, tier), TheRow)
      ensures backfill ==> Here() == old(Here()).(store := shared.store)
      ensures
        var before, after := old(shared.store), shared.store;
        && after.tiers == before.tiers[name := tier] && after.tierCopies == before.tierCopies[name := tier]
        && after.keys == before.keys && after.keyCopies == before.keyCopies
      ensures forall e :: e in tierCache.data <==> e in old(tierCache.data) && (!backfill ==> e.key != name)
    {
      SaveTierIs(Here(), name, tier);
      shared.store := shared.store.PutTier(name, tier);
      shared.store := shared.store.PutTierCopy(name, tier);
      if !backfill {
        tierCache.Delete(name);
      }
    }

    // delete_tier_config
    method DeleteTierConfig(name: string) returns (deleted: bool)
      requires Valid()
      modifies shared, tierCache`data
      ensures Valid() && Here() == Performed(old(Here()), DeleteTier(name), TheRow)
      ensures deleted <==> name in old(shared.store.tiers)
      ensures
        var before, after := old(shared.store), shared.store;
        && after.tiers == before.tiers - {name} && after.tierCopies == before.tierCopies - {name}
        && after.keys == before.keys && after.keyCopies == before.keyCopies
      ensures forall e :: e in tierCache.data <==> e in old(tierCache.data) && e.key != name
    {
      DeleteTierIs(Here(), name);
      deleted := name in shared.store.tiers;
      shared.store := shared.store.DropTier(name);
      shared.store := shared.store.DropTierCopy(name);
      tierCache.Delete(name);
    }

    // get_key_record, from event n on.
    method GetKeyRecord(key: string, n: nat) returns (fetched: Fetched<Record>, next: nat)
      requires Valid()
      modifies shared, keyCache`data
      ensures Valid() && (fetched, Here(), next) == FetchOn(old(Here()), key, AtRow, n)
      // The row, else the copy, which then has its row again.
      ensures
        var before, after := old(shared.store), shared.store;
        var backfilled := key !in before.keys && key in before.keyCopies && before.keyCopies[key].Whole?;
        && (fetched.Got? <==> key in before.keys || backfilled)
        && (fetched.Nothing? <==> key !in before.keys && key !in before.keyCopies)
        && (fetched.Got? || fetched.Nothing? || fetched.Unreadable?)
        && (fetched.Got? ==>
              fetched.found.value == if backfilled then before.keyCopies[key].record else before.keys[key])
        && after == (if backfilled then before.(keys := before.keys[key := before.keyCopies[key].record]) else before)
    {
      FetchOnIs(Here(), key, n);
      if key in shared.store.keys {
        return Got(Stamped(shared.store.keys[key], FromRow(n))), n + 1;
      }
      if key !in shared.store.keyCopies {
        return Nothing(n, n + 1), n + 2;
      }
      match shared.store.keyCopies[key] {
        case Partial => return Unreadable, n + 2;
        case Whole(record) =>
          SaveIs(Here(), key, record);
          SaveKeyRecord(key, record);
          return Got(Stamped(record, FromCopy(n, n + 1))), n + 5;
      }
    }

    // get_tier_config
    method GetTierConfig(name: string, n: nat) returns (fetched: Fetched<Tier>, next: nat)
      requires Valid()
      modifies shared, tierCache`data
      ensures Valid() && (fetched, Here(), next) == FetchTierOn(old(Here()), name, AtRow, n)
      ensures
        var before, after := old(shared.store), shared.store;
        var backfilled := name !in before.tiers && name in before.tierCopies;
        && (fetched.Got? <==> name in before.tiers || name in before.tierCopies)
        && (fetched.Got? || fetched.Nothing?)
        && (fetched.Got? ==>
              fetched.found.value == if backfilled then before.tierCopies[name] else before.tiers[name])
        && after == (if backfilled then before.(tiers := before.tiers[name := before.tierCopies[name]]) else before)
    {
      FetchTierOnIs(Here(), name, n);
      if name in shared.store.tiers {
        return Got(Stamped(shared.store.tiers[name], FromRow(n))), n + 1;
      }
      if name !in shared.store.tierCopies {
        return Nothing(n, n + 1), n + 2;
      }
      var tier := shared.store.tierCopies[name];
      SaveTierConfig(name, tier, true);
      return Got(Stamped(tier, FromCopy(n, n + 1))), n + 4;
    }

    // The identifiers of an API key, one for each secret, newest first: the first one that the
    // store knows. Looking for one that it does not know takes two events and changes nothing.
    method ResolveKeyId(ids: seq<string>, begun: nat) returns (i: nat, fetched: Fetched<Record>, next: nat)
      requires Valid()
      modifies shared, keyCache`data
      ensures Valid() && i == FirstKnown(old(shared.store), ids)
      ensures i == |ids| ==> Here() == old(Here())
      ensures i < |ids| ==> (fetched, Here(), next) == FetchOn(old(Here()), ids[i], AtRow, begun + 2 * i)
    {
      i, next, fetched := 0, begun, Nothing(begun, begun);
      while i < |ids|
        invariant Valid() && i <= |ids| && next == begun + 2 * i && Here() == old(Here())
        invariant forall j :: 0 <= j < i ==> old(shared.store).Gone(ids[j])
      {
        FetchOnIs(Here(), ids[i], next);
        fetched, next := GetKeyRecord(ids[i], next);
        if !fetched.Nothing? {
          FirstKnownIs(old(shared.store), ids, i);
          return;
        }
        i := i + 1;
      }
      FirstKnownIs(old(shared.store), ids, i);
    }

    // authenticate, with its first event numbered `begun`.
    method Authenticate(ids: seq<string>, begun: nat, clock: int, now: real, addressAllowed: Record -> bool)
      returns (verdict: Verdict)
      requires Valid()
      modifies shared, keyCache`data, tierCache`data
      ensures Valid()
      ensures
        var i := FirstKnown(old(shared.store), ids);
        if i == |ids| then verdict == Denied(401) && Here() == old(Here())
        else
          var login := Login(0, ids[i], 0, Fetching(false, AtRow));
          var end := Finish(settings, old(Here()), login, begun + 2 * i, now);
          (verdict, Here()) == Ended(end, ids[i], clock, addressAllowed)
      // Whom the end of a login lets in: a granted record that is active and has not expired, at an
      // address that it allows.
      ensures
        var i := FirstKnown(old(shared.store), ids);
        i < |ids| ==>
          var login := Login(0, ids[i], 0, Fetching(false, AtRow));
          var end := Finish(settings, old(Here()), login, begun + 2 * i, now).0;
          && (end.Granted? ==>
                var record := end.record.value;
                var live := record.expiresAt.None? || record.expiresAt.value == 0 || clock < record.expiresAt.value;
                && (verdict == Accepted(record, end.tier.value, ids[i]) <==>
                      record.active && live && addressAllowed(record))
                && (verdict == Denied(403) <==> record.active && live && !addressAllowed(record))
                && (verdict == Denied(401) <==> !record.active || !live))
          && (end.Refused? ==> verdict == Denied(401))
          && (end.Broken? ==> verdict == Failed)
      ensures verdict.Accepted? ==>
        var record := verdict.record;
        && record.active && addressAllowed(record)
        && (record.expiresAt.None? || record.expiresAt.value == 0 || clock < record.expiresAt.value)
    {
      hide FetchOn, Finish, Valid;
      var i, fetched, next := ResolveKeyId(ids, begun);
      if i == |ids| {
        return Denied(401);
      }
      var key := ids[i];
      ghost var login := Login(0, key, 0, Fetching(false, AtRow));
      FinishFetches(settings, old(Here()), login, begun + 2 * i, now);
      FetchOnEnds(old(Here()), key, begun + 2 * i);
      hide Stores.Gone;
      if fetched.Unreadable? {
        FinishEnds(settings, Here(), login.(progress := Broken(true)), next, now);
        return Failed;
      }
      verdict := Complete(key, next, clock, now, addressAllowed);
    }

    // The rest of authenticate, once the key is resolved.
    method Complete(key: string, n: nat, clock: int, now: real, addressAllowed: Record -> bool)
      returns (verdict: Verdict)
      requires Valid()
      modifies shared, keyCache`data, tierCache`data
      ensures Valid()
      ensures
        var login := Login(0, key, 0, Resolved);
        (verdict, Here()) == Ended(Finish(settings, old(Here()), login, n, now), key, clock, addressAllowed)
    {
      hide FetchOn, FetchTierOn, Finish, Found, AfterGet, AfterSet;
      ghost var login := Login(0, key, 0, Resolved);
      FinishSteps(settings, Here(), login, n, now);
      var cached := keyCache.Get(key, now);
      if cached.Some? {
        var record, tier := cached.value.0, cached.value.1;
        FinishEnds(settings, Here(), login.(progress := Granted(record, tier)), n + 1, now);
        return Judged(record.value, tier.value, key, clock, addressAllowed);
      }
      FinishFetches(settings, Here(), login.(progress := Fetching(true, AtRow)), n + 1, now);
      FetchOnIs(Here(), key, n + 1);
      var fetched, next := GetKeyRecord(key, n + 1);
      FinishEnds(settings, Here(), login.(progress := AfterFetch(true, fetched)), next, now);
      if fetched.Nothing? {
        return Denied(401);
      } else if fetched.Unreadable? {
        return Failed;
      }
      var record := fetched.found;
      var tier := WithTier(key, record, next, now);
      return Judged(record.value, tier.value, key, clock, addressAllowed);
    }

    // Find the tier of a record, and cache both.
    method WithTier(key: string, record: Stamped<Record>, n: nat, now: real) returns (tier: Stamped<Tier>)
      requires Valid()
      modifies shared, keyCache`data, tierCache`data
      ensures Valid()
      ensures
        Finish(settings, old(Here()), Login(0, key, 0, HasRecord(record)), n, now) == (Granted(record, tier), Here())
    {
      hide FetchTierOn, Finish, Found, AfterGet, AfterSet;
      ghost var login := Login(0, key, 0, HasRecord(record));
      var name, next := record.value.tier, n + 1;
      FinishSteps(settings, Here(), login, n, now);
      var cached := tierCache.Get(name, now);
      if cached.Some? {
        tier := cached.value;
      } else {
        ghost var fetching := login.(progress := FetchingTier(record, AtRow));
        FinishFetchesTier(settings, Here(), fetching, next, now);
        FetchTierOnIs(Here(), name, next);
        var fetched: Fetched<Tier>;
        fetched, next := GetTierConfig(name, next);
        tier := if fetched.Got? then fetched.found
                else Stamped(settings.defaultTier, ByDefault(fetched.missed, fetched.at));
        FinishSteps(settings, Here(), login.(progress := ReadTier(record, tier)), next, now);
        tierCache.Set(name, tier, now);
        next := next + 1;
      }
      FinishSteps(settings, Here(), login.(progress := Ready(record, tier)), next, now);
      keyCache.Set(key, (record, tier), now);
      FinishEnds(settings, Here(), login.(progress := Granted(record, tier)), next + 1, now);
    }
  }

  lemma FinishEnds(settings: Settings, local: Local, login: Login, n: nat, now: real)
    ensures login.progress.Over() ==> Finish(settings, local, login, n, now) == (login.progress, local)
  {
  }
}
