// How old the record and the tier of a granted login can be, and why a login is refused.
module Staleness {
  import opened Prelude
  import opened KeyStore
  import opened TtlCache
  import opened Auth

  // Event `at` is one of the first n, and comes at `since` or later.
  ghost predicate Recent(run: Run, at: nat, since: real, n: nat) {
    at < n <= |run.events| && run.events[at].now >= since
  }

  ghost predicate RowWasMissing(run: Run, key: string, at: nat, since: real, n: nat) {
    Recent(run, at, since, n) && RowMissing(run, key, at)
  }

  ghost predicate CopyWasMissing(run: Run, key: string, at: nat, since: real, n: nat) {
    Recent(run, at, since, n) && CopyMissing(run, key, at)
  }

  // The origin tells when the value was current: in its row, or in the copy once the row had
  // been found missing.
  ghost predicate KeyWas(run: Run, key: string, record: Stamped<Record>, since: real, n: nat) {
    match record.origin
    case FromRow(at) =>
      && Recent(run, at, since, n)
      && key in run.At(at).store.keys && run.At(at).store.keys[key] == record.value
    case FromCopy(missed, at) =>
      && missed < at && RowWasMissing(run, key, missed, since, n) && Recent(run, at, since, n)
      && key in run.At(at).store.keyCopies && run.At(at).store.keyCopies[key] == Whole(record.value)
    case ByDefault(_, _) => false
  }

  ghost predicate TierRowWasMissing(run: Run, name: string, at: nat, since: real, n: nat) {
    Recent(run, at, since, n) && name !in run.At(at).store.tiers
  }

  ghost predicate TierCopyWasMissing(run: Run, name: string, at: nat, since: real, n: nat) {
    && Recent(run, at, since, n)
    && (name !in run.At(at).store.tierCopies || (run.events[at].action.Step? && run.events[at].action.fails))
  }

  ghost predicate TierWas(run: Run, name: string, tier: Stamped<Tier>, since: real, n: nat) {
    match tier.origin
    case FromRow(at) =>
      && Recent(run, at, since, n)
      && name in run.At(at).store.tiers && run.At(at).store.tiers[name] == tier.value
    case FromCopy(missed, at) =>
      && missed < at && TierRowWasMissing(run, name, missed, since, n) && Recent(run, at, since, n)
      && name in run.At(at).store.tierCopies && run.At(at).store.tierCopies[name] == tier.value
    case ByDefault(missed, at) =>
      && missed < at && TierRowWasMissing(run, name, missed, since, n) && TierCopyWasMissing(run, name, at, since, n)
      && tier.value == run.settings.defaultTier
  }

  // ----- The invariant ------------------------------------------------------------------------------

  ghost predicate FetchFresh(run: Run, key: string, fetch: Fetch<Record>, since: real, n: nat) {
    match fetch
    case AtRow => true
    case AtCopy(missed) => RowWasMissing(run, key, missed, since, n)
    case AtBackfill(found, _) => KeyWas(run, key, found, since, n)
  }

  ghost predicate TierFetchFresh(run: Run, name: string, fetch: Fetch<Tier>, since: real, n: nat) {
    match fetch
    case AtRow => true
    case AtCopy(missed) => TierRowWasMissing(run, name, missed, since, n)
    case AtBackfill(found, _) => TierWas(run, name, found, since, n)
  }

  ghost predicate ProgressFresh(run: Run, delay: real, key: string, p: Progress, since: real, n: nat) {
    match p
    case Fetching(_, fetch) => FetchFresh(run, key, fetch, since, n)
    case HasRecord(record) => KeyWas(run, key, record, since, n)
    case FetchingTier(record, fetch) =>
      KeyWas(run, key, record, since, n) && TierFetchFresh(run, record.value.tier, fetch, since, n)
    case ReadTier(record, tier) =>
      KeyWas(run, key, record, since, n) && TierWas(run, record.value.tier, tier, since, n)
    case Ready(record, tier) =>
      && KeyWas(run, key, record, since, n)
      && TierWas(run, record.value.tier, tier, since - run.settings.bounds.ttl - delay, n)
    case Refused(missed, at) =>
      missed < at && RowWasMissing(run, key, missed, since, n) && CopyWasMissing(run, key, at, since, n)
    case _ => true
  }

  // What a call holds was current since it began, or as long before as a cached tier may be; and
  // a call is refused because row and copy were both found missing since it began.
  ghost predicate LoginFresh(run: Run, delay: real, login: Login, n: nat) {
    login.begun < n <= |run.events| &&
    ProgressFresh(run, delay, login.key, login.progress, run.events[login.begun].now, n)
  }

  ghost predicate KeyEntryFresh(run: Run, delay: real, e: Entry<(Stamped<Record>, Stamped<Tier>)>, n: nat) {
    var life := run.settings.bounds.ttl + delay;
    && KeyWas(run, e.key, e.value.0, e.expires - life, n)
    && TierWas(run, e.value.0.value.tier, e.value.1, e.expires - life - life, n)
  }

  ghost predicate TierEntryFresh(run: Run, delay: real, e: Entry<Stamped<Tier>>, n: nat) {
    TierWas(run, e.key, e.value, e.expires - run.settings.bounds.ttl - delay, n)
  }

  ghost predicate CachesFresh(run: Run, delay: real, caches: Caches, n: nat) {
    && Distinct(caches.keys) && Distinct(caches.tiers)
    && (forall e :: e in caches.keys ==> KeyEntryFresh(run, delay, e, n))
    && (forall e :: e in caches.tiers ==> TierEntryFresh(run, delay, e, n))
  }

  ghost predicate Fresh(run: Run, delay: real, world: World, n: nat) {
    && (forall c :: c in world.logins ==> LoginFresh(run, delay, world.logins[c], n))
    && (forall i :: i in world.caches ==> CachesFresh(run, delay, world.caches[i], n))
  }

  // No call takes longer than `delay` from its first step to its last.
  ghost predicate Prompt(run: Run, delay: real) {
    forall k: nat {:trigger PromptAt(run, delay, k)} :: k < |run.events| ==> PromptAt(run, delay, k)
  }

  ghost predicate PromptAt(run: Run, delay: real, k: nat)
    requires k < |run.events|
  {
    var logins := run.At(k).logins;
    match run.events[k].action
    case Step(c, _) =>
      c in logins && logins[c].begun < |run.events| ==>
        run.events[k].now <= run.events[logins[c].begun].now + delay
    case _ => true
  }

  ghost predicate Premises(run: Run, delay: real) {
    && run.start == Opening(run.start.store) && run.TimesOrdered() && Prompt(run, delay)
    && delay >= 0.0 && run.settings.bounds.ttl >= 0.0
  }

  // ----- Ageing -----------------------------------------------------------------------------------------

  lemma KeyWasAges(run: Run, key: string, record: Stamped<Record>, since: real, n: nat, earlier: real, m: nat)
    requires KeyWas(run, key, record, since, n) && earlier <= since && n <= m <= |run.events|
    ensures KeyWas(run, key, record, earlier, m)
  {
  }

  lemma TierWasAges(run: Run, name: string, tier: Stamped<Tier>, since: real, n: nat, earlier: real, m: nat)
    requires TierWas(run, name, tier, since, n) && earlier <= since && n <= m <= |run.events|
    ensures TierWas(run, name, tier, earlier, m)
  {
  }

  lemma CachesAge(run: Run, delay: real, caches: Caches, n: nat)
    requires CachesFresh(run, delay, caches, n) && n < |run.events|
    ensures CachesFresh(run, delay, caches, n + 1)
  {
    hide KeyWas, TierWas;
    var life := run.settings.bounds.ttl + delay;
    forall e | e in caches.keys ensures KeyEntryFresh(run, delay, e, n + 1) {
      assert KeyEntryFresh(run, delay, e, n);
      KeyWasAges(run, e.key, e.value.0, e.expires - life, n, e.expires - life, n + 1);
      TierWasAges(run, e.value.0.value.tier, e.value.1, e.expires - life - life, n, e.expires - life - life, n + 1);
    }
    forall e | e in caches.tiers ensures TierEntryFresh(run, delay, e, n + 1) {
      assert TierEntryFresh(run, delay, e, n);
      var since := e.expires - run.settings.bounds.ttl - delay;
      TierWasAges(run, e.key, e.value, since, n, since, n + 1);
    }
    hide KeyEntryFresh, TierEntryFresh;
  }

  lemma FetchAges(run: Run, key: string, fetch: Fetch<Record>, since: real, n: nat)
    requires FetchFresh(run, key, fetch, since, n) && n < |run.events|
    ensures FetchFresh(run, key, fetch, since, n + 1)
  {
    hide KeyWas;
    if fetch.AtBackfill? {
      KeyWasAges(run, key, fetch.found, since, n, since, n + 1);
    }
  }

  lemma TierFetchAges(run: Run, name: string, fetch: Fetch<Tier>, since: real, n: nat)
    requires TierFetchFresh(run, name, fetch, since, n) && n < |run.events|
    ensures TierFetchFresh(run, name, fetch, since, n + 1)
  {
    hide TierWas;
    if fetch.AtBackfill? {
      TierWasAges(run, name, fetch.found, since, n, since, n + 1);
    }
  }

  lemma LoginAges(run: Run, delay: real, login: Login, n: nat)
    requires LoginFresh(run, delay, login, n) && n < |run.events|
    ensures LoginFresh(run, delay, login, n + 1)
  {
    hide KeyWas, TierWas, FetchFresh, TierFetchFresh;
    var p, since := login.progress, run.events[login.begun].now;
    if p.Holds() {
      KeyWasAges(run, login.key, p.record, since, n, since, n + 1);
    }
    match p {
      case Fetching(_, fetch) => FetchAges(run, login.key, fetch, since, n);
      case FetchingTier(record, fetch) => TierFetchAges(run, record.value.tier, fetch, since, n);
      case ReadTier(record, tier) => TierWasAges(run, record.value.tier, tier, since, n, since, n + 1);
      case Ready(record, tier) =>
        var long := since - run.settings.bounds.ttl - delay;
        TierWasAges(run, record.value.tier, tier, long, n, long, n + 1);
      case _ =>
    }
  }

  lemma WorldAges(run: Run, delay: real, world: World, n: nat)
    requires Fresh(run, delay, world, n) && n < |run.events|
    ensures Fresh(run, delay, world, n + 1)
  {
    forall c | c in world.logins ensures LoginFresh(run, delay, world.logins[c], n + 1) {
      LoginAges(run, delay, world.logins[c], n);
    }
    forall i | i in world.caches ensures CachesFresh(run, delay, world.caches[i], n + 1) {
      CachesAge(run, delay, world.caches[i], n);
    }
    hide LoginFresh, CachesFresh;
  }

  // ----- One step of a login ----------------------------------------------------------------------------

  lemma FoundEntry<V>(table: Table<V>, key: string, now: real) returns (e: Entry<V>)
    requires Found(table, key, now).Some?
    ensures e in table && e.key == key && Found(table, key, now) == Some(e.value) && now <= e.expires
  {
    e := table[Position(table, key)];
  }

  // A grant's record and tier were current not long ago, and before event n.
  ghost predicate GrantFresh(run: Run, delay: real, key: string, record: Stamped<Record>, tier: Stamped<Tier>,
                             now: real, n: nat) {
    var life := run.settings.bounds.ttl + delay;
    KeyWas(run, key, record, now - life, n) && TierWas(run, record.value.tier, tier, now - life - life, n)
  }

  ghost predicate StepFresh(run: Run, delay: real, login: Login, now: real, next: (Progress, Local), n: nat) {
    && LoginFresh(run, delay, login.(progress := next.0), n)
    && CachesFresh(run, delay, next.1.caches, n)
    && (next.0.Granted? && !login.progress.Granted? ==>
          GrantFresh(run, delay, login.key, next.0.record, next.0.tier, now, n))
  }

  lemma FewerEntriesAreFresh(run: Run, delay: real, caches: Caches, fewer: Caches, n: nat)
    requires CachesFresh(run, delay, caches, n) && Distinct(fewer.keys) && Distinct(fewer.tiers)
    requires forall e :: e in fewer.keys ==> e in caches.keys
    requires forall e :: e in fewer.tiers ==> e in caches.tiers
    ensures CachesFresh(run, delay, fewer, n)
  {
    hide KeyEntryFresh, TierEntryFresh, Distinct;
  }

  // What event k finds of its login, and the world it does it in.
  ghost predicate At(run: Run, delay: real, k: nat, local: Local, login: Login, fails: bool) {
    && k < |run.events| && run.start.events == 0 && local.store == run.At(k).store
    && run.events[k].action.Step? && run.events[k].action.fails == fails
    && LoginFresh(run, delay, login, k) && CachesFresh(run, delay, local.caches, k)
    && delay >= 0.0 && run.settings.bounds.ttl >= 0.0
    && run.events[login.begun].now <= run.events[k].now <= run.events[login.begun].now + delay
  }

  // Reading the store for a record ...
  lemma FetchedIsFresh(run: Run, k: nat, local: Local, key: string, fetch: Fetch<Record>, fails: bool, since: real)
    requires k < |run.events| && local.store == run.At(k).store && run.events[k].now >= since
    requires run.events[k].action.Step? && run.events[k].action.fails == fails
    requires FetchFresh(run, key, fetch, since, k)
    ensures
      match FetchKey(local, key, fetch, fails, k).0
      case Going(next) => FetchFresh(run, key, next, since, k + 1)
      case Got(record) => KeyWas(run, key, record, since, k + 1)
      case Nothing(missed, at) =>
        missed < at && RowWasMissing(run, key, missed, since, k + 1) && CopyWasMissing(run, key, at, since, k + 1)
      case _ => true
  {
    FetchAges(run, key, fetch, since, k);
  }

  lemma FetchKeepsCaches(run: Run, delay: real, local: Local, key: string, fetch: Fetch<Record>, fails: bool, k: nat)
    requires CachesFresh(run, delay, local.caches, k)
    ensures CachesFresh(run, delay, FetchKey(local, key, fetch, fails, k).1.caches, k)
  {
    hide KeyEntryFresh, TierEntryFresh;
    WithoutIsDistinct(local.caches.keys, key);
  }

  lemma FetchIsFresh(run: Run, delay: real, k: nat, local: Local, login: Login, fails: bool)
    requires At(run, delay, k, local, login, fails) && login.progress.Fetching?
    ensures StepFresh(run, delay, login, run.events[k].now,
                      Advance(run.settings, local, login, fails, k, run.events[k].now), k + 1)
  {
    hide FetchKey, CachesFresh, FetchFresh, Run.At;
    var key, fetch, since := login.key, login.progress.fetch, run.events[login.begun].now;
    var (fetched, left) := FetchKey(local, key, fetch, fails, k);
    FetchedIsFresh(run, k, local, key, fetch, fails, since);
    FetchKeepsCaches(run, delay, local, key, fetch, fails, k);
    CachesAge(run, delay, left.caches, k);
    hide KeyWas, RowWasMissing, CopyWasMissing;
    AfterFetchIsFresh(run, delay, login, fetched, k + 1);
    hide AfterFetch, LoginFresh;
  }

  lemma AfterFetchIsFresh(run: Run, delay: real, login: Login, fetched: Fetched<Record>, n: nat)
    requires login.progress.Fetching? && login.begun < n <= |run.events|
    requires
      var key, since := login.key, run.events[login.begun].now;
      match fetched
      case Going(next) => FetchFresh(run, key, next, since, n)
      case Got(record) => KeyWas(run, key, record, since, n)
      case Nothing(missed, at) =>
        missed < at && RowWasMissing(run, key, missed, since, n) && CopyWasMissing(run, key, at, since, n)
      case _ => true
    ensures LoginFresh(run, delay, login.(progress := AfterFetch(login.progress.again, fetched)), n)
    ensures !AfterFetch(login.progress.again, fetched).Granted?
  {
    hide FetchFresh, KeyWas, RowWasMissing, CopyWasMissing;
  }

  // ... and for a tier.
  lemma FetchedTierIsFresh(run: Run, k: nat, local: Local, record: Stamped<Record>, fetch: Fetch<Tier>, fails: bool,
                           since: real)
    requires k < |run.events| && local.store == run.At(k).store && run.events[k].now >= since
    requires run.events[k].action.Step? && run.events[k].action.fails == fails
    requires TierFetchFresh(run, record.value.tier, fetch, since, k)
    ensures
      match AfterTierFetch(run.settings, record, FetchTier(local, record.value.tier, fetch, fails, k).0)
      case FetchingTier(same, next) => same == record && TierFetchFresh(run, record.value.tier, next, since, k + 1)
      case ReadTier(same, tier) => same == record && TierWas(run, record.value.tier, tier, since, k + 1)
      case Broken(_) => true
      case _ => false
  {
    TierFetchAges(run, record.value.tier, fetch, since, k);
  }

  lemma TierFetchIsFresh(run: Run, delay: real, k: nat, local: Local, login: Login, fails: bool)
    requires At(run, delay, k, local, login, fails) && login.progress.FetchingTier?
    ensures StepFresh(run, delay, login, run.events[k].now,
                      Advance(run.settings, local, login, fails, k, run.events[k].now), k + 1)
  {
    var record, since := login.progress.record, run.events[login.begun].now;
    assert FetchTier(local, record.value.tier, login.progress.tierFetch, fails, k).1.caches == local.caches;
    hide FetchTier, KeyWas, TierWas, TierFetchFresh, CachesFresh, AfterTierFetch;
    FetchedTierIsFresh(run, k, local, record, login.progress.tierFetch, fails, since);
    KeyWasAges(run, login.key, record, since, k, since, k + 1);
    CachesAge(run, delay, local.caches, k);
  }

  // Looking into the caches.
  lemma KeyLookupIsFresh(run: Run, delay: real, k: nat, local: Local, login: Login, fails: bool)
    requires At(run, delay, k, local, login, fails) && login.progress.Resolved?
    ensures StepFresh(run, delay, login, run.events[k].now,
                      Advance(run.settings, local, login, fails, k, run.events[k].now), k + 1)
  {
    hide AfterGet, Found, Distinct, KeyWas, TierWas, TierEntryFresh;
    var caches, now, life := local.caches, run.events[k].now, run.settings.bounds.ttl + delay;
    CachesAge(run, delay, caches, k);
    GetKeepsTable(caches.keys, login.key, now);
    var (_, left) := Advance(run.settings, local, login, fails, k, now);
    FewerEntriesAreFresh(run, delay, caches, left.caches, k + 1);
    if Found(caches.keys, login.key, now).Some? {
      var e := FoundEntry(caches.keys, login.key, now);
      assert KeyEntryFresh(run, delay, e, k + 1);
      KeyWasAges(run, e.key, e.value.0, e.expires - life, k + 1, now - life, k + 1);
      TierWasAges(run, e.value.0.value.tier, e.value.1, e.expires - life - life, k + 1, now - life - life, k + 1);
    }
    hide CachesFresh;
  }

  lemma TierLookupIsFresh(run: Run, delay: real, k: nat, local: Local, login: Login, fails: bool)
    requires At(run, delay, k, local, login, fails) && login.progress.HasRecord?
    ensures StepFresh(run, delay, login, run.events[k].now,
                      Advance(run.settings, local, login, fails, k, run.events[k].now), k + 1)
  {
    hide AfterGet, Found, Distinct, KeyWas, TierWas, KeyEntryFresh;
    var caches, now, record := local.caches, run.events[k].now, login.progress.record;
    var since, name := run.events[login.begun].now, record.value.tier;
    CachesAge(run, delay, caches, k);
    GetKeepsTable(caches.tiers, name, now);
    var (_, left) := Advance(run.settings, local, login, fails, k, now);
    FewerEntriesAreFresh(run, delay, caches, left.caches, k + 1);
    KeyWasAges(run, login.key, record, since, k, since, k + 1);
    if Found(caches.tiers, name, now).Some? {
      var e := FoundEntry(caches.tiers, name, now);
      assert TierEntryFresh(run, delay, e, k + 1);
      var ttl := run.settings.bounds.ttl;
      TierWasAges(run, name, e.value, e.expires - ttl - delay, k + 1, since - ttl - delay, k + 1);
    }
    hide CachesFresh;
  }

  // Filling the caches.
  lemma SetIsFresh(run: Run, delay: real, caches: Caches, key: string, record: Stamped<Record>, tier: Stamped<Tier>,
                   now: real, n: nat)
    requires CachesFresh(run, delay, caches, n) && KeyWas(run, key, record, now - delay, n)
    requires TierWas(run, record.value.tier, tier, now - delay - run.settings.bounds.ttl - delay, n)
    ensures
      var b := run.settings.bounds;
      CachesFresh(run, delay, caches.(keys := AfterSet(caches.keys, key, (record, tier), now, b.ttl, b.maxsize)), n)
  {
    hide AfterSet, Distinct, TierEntryFresh, KeyWas, TierWas;
    var b := run.settings.bounds;
    var life := b.ttl + delay;
    var entry := Entry(key, (record, tier), now + b.ttl);
    assert now + b.ttl - life == now - delay && now + b.ttl - life - life == now - delay - b.ttl - delay;
    assert KeyEntryFresh(run, delay, entry, n);
    hide KeyEntryFresh;
    SetKeepsTable(caches.keys, key, (record, tier), now, b.ttl, b.maxsize);
  }

  lemma SetTierIsFresh(run: Run, delay: real, caches: Caches, name: string, tier: Stamped<Tier>, now: real, n: nat)
    requires CachesFresh(run, delay, caches, n) && TierWas(run, name, tier, now - delay, n)
    ensures
      var b := run.settings.bounds;
      CachesFresh(run, delay, caches.(tiers := AfterSet(caches.tiers, name, tier, now, b.ttl, b.maxsize)), n)
  {
    hide AfterSet, Distinct, KeyEntryFresh, KeyWas, TierWas;
    var b := run.settings.bounds;
    var entry := Entry(name, tier, now + b.ttl);
    assert now + b.ttl - b.ttl - delay == now - delay;
    assert TierEntryFresh(run, delay, entry, n);
    hide TierEntryFresh;
    SetKeepsTable(caches.tiers, name, tier, now, b.ttl, b.maxsize);
  }

  lemma FillIsFresh(run: Run, delay: real, k: nat, local: Local, login: Login, fails: bool)
    requires At(run, delay, k, local, login, fails) && (login.progress.ReadTier? || login.progress.Ready?)
    ensures StepFresh(run, delay, login, run.events[k].now,
                      Advance(run.settings, local, login, fails, k, run.events[k].now), k + 1)
  {
    hide AfterSet, KeyWas, TierWas, CachesFresh;
    var caches, ttl, p, now := local.caches, run.settings.bounds.ttl, login.progress, run.events[k].now;
    var since, life := run.events[login.begun].now, run.settings.bounds.ttl + delay;
    CachesAge(run, delay, caches, k);
    KeyWasAges(run, login.key, p.record, since, k, since, k + 1);
    if p.ReadTier? {
      TierWasAges(run, p.record.value.tier, p.tier, since, k, now - delay, k + 1);
      TierWasAges(run, p.record.value.tier, p.tier, since, k, since - ttl - delay, k + 1);
      SetTierIsFresh(run, delay, caches, p.record.value.tier, p.tier, now, k + 1);
    } else {
      KeyWasAges(run, login.key, p.record, since, k, now - delay, k + 1);
      KeyWasAges(run, login.key, p.record, since, k, now - life, k + 1);
      TierWasAges(run, p.record.value.tier, p.tier, since - ttl - delay, k, now - delay - ttl - delay, k + 1);
      TierWasAges(run, p.record.value.tier, p.tier, since - ttl - delay, k, now - life - life, k + 1);
      SetIsFresh(run, delay, caches, login.key, p.record, p.tier, now, k + 1);
    }
  }

  lemma StepIsFresh(run: Run, delay: real, k: nat, local: Local, login: Login, fails: bool)
    requires At(run, delay, k, local, login, fails)
    ensures StepFresh(run, delay, login, run.events[k].now,
                      Advance(run.settings, local, login, fails, k, run.events[k].now), k + 1)
  {
    match login.progress {
      case Fetching(_, _) => FetchIsFresh(run, delay, k, local, login, fails);
      case Resolved => KeyLookupIsFresh(run, delay, k, local, login, fails);
      case HasRecord(_) => TierLookupIsFresh(run, delay, k, local, login, fails);
      case FetchingTier(_, _) => TierFetchIsFresh(run, delay, k, local, login, fails);
      case ReadTier(_, _) => FillIsFresh(run, delay, k, local, login, fails);
      case Ready(_, _) => FillIsFresh(run, delay, k, local, login, fails);
      case _ =>
        LoginAges(run, delay, login, k);
        CachesAge(run, delay, local.caches, k);
        assert login.(progress := login.progress) == login;
    }
    hide LoginFresh, CachesFresh, FetchKey, FetchTier;
  }

  // ----- Every reachable world -----------------------------------------------------------------------

  lemma NoCachesAreFresh(run: Run, delay: real, n: nat)
    ensures CachesFresh(run, delay, Caches([], []), n)
  {
  }

  // What the premises say of event k and a login that takes a step by it.
  lemma StepIsPrompt(run: Run, delay: real, k: nat)
    requires k < |run.events| && Premises(run, delay) && run.events[k].action.Step?
    ensures run.start.events == 0 && delay >= 0.0 && run.settings.bounds.ttl >= 0.0
    ensures
      var world, c := run.At(k), run.events[k].action.login;
      c in world.logins && world.logins[c].begun <= k ==>
        var begun := run.events[world.logins[c].begun].now;
        begun <= run.events[k].now <= begun + delay
  {
    assert PromptAt(run, delay, k);
    hide Run.At;
  }

  // The login that a step event advances.
  lemma StepOfLogin(run: Run, delay: real, k: nat, c: LoginId)
    requires k < |run.events| && Premises(run, delay) && Fresh(run, delay, run.At(k), k)
    requires run.events[k].action.Step? && run.events[k].action.login == c && c in run.At(k).logins
    ensures
      var world, fails := run.At(k), run.events[k].action.fails;
      var login := world.logins[c];
      StepFresh(run, delay, login, run.events[k].now,
                Advance(run.settings, world.LocalOf(login.instance), login, fails, k, run.events[k].now), k + 1)
  {
    hide CachesFresh, ProgressFresh, StepFresh, Run.At, Premises, Advance;
    var world := run.At(k);
    var login := world.logins[c];
    assert LoginFresh(run, delay, login, k);
    StepIsPrompt(run, delay, k);
    NoCachesAreFresh(run, delay, k);
    assert CachesFresh(run, delay, world.CachesOf(login.instance), k);
    hide Fresh, LoginFresh;
    StepIsFresh(run, delay, k, world.LocalOf(login.instance), login, run.events[k].action.fails);
  }

  // Replacing one login, or the caches of one instance.
  lemma ReplacingKeepsFresh(run: Run, delay: real, world: World, c: LoginId, login: Login, i: InstanceId,
                            caches: Caches, n: nat)
    requires Fresh(run, delay, world, n)
    ensures LoginFresh(run, delay, login, n) ==> Fresh(run, delay, world.(logins := world.logins[c := login]), n)
    ensures CachesFresh(run, delay, caches, n) ==> Fresh(run, delay, world.(caches := world.caches[i := caches]), n)
  {
    hide LoginFresh, CachesFresh;
  }

  // Only logins and caches matter.
  lemma FreshIgnoresTheRest(run: Run, delay: real, a: World, b: World, n: nat)
    requires Fresh(run, delay, a, n) && a.logins == b.logins && a.caches == b.caches
    ensures Fresh(run, delay, b, n)
  {
    hide LoginFresh, CachesFresh;
  }

  lemma SteppedIsFresh(run: Run, delay: real, world: World, c: LoginId, fails: bool, now: real, n: nat)
    requires c in world.logins && Fresh(run, delay, world, n)
    requires
      var login := world.logins[c];
      StepFresh(run, delay, login, now,
                Advance(run.settings, world.LocalOf(login.instance), login, fails, world.events, now), n)
    ensures Fresh(run, delay, StepLogin(run.settings, world, c, fails, now), n)
  {
    hide LoginFresh, CachesFresh, Advance, GrantFresh, Fresh;
    var login := world.logins[c];
    var (progress, left) := Advance(run.settings, world.LocalOf(login.instance), login, fails, world.events, now);
    var after := login.(progress := progress);
    ReplacingKeepsFresh(run, delay, world, c, after, login.instance, left.caches, n);
    var stepped := world.(logins := world.logins[c := after]);
    ReplacingKeepsFresh(run, delay, stepped, c, after, login.instance, left.caches, n);
    var cached := stepped.(caches := stepped.caches[login.instance := left.caches]);
    FreshIgnoresTheRest(run, delay, cached, StepLogin(run.settings, world, c, fails, now), n);
  }

  // Taking entries away.
  lemma FewerEntriesInWorld(run: Run, delay: real, world: World, i: InstanceId, fewer: Caches, n: nat)
    requires Fresh(run, delay, world, n) && Distinct(fewer.keys) && Distinct(fewer.tiers)
    requires forall e :: e in fewer.keys ==> e in world.CachesOf(i).keys
    requires forall e :: e in fewer.tiers ==> e in world.CachesOf(i).tiers
    ensures Fresh(run, delay, world.With(i, Local(world.store, fewer)), n)
  {
    NoCachesAreFresh(run, delay, n);
    assert CachesFresh(run, delay, world.CachesOf(i), n) by { hide CachesFresh, LoginFresh; }
    hide Fresh, LoginFresh;
    FewerEntriesAreFresh(run, delay, world.CachesOf(i), fewer, n);
    hide CachesFresh;
    var replaced := world.(caches := world.caches[i := fewer]);
    ReplacingKeepsFresh(run, delay, world, 0, Login(0, "", 0, Resolved), i, fewer, n);
    FreshIgnoresTheRest(run, delay, replaced, world.With(i, Local(world.store, fewer)), n);
  }

  lemma ForgetKeepsFresh(run: Run, delay: real, world: World, i: InstanceId, key: string, n: nat)
    requires Fresh(run, delay, world, n)
    ensures Fresh(run, delay, world.With(i, world.LocalOf(i).ForgetKey(key)), n)
    ensures Fresh(run, delay, world.With(i, world.LocalOf(i).ForgetTier(key)), n)
  {
    var caches := world.CachesOf(i);
    NoCachesAreFresh(run, delay, n);
    assert Distinct(caches.keys) && Distinct(caches.tiers) by { hide LoginFresh; }
    WithoutIsDistinct(caches.keys, key);
    WithoutIsDistinct(caches.tiers, key);
    hide Fresh, Without, Distinct;
    FewerEntriesInWorld(run, delay, world, i, caches.(keys := Without(caches.keys, key)), n);
    FewerEntriesInWorld(run, delay, world, i, caches.(tiers := Without(caches.tiers, key)), n);
  }

  lemma StoreKeepsFresh(run: Run, delay: real, world: World, i: InstanceId, store: Stores, n: nat)
    requires Fresh(run, delay, world, n)
    ensures Fresh(run, delay, world.With(i, world.LocalOf(i).(store := store)), n)
  {
    NoCachesAreFresh(run, delay, n);
    hide LoginFresh, CachesFresh;
  }

  lemma WorkKeepsFresh(run: Run, delay: real, world: World, j: JobId, n: nat)
    requires Fresh(run, delay, world, n) && j in world.jobs && world.jobs[j].stage.Todo?
    ensures Fresh(run, delay, WorkJob(world, j), n)
  {
    var job := world.jobs[j];
    var i := job.instance;
    var (left, stage) := Perform(world.LocalOf(i), job.operation, job.stage.part);
    var key :=
      match job.operation
      case SaveTier(name, _) => name
      case DeleteTier(name) => name
      case _ => job.operation.key;
    ForgetKeepsFresh(run, delay, world, i, key, n);
    StoreKeepsFresh(run, delay, world, i, left.store, n);
    assert Fresh(run, delay, world.With(i, left), n) by {
      if job.stage.part != TheCache {
        assert left == world.LocalOf(i).(store := left.store);
      }
      hide Fresh, Without;
    }
    hide Perform, Fresh;
    FreshIgnoresTheRest(run, delay, world.With(i, left), WorkJob(world, j), n);
  }

  lemma BeginKeepsFresh(run: Run, delay: real, world: World, c: LoginId, i: InstanceId, key: string, n: nat)
    requires world.events < n <= |run.events| && Fresh(run, delay, world, n)
    ensures
      var login := Login(i, key, world.events, Fetching(false, AtRow));
      Fresh(run, delay, world.(logins := world.logins[c := login]), n)
  {
    var login := Login(i, key, world.events, Fetching(false, AtRow));
    assert LoginFresh(run, delay, login, n) by { hide Fresh; }
    hide Fresh, LoginFresh;
    ReplacingKeepsFresh(run, delay, world, c, login, i, Caches([], []), n);
  }

  lemma AbandonKeepsFresh(run: Run, delay: real, world: World, c: LoginId, n: nat)
    requires Fresh(run, delay, world, n) && c in world.logins
    ensures Fresh(run, delay, world.(logins := world.logins[c := world.logins[c].(progress := Broken(false))]), n)
  {
    assert LoginFresh(run, delay, world.logins[c], n);
    var login := world.logins[c].(progress := Broken(false));
    assert LoginFresh(run, delay, login, n) by { hide CachesFresh; }
    hide Fresh, LoginFresh;
    ReplacingKeepsFresh(run, delay, world, c, login, 0, Caches([], []), n);
  }

  lemma OtherKeepsFresh(run: Run, delay: real, world: World, event: Event, n: nat)
    requires world.events < n <= |run.events| && Fresh(run, delay, world, n) && !event.action.Step?
    ensures Fresh(run, delay, Apply(run.settings, world, event), n)
  {
    hide Fresh, Without, WorkJob;
    match event.action {
      case Begin(c, i, key) => BeginKeepsFresh(run, delay, world, c, i, key, n);
      case Abandon(c) =>
        if c in world.logins {
          AbandonKeepsFresh(run, delay, world, c, n);
        }
      case Work(j) =>
        if j in world.jobs && world.jobs[j].stage.Todo? {
          WorkKeepsFresh(run, delay, world, j, n);
        }
      case ForgetKey(i, key) => ForgetKeepsFresh(run, delay, world, i, key, n);
      case ForgetTier(i, name) => ForgetKeepsFresh(run, delay, world, i, name, n);
      case Start(j, i, operation) => FreshIgnoresTheRest(run, delay, world, Apply(run.settings, world, event), n);
      case Quit(j) => FreshIgnoresTheRest(run, delay, world, Apply(run.settings, world, event), n);
    }
  }

  lemma EventKeepsFresh(run: Run, delay: real, k: nat)
    requires k < |run.events| && Premises(run, delay) && Fresh(run, delay, run.At(k), k)
    ensures Fresh(run, delay, Apply(run.settings, run.At(k), run.events[k]), k + 1)
  {
    hide Fresh, Premises, StepFresh, StepLogin, Run.At, Advance;
    var world, event := run.At(k), run.events[k];
    EventsAreNumbered(run, k);
    OpeningIsFresh(run, delay);
    WorldAges(run, delay, world, k);
    if !event.action.Step? {
      OtherKeepsFresh(run, delay, world, event, k + 1);
    } else if event.action.login in world.logins {
      StepOfLogin(run, delay, k, event.action.login);
      SteppedIsFresh(run, delay, world, event.action.login, event.action.fails, event.now, k + 1);
    }
  }

  lemma OpeningIsFresh(run: Run, delay: real)
    requires Premises(run, delay)
    ensures run.start.events == 0 && Fresh(run, delay, run.At(0), 0)
  {
    hide Prompt, LoginFresh, CachesFresh;
  }

  lemma {:induction false} EverythingIsFresh(run: Run, delay: real, n: nat)
    requires n <= |run.events| && Premises(run, delay)
    ensures Fresh(run, delay, run.At(n), n)
  {
    hide Fresh, Apply, Premises;
    if n == 0 {
      OpeningIsFresh(run, delay);
    } else {
      EverythingIsFresh(run, delay, n - 1);
      EventKeepsFresh(run, delay, n - 1);
      FreshIgnoresTheRest(run, delay, Apply(run.settings, run.At(n - 1), run.events[n - 1]), run.At(n), n);
    }
  }

  // The two-level staleness bound: when a step grants a login, its record was in the store at
  // most ttl + delay ago, and its tier at most 2 * (ttl + delay) ago. With steps that take no
  // time the bounds are ttl and 2 * ttl.
  lemma TwoLevelStaleness(run: Run, delay: real, k: nat, c: LoginId)
    requires k < |run.events| && Premises(run, delay)
    requires run.events[k].action.Step? && run.events[k].action.login == c
    requires c in run.At(k).logins && !run.At(k).logins[c].progress.Granted?
    ensures c in run.At(k + 1).logins
    ensures
      var login := run.At(k + 1).logins[c];
      login.progress.Granted? ==>
        GrantFresh(run, delay, login.key, login.progress.record, login.progress.tier, run.events[k].now, k + 1)
  {
    hide Advance, GrantFresh, LoginFresh, CachesFresh, Fresh, Premises;
    EverythingIsFresh(run, delay, k);
    StepOfLogin(run, delay, k, c);
    OpeningIsFresh(run, delay);
    EventsAreNumbered(run, k);
  }
}
