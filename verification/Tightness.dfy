// The staleness bound is attained: a grant with a tier that has been replaced for two lifetimes.
module Tightness {
  import opened Prelude
  import opened KeyStore
  import opened TtlCache
  import opened Auth
  import opened Staleness

  // ----- Logins at one instant are prompt ------------------------------------------------------------

  ghost predicate BegunBy(run: Run, c: LoginId, login: Login)
  {
    login.begun < |run.events| && run.events[login.begun].action.Begin? && run.events[login.begun].action.login == c
  }

  ghost predicate AllBegun(run: Run, world: World) {
    forall c :: c in world.logins ==> BegunBy(run, c, world.logins[c])
  }

  lemma {:induction false} LoginsWereBegun(run: Run, n: nat)
    requires n <= |run.events| && run.start == Opening(run.start.store)
    ensures AllBegun(run, run.At(n))
  {
    hide AfterEvent, Run.At, BegunBy;
    AtStart(run);
    if n == 0 {
    } else {
      hide AllBegun, Opening;
      LoginsWereBegun(run, n - 1);
      EventsAreNumbered(run, n - 1);
      OpeningIsNew(run.start.store);
      EventKeepsBegun(run, n - 1);
      AtNext(run, n - 1);
    }
  }

  // A login keeps the number of the event that began it.
  ghost predicate KeepsBegun(world: World, next: World, event: Event) {
    forall c :: c in next.logins ==>
      if c in world.logins then next.logins[c].begun == world.logins[c].begun
      else event.action.Begin? && event.action.login == c && next.logins[c].begun == world.events
  }

  lemma EventKeepsNumbers(settings: Settings, world: World, event: Event)
    ensures KeepsBegun(world, AfterEvent(settings, world, event), event)
  {
    hide StepLogin, WorkJob, Without;
    match event.action {
      case Step(c, fails) =>
        if c in world.logins {
          LoginSteps(settings, world, c, fails, event.now);
          hide AfterEvent, Advance;
        }
      case Work(j) =>
        if j in world.jobs && world.jobs[j].stage.Todo? {
          JobWorks(settings, world, j, event.now);
          hide AfterEvent, Perform;
        }
      case _ =>
    }
  }

  lemma EventKeepsBegun(run: Run, k: nat)
    requires k < |run.events| && run.At(k).events == k && AllBegun(run, run.At(k))
    ensures AllBegun(run, AfterEvent(run.settings, run.At(k), run.events[k]))
  {
    hide Run.At, AfterEvent;
    EventKeepsNumbers(run.settings, run.At(k), run.events[k]);
  }

  // When each login takes its steps.
  ghost predicate Instant(run: Run, time: LoginId -> real) {
    forall k :: 0 <= k < |run.events| ==> InstantAt(run.events[k], time)
  }

  predicate InstantAt(event: Event, time: LoginId -> real) {
    match event.action
    case Begin(c, _, _) => event.now == time(c)
    case Step(c, _) => event.now == time(c)
    case _ => true
  }

  lemma InstantIsPrompt(run: Run, time: LoginId -> real)
    requires run.start == Opening(run.start.store) && Instant(run, time)
    ensures Prompt(run, 0.0)
  {
    forall k: nat | k < |run.events| ensures PromptAt(run, 0.0, k) {
      LoginsWereBegun(run, k);
      hide Run.At;
      if run.events[k].action.Step? && run.events[k].action.login in run.At(k).logins {
        assert BegunBy(run, run.events[k].action.login, run.At(k).logins[run.events[k].action.login]);
      }
    }
    hide PromptAt;
  }

  // ----- The run ---------------------------------------------------------------------------------------------

  const RECORD := Record("u", "t", true, None)

  function Start(tier: Tier): Stores {
    Stores(map["a" := RECORD, "b" := RECORD], map[], map["t" := tier], map[])
  }

  // Instance 0 has cached the tier for `ttl`, and nothing of key b.
  ghost predicate TierIsCached(world: World, tier: Stamped<Tier>, expires: real) {
    && world.CachesOf(0).tiers == [Entry("t", tier, expires)] && Distinct(world.CachesOf(0).keys)
    && (forall e :: e in world.CachesOf(0).keys ==> e.key != "b")
    && world.store.keys == map["a" := RECORD, "b" := RECORD]
  }

  // A login on key a that finds its record ...
  lemma RecordIsFound(settings: Settings, tier: Tier) returns (events: seq<Event>)
    ensures
      var last := Run(settings, Opening(Start(tier)), events).Last();
      && last.logins == map[0 := Login(0, "a", 0, HasRecord(Stamped(RECORD, FromRow(3))))]
      && last.store == Start(tier) && last.events == 4 && last.jobs == map[] && last.caches == map[0 := Caches([], [])]
    ensures |events| == 4 && Part(events, 0, 0.0)
  {
    var none: KeyTable := [];
    assert Found(none, "a", 0.0) == None && AfterGet(none, "a", 0.0) == none;
    hide AfterEvent, Found, AfterGet, Run.At;
    NewLoginHasRecord(settings, Opening(Start(tier)), 0, 0, "a", 0.0);
    events := NewLogin(0, 0, "a", 0.0);
  }

  // Events at one time, of one login or of none.
  predicate IsOf(event: Event, c: LoginId) {
    match event.action
    case Begin(d, _, _) => d == c
    case Step(d, _) => d == c
    case _ => true
  }

  ghost predicate Part(events: seq<Event>, c: LoginId, now: real) {
    forall k :: 0 <= k < |events| ==> events[k].now == now && IsOf(events[k], c)
  }

  lemma PartsJoin(a: seq<Event>, b: seq<Event>, c: LoginId, now: real)
    requires Part(a, c, now) && Part(b, c, now)
    ensures Part(a + b, c, now)
  {
    hide IsOf;
  }

  // Three parts, each of one login, satisfy the premises of the bound with no delay.
  lemma PartsArePremises(run: Run, a: seq<Event>, b: seq<Event>, c: seq<Event>)
    requires run.start == Opening(run.start.store) && run.settings.bounds.ttl >= 0.0 && run.events == a + b + c
    requires Part(a, 0, 0.0) && Part(b, 1, run.settings.bounds.ttl)
    requires Part(c, 2, run.settings.bounds.ttl + run.settings.bounds.ttl)
    ensures Premises(run, 0.0)
  {
    var ttl := run.settings.bounds.ttl;
    var time: LoginId -> real := login => if login == 0 then 0.0 else if login == 1 then ttl else ttl + ttl;
    assert Instant(run, time);
    InstantIsPrompt(run, time);
    hide Prompt, Instant, IsOf;
    assert run.TimesOrdered();
  }

  // ... then its tier, ...
  lemma TierIsRead(settings: Settings, world: World, tier: Tier) returns (events: seq<Event>)
    requires world.logins == map[0 := Login(0, "a", 0, HasRecord(Stamped(RECORD, FromRow(3))))]
    requires world.store == Start(tier) && world.events == 4 && world.jobs == map[]
    requires world.caches == map[0 := Caches([], [])]
    ensures
      var last := Run(settings, world, events).Last();
      && last.logins == map[0 := Login(0, "a", 0, ReadTier(Stamped(RECORD, FromRow(3)), Stamped(tier, FromRow(5))))]
      && last.store == Start(tier) && last.events == 6 && last.jobs == map[] && last.caches == map[0 := Caches([], [])]
    ensures |events| == 2 && Part(events, 0, 0.0)
  {
    var step, record := Event(Step(0, false), 0.0), Stamped(RECORD, FromRow(3));
    var none: TierTable := [];
    assert Found(none, "t", 0.0) == None && AfterGet(none, "t", 0.0) == none;
    hide AfterEvent, Found, AfterGet, Run.At;
    LoginSteps(settings, world, 0, false, 0.0);
    var w1 := AfterEvent(settings, world, step);
    assert w1.logins[0].progress == FetchingTier(record, AtRow) && w1.caches == world.caches;
    LoginSteps(settings, w1, 0, false, 0.0);
    TwoEvents(settings, world, step, step);
    events := [step, step];
  }

  // ... and caches both.
  lemma TierIsFilled(settings: Settings, world: World, tier: Tier) returns (events: seq<Event>)
    requires settings.bounds.maxsize > 0 && settings.bounds.ttl >= 0.0
    requires
      world.logins == map[0 := Login(0, "a", 0, ReadTier(Stamped(RECORD, FromRow(3)), Stamped(tier, FromRow(5))))]
    requires world.store == Start(tier) && world.events == 6 && world.jobs == map[]
    requires world.caches == map[0 := Caches([], [])]
    ensures
      var last := Run(settings, world, events).Last();
      && TierIsCached(last, Stamped(tier, FromRow(5)), settings.bounds.ttl) && last.store == Start(tier)
      && last.logins.Keys == {0} && last.events == 8 && last.jobs == map[]
    ensures |events| == 2 && Part(events, 0, 0.0)
  {
    var b, step, record := settings.bounds, Event(Step(0, false), 0.0), Stamped(RECORD, FromRow(3));
    var found := Stamped(tier, FromRow(5));
    FirstEntries(record, found, b);
    var noTier: TierTable := [];
    var noKey: KeyTable := [];
    hide AfterEvent, AfterSet, Run.At, Distinct;
    TierIsSet(settings, world, 0, 0.0);
    var w1 := AfterEvent(settings, world, step);
    assert w1.CachesOf(0) == Caches([], [Entry("t", found, b.ttl)]);
    KeyIsSet(settings, w1, 0, 0.0);
    TwoEvents(settings, world, step, step);
    events := [step, step];
  }

  lemma FirstEntries(record: Stamped<Record>, tier: Stamped<Tier>, b: Bounds)
    requires b.maxsize > 0
    ensures AfterSet<Stamped<Tier>>([], "t", tier, 0.0, b.ttl, b.maxsize) == [Entry("t", tier, b.ttl)]
    ensures
      var keys := AfterSet<(Stamped<Record>, Stamped<Tier>)>([], "a", (record, tier), 0.0, b.ttl, b.maxsize);
      Distinct(keys) && forall e :: e in keys ==> e.key == "a"
  {
    SetKeepsTable<(Stamped<Record>, Stamped<Tier>)>([], "a", (record, tier), 0.0, b.ttl, b.maxsize);
    assert Without<Stamped<Tier>>([], "t") == [];
    hide Without, Distinct;
  }

  // Another instance saves a new tier.
  lemma TierIsReplaced(settings: Settings, world: World, tier: Stamped<Tier>, expires: real, other: Tier)
    returns (events: seq<Event>)
    requires TierIsCached(world, tier, expires) && world.jobs == map[]
    ensures
      var last := Run(settings, world, events).Last();
      && TierIsCached(last, tier, expires) && last.logins == world.logins && last.events == world.events + 4
      && "t" in last.store.tiers && last.store.tiers["t"] == other
      && last.jobs.Keys == {0} && last.jobs[0].stage == Done
    ensures |events| == 4 && Part(events, 0, 0.0)
  {
    hide AfterEvent, Without, Run.At, Distinct;
    var start, work := Event(Action.Start(0, 1, SaveTier("t", other)), 0.0), Event(Work(0), 0.0);
    JobStarts(settings, world, 0, 1, SaveTier("t", other), 0.0);
    var w1 := AfterEvent(settings, world, start);
    JobWorks(settings, w1, 0, 0.0);
    var w2 := AfterEvent(settings, w1, work);
    JobWorks(settings, w2, 0, 0.0);
    var w3 := AfterEvent(settings, w2, work);
    JobWorks(settings, w3, 0, 0.0);
    FourEvents(settings, world, start, work, work, work);
    events := [start, work, work, work];
  }

  // A login on key b finds its record ...
  lemma SecondRecordIsFound(settings: Settings, world: World, tier: Stamped<Tier>, now: real)
    returns (events: seq<Event>)
    requires TierIsCached(world, tier, now) && 1 !in world.logins
    ensures
      var last := Run(settings, world, events).Last();
      && TierIsCached(last, tier, now) && last.logins.Keys == world.logins.Keys + {1} && last.store == world.store
      && last.logins[1].instance == 0 && last.logins[1].key == "b" && last.logins[1].progress.HasRecord?
      && last.logins[1].progress.record.value == RECORD && last.events == world.events + 4
    ensures |events| == 4 && Part(events, 1, now)
  {
    MissChangesNothing(world, tier, now);
    hide AfterEvent, Found, AfterGet, Run.At, TierIsCached;
    NewLoginHasRecord(settings, world, 1, 0, "b", now);
    events := NewLogin(1, 0, "b", now);
    TierStaysCached(world, Run(settings, world, events).Last(), tier, now, now);
  }

  lemma MissChangesNothing(world: World, tier: Stamped<Tier>, now: real)
    requires TierIsCached(world, tier, now)
    ensures Found(world.CachesOf(0).keys, "b", now) == None
    ensures "b" in world.store.keys && world.store.keys["b"] == RECORD
  {
    hide Distinct;
  }

  lemma TierStaysCached(world: World, next: World, tier: Stamped<Tier>, expires: real, now: real)
    requires TierIsCached(world, tier, expires) && next.store == world.store
    requires next.CachesOf(0).tiers == world.CachesOf(0).tiers
    requires next.CachesOf(0).keys == AfterGet(world.CachesOf(0).keys, "b", now)
    ensures TierIsCached(next, tier, expires)
  {
    GetKeepsTable(world.CachesOf(0).keys, "b", now);
    hide AfterGet, Distinct;
  }

  // ... and the cached tier, at the last instant, and caches both.
  lemma OldTierIsCachedAgain(settings: Settings, world: World, tier: Stamped<Tier>, now: real)
    returns (events: seq<Event>)
    requires TierIsCached(world, tier, now) && settings.bounds.maxsize > 0
    requires 1 in world.logins && world.logins[1].instance == 0 && world.logins[1].key == "b"
    requires world.logins[1].progress.HasRecord? && world.logins[1].progress.record.value == RECORD
    ensures
      var last := Run(settings, world, events).Last();
      var found := Found(last.CachesOf(0).keys, "b", now + settings.bounds.ttl);
      && found.Some? && found.value.1 == tier && last.store == world.store
      && last.logins.Keys == world.logins.Keys && last.events == world.events + 2
    ensures |events| == 2 && Part(events, 1, now)
  {
    var b, step, record := settings.bounds, Event(Step(1, false), now), world.logins[1].progress.record;
    var caches := world.CachesOf(0);
    assert caches.tiers == [Entry("t", tier, now)] && Distinct(caches.keys);
    assert Found(caches.tiers, "t", now) == Some(tier) by { hide Distinct, AfterGet; }
    hide AfterEvent, Found, AfterGet, AfterSet, Run.At, Distinct, TierIsCached;
    SetIsFound(caches.keys, "b", (record, tier), now, b.ttl, b.maxsize, now + b.ttl);
    TierIsHit(settings, world, 1, tier, now);
    var w1 := AfterEvent(settings, world, step);
    assert w1.CachesOf(0).keys == caches.keys;
    KeyIsSet(settings, w1, 1, now);
    TwoEvents(settings, world, step, step);
    events := [step, step];
  }

  // A login on key b hits the key cache, again at the last instant.
  lemma OldTierIsServed(settings: Settings, world: World, tier: Stamped<Tier>, now: real) returns (events: seq<Event>)
    requires 2 !in world.logins && "b" in world.store.keys
    requires Found(world.CachesOf(0).keys, "b", now).Some? && Found(world.CachesOf(0).keys, "b", now).value.1 == tier
    ensures
      var last := Run(settings, world, events).Last();
      && 2 in last.logins && last.logins[2].progress.Granted? && last.logins[2].progress.tier == tier
      && last.store == world.store
    ensures |events| == 3 && events[2] == Event(Step(2, false), now)
    ensures Part(events, 2, now)
  {
    hide AfterEvent, Found, AfterGet, Run.At;
    var begin, step := Event(Begin(2, 0, "b"), now), Event(Step(2, false), now);
    LoginBegins(settings, world, 2, 0, "b", now);
    var w1 := AfterEvent(settings, world, begin);
    RowIsRead(settings, w1, 2, now);
    var w2 := AfterEvent(settings, w1, step);
    assert w2.CachesOf(0) == world.CachesOf(0);
    LoginSteps(settings, w2, 2, false, now);
    ThreeEvents(settings, world, begin, step, step);
    events := [begin, step, step];
  }

  // Two lifetimes are needed: with logins that take no time, a tier that was replaced right after
  // it was read is granted two lifetimes later.
  lemma TwoLifetimesAreAttained(settings: Settings, tier: Tier, other: Tier) returns (run: Run)
    requires settings.bounds.maxsize > 0 && settings.bounds.ttl >= 0.0
    ensures run.settings == settings && Premises(run, 0.0) && |run.events| == 21
    ensures run.events[5].now == 0.0 && "t" in run.At(12).store.tiers && run.At(12).store.tiers["t"] == other
    ensures run.events[11].now == 0.0
    ensures run.events[20] == Event(Step(2, false), settings.bounds.ttl + settings.bounds.ttl)
    ensures
      var logins := run.Last().logins;
      && 2 in logins && logins[2].progress.Granted? && logins[2].progress.tier == Stamped(tier, FromRow(5))
  {
    hide AfterEvent, Run.At, Part, TierIsCached, Found, Premises;
    var ttl, start, stamped := settings.bounds.ttl, Opening(Start(tier)), Stamped(tier, FromRow(5));
    var e1 := RecordIsFound(settings, tier);
    var w1 := Run(settings, start, e1).Last();
    var read := TierIsRead(settings, w1, tier);
    var reading := Run(settings, w1, read).Last();
    var fill := TierIsFilled(settings, reading, tier);
    var e2 := read + fill;
    LastOfBoth(settings, w1, read, fill);
    PartsJoin(read, fill, 0, 0.0);
    var w2 := Run(settings, w1, e2).Last();
    var e3 := TierIsReplaced(settings, w2, stamped, ttl, other);
    var w3 := Run(settings, w2, e3).Last();
    var e4 := SecondRecordIsFound(settings, w3, stamped, ttl);
    var w4 := Run(settings, w3, e4).Last();
    var e5 := OldTierIsCachedAgain(settings, w4, stamped, ttl);
    var w5 := Run(settings, w4, e5).Last();
    KeysStay(w3, w4, stamped, ttl);
    var e6 := OldTierIsServed(settings, w5, stamped, ttl + ttl);
    var a, b := e1 + e2 + e3, e4 + e5;
    LastOfBoth(settings, start, e1, e2);
    LastOfBoth(settings, start, e1 + e2, e3);
    LastOfBoth(settings, w3, e4, e5);
    LastOfBoth(settings, start, a, b);
    LastOfBoth(settings, start, a + b, e6);
    LastOfBoth(settings, start, a, b + e6);
    assert a + b + e6 == a + (b + e6);
    PartsJoin(e1, e2, 0, 0.0);
    PartsJoin(e1 + e2, e3, 0, 0.0);
    PartsJoin(e4, e5, 1, ttl);
    run := Run(settings, start, a + b + e6);
    PartsArePremises(run, a, b, e6);
    PartIsAt(a, 0, 0.0, 5);
    PartIsAt(a, 0, 0.0, 11);
    assert run.events[5] == a[5] && run.events[11] == a[11] && run.events[20] == e6[2];
  }

  lemma PartIsAt(events: seq<Event>, c: LoginId, now: real, k: nat)
    requires Part(events, c, now) && k < |events|
    ensures events[k].now == now
  {
  }

  lemma KeysStay(world: World, next: World, tier: Stamped<Tier>, expires: real)
    requires TierIsCached(world, tier, expires) && next.store == world.store
    ensures "b" in next.store.keys
  {
  }
}
