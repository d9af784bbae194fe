// Authentication: two caches on each gateway instance, with the shared store behind them, as a
// machine whose steps are what one instance does between two awaits.
module Auth {
  import opened Prelude
  import opened KeyStore
  import opened TtlCache

  // Where a value was read, by the numbers of the events that read it: from its row, from the
  // copy after the row was missing, or, for a tier that has neither, by default. These numbers
  // are history only: nothing the machine does depends on them.
  datatype Origin = FromRow(at: nat) | FromCopy(missed: nat, at: nat) | ByDefault(missed: nat, at: nat)

  datatype Stamped<T> = Stamped(value: T, origin: Origin)

  type KeyTable = Table<(Stamped<Record>, Stamped<Tier>)>
  type TierTable = Table<Stamped<Tier>>

  datatype Caches = Caches(keys: KeyTable, tiers: TierTable)

  datatype Settings = Settings(bounds: Bounds, defaultTier: Tier)

  // What one instance can reach.
  datatype Local = Local(store: Stores, caches: Caches) {
    function ForgetKey(key: string): Local {
      this.(caches := caches.(keys := Without(caches.keys, key)))
    }

    function ForgetTier(name: string): Local {
      this.(caches := caches.(tiers := Without(caches.tiers, name)))
    }
  }

  // ----- Reading the store ---------------------------------------------------------------------

  datatype Part = TheRow | TheCopy | TheCache

  // How far a read of the store has come: the row comes first, then the copy, and what only the
  // copy had is written back, part by part.
  datatype Fetch<T> = AtRow | AtCopy(missed: nat) | AtBackfill(found: Stamped<T>, part: Part)

  datatype Fetched<T> =
    | Going(fetch: Fetch<T>)
    | Got(found: Stamped<T>)
    | Nothing(missed: nat, at: nat)
    | Unreadable
    | NoDatabase

  // get_key_record. Event n does its next step, which `fails` if the database or Redis does not
  // answer: no database is an error, no copy is a missing copy, and a backfill is given up.
  function FetchKey(local: Local, key: string, fetch: Fetch<Record>, fails: bool, n: nat): (Fetched<Record>, Local) {
    var store := local.store;
    match fetch
    case AtRow =>
      (if fails then NoDatabase
       else if key in store.keys then Got(Stamped(store.keys[key], FromRow(n)))
       else Going(AtCopy(n)), local)
    case AtCopy(missed) =>
      (if fails || key !in store.keyCopies then Nothing(missed, n)
       else
         match store.keyCopies[key]
         case Partial => Unreadable
         case Whole(record) => Going(AtBackfill(Stamped(record, FromCopy(missed, n)), TheRow)), local)
    case AtBackfill(found, TheRow) =>
      if fails then (Got(found), local)
      else (Going(AtBackfill(found, TheCopy)), local.(store := store.PutKey(key, found.value)))
    case AtBackfill(found, TheCopy) =>
      if fails then (Got(found), local)
      else (Going(AtBackfill(found, TheCache)), local.(store := store.PutKeyCopy(key, found.value)))
    case AtBackfill(found, TheCache) => (Got(found), local.ForgetKey(key))
  }

  // get_tier_config. Its backfill invalidates nothing.
  function FetchTier(local: Local, name: string, fetch: Fetch<Tier>, fails: bool, n: nat): (Fetched<Tier>, Local) {
    var store := local.store;
    match fetch
    case AtRow =>
      (if fails then NoDatabase
       else if name in store.tiers then Got(Stamped(store.tiers[name], FromRow(n)))
       else Going(AtCopy(n)), local)
    case AtCopy(missed) =>
      (if fails || name !in store.tierCopies then Nothing(missed, n)
       else Going(AtBackfill(Stamped(store.tierCopies[name], FromCopy(missed, n)), TheRow)), local)
    case AtBackfill(found, TheRow) =>
      if fails then (Got(found), local)
      else (Going(AtBackfill(found, TheCopy)), local.(store := store.PutTier(name, found.value)))
    case AtBackfill(found, _) =>
      (Got(found), if fails then local else local.(store := store.PutTierCopy(name, found.value)))
  }

  // ----- A login ---------------------------------------------------------------------------------

  // How far a call of authenticate has come with one candidate for the key's identifier.
  datatype Progress =
    | Fetching(again: bool, fetch: Fetch<Record>)               // resolving it, or again for its record
    | Resolved                                                  // the key exists
    | HasRecord(record: Stamped<Record>)
    | FetchingTier(record: Stamped<Record>, tierFetch: Fetch<Tier>)
    | ReadTier(record: Stamped<Record>, tier: Stamped<Tier>)
    | Ready(record: Stamped<Record>, tier: Stamped<Tier>)
    | Granted(record: Stamped<Record>, tier: Stamped<Tier>)
    | Refused(missed: nat, at: nat)
    | Broken(unreadable: bool)                                  // an error that is not a refusal
  {
    predicate Holds() {
      HasRecord? || FetchingTier? || ReadTier? || Ready?
    }

    predicate Over() {
      Granted? || Refused? || Broken?
    }
  }

  type InstanceId = nat
  type LoginId = nat
  type JobId = nat

  datatype Login = Login(instance: InstanceId, key: string, begun: nat, progress: Progress)

  function AfterFetch(again: bool, fetched: Fetched<Record>): Progress {
    match fetched
    case Going(fetch) => Fetching(again, fetch)
    case Got(record) => if again then HasRecord(record) else Resolved
    case Nothing(missed, at) => Refused(missed, at)
    case Unreadable => Broken(true)
    case NoDatabase => Broken(false)
  }

  function AfterTierFetch(settings: Settings, record: Stamped<Record>, fetched: Fetched<Tier>): Progress {
    match fetched
    case Going(fetch) => FetchingTier(record, fetch)
    case Got(tier) => ReadTier(record, tier)
    case Nothing(missed, at) => ReadTier(record, Stamped(settings.defaultTier, ByDefault(missed, at)))
    case _ => Broken(false)
  }

  // One step of a call on its instance, done by event n: its next progress, and what it leaves.
  function Advance(settings: Settings, local: Local, login: Login, fails: bool, n: nat, now: real): (Progress, Local) {
    var caches, b := local.caches, settings.bounds;
    match login.progress
    case Fetching(again, fetch) =>
      var (fetched, left) := FetchKey(local, login.key, fetch, fails, n);
      (AfterFetch(again, fetched), left)
    case Resolved =>
      var found := Found(caches.keys, login.key, now);
      (if found.Some? then Granted(found.value.0, found.value.1) else Fetching(true, AtRow),
       local.(caches := caches.(keys := AfterGet(caches.keys, login.key, now))))
    case HasRecord(record) =>
      var found := Found(caches.tiers, record.value.tier, now);
      (if found.Some? then Ready(record, found.value) else FetchingTier(record, AtRow),
       local.(caches := caches.(tiers := AfterGet(caches.tiers, record.value.tier, now))))
    case FetchingTier(record, fetch) =>
      var (fetched, left) := FetchTier(local, record.value.tier, fetch, fails, n);
      (AfterTierFetch(settings, record, fetched), left)
    case ReadTier(record, tier) =>
      (Ready(record, tier),
       local.(caches := caches.(
         tiers := AfterSet(caches.tiers, record.value.tier, tier, now, b.ttl, b.maxsize))))
    case Ready(record, tier) =>
      (Granted(record, tier),
       local.(caches := caches.(
         keys := AfterSet(caches.keys, login.key, (record, tier), now, b.ttl, b.maxsize))))
    case _ => (login.progress, local)
  }

  // What an access that fails comes to: no database ends the login with an error, no Redis reads as
  // a missing copy, and a backfill is given up with what was found. Nothing is written.
  lemma FailingStepMeans(settings: Settings, local: Local, login: Login, n: nat, now: real)
    ensures
      var before := login.progress;
      var (after, left) := Advance(settings, local, login, true, n, now);
      && (before.Fetching? || before.FetchingTier? ==> left.store == local.store)
      && (before.Fetching? ==>
            match before.fetch
            case AtRow => after.Broken?
            case AtCopy(missed) => after == Refused(missed, n)
            case AtBackfill(found, _) => after == if before.again then HasRecord(found) else Resolved)
      && (before.FetchingTier? ==>
            match before.tierFetch
            case AtRow => after.Broken?
            case AtCopy(_) =>
              after.ReadTier? && after.record == before.record && after.tier.value == settings.defaultTier
            case AtBackfill(found, _) => after == ReadTier(before.record, found))
  {
    hide Found, AfterGet, AfterSet;
  }

  // ----- Operations on the store --------------------------------------------------------------

  datatype Operation =
    | SaveKey(key: string, record: Record)
    | DeleteKey(key: string)
    | CountRequest(key: string)
    | SaveTier(name: string, tier: Tier)
    | DeleteTier(name: string)

  // An operation writes the row, then the copy, then invalidates the cache of its instance.
  datatype Stage = Todo(part: Part) | Done

  datatype Job = Job(instance: InstanceId, operation: Operation, stage: Stage)

  function Next(part: Part): Stage {
    match part
    case TheRow => Todo(TheCopy)
    case TheCopy => Todo(TheCache)
    case TheCache => Done
  }

  // The next part of an operation. The request count itself is not part of a record here, and a
  // delete that finds no row ends there.
  function Perform(local: Local, operation: Operation, part: Part): (Local, Stage) {
    var store := local.store;
    match operation
    case SaveKey(key, record) =>
      (match part
       case TheRow => local.(store := store.PutKey(key, record))
       case TheCopy => local.(store := store.PutKeyCopy(key, record))
       case TheCache => local.ForgetKey(key), Next(part))
    case DeleteKey(key) =>
      (match part
       case TheRow => local.(store := store.DropKey(key))
       case TheCopy => local.(store := store.DropKeyCopy(key))
       case TheCache => local.ForgetKey(key), if part == TheRow && key !in store.keys then Done else Next(part))
    case CountRequest(key) =>
      (match part
       case TheRow => local
       case TheCopy => local.(store := store.CountOnCopy(key))
       case TheCache => local.ForgetKey(key), Next(part))
    case SaveTier(name, tier) =>
      (match part
       case TheRow => local.(store := store.PutTier(name, tier))
       case TheCopy => local.(store := store.PutTierCopy(name, tier))
       case TheCache => local.ForgetTier(name), Next(part))
    case DeleteTier(name) =>
      (match part
       case TheRow => local.(store := store.DropTier(name))
       case TheCopy => local.(store := store.DropTierCopy(name))
       case TheCache => local.ForgetTier(name), Next(part))
  }

  // ----- The machine -----------------------------------------------------------------------------

  datatype World = World(
    store: Stores, caches: map<InstanceId, Caches>,
    logins: map<LoginId, Login>, jobs: map<JobId, Job>, events: nat)
  {
    function CachesOf(i: InstanceId): Caches {
      if i in caches then caches[i] else Caches([], [])
    }

    function LocalOf(i: InstanceId): Local {
      Local(store, CachesOf(i))
    }

    function With(i: InstanceId, local: Local): World {
      this.(store := local.store, caches := caches[i := local.caches])
    }
  }

  // Gateways that have just started over some store, which may have copies without rows.
  function Opening(store: Stores): World {
    World(store, map[], map[], map[], 0)
  }

  lemma OpeningIsNew(store: Stores)
    ensures Opening(store).events == 0
  {
  }

  // Logins and jobs take their steps in any order, and may stop for good before any of them.
  // An invalidation message may reach any instance at any time.
  datatype Action =
    | Begin(login: LoginId, instance: InstanceId, key: string)
    | Step(login: LoginId, fails: bool)
    | Abandon(login: LoginId)
    | Start(job: JobId, instance: InstanceId, operation: Operation)
    | Work(job: JobId)
    | Quit(job: JobId)
    | ForgetKey(instance: InstanceId, key: string)
    | ForgetTier(instance: InstanceId, name: string)

  datatype Event = Event(action: Action, now: real)

  function StepLogin(settings: Settings, world: World, c: LoginId, fails: bool, now: real): World
    requires c in world.logins
  {
    var login := world.logins[c];
    var (progress, left) := Advance(settings, world.LocalOf(login.instance), login, fails, world.events, now);
    world.With(login.instance, left).(logins := world.logins[c := login.(progress := progress)])
  }

  function WorkJob(world: World, j: JobId): World
    requires j in world.jobs && world.jobs[j].stage.Todo?
  {
    var job := world.jobs[j];
    var (left, stage) := Perform(world.LocalOf(job.instance), job.operation, job.stage.part);
    world.With(job.instance, left).(jobs := world.jobs[j := job.(stage := stage)])
  }

  function Apply(settings: Settings, world: World, event: Event): World {
    match event.action
    case Begin(c, i, key) =>
      if c in world.logins then world
      else world.(logins := world.logins[c := Login(i, key, world.events, Fetching(false, AtRow))])
    case Step(c, fails) => if c in world.logins then StepLogin(settings, world, c, fails, event.now) else world
    case Abandon(c) =>
      if c in world.logins && !world.logins[c].progress.Over() then
        world.(logins := world.logins[c := world.logins[c].(progress := Broken(false))])
      else world
    case Start(j, i, operation) =>
      if j in world.jobs then world else world.(jobs := world.jobs[j := Job(i, operation, Todo(TheRow))])
    case Work(j) => if j in world.jobs && world.jobs[j].stage.Todo? then WorkJob(world, j) else world
    case Quit(j) =>
      if j in world.jobs then world.(jobs := world.jobs[j := world.jobs[j].(stage := Done)]) else world
    case ForgetKey(i, key) => world.With(i, world.LocalOf(i).ForgetKey(key))
    case ForgetTier(i, name) => world.With(i, world.LocalOf(i).ForgetTier(name))
  }

  function AfterEvent(settings: Settings, world: World, event: Event): World {
    Apply(settings, world, event).(events := world.events + 1)
  }

  datatype Run = Run(settings: Settings, start: World, events: seq<Event>) {
    // The world before event n.
    function At(n: nat): World
      requires n <= |events|
    {
      if n == 0 then start else AfterEvent(settings, At(n - 1), events[n - 1])
    }

    function Last(): World {
      At(|events|)
    }

    ghost predicate TimesOrdered() {
      forall i, j :: 0 <= i <= j < |events| ==> events[i].now <= events[j].now
    }
  }

  ghost predicate RowMissing(run: Run, key: string, at: nat)
    requires at < |run.events|
  {
    key !in run.At(at).store.keys
  }

  // No copy, or a Redis that does not answer.
  ghost predicate CopyMissing(run: Run, key: string, at: nat)
    requires at < |run.events|
  {
    key !in run.At(at).store.keyCopies || (run.events[at].action.Step? && run.events[at].action.fails)
  }

  lemma AtStart(run: Run)
    ensures run.At(0) == run.start
  {
    hide AfterEvent;
  }

  lemma AtNext(run: Run, k: nat)
    requires k < |run.events|
    ensures run.At(k + 1) == AfterEvent(run.settings, run.At(k), run.events[k])
  {
    hide AfterEvent;
  }

  // ----- Running on ----------------------------------------------------------------------------------

  lemma {:induction false} EventsAreNumbered(run: Run, n: nat)
    requires n <= |run.events|
    ensures run.At(n).events == run.start.events + n
  {
    if n == 0 {
    } else {
      EventsAreNumbered(run, n - 1);
      hide Apply;
    }
  }

  lemma {:induction false} RunsShareAPrefix(settings: Settings, start: World, first: seq<Event>, second: seq<Event>,
                                            n: nat)
    requires n <= |first|
    ensures Run(settings, start, first + second).At(n) == Run(settings, start, first).At(n)
  {
    hide AfterEvent;
    if n == 0 {
    } else {
      RunsShareAPrefix(settings, start, first, second, n - 1);
    }
  }

  lemma {:induction false} RunsCompose(settings: Settings, start: World, first: seq<Event>, second: seq<Event>, n: nat)
    requires n <= |second|
    ensures Run(settings, start, first + second).At(|first| + n)
         == Run(settings, Run(settings, start, first).Last(), second).At(n)
  {
    hide AfterEvent;
    if n == 0 {
      RunsShareAPrefix(settings, start, first, second, |first|);
    } else {
      RunsCompose(settings, start, first, second, n - 1);
    }
  }

  lemma FirstStep(settings: Settings, world: World, event: Event, rest: seq<Event>)
    ensures Run(settings, world, [event] + rest).Last()
         == Run(settings, AfterEvent(settings, world, event), rest).Last()
  {
    hide AfterEvent;
    var one := Run(settings, world, [event]);
    assert one.Last() == AfterEvent(settings, one.At(0), one.events[0]);
    RunsCompose(settings, world, [event], rest, |rest|);
  }

  lemma LastOfBoth(settings: Settings, start: World, first: seq<Event>, second: seq<Event>)
    ensures
      var both, mid := Run(settings, start, first + second), Run(settings, start, first).Last();
      both.At(|first|) == mid && both.Last() == Run(settings, mid, second).Last()
  {
    hide AfterEvent, Run.At;
    RunsShareAPrefix(settings, start, first, second, |first|);
    RunsCompose(settings, start, first, second, |second|);
    assert |first + second| == |first| + |second|;
  }

  lemma RunInThree(settings: Settings, start: World, a: seq<Event>, b: seq<Event>, c: seq<Event>)
    ensures
      var run := Run(settings, start, a + b + c);
      var mid := Run(settings, Run(settings, start, a).Last(), b).Last();
      run.At(|a + b|) == mid && run.Last() == Run(settings, mid, c).Last()
  {
    hide AfterEvent, Run.At, Run.Last;
    LastOfBoth(settings, start, a, b);
    LastOfBoth(settings, start, a + b, c);
  }

  // ----- Single events -----------------------------------------------------------------------------

  lemma JobWorks(settings: Settings, world: World, j: JobId, now: real)
    requires j in world.jobs && world.jobs[j].stage.Todo?
    ensures
      var job, next := world.jobs[j], AfterEvent(settings, world, Event(Work(j), now));
      var (left, stage) := Perform(world.LocalOf(job.instance), job.operation, job.stage.part);
      && next.store == left.store && next.jobs == world.jobs[j := job.(stage := stage)]
      && next.logins == world.logins && next.events == world.events + 1
      && next.caches == world.caches[job.instance := left.caches]
  {
    hide Perform;
  }

  lemma LoginSteps(settings: Settings, world: World, c: LoginId, fails: bool, now: real)
    requires c in world.logins
    ensures
      var login, next := world.logins[c], AfterEvent(settings, world, Event(Step(c, fails), now));
      var (progress, left) := Advance(settings, world.LocalOf(login.instance), login, fails, world.events, now);
      && next.store == left.store && next.jobs == world.jobs
      && next.logins == world.logins[c := login.(progress := progress)] && next.events == world.events + 1
      && next.caches == world.caches[login.instance := left.caches]
  {
    hide Advance;
  }

  lemma JobStarts(settings: Settings, world: World, j: JobId, i: InstanceId, operation: Operation, now: real)
    requires j !in world.jobs
    ensures
      AfterEvent(settings, world, Event(Start(j, i, operation), now))
      == world.(jobs := world.jobs[j := Job(i, operation, Todo(TheRow))], events := world.events + 1)
  {
  }

  lemma LoginBegins(settings: Settings, world: World, c: LoginId, i: InstanceId, key: string, now: real)
    requires c !in world.logins
    ensures
      AfterEvent(settings, world, Event(Begin(c, i, key), now))
      == world.(logins := world.logins[c := Login(i, key, world.events, Fetching(false, AtRow))],
                events := world.events + 1)
  {
  }

  // A login reads the row ...
  lemma RowIsRead(settings: Settings, world: World, c: LoginId, now: real)
    requires c in world.logins && world.logins[c].progress.Fetching? && world.logins[c].progress.fetch.AtRow?
    requires world.logins[c].key in world.store.keys
    ensures
      var login := world.logins[c];
      var record := Stamped(world.store.keys[login.key], FromRow(world.events));
      var progress := if login.progress.again then HasRecord(record) else Resolved;
      AfterEvent(settings, world, Event(Step(c, false), now))
      == world.(logins := world.logins[c := login.(progress := progress)], events := world.events + 1,
                caches := world.caches[login.instance := world.CachesOf(login.instance)])
  {
    LoginSteps(settings, world, c, false, now);
  }

  // ... or misses the cache.
  lemma CacheIsMissed(settings: Settings, world: World, c: LoginId, now: real)
    requires c in world.logins && world.logins[c].progress == Resolved
    requires Found(world.CachesOf(world.logins[c].instance).keys, world.logins[c].key, now) == None
    ensures
      var login := world.logins[c];
      var caches := world.CachesOf(login.instance);
      AfterEvent(settings, world, Event(Step(c, false), now))
      == world.(logins := world.logins[c := login.(progress := Fetching(true, AtRow))], events := world.events + 1,
                caches := world.caches[login.instance := caches.(keys := AfterGet(caches.keys, login.key, now))])
  {
    hide Found, AfterGet;
    LoginSteps(settings, world, c, false, now);
  }

  // A login finds the tier of its record in the cache, ...
  lemma TierIsHit(settings: Settings, world: World, c: LoginId, tier: Stamped<Tier>, now: real)
    requires c in world.logins && world.logins[c].progress.HasRecord?
    requires
      var login := world.logins[c];
      Found(world.CachesOf(login.instance).tiers, login.progress.record.value.tier, now) == Some(tier)
    ensures
      var login := world.logins[c];
      var caches, name := world.CachesOf(login.instance), login.progress.record.value.tier;
      AfterEvent(settings, world, Event(Step(c, false), now))
      == world.(logins := world.logins[c := login.(progress := Ready(login.progress.record, tier))],
                events := world.events + 1,
                caches := world.caches[login.instance := caches.(tiers := AfterGet(caches.tiers, name, now))])
  {
    hide Found, AfterGet;
    LoginSteps(settings, world, c, false, now);
  }

  // ... or caches a tier that it has read, ...
  lemma TierIsSet(settings: Settings, world: World, c: LoginId, now: real)
    requires c in world.logins && world.logins[c].progress.ReadTier?
    ensures
      var login, b := world.logins[c], settings.bounds;
      var caches, ReadTier(record, tier) := world.CachesOf(login.instance), login.progress;
      var tiers := AfterSet(caches.tiers, record.value.tier, tier, now, b.ttl, b.maxsize);
      AfterEvent(settings, world, Event(Step(c, false), now))
      == world.(logins := world.logins[c := login.(progress := Ready(record, tier))], events := world.events + 1,
                caches := world.caches[login.instance := caches.(tiers := tiers)])
  {
    hide AfterSet;
    LoginSteps(settings, world, c, false, now);
  }

  // ... and at last caches both.
  lemma KeyIsSet(settings: Settings, world: World, c: LoginId, now: real)
    requires c in world.logins && world.logins[c].progress.Ready?
    ensures
      var login, b := world.logins[c], settings.bounds;
      var caches, Ready(record, tier) := world.CachesOf(login.instance), login.progress;
      var keys := AfterSet(caches.keys, login.key, (record, tier), now, b.ttl, b.maxsize);
      AfterEvent(settings, world, Event(Step(c, false), now))
      == world.(logins := world.logins[c := login.(progress := Granted(record, tier))], events := world.events + 1,
                caches := world.caches[login.instance := caches.(keys := keys)])
  {
    hide AfterSet;
    LoginSteps(settings, world, c, false, now);
  }

  lemma OneEvent(settings: Settings, world: World, event: Event)
    ensures Run(settings, world, [event]).Last() == AfterEvent(settings, world, event)
  {
    hide AfterEvent;
    FirstStep(settings, world, event, []);
    assert [event] + [] == [event];
  }

  lemma LastEvent(settings: Settings, world: World, events: seq<Event>, event: Event)
    ensures Run(settings, world, events + [event]).Last()
         == AfterEvent(settings, Run(settings, world, events).Last(), event)
  {
    hide AfterEvent;
    RunsShareAPrefix(settings, world, events, [event], |events|);
  }

  lemma TwoEvents(settings: Settings, world: World, a: Event, b: Event)
    ensures Run(settings, world, [a, b]).Last() == AfterEvent(settings, AfterEvent(settings, world, a), b)
  {
    hide AfterEvent;
    OneEvent(settings, world, a);
    LastEvent(settings, world, [a], b);
    assert [a] + [b] == [a, b];
  }

  lemma ThreeEvents(settings: Settings, world: World, a: Event, b: Event, c: Event)
    ensures Run(settings, world, [a, b, c]).Last()
         == AfterEvent(settings, AfterEvent(settings, AfterEvent(settings, world, a), b), c)
  {
    hide AfterEvent;
    TwoEvents(settings, world, a, b);
    LastEvent(settings, world, [a, b], c);
    assert [a, b] + [c] == [a, b, c];
  }

  lemma FourEvents(settings: Settings, world: World, a: Event, b: Event, c: Event, d: Event)
    ensures
      Run(settings, world, [a, b, c, d]).Last()
      == AfterEvent(settings, AfterEvent(settings, AfterEvent(settings, AfterEvent(settings, world, a), b), c), d)
  {
    hide AfterEvent;
    ThreeEvents(settings, world, a, b, c);
    LastEvent(settings, world, [a, b, c], d);
    assert [a, b, c] + [d] == [a, b, c, d];
  }

  // A new login resolves its key, misses the cache and reads the record.
  function NewLogin(c: LoginId, i: InstanceId, key: string, now: real): seq<Event> {
    var step := Event(Step(c, false), now);
    [Event(Begin(c, i, key), now), step, step, step]
  }

  lemma NewLoginHasRecord(settings: Settings, world: World, c: LoginId, i: InstanceId, key: string, now: real)
    requires c !in world.logins && key in world.store.keys && Found(world.CachesOf(i).keys, key, now) == None
    ensures
      var last, caches := Run(settings, world, NewLogin(c, i, key, now)).Last(), world.CachesOf(i);
      var record := Stamped(world.store.keys[key], FromRow(world.events + 3));
      && last.store == world.store && last.jobs == world.jobs && last.events == world.events + 4
      && last.logins == world.logins[c := Login(i, key, world.events, HasRecord(record))]
      && last.caches == world.caches[i := caches.(keys := AfterGet(caches.keys, key, now))]
  {
    hide AfterEvent, Found, AfterGet, Run.At;
    var begin, step := Event(Begin(c, i, key), now), Event(Step(c, false), now);
    LoginBegins(settings, world, c, i, key, now);
    var w1 := AfterEvent(settings, world, begin);
    RowIsRead(settings, w1, c, now);
    var w2 := AfterEvent(settings, w1, step);
    assert w2.logins == world.logins[c := Login(i, key, world.events, Resolved)];
    assert w2.caches == world.caches[i := world.CachesOf(i)];
    CacheIsMissed(settings, w2, c, now);
    var w3 := AfterEvent(settings, w2, step);
    assert w3.logins == world.logins[c := Login(i, key, world.events, Fetching(true, AtRow))];
    RowIsRead(settings, w3, c, now);
    FourEvents(settings, world, begin, step, step, step);
  }
}
