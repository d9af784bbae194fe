// When a saved record is what later logins get.
module Saves {
  import opened Prelude
  import opened KeyStore
  import opened TtlCache
  import opened Auth
  import opened Revocation

  // ----- What can undo a save -------------------------------------------------------------------

  // The job has yet to write or drop the row or the copy of the key with what it was given.
  predicate Rewrites(job: Job, key: string) {
    job.stage.Todo? && job.stage.part != TheCache &&
    match job.operation
    case SaveKey(k, _) => k == key
    case DeleteKey(k) => k == key
    case _ => false
  }

  predicate Backfills(login: Login, key: string) {
    login.key == key && login.progress.Fetching? && login.progress.fetch.AtBackfill?
  }

  // The login waits for the copy of the key, having found no row.
  predicate AwaitsCopy(login: Login, key: string) {
    login.key == key && login.progress.Fetching? && login.progress.fetch.AtCopy?
  }

  // The copy reads as another record than the one saved.
  predicate CopyDiffers(store: Stores, key: string, record: Record) {
    match store.CopyOf(key)
    case Some(Whole(other)) => other != record
    case _ => false
  }

  // The login is about to make the copy another record than the one saved.
  predicate MakesCopyDiffer(store: Stores, login: Login, key: string, record: Record) {
    && Backfills(login, key) && login.progress.fetch.part == TheCopy
    && Merged(store.CopyOf(key), login.progress.fetch.found.value) != record
  }

  // The login brings another record to instance i, or puts it into the row.
  predicate Carries(login: Login, i: InstanceId, key: string, record: Record) {
    || (login.key == key && login.instance == i && login.progress.Holds() && login.progress.record.value != record)
    || (Backfills(login, key) && login.progress.fetch.found.value != record &&
          (login.progress.fetch.part == TheRow || (login.progress.again && login.instance == i)))
  }

  // No login under way holds another record, nor waits for a copy that is or becomes another.
  ghost predicate Undisturbed(world: World, i: InstanceId, key: string, record: Record) {
    && (forall c :: c in world.logins ==> !Carries(world.logins[c], i, key, record))
    && ((exists c :: c in world.logins && AwaitsCopy(world.logins[c], key)) ==> CopyIsSafe(world, key, record))
  }

  ghost predicate CopyIsSafe(world: World, key: string, record: Record) {
    && !CopyDiffers(world.store, key, record)
    && forall c :: c in world.logins ==> !MakesCopyDiffer(world.store, world.logins[c], key, record)
  }

  // ----- A save that stays -------------------------------------------------------------------------

  ghost predicate TablesDistinct(world: World) {
    forall i :: i in world.caches ==> Distinct(world.caches[i].keys)
  }

  // The row holds the record, and so does whatever instance i has cached of the key.
  ghost predicate Stored(world: World, i: InstanceId, key: string, record: Record) {
    && key in world.store.keys && world.store.keys[key] == record && TablesDistinct(world)
    && (forall e :: e in world.CachesOf(i).keys && e.key == key ==> e.value.0.value == record)
    && (forall j :: j in world.jobs ==> !Rewrites(world.jobs[j], key))
  }

  ghost predicate ServedLogin(login: Login, i: InstanceId, key: string, record: Record) {
    login.instance == i && login.key == key && login.progress.Granted? ==> login.progress.record.value == record
  }

  // Every login granted on instance i since world `start` got the record.
  ghost predicate Served(start: World, world: World, i: InstanceId, key: string, record: Record) {
    forall c :: c in world.logins && c !in start.logins ==> ServedLogin(world.logins[c], i, key, record)
  }

  ghost predicate Clean(start: World, world: World, i: InstanceId, key: string, record: Record) {
    && Stored(world, i, key, record) && Undisturbed(world, i, key, record) && Served(start, world, i, key, record)
    && (forall c :: c in start.logins ==> c in world.logins)
  }

  // What a step of a login may do to the store, the cache of its instance and itself.
  ghost predicate GoodStep(local: Local, login: Login, i: InstanceId, key: string, record: Record,
                           next: (Progress, Local)) {
    var after := login.(progress := next.0);
    && key in next.1.store.keys && next.1.store.keys[key] == record && Distinct(next.1.caches.keys)
    && !Carries(after, i, key, record)
    && (login.instance == i ==> forall e :: e in next.1.caches.keys && e.key == key ==> e.value.0.value == record)
    && (AwaitsCopy(after, key) ==> AwaitsCopy(login, key))
    && (ServedLogin(login, i, key, record) ==> ServedLogin(after, i, key, record))
    && (MakesCopyDiffer(next.1.store, after, key, record) ==>
          MakesCopyDiffer(local.store, login, key, record) || CopyDiffers(local.store, key, record))
  }

  // How a step of another login changes what the copy is.
  ghost predicate CopyStaysSafe(before: Stores, after: Stores, key: string, record: Record) {
    && (CopyDiffers(after, key, record) ==> CopyDiffers(before, key, record))
    && (forall other: Record :: Merged(after.CopyOf(key), other) != record ==>
          Merged(before.CopyOf(key), other) != record || CopyDiffers(before, key, record))
  }

  lemma FetchIsGood(local: Local, login: Login, fails: bool, n: nat, i: InstanceId, key: string, record: Record)
    requires login.progress.Fetching? && !Carries(login, i, key, record)
    requires key in local.store.keys && local.store.keys[key] == record && Distinct(local.caches.keys)
    requires login.instance == i ==> forall e :: e in local.caches.keys && e.key == key ==> e.value.0.value == record
    requires AwaitsCopy(login, key) ==> !CopyDiffers(local.store, key, record)
    ensures
      var (fetched, left) := FetchKey(local, login.key, login.progress.fetch, fails, n);
      GoodStep(local, login, i, key, record, (AfterFetch(login.progress.again, fetched), left))
  {
    if login.key == key {
      FetchHereIsGood(local, login, fails, n, i, key, record);
    } else {
      FetchElsewhereIsGood(local, login, fails, n, i, key, record);
    }
    hide *;
  }

  // Reading the saved key.
  lemma FetchHereIsGood(local: Local, login: Login, fails: bool, n: nat, i: InstanceId, key: string, record: Record)
    requires login.key == key && login.progress.Fetching? && !Carries(login, i, key, record)
    requires key in local.store.keys && local.store.keys[key] == record && Distinct(local.caches.keys)
    requires login.instance == i ==> forall e :: e in local.caches.keys && e.key == key ==> e.value.0.value == record
    requires AwaitsCopy(login, key) ==> !CopyDiffers(local.store, key, record)
    ensures
      var (fetched, left) := FetchKey(local, login.key, login.progress.fetch, fails, n);
      GoodStep(local, login, i, key, record, (AfterFetch(login.progress.again, fetched), left))
  {
    if login.progress.fetch.AtBackfill? {
      BackfillIsGood(local, login, fails, n, i, key, record);
      hide *;
    } else {
      hide Distinct, Merged, Without;
    }
  }

  // Writing the saved key back.
  lemma BackfillIsGood(local: Local, login: Login, fails: bool, n: nat, i: InstanceId, key: string, record: Record)
    requires login.key == key && login.progress.Fetching? && login.progress.fetch.AtBackfill?
    requires !Carries(login, i, key, record)
    requires key in local.store.keys && local.store.keys[key] == record && Distinct(local.caches.keys)
    requires login.instance == i ==> forall e :: e in local.caches.keys && e.key == key ==> e.value.0.value == record
    ensures
      var (fetched, left) := FetchKey(local, login.key, login.progress.fetch, fails, n);
      GoodStep(local, login, i, key, record, (AfterFetch(login.progress.again, fetched), left))
  {
    ForgetTakesAway(local, key);
    hide Distinct, Without, Local.ForgetKey;
    match login.progress.fetch.part {
      case TheRow =>
      case TheCopy =>
      case TheCache => hide Merged;
    }
  }

  // Reading another key.
  lemma FetchElsewhereIsGood(local: Local, login: Login, fails: bool, n: nat, i: InstanceId, key: string,
                             record: Record)
    requires login.key != key && login.progress.Fetching?
    requires key in local.store.keys && local.store.keys[key] == record && Distinct(local.caches.keys)
    requires login.instance == i ==> forall e :: e in local.caches.keys && e.key == key ==> e.value.0.value == record
    ensures
      var (fetched, left) := FetchKey(local, login.key, login.progress.fetch, fails, n);
      GoodStep(local, login, i, key, record, (AfterFetch(login.progress.again, fetched), left))
  {
    ForgetTakesAway(local, login.key);
    hide Distinct, Without, Local.ForgetKey, AfterFetch, CopyDiffers, Merged;
    var (fetched, left) := FetchKey(local, login.key, login.progress.fetch, fails, n);
    assert left.caches == local.caches || left == local.ForgetKey(login.key);
  }

  lemma FetchKeepsCopySafe(local: Local, login: Login, fails: bool, n: nat, key: string, record: Record)
    requires login.progress.Fetching? && !MakesCopyDiffer(local.store, login, key, record)
    ensures CopyStaysSafe(local.store, FetchKey(local, login.key, login.progress.fetch, fails, n).1.store, key, record)
  {
    hide Without;
  }

  lemma FoundIn<V>(table: Table<V>, key: string, now: real) returns (e: Entry<V>)
    requires Found(table, key, now).Some?
    ensures e in table && e.key == key && Found(table, key, now) == Some(e.value)
  {
    e := table[Position(table, key)];
  }

  lemma AdvanceIsGood(settings: Settings, local: Local, login: Login, fails: bool, n: nat, now: real,
                      i: InstanceId, key: string, record: Record)
    requires !Carries(login, i, key, record)
    requires key in local.store.keys && local.store.keys[key] == record && Distinct(local.caches.keys)
    requires login.instance == i ==> forall e :: e in local.caches.keys && e.key == key ==> e.value.0.value == record
    requires AwaitsCopy(login, key) ==> !CopyDiffers(local.store, key, record)
    ensures GoodStep(local, login, i, key, record, Advance(settings, local, login, fails, n, now))
  {
    match login.progress {
      case Fetching(_, _) =>
        FetchIsGood(local, login, fails, n, i, key, record);
        hide FetchKey, GoodStep;
      case Resolved => LookupIsGood(settings, local, login, fails, n, now, i, key, record);
      case Ready(_, _) => FillIsGood(settings, local, login, fails, n, now, i, key, record);
      case FetchingTier(_, fetch) => hide Distinct;
      case _ => hide AfterGet, AfterSet, Found, Distinct;
    }
  }

  lemma LookupIsGood(settings: Settings, local: Local, login: Login, fails: bool, n: nat, now: real,
                     i: InstanceId, key: string, record: Record)
    requires login.progress.Resolved? && Distinct(local.caches.keys)
    requires key in local.store.keys && local.store.keys[key] == record
    requires login.instance == i ==> forall e :: e in local.caches.keys && e.key == key ==> e.value.0.value == record
    ensures GoodStep(local, login, i, key, record, Advance(settings, local, login, fails, n, now))
  {
    hide AfterGet, Found, Distinct;
    GetKeepsTable(local.caches.keys, login.key, now);
    if Found(local.caches.keys, login.key, now).Some? {
      var e := FoundIn(local.caches.keys, login.key, now);
    }
  }

  lemma FillIsGood(settings: Settings, local: Local, login: Login, fails: bool, n: nat, now: real,
                   i: InstanceId, key: string, record: Record)
    requires login.progress.Ready? && !Carries(login, i, key, record) && Distinct(local.caches.keys)
    requires key in local.store.keys && local.store.keys[key] == record
    requires login.instance == i ==> forall e :: e in local.caches.keys && e.key == key ==> e.value.0.value == record
    ensures GoodStep(local, login, i, key, record, Advance(settings, local, login, fails, n, now))
  {
    hide AfterSet, Distinct;
    var p, b := login.progress, settings.bounds;
    SetKeepsTable(local.caches.keys, login.key, (p.record, p.tier), now, b.ttl, b.maxsize);
  }

  lemma AdvanceKeepsCopySafe(settings: Settings, local: Local, login: Login, fails: bool, n: nat, now: real,
                             key: string, record: Record)
    requires !MakesCopyDiffer(local.store, login, key, record)
    ensures CopyStaysSafe(local.store, Advance(settings, local, login, fails, n, now).1.store, key, record)
  {
    if login.progress.Fetching? {
      FetchKeepsCopySafe(local, login, fails, n, key, record);
    }
    hide FetchKey, Found, AfterGet, AfterSet;
  }

  lemma CopyStaysSafeInWorld(world: World, next: World, c: LoginId, key: string, record: Record)
    requires c in world.logins && c in next.logins && next.logins == world.logins[c := next.logins[c]]
    requires CopyIsSafe(world, key, record) && CopyStaysSafe(world.store, next.store, key, record)
    requires MakesCopyDiffer(next.store, next.logins[c], key, record) ==>
               MakesCopyDiffer(world.store, world.logins[c], key, record) || CopyDiffers(world.store, key, record)
    ensures CopyIsSafe(next, key, record)
  {
    hide CopyDiffers;
    forall d | d in next.logins ensures !MakesCopyDiffer(next.store, next.logins[d], key, record) {
      if d != c {
        assert !MakesCopyDiffer(world.store, world.logins[d], key, record);
      }
    }
  }

  lemma StepKeepsUndisturbed(settings: Settings, world: World, c: LoginId, fails: bool, now: real,
                             i: InstanceId, key: string, record: Record)
    requires c in world.logins && Stored(world, i, key, record) && Undisturbed(world, i, key, record)
    requires
      var login := world.logins[c];
      GoodStep(world.LocalOf(login.instance), login, i, key, record,
               Advance(settings, world.LocalOf(login.instance), login, fails, world.events, now))
    ensures Undisturbed(AfterEvent(settings, world, Event(Step(c, fails), now)), i, key, record)
  {
    hide AfterEvent, Advance, Stored, Carries, AwaitsCopy, MakesCopyDiffer, CopyStaysSafe, CopyDiffers;
    var login, next := world.logins[c], AfterEvent(settings, world, Event(Step(c, fails), now));
    LoginSteps(settings, world, c, fails, now);
    if a :| a in next.logins && AwaitsCopy(next.logins[a], key) {
      assert AwaitsCopy(world.logins[a], key);
      AdvanceKeepsCopySafe(settings, world.LocalOf(login.instance), login, fails, world.events, now, key, record);
      CopyStaysSafeInWorld(world, next, c, key, record);
    }
    hide CopyIsSafe;
  }

  lemma DistinctThere(world: World, i: InstanceId)
    requires TablesDistinct(world)
    ensures Distinct(world.CachesOf(i).keys)
  {
  }

  lemma StepKeepsClean(settings: Settings, start: World, world: World, c: LoginId, fails: bool, now: real,
                       i: InstanceId, key: string, record: Record)
    requires Clean(start, world, i, key, record) && c in world.logins
    ensures Clean(start, AfterEvent(settings, world, Event(Step(c, fails), now)), i, key, record)
  {
    hide AfterEvent, Advance, Carries, AwaitsCopy, CopyIsSafe, ServedLogin, Rewrites, Distinct;
    var login, next := world.logins[c], AfterEvent(settings, world, Event(Step(c, fails), now));
    var local := world.LocalOf(login.instance);
    DistinctThere(world, login.instance);
    assert AwaitsCopy(login, key) ==> !CopyDiffers(world.store, key, record) by {
      assert AwaitsCopy(login, key) ==> CopyIsSafe(world, key, record);
      hide MakesCopyDiffer, CopyDiffers;
      CopyIsSafeMeans(world, key, record);
    }
    AdvanceIsGood(settings, local, login, fails, world.events, now, i, key, record);
    StepKeepsUndisturbed(settings, world, c, fails, now, i, key, record);
    LoginSteps(settings, world, c, fails, now);
    hide Undisturbed, MakesCopyDiffer, CopyDiffers;
    assert Stored(next, i, key, record);
    assert Served(start, next, i, key, record);
  }

  lemma CopyIsSafeMeans(world: World, key: string, record: Record)
    ensures CopyIsSafe(world, key, record) ==> !CopyDiffers(world.store, key, record)
  {
  }

  lemma WriteIsGood(local: Local, job: Job, key: string, record: Record)
    requires job.stage.Todo? && job.stage.part != TheCache && !Rewrites(job, key)
    requires key in local.store.keys && local.store.keys[key] == record
    ensures
      var (left, stage) := Perform(local, job.operation, job.stage.part);
      && key in left.store.keys && left.store.keys[key] == record && left.caches == local.caches
      && !Rewrites(job.(stage := stage), key) && CopyStaysSafe(local.store, left.store, key, record)
  {
    assert CopyStaysSafe(local.store, local.store, key, record);
    var left := Perform(local, job.operation, job.stage.part).0;
    if left.store.CopyOf(key) == local.store.CopyOf(key) {
      hide Perform, Rewrites;
    } else {
      assert local.store.CopyOf(key) == None && left.store.CopyOf(key) == Some(Partial);
    }
  }

  lemma PerformIsGood(local: Local, job: Job, i: InstanceId, key: string, record: Record)
    requires job.stage.Todo? && !Rewrites(job, key)
    requires key in local.store.keys && local.store.keys[key] == record && Distinct(local.caches.keys)
    ensures
      var (left, stage) := Perform(local, job.operation, job.stage.part);
      && key in left.store.keys && left.store.keys[key] == record && Distinct(left.caches.keys)
      && !Rewrites(job.(stage := stage), key) && CopyStaysSafe(local.store, left.store, key, record)
      && forall e :: e in left.caches.keys ==> e in local.caches.keys
  {
    hide Distinct, Without, CopyStaysSafe;
    if job.stage.part != TheCache {
      hide Rewrites, Perform;
      WriteIsGood(local, job, key, record);
    } else {
      SameStoreIsSafe(local.store, key, record);
      match job.operation {
        case SaveTier(_, _) =>
        case DeleteTier(_) =>
        case _ => ForgetTakesAway(local, job.operation.key);
      }
    }
  }

  lemma ForgetTakesAway(local: Local, key: string)
    requires Distinct(local.caches.keys)
    ensures Distinct(local.ForgetKey(key).caches.keys)
    ensures forall e :: e in local.ForgetKey(key).caches.keys ==> e in local.caches.keys
  {
    hide Distinct;
    WithoutIsDistinct(local.caches.keys, key);
  }

  lemma SameStoreIsSafe(store: Stores, key: string, record: Record)
    ensures CopyStaysSafe(store, store, key, record)
  {
  }

  lemma WorkKeepsClean(settings: Settings, start: World, world: World, j: JobId, now: real,
                       i: InstanceId, key: string, record: Record)
    requires Clean(start, world, i, key, record) && j in world.jobs && world.jobs[j].stage.Todo?
    ensures Clean(start, AfterEvent(settings, world, Event(Work(j), now)), i, key, record)
  {
    hide AfterEvent, Perform, Carries, AwaitsCopy, CopyIsSafe, ServedLogin, Rewrites, Distinct, CopyStaysSafe;
    var job, next := world.jobs[j], AfterEvent(settings, world, Event(Work(j), now));
    DistinctThere(world, job.instance);
    PerformIsGood(world.LocalOf(job.instance), job, i, key, record);
    JobWorks(settings, world, j, now);
    assert Stored(next, i, key, record) by { hide Undisturbed, Served; }
    assert Undisturbed(next, i, key, record) by {
      hide Stored, Served;
      if CopyIsSafe(world, key, record) {
        CopyStaysSafeAlone(world, next, key, record);
      }
    }
    assert Served(start, next, i, key, record) by { hide Stored, Undisturbed; }
  }

  lemma CopyStaysSafeAlone(world: World, next: World, key: string, record: Record)
    requires next.logins == world.logins && CopyIsSafe(world, key, record)
    requires CopyStaysSafe(world.store, next.store, key, record)
    ensures CopyIsSafe(next, key, record)
  {
    hide CopyDiffers;
    forall d | d in next.logins ensures !MakesCopyDiffer(next.store, next.logins[d], key, record) {
      assert !MakesCopyDiffer(world.store, world.logins[d], key, record);
    }
  }

  // Entries taken away.
  lemma FewerCachedKeepsClean(start: World, world: World, j: InstanceId, fewer: Caches,
                              i: InstanceId, key: string, record: Record)
    requires Clean(start, world, i, key, record) && Distinct(fewer.keys)
    requires forall e :: e in fewer.keys ==> e in world.CachesOf(j).keys
    ensures Clean(start, world.With(j, Local(world.store, fewer)).(events := world.events + 1), i, key, record)
  {
    hide Carries, AwaitsCopy, ServedLogin, Rewrites, Distinct, MakesCopyDiffer, CopyDiffers;
    var next := world.With(j, Local(world.store, fewer)).(events := world.events + 1);
    assert Stored(next, i, key, record) by { hide Undisturbed, Served; }
    hide Stored;
  }

  lemma ForgetKeepsClean(settings: Settings, start: World, world: World, event: Event,
                         i: InstanceId, key: string, record: Record)
    requires Clean(start, world, i, key, record) && (event.action.ForgetKey? || event.action.ForgetTier?)
    ensures Clean(start, AfterEvent(settings, world, event), i, key, record)
  {
    hide Clean, Distinct, Without;
    var j := event.action.instance;
    var local := world.LocalOf(j);
    assert Distinct(local.caches.keys) by {
      CleanIsDistinct(start, world, j, i, key, record);
    }
    if event.action.ForgetKey? {
      ForgetTakesAway(local, event.action.key);
      FewerCachedKeepsClean(start, world, j, local.ForgetKey(event.action.key).caches, i, key, record);
    } else {
      FewerCachedKeepsClean(start, world, j, local.ForgetTier(event.action.name).caches, i, key, record);
    }
  }

  lemma CleanIsDistinct(start: World, world: World, j: InstanceId, i: InstanceId, key: string, record: Record)
    requires Clean(start, world, i, key, record)
    ensures Distinct(world.CachesOf(j).keys)
  {
    hide Undisturbed, Served;
    DistinctThere(world, j);
  }

  predicate StartsNoRewrite(event: Event, key: string) {
    event.action.Start? ==> !Rewrites(Job(event.action.instance, event.action.operation, Todo(TheRow)), key)
  }

  // A login that begins, or ends without a record.
  lemma LoginKeepsClean(start: World, world: World, c: LoginId, login: Login,
                        i: InstanceId, key: string, record: Record)
    requires Clean(start, world, i, key, record)
    requires login.progress == Fetching(false, AtRow) || login.progress == Broken(false)
    ensures Clean(start, world.(logins := world.logins[c := login], events := world.events + 1), i, key, record)
  {
    assert !Carries(login, i, key, record) && !AwaitsCopy(login, key) && ServedLogin(login, i, key, record);
    assert !MakesCopyDiffer(world.store, login, key, record);
    hide Carries, AwaitsCopy, ServedLogin, Distinct, MakesCopyDiffer, CopyDiffers, Rewrites;
    var next := world.(logins := world.logins[c := login], events := world.events + 1);
    assert Stored(next, i, key, record) by { hide Undisturbed, Served; }
    assert Undisturbed(next, i, key, record) by { hide Stored, Served; }
    assert Served(start, next, i, key, record) by { hide Stored, Undisturbed; }
  }

  // A job that starts or ends.
  lemma JobKeepsClean(start: World, world: World, j: JobId, job: Job, i: InstanceId, key: string, record: Record)
    requires Clean(start, world, i, key, record) && !Rewrites(job, key)
    ensures Clean(start, world.(jobs := world.jobs[j := job], events := world.events + 1), i, key, record)
  {
    hide Carries, AwaitsCopy, ServedLogin, Distinct, MakesCopyDiffer, CopyDiffers, Rewrites;
  }

  lemma LoginAndJobsKeepClean(settings: Settings, start: World, world: World, event: Event,
                              i: InstanceId, key: string, record: Record)
    requires Clean(start, world, i, key, record) && StartsNoRewrite(event, key)
    requires event.action.Begin? || event.action.Abandon? || event.action.Start? || event.action.Quit?
    requires AfterEvent(settings, world, event) != world.(events := world.events + 1)
    ensures Clean(start, AfterEvent(settings, world, event), i, key, record)
  {
    hide Clean;
    match event.action {
      case Begin(c, j, k) =>
        LoginKeepsClean(start, world, c, Login(j, k, world.events, Fetching(false, AtRow)), i, key, record);
      case Abandon(c) =>
        LoginKeepsClean(start, world, c, world.logins[c].(progress := Broken(false)), i, key, record);
      case Start(j, instance, operation) =>
        JobKeepsClean(start, world, j, Job(instance, operation, Todo(TheRow)), i, key, record);
      case Quit(j) => JobKeepsClean(start, world, j, world.jobs[j].(stage := Done), i, key, record);
    }
  }

  lemma EventKeepsClean(settings: Settings, start: World, world: World, event: Event,
                        i: InstanceId, key: string, record: Record)
    requires Clean(start, world, i, key, record) && StartsNoRewrite(event, key)
    ensures Clean(start, AfterEvent(settings, world, event), i, key, record)
  {
    hide Clean, StartsNoRewrite;
    if AfterEvent(settings, world, event) == world.(events := world.events + 1) {
      NothingHappens(settings, start, world, event, i, key, record);
    } else {
      match event.action {
        case Step(c, fails) => StepKeepsClean(settings, start, world, c, fails, event.now, i, key, record);
        case Work(j) => WorkKeepsClean(settings, start, world, j, event.now, i, key, record);
        case ForgetKey(_, _) => ForgetKeepsClean(settings, start, world, event, i, key, record);
        case ForgetTier(_, _) => ForgetKeepsClean(settings, start, world, event, i, key, record);
        case _ => LoginAndJobsKeepClean(settings, start, world, event, i, key, record);
      }
    }
  }

  lemma NothingHappens(settings: Settings, start: World, world: World, event: Event,
                       i: InstanceId, key: string, record: Record)
    requires Clean(start, world, i, key, record)
    requires AfterEvent(settings, world, event) == world.(events := world.events + 1)
    ensures Clean(start, AfterEvent(settings, world, event), i, key, record)
  {
    hide AfterEvent, Carries, AwaitsCopy, ServedLogin, Distinct, MakesCopyDiffer, CopyDiffers, Rewrites;
  }

  // A run from `now` on in which nobody starts to save or delete the key.
  ghost predicate Quiet(events: seq<Event>, key: string, now: real) {
    && (forall i, j :: 0 <= i <= j < |events| ==> events[i].now <= events[j].now)
    && forall k :: 0 <= k < |events| ==> StartsNoRewrite(events[k], key) && events[k].now >= now
  }

  lemma {:induction false} RunKeepsClean(run: Run, n: nat, i: InstanceId, key: string, record: Record)
    requires n <= |run.events| && Clean(run.start, run.start, i, key, record)
    requires forall k :: 0 <= k < |run.events| ==> StartsNoRewrite(run.events[k], key)
    ensures Clean(run.start, run.At(n), i, key, record)
  {
    if n == 0 {
    } else {
      RunKeepsClean(run, n - 1, i, key, record);
      hide Clean, AfterEvent;
      EventKeepsClean(run.settings, run.start, run.At(n - 1), run.events[n - 1], i, key, record);
    }
  }

  // ----- A save that is undone ------------------------------------------------------------------------

  // Instance i has just written the record and invalidated its own cache entry, and nobody else
  // is saving or deleting the key.
  ghost predicate JustSaved(world: World, i: InstanceId, key: string, record: Record) {
    Stored(world, i, key, record) && forall e :: e in world.CachesOf(i).keys ==> e.key != key
  }

  ghost predicate SeenIn(settings: Settings, world: World, events: seq<Event>, i: InstanceId, key: string,
                         record: Record) {
    Served(world, Run(settings, world, events).Last(), i, key, record)
  }

  // A quiet run in which a new login on instance i gets another record.
  ghost predicate Undoes(settings: Settings, world: World, events: seq<Event>, i: InstanceId, key: string,
                         record: Record, now: real) {
    Quiet(events, key, now) && !SeenIn(settings, world, events, i, key, record)
  }

  // The steps of login c alone, none of which fails.
  ghost predicate StepsOf(events: seq<Event>, c: LoginId, now: real) {
    forall k :: 0 <= k < |events| ==> events[k] == Event(Step(c, false), now)
  }

  lemma StepsAreQuiet(events: seq<Event>, c: LoginId, key: string, now: real)
    requires StepsOf(events, c, now)
    ensures Quiet(events, key, now)
  {
  }

  // How many steps a login that holds its record still needs at most.
  function StepsLeft(progress: Progress): nat {
    match progress
    case HasRecord(_) => 7
    case FetchingTier(_, AtRow) => 6
    case FetchingTier(_, AtCopy(_)) => 5
    case FetchingTier(_, AtBackfill(_, part)) => if part == TheRow then 4 else 3
    case ReadTier(_, _) => 2
    case Ready(_, _) => 1
    case _ => 0
  }

  // A login that holds a record keeps it, leaves the rows of keys alone, and comes closer to
  // its end.
  lemma HoldingLoginAdvances(settings: Settings, local: Local, login: Login, n: nat, now: real)
    requires login.progress.Holds() && Distinct(local.caches.keys)
    requires settings.bounds.ttl >= 0.0 && settings.bounds.maxsize > 0
    ensures
      var (progress, left) := Advance(settings, local, login, false, n, now);
      && left.store.keys == local.store.keys && Distinct(left.caches.keys)
      && StepsLeft(progress) < StepsLeft(login.progress)
      && (progress.Holds() || progress.Granted?) && progress.record == login.progress.record
      && (progress.Granted? ==>
            var found := Found(left.caches.keys, login.key, now);
            found.Some? && found.value.0 == progress.record)
  {
    hide Found, AfterSet, AfterGet, Distinct;
    match login.progress {
      case Ready(record, tier) =>
        var b := settings.bounds;
        SetIsFound(local.caches.keys, login.key, (record, tier), now, b.ttl, b.maxsize, now);
        SetKeepsTable(local.caches.keys, login.key, (record, tier), now, b.ttl, b.maxsize);
      case FetchingTier(_, AtRow) =>
      case FetchingTier(_, AtCopy(_)) =>
      case FetchingTier(_, AtBackfill(_, _)) =>
      case _ =>
    }
  }

  // A login that is left alone finishes with its record, and leaves it in the key cache.
  lemma {:induction false} LoginFinishes(settings: Settings, world: World, c: LoginId, now: real)
    returns (events: seq<Event>)
    requires c in world.logins && world.logins[c].progress.Holds() && TablesDistinct(world)
    requires settings.bounds.ttl >= 0.0 && settings.bounds.maxsize > 0
    ensures StepsOf(events, c, now)
    ensures
      var login, last := world.logins[c], Run(settings, world, events).Last();
      && last.logins.Keys == world.logins.Keys && last.store.keys == world.store.keys
      && last.logins[c].instance == login.instance && last.logins[c].key == login.key
      && last.logins[c].progress.Granted? && last.logins[c].progress.record == login.progress.record
      && (var found := Found(last.CachesOf(login.instance).keys, login.key, now);
          found.Some? && found.value.0 == login.progress.record)
    decreases StepsLeft(world.logins[c].progress)
  {
    hide AfterEvent, Found, StepsLeft, Advance, Distinct;
    var login, step := world.logins[c], Event(Step(c, false), now);
    var next := AfterEvent(settings, world, step);
    DistinctThere(world, login.instance);
    HoldingLoginAdvances(settings, world.LocalOf(login.instance), login, world.events, now);
    LoginSteps(settings, world, c, false, now);
    if next.logins[c].progress.Granted? {
      events := [step];
      OneEvent(settings, world, step);
    } else {
      var rest := LoginFinishes(settings, next, c, now);
      events := [step] + rest;
      FirstStep(settings, world, step, rest);
    }
  }

  // A login that begins with the row there, and no cached entry, gets the record of the row.
  lemma NewLoginGetsRow(settings: Settings, world: World, i: InstanceId, key: string, now: real)
    returns (events: seq<Event>, d: LoginId)
    requires key in world.store.keys && TablesDistinct(world)
    requires forall e :: e in world.CachesOf(i).keys ==> e.key != key
    requires settings.bounds.ttl >= 0.0 && settings.bounds.maxsize > 0
    ensures Quiet(events, key, now) && d !in world.logins
    ensures
      var logins := Run(settings, world, events).Last().logins;
      && d in logins && logins[d].instance == i && logins[d].key == key && logins[d].progress.Granted?
      && logins[d].progress.record.value == world.store.keys[key]
  {
    hide AfterEvent, Distinct, StepsOf, Run.At, TablesDistinct;
    d := SomeIdIsFree(world.logins.Keys);
    var reading := NewLogin(d, i, key, now);
    var read := Run(settings, world, reading).Last();
    NewLoginReads(settings, world, d, i, key, now);
    var rest := LoginFinishes(settings, read, d, now);
    LastOfBoth(settings, world, reading, rest);
    StepsAreQuiet(rest, d, key, now);
    hide Quiet;
    QuietTogether(reading, rest, key, now);
    events := reading + rest;
  }

  lemma NewLoginReads(settings: Settings, world: World, d: LoginId, i: InstanceId, key: string, now: real)
    requires d !in world.logins && key in world.store.keys && TablesDistinct(world)
    requires forall e :: e in world.CachesOf(i).keys ==> e.key != key
    ensures Quiet(NewLogin(d, i, key, now), key, now)
    ensures
      var read := Run(settings, world, NewLogin(d, i, key, now)).Last();
      && d in read.logins && read.logins[d].instance == i && read.logins[d].key == key && TablesDistinct(read)
      && read.logins[d].progress.HasRecord? && read.logins[d].progress.record.value == world.store.keys[key]
  {
    DistinctThere(world, i);
    GetKeepsTable(world.CachesOf(i).keys, key, now);
    assert Found(world.CachesOf(i).keys, key, now) == None by { hide Distinct, AfterGet; }
    hide AfterEvent, Distinct, AfterGet, Found, Run.At;
    NewLoginHasRecord(settings, world, d, i, key, now);
  }

  // A login that begins with the row there and hits the cache gets the record of the cache.
  lemma NewLoginHits(settings: Settings, world: World, i: InstanceId, key: string, now: real)
    returns (events: seq<Event>, d: LoginId)
    requires key in world.store.keys && Found(world.CachesOf(i).keys, key, now).Some?
    ensures Quiet(events, key, now) && d !in world.logins
    ensures
      var logins := Run(settings, world, events).Last().logins;
      && d in logins && logins[d].instance == i && logins[d].key == key && logins[d].progress.Granted?
      && logins[d].progress.record == Found(world.CachesOf(i).keys, key, now).value.0
  {
    hide AfterEvent, Found, AfterGet;
    d := SomeIdIsFree(world.logins.Keys);
    var begin, step := Event(Begin(d, i, key), now), Event(Step(d, false), now);
    LoginBegins(settings, world, d, i, key, now);
    var w1 := AfterEvent(settings, world, begin);
    LoginSteps(settings, w1, d, false, now);
    var w2 := AfterEvent(settings, w1, step);
    LoginSteps(settings, w2, d, false, now);
    ThreeEvents(settings, world, begin, step, step);
    events := [begin, step, step];
  }

  lemma QuietTogether(first: seq<Event>, second: seq<Event>, key: string, now: real)
    requires Quiet(first, key, now) && Quiet(second, key, now)
    requires forall k :: 0 <= k < |first| ==> first[k].now == now
    ensures Quiet(first + second, key, now)
  {
    hide StartsNoRewrite;
  }

  // A run can be put before one that undoes the save.
  lemma UndoesLater(settings: Settings, world: World, first: seq<Event>, events: seq<Event>,
                    i: InstanceId, key: string, record: Record, now: real)
    requires Quiet(first, key, now) && forall k :: 0 <= k < |first| ==> first[k].now == now
    requires Undoes(settings, Run(settings, world, first).Last(), events, i, key, record, now)
    requires Run(settings, world, first).Last().logins.Keys >= world.logins.Keys
    ensures Undoes(settings, world, first + events, i, key, record, now)
  {
    hide AfterEvent, ServedLogin, Run.At, Quiet;
    QuietTogether(first, events, key, now);
    LastOfBoth(settings, world, first, events);
  }

  lemma StepLater(settings: Settings, world: World, c: LoginId, fails: bool, events: seq<Event>,
                  i: InstanceId, key: string, record: Record, now: real)
    requires c in world.logins
    requires Undoes(settings, AfterEvent(settings, world, Event(Step(c, fails), now)), events, i, key, record, now)
    ensures Undoes(settings, world, [Event(Step(c, fails), now)] + events, i, key, record, now)
  {
    hide AfterEvent, Undoes, Run.At, Advance;
    LoginSteps(settings, world, c, fails, now);
    OneEvent(settings, world, Event(Step(c, fails), now));
    UndoesLater(settings, world, [Event(Step(c, fails), now)], events, i, key, record, now);
  }

  // The ways in which a save is undone: a login on the instance that holds another record ...
  lemma HolderUndoes(settings: Settings, world: World, c: LoginId, i: InstanceId, key: string, record: Record,
                     now: real)
    returns (events: seq<Event>)
    requires key in world.store.keys && TablesDistinct(world)
    requires settings.bounds.ttl >= 0.0 && settings.bounds.maxsize > 0
    requires c in world.logins && world.logins[c].instance == i && world.logins[c].key == key
    requires world.logins[c].progress.Holds() && world.logins[c].progress.record.value != record
    ensures Undoes(settings, world, events, i, key, record, now)
  {
    hide AfterEvent, Found, Run.At;
    var filling := LoginFinishes(settings, world, c, now);
    var filled := Run(settings, world, filling).Last();
    var reading, d := NewLoginHits(settings, filled, i, key, now);
    var last := Run(settings, filled, reading).Last();
    assert !ServedLogin(last.logins[d], i, key, record);
    assert !Served(filled, last, i, key, record);
    StepsAreQuiet(filling, c, key, now);
    UndoesLater(settings, world, filling, reading, i, key, record, now);
    events := filling + reading;
  }

  // ... another record in the row ...
  lemma RowUndoes(settings: Settings, world: World, i: InstanceId, key: string, record: Record, now: real)
    returns (events: seq<Event>)
    requires key in world.store.keys && world.store.keys[key] != record && TablesDistinct(world)
    requires settings.bounds.ttl >= 0.0 && settings.bounds.maxsize > 0
    requires forall e :: e in world.CachesOf(i).keys ==> e.key != key
    ensures Undoes(settings, world, events, i, key, record, now)
  {
    hide Run.At;
    var d: LoginId;
    events, d := NewLoginGetsRow(settings, world, i, key, now);
    var last := Run(settings, world, events).Last();
    assert !ServedLogin(last.logins[d], i, key, record);
  }

  // ... a backfill of another record that has yet to write the row, or that ends on the instance ...
  lemma BackfillUndoes(settings: Settings, world: World, c: LoginId, i: InstanceId, key: string, record: Record,
                       now: real)
    returns (events: seq<Event>)
    requires JustSaved(world, i, key, record) && c in world.logins && Backfills(world.logins[c], key)
    requires settings.bounds.ttl >= 0.0 && settings.bounds.maxsize > 0
    requires Carries(world.logins[c], i, key, record)
    ensures Undoes(settings, world, events, i, key, record, now)
  {
    hide AfterEvent, Undoes, Distinct;
    var login := world.logins[c];
    var part := login.progress.fetch.part;
    DistinctThere(world, login.instance);
    WithoutIsDistinct(world.CachesOf(login.instance).keys, key);
    if part == TheRow {
      LoginSteps(settings, world, c, false, now);
      var next := AfterEvent(settings, world, Event(Step(c, false), now));
      assert next.CachesOf(i) == world.CachesOf(i);
      assert TablesDistinct(next);
      events := RowUndoes(settings, next, i, key, record, now);
      StepLater(settings, world, c, false, events, i, key, record, now);
      events := [Event(Step(c, false), now)] + events;
    } else {
      LoginSteps(settings, world, c, true, now);
      var next := AfterEvent(settings, world, Event(Step(c, true), now));
      assert TablesDistinct(next);
      events := HolderUndoes(settings, next, c, i, key, record, now);
      StepLater(settings, world, c, true, events, i, key, record, now);
      events := [Event(Step(c, true), now)] + events;
    }
  }

  // ... and a login that waits for a copy which is, or is about to become, another record.
  lemma CopyUndoes(settings: Settings, world: World, c: LoginId, i: InstanceId, key: string, record: Record, now: real)
    returns (events: seq<Event>)
    requires JustSaved(world, i, key, record) && c in world.logins && AwaitsCopy(world.logins[c], key)
    requires settings.bounds.ttl >= 0.0 && settings.bounds.maxsize > 0
    requires CopyDiffers(world.store, key, record)
    ensures Undoes(settings, world, events, i, key, record, now)
  {
    hide AfterEvent, Undoes, Distinct, Rewrites;
    LoginSteps(settings, world, c, false, now);
    var next := AfterEvent(settings, world, Event(Step(c, false), now));
    assert next.CachesOf(i) == world.CachesOf(i) && next.store == world.store;
    DistinctThere(world, world.logins[c].instance);
    assert JustSaved(next, i, key, record);
    events := BackfillUndoes(settings, next, c, i, key, record, now);
    StepLater(settings, world, c, false, events, i, key, record, now);
    events := [Event(Step(c, false), now)] + events;
  }

  lemma CopyWriterUndoes(settings: Settings, world: World, c: LoginId, b: LoginId,
                         i: InstanceId, key: string, record: Record, now: real)
    returns (events: seq<Event>)
    requires JustSaved(world, i, key, record) && c in world.logins && AwaitsCopy(world.logins[c], key)
    requires b in world.logins && MakesCopyDiffer(world.store, world.logins[b], key, record)
    requires settings.bounds.ttl >= 0.0 && settings.bounds.maxsize > 0
    ensures Undoes(settings, world, events, i, key, record, now)
  {
    hide AfterEvent, Undoes, Distinct, Rewrites;
    LoginSteps(settings, world, b, false, now);
    var next := AfterEvent(settings, world, Event(Step(b, false), now));
    assert next.CachesOf(i) == world.CachesOf(i) && next.store.keys == world.store.keys;
    DistinctThere(world, world.logins[b].instance);
    assert JustSaved(next, i, key, record);
    events := CopyUndoes(settings, next, c, i, key, record, now);
    StepLater(settings, world, b, false, events, i, key, record, now);
    events := [Event(Step(b, false), now)] + events;
  }

  lemma DisturbedIsUndone(settings: Settings, world: World, i: InstanceId, key: string, record: Record, now: real)
    returns (events: seq<Event>)
    requires JustSaved(world, i, key, record) && !Undisturbed(world, i, key, record)
    requires settings.bounds.ttl >= 0.0 && settings.bounds.maxsize > 0
    ensures Undoes(settings, world, events, i, key, record, now)
  {
    hide Undoes, CopyDiffers, MakesCopyDiffer, AwaitsCopy;
    if c :| c in world.logins && Carries(world.logins[c], i, key, record) {
      if Backfills(world.logins[c], key) {
        events := BackfillUndoes(settings, world, c, i, key, record, now);
      } else {
        events := HolderUndoes(settings, world, c, i, key, record, now);
      }
    } else {
      var c :| c in world.logins && AwaitsCopy(world.logins[c], key);
      if CopyDiffers(world.store, key, record) {
        events := CopyUndoes(settings, world, c, i, key, record, now);
      } else {
        var b :| b in world.logins && MakesCopyDiffer(world.store, world.logins[b], key, record);
        events := CopyWriterUndoes(settings, world, c, b, i, key, record, now);
      }
    }
  }

  // A save is seen by every later login on its instance exactly when no login that is under way
  // carries an older record there, or can still put one back into the row.
  lemma SaveIsSeenIff(settings: Settings, world: World, i: InstanceId, key: string, record: Record, now: real)
    requires JustSaved(world, i, key, record) && settings.bounds.ttl >= 0.0 && settings.bounds.maxsize > 0
    ensures (forall events: seq<Event> :: Quiet(events, key, now) ==> SeenIn(settings, world, events, i, key, record))
      <==> Undisturbed(world, i, key, record)
  {
    hide AfterEvent, ServedLogin, Carries, CopyIsSafe;
    if Undisturbed(world, i, key, record) {
      forall events: seq<Event> | Quiet(events, key, now) ensures SeenIn(settings, world, events, i, key, record) {
        assert Clean(world, world, i, key, record);
        RunKeepsClean(Run(settings, world, events), |events|, i, key, record);
      }
    } else {
      var events := DisturbedIsUndone(settings, world, i, key, record, now);
    }
  }

  // Two saves, and a login that reads the first one's record and then waits.
  lemma LoginHoldsRecord(settings: Settings, world: World, key: string, record: Record, now: real)
    returns (events: seq<Event>)
    requires world.caches == map[0 := Caches([], [])] && world.logins == map[]
    requires key in world.store.keys && world.store.keys[key] == record
    ensures |events| == 4
    ensures
      var last := Run(settings, world, events).Last();
      && last.store == world.store && last.jobs == world.jobs && last.caches == world.caches
      && last.logins.Keys == {0} && last.logins[0].instance == 0 && last.logins[0].key == key
      && last.logins[0].progress.HasRecord? && last.logins[0].progress.record.value == record
  {
    var none: KeyTable := [];
    assert Found(none, key, now) == None && AfterGet(none, key, now) == none;
    hide AfterEvent, Found, AfterGet, Run.At;
    NewLoginHasRecord(settings, world, 0, 0, key, now);
    events := NewLogin(0, 0, key, now);
  }

  lemma SaveEnds(settings: Settings, world: World, j: JobId, key: string, record: Record, now: real)
    returns (events: seq<Event>)
    requires world.CachesOf(0) == Caches([], []) && j !in world.jobs
    ensures
      var last := Run(settings, world, events).Last();
      && key in last.store.keys && last.store.keys[key] == record && last.logins == world.logins
      && last.caches == world.caches[0 := Caches([], [])]
      && last.jobs == world.jobs[j := Job(0, SaveKey(key, record), Done)]
  {
    hide AfterEvent, Run.At;
    var start, work := Event(Start(j, 0, SaveKey(key, record)), now), Event(Work(j), now);
    JobStarts(settings, world, j, 0, SaveKey(key, record), now);
    var w1 := AfterEvent(settings, world, start);
    SaveStep(settings, w1, j, key, record, now);
    var w2 := AfterEvent(settings, w1, work);
    SaveStep(settings, w2, j, key, record, now);
    var w3 := AfterEvent(settings, w2, work);
    SaveStep(settings, w3, j, key, record, now);
    FourEvents(settings, world, start, work, work, work);
    events := [start, work, work, work];
  }

  lemma SaveStep(settings: Settings, world: World, j: JobId, key: string, record: Record, now: real)
    requires j in world.jobs && world.CachesOf(0) == Caches([], [])
    requires world.jobs[j].instance == 0 && world.jobs[j].operation == SaveKey(key, record)
    requires world.jobs[j].stage.Todo?
    requires !world.jobs[j].stage.part.TheRow? ==> key in world.store.keys && world.store.keys[key] == record
    ensures
      var next := AfterEvent(settings, world, Event(Work(j), now));
      && key in next.store.keys && next.store.keys[key] == record && next.logins == world.logins
      && next.caches == world.caches[0 := Caches([], [])]
      && next.jobs == world.jobs[j := Job(0, SaveKey(key, record), Next(world.jobs[j].stage.part))]
  {
    var none: KeyTable := [];
    assert Without(none, key) == none;
    hide AfterEvent, Without, Merged;
    JobWorks(settings, world, j, now);
  }

  // That a save can be undone does happen: gateways that start over an empty store get there.
  lemma UndoneSaveIsReachable(settings: Settings, key: string, older: Record, record: Record, now: real)
    returns (run: Run)
    requires older != record
    ensures run.start == Opening(EMPTY)
    ensures JustSaved(run.Last(), 0, key, record) && !Undisturbed(run.Last(), 0, key, record)
  {
    hide AfterEvent, Run.At;
    var first := SaveEnds(settings, Opening(EMPTY), 0, key, older, now);
    var w1 := Run(settings, Opening(EMPTY), first).Last();
    assert w1.caches == map[0 := Caches([], [])];
    var login := LoginHoldsRecord(settings, w1, key, older, now);
    var w2 := Run(settings, w1, login).Last();
    var second := SaveEnds(settings, w2, 1, key, record, now);
    LastOfBoth(settings, Opening(EMPTY), first, login);
    LastOfBoth(settings, Opening(EMPTY), first + login, second);
    run := Run(settings, Opening(EMPTY), first + login + second);
    var last := run.Last();
    assert last.jobs == map[0 := Job(0, SaveKey(key, older), Done)][1 := Job(0, SaveKey(key, record), Done)];
    assert Carries(last.logins[0], 0, key, record);
    hide Run.Last;
  }

  // ----- Two saves at once --------------------------------------------------------------------------

  function TwoSaves(key: string, first: Record, second: Record, a: Stage, b: Stage): map<JobId, Job> {
    map[0 := Job(0, SaveKey(key, first), a), 1 := Job(0, SaveKey(key, second), b)]
  }

  lemma BothRowsAreWritten(settings: Settings, key: string, first: Record, second: Record, now: real)
    returns (events: seq<Event>)
    ensures
      var last := Run(settings, Opening(EMPTY), events).Last();
      && last.store == EMPTY.PutKey(key, second)
      && last.jobs == TwoSaves(key, first, second, Todo(TheCopy), Todo(TheCopy))
  {
    hide AfterEvent, Without, Run.At;
    var start0, start1 := Event(Start(0, 0, SaveKey(key, first)), now), Event(Start(1, 0, SaveKey(key, second)), now);
    JobStarts(settings, Opening(EMPTY), 0, 0, SaveKey(key, first), now);
    var w1 := AfterEvent(settings, Opening(EMPTY), start0);
    JobStarts(settings, w1, 1, 0, SaveKey(key, second), now);
    var w2 := AfterEvent(settings, w1, start1);
    JobWorks(settings, w2, 0, now);
    var w3 := AfterEvent(settings, w2, Event(Work(0), now));
    JobWorks(settings, w3, 1, now);
    FourEvents(settings, Opening(EMPTY), start0, start1, Event(Work(0), now), Event(Work(1), now));
    events := [start0, start1, Event(Work(0), now), Event(Work(1), now)];
  }

  lemma CopiesAreWrittenAcross(settings: Settings, world: World, key: string, first: Record, second: Record, now: real)
    returns (events: seq<Event>)
    requires world.store == EMPTY.PutKey(key, second) && first.expiresAt == second.expiresAt
    requires world.jobs == TwoSaves(key, first, second, Todo(TheCopy), Todo(TheCopy))
    ensures
      var last := Run(settings, world, events).Last();
      && last.store.keys == map[key := second] && last.store.keyCopies == map[key := Whole(first)]
      && last.jobs == TwoSaves(key, first, second, Done, Done)
  {
    hide AfterEvent, Without, Run.At;
    JobWorks(settings, world, 1, now);
    var w1 := AfterEvent(settings, world, Event(Work(1), now));
    assert w1.store.keyCopies == map[key := Whole(second)];
    JobWorks(settings, w1, 0, now);
    var w2 := AfterEvent(settings, w1, Event(Work(0), now));
    assert w2.store.keyCopies == map[key := Whole(first)];
    JobWorks(settings, w2, 0, now);
    var w3 := AfterEvent(settings, w2, Event(Work(0), now));
    JobWorks(settings, w3, 1, now);
    FourEvents(settings, world, Event(Work(1), now), Event(Work(0), now), Event(Work(0), now), Event(Work(1), now));
    events := [Event(Work(1), now), Event(Work(0), now), Event(Work(0), now), Event(Work(1), now)];
  }

  // Of two saves of one key at once, one can win the row and the other the copy.
  lemma SavesCanMix(settings: Settings, key: string, first: Record, second: Record, now: real) returns (run: Run)
    requires first.expiresAt == second.expiresAt
    ensures run.start == Opening(EMPTY) && run.Last().jobs == TwoSaves(key, first, second, Done, Done)
    ensures run.Last().store.keys == map[key := second] && run.Last().store.keyCopies == map[key := Whole(first)]
  {
    hide AfterEvent, Run.At;
    var rows := BothRowsAreWritten(settings, key, first, second, now);
    var copies := CopiesAreWrittenAcross(settings, Run(settings, Opening(EMPTY), rows).Last(), key, first, second, now);
    LastOfBoth(settings, Opening(EMPTY), rows, copies);
    run := Run(settings, Opening(EMPTY), rows + copies);
  }
}
