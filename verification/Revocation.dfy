// When a deleted key stays refused.
module Revocation {
  import opened Prelude
  import opened KeyStore
  import opened TtlCache
  import opened Auth

  // ----- Why a login is refused -----------------------------------------------------------------

  // A login that waits for the copy found the row missing, and one that is refused then found the
  // copy missing too.
  ghost predicate Traced(run: Run, login: Login, n: nat) {
    login.begun < n <= |run.events| &&
    match login.progress
    case Fetching(_, AtCopy(missed)) => login.begun < missed < n && RowMissing(run, login.key, missed)
    case Refused(missed, at) =>
      login.begun < missed < at < n && RowMissing(run, login.key, missed) && CopyMissing(run, login.key, at)
    case _ => true
  }

  ghost predicate AllTraced(run: Run, world: World, n: nat) {
    forall c :: c in world.logins ==> Traced(run, world.logins[c], n)
  }

  // Where a read can go from its row and from its copy.
  lemma FetchLeads(local: Local, key: string, fetch: Fetch<Record>, fails: bool, n: nat)
    ensures
      match FetchKey(local, key, fetch, fails, n).0
      case Going(AtCopy(missed)) => missed == n && key !in local.store.keys
      case Nothing(missed, at) =>
        fetch == AtCopy(missed) && at == n && (key !in local.store.keyCopies || fails)
      case _ => true
  {
    hide Without, Merged;
  }

  lemma StepIsTraced(run: Run, k: nat, local: Local, login: Login, fails: bool)
    requires k < |run.events| && local.store == run.At(k).store && Traced(run, login, k)
    requires run.events[k].action.Step? && run.events[k].action.fails == fails
    ensures Traced(run, login.(progress := Advance(run.settings, local, login, fails, k, run.events[k].now).0), k + 1)
  {
    hide Found, AfterGet, AfterSet, FetchTier, FetchKey, Run.At;
    if login.progress.Fetching? {
      FetchLeads(local, login.key, login.progress.fetch, fails, k);
    }
  }

  lemma {:induction false} LoginsAreTraced(run: Run, n: nat)
    requires n <= |run.events| && run.start == Opening(run.start.store)
    ensures AllTraced(run, run.At(n), n)
  {
    hide AfterEvent, Run.At, Traced;
    AtStart(run);
    if n == 0 {
    } else {
      hide AllTraced, Opening;
      LoginsAreTraced(run, n - 1);
      EventsAreNumbered(run, n - 1);
      OpeningIsNew(run.start.store);
      EventKeepsTraced(run, n - 1);
      AtNext(run, n - 1);
    }
  }

  lemma TracedAges(run: Run, world: World, n: nat)
    requires n < |run.events| && AllTraced(run, world, n)
    ensures AllTraced(run, world, n + 1)
  {
    hide RowMissing, CopyMissing;
  }

  lemma EventKeepsTraced(run: Run, k: nat)
    requires k < |run.events| && run.At(k).events == k && AllTraced(run, run.At(k), k)
    ensures AllTraced(run, AfterEvent(run.settings, run.At(k), run.events[k]), k + 1)
  {
    hide Run.At, WorkJob, StepLogin, RowMissing, CopyMissing, Without;
    var world, event := run.At(k), run.events[k];
    TracedAges(run, world, k);
    match event.action {
      case Step(c, fails) =>
        if c in world.logins {
          hide AfterEvent;
          var login := world.logins[c];
          LoginSteps(run.settings, world, c, fails, event.now);
          StepIsTraced(run, k, world.LocalOf(login.instance), login, fails);
          hide Advance, Traced;
        }
      case Work(j) =>
        if j in world.jobs && world.jobs[j].stage.Todo? {
          JobWorks(run.settings, world, j, event.now);
          hide AfterEvent, Perform, Traced;
        }
      case _ =>
    }
  }

  // A login is refused only because it found, in this order and since it began, neither a row
  // nor a copy.
  lemma RefusalHasCause(run: Run, n: nat, c: LoginId)
    requires n <= |run.events| && run.start == Opening(run.start.store)
    requires c in run.At(n).logins && run.At(n).logins[c].progress.Refused?
    ensures
      var login := run.At(n).logins[c];
      var Refused(missed, at) := login.progress;
      login.begun < missed < at < n && RowMissing(run, login.key, missed) && CopyMissing(run, login.key, at)
  {
    LoginsAreTraced(run, n);
    assert Traced(run, run.At(n).logins[c], n);
  }

  // And it is refused by every step that finds this: the step of a login that waits for the copy
  // refuses it exactly when there is no copy then, and no other step of a read refuses it.
  lemma StepRefusesIff(run: Run, k: nat, c: LoginId)
    requires k < |run.events| && run.start == Opening(run.start.store)
    requires run.events[k].action.Step? && run.events[k].action.login == c && c in run.At(k).logins
    requires run.At(k).logins[c].progress.Fetching?
    ensures
      var login, fetch := run.At(k).logins[c], run.At(k).logins[c].progress.fetch;
      && c in run.At(k + 1).logins
      && (run.At(k + 1).logins[c].progress.Refused? <==> fetch.AtCopy? && CopyMissing(run, login.key, k))
      && (fetch.AtCopy? ==> login.begun < fetch.missed < k && RowMissing(run, login.key, fetch.missed))
  {
    LoginsAreTraced(run, k);
    assert Traced(run, run.At(k).logins[c], k);
    LoginSteps(run.settings, run.At(k), c, run.events[k].action.fails, run.events[k].now);
    hide AfterEvent, Without;
    assert run.events[k] == Event(Step(c, run.events[k].action.fails), run.events[k].now);
    assert run.At(k + 1) == AfterEvent(run.settings, run.At(k), run.events[k]);
    hide Run.At;
  }

  // ----- Which keys are out for good ---------------------------------------------------------------

  // The job has yet to write the row or the copy of the key.
  predicate WritesKey(job: Job, key: string) {
    job.stage.Todo? && job.stage.part != TheCache &&
    match job.operation
    case SaveKey(k, _) => k == key
    case CountRequest(k) => k == key
    case _ => false
  }

  // The login has found the copy without its row, and has yet to write one of them back.
  predicate Restores(login: Login, key: string) {
    && login.key == key && login.progress.Fetching? && login.progress.fetch.AtBackfill?
    && login.progress.fetch.part != TheCache
  }

  ghost predicate Idle(world: World, key: string) {
    && (forall j :: j in world.jobs ==> !WritesKey(world.jobs[j], key))
    && (forall c :: c in world.logins ==> !Restores(world.logins[c], key))
  }

  // The login has found nothing yet, or has ended without a record.
  predicate TurnedAway(login: Login) {
    match login.progress
    case Fetching(false, AtRow) => true
    case Fetching(false, AtCopy(_)) => true
    case Refused(_, _) => true
    case Broken(unreadable) => !unreadable
    case _ => false
  }

  // Every login on the key since world `start` is turned away.
  ghost predicate ShutOut(start: World, world: World, key: string) {
    forall c :: c in world.logins && c !in start.logins && world.logins[c].key == key ==> TurnedAway(world.logins[c])
  }

  predicate StartsNoWrite(event: Event, key: string) {
    event.action.Start? ==>
      match event.action.operation
      case SaveKey(k, _) => k != key
      case CountRequest(k) => k != key
      case _ => true
  }

  ghost predicate NoWrites(events: seq<Event>, key: string) {
    forall k :: 0 <= k < |events| ==> StartsNoWrite(events[k], key)
  }

  lemma AdvanceKeepsGone(settings: Settings, local: Local, login: Login, fails: bool, n: nat, now: real, key: string)
    requires local.store.Gone(key) && !Restores(login, key)
    ensures
      var (progress, left) := Advance(settings, local, login, fails, n, now);
      && left.store.Gone(key) && !Restores(login.(progress := progress), key)
      && (login.key == key && TurnedAway(login) ==> TurnedAway(login.(progress := progress)))
  {
    hide Found, AfterGet, AfterSet, Without;
  }

  lemma PerformKeepsGone(local: Local, job: Job, key: string)
    requires local.store.Gone(key) && job.stage.Todo? && !WritesKey(job, key)
    ensures
      var (left, stage) := Perform(local, job.operation, job.stage.part);
      left.store.Gone(key) && !WritesKey(job.(stage := stage), key)
  {
    hide Without;
  }

  ghost predicate Out(start: World, world: World, key: string) {
    && world.store.Gone(key) && Idle(world, key) && ShutOut(start, world, key)
    && forall c :: c in start.logins ==> c in world.logins
  }

  lemma EventKeepsOut(settings: Settings, start: World, world: World, event: Event, key: string)
    requires Out(start, world, key) && StartsNoWrite(event, key)
    ensures Out(start, AfterEvent(settings, world, event), key)
  {
    hide Out, WorkJob, StepLogin, Without, WritesKey;
    var next := AfterEvent(settings, world, event);
    if next == world.(events := world.events + 1) {
      CachesKeepOut(start, world, world.caches, key);
    } else {
      match event.action {
        case Step(c, fails) => StepKeepsOut(settings, start, world, c, fails, event.now, key);
        case Work(j) => WorkKeepsOut(settings, start, world, j, event.now, key);
        case Begin(c, i, k) =>
          LoginKeepsOut(start, world, c, Login(i, k, world.events, Fetching(false, AtRow)), key);
        case Abandon(c) => LoginKeepsOut(start, world, c, world.logins[c].(progress := Broken(false)), key);
        case Start(j, i, operation) => JobKeepsOut(start, world, j, Job(i, operation, Todo(TheRow)), key);
        case Quit(j) => JobKeepsOut(start, world, j, world.jobs[j].(stage := Done), key);
        case ForgetKey(_, _) => CachesKeepOut(start, world, next.caches, key);
        case ForgetTier(_, _) => CachesKeepOut(start, world, next.caches, key);
      }
    }
  }

  // Caches do not matter.
  lemma CachesKeepOut(start: World, world: World, caches: map<InstanceId, Caches>, key: string)
    requires Out(start, world, key)
    ensures Out(start, world.(caches := caches, events := world.events + 1), key)
  {
    hide Restores, TurnedAway, WritesKey;
  }

  // A job starts or ends.
  lemma JobKeepsOut(start: World, world: World, j: JobId, job: Job, key: string)
    requires Out(start, world, key)
    requires job.stage == Done || StartsNoWrite(Event(Start(j, job.instance, job.operation), 0.0), key)
    ensures Out(start, world.(jobs := world.jobs[j := job], events := world.events + 1), key)
  {
    assert !WritesKey(job, key);
    hide Restores, TurnedAway, WritesKey;
  }

  // A login begins, or ends without a record.
  lemma LoginKeepsOut(start: World, world: World, c: LoginId, login: Login, key: string)
    requires Out(start, world, key) && (login.progress == Fetching(false, AtRow) || login.progress == Broken(false))
    ensures Out(start, world.(logins := world.logins[c := login], events := world.events + 1), key)
  {
    hide Restores, TurnedAway, WritesKey;
    BegunIsTurnedAway(login, key);
  }

  lemma StepKeepsOut(settings: Settings, start: World, world: World, c: LoginId, fails: bool, now: real, key: string)
    requires Out(start, world, key) && c in world.logins
    ensures Out(start, AfterEvent(settings, world, Event(Step(c, fails), now)), key)
  {
    hide AfterEvent, Advance, Restores, TurnedAway, WritesKey;
    var login := world.logins[c];
    LoginSteps(settings, world, c, fails, now);
    AdvanceKeepsGone(settings, world.LocalOf(login.instance), login, fails, world.events, now, key);
  }

  lemma WorkKeepsOut(settings: Settings, start: World, world: World, j: JobId, now: real, key: string)
    requires Out(start, world, key) && j in world.jobs && world.jobs[j].stage.Todo?
    ensures Out(start, AfterEvent(settings, world, Event(Work(j), now)), key)
  {
    hide AfterEvent, Perform, Restores, TurnedAway, WritesKey;
    JobWorks(settings, world, j, now);
    PerformKeepsGone(world.LocalOf(world.jobs[j].instance), world.jobs[j], key);
  }

  lemma BegunIsTurnedAway(login: Login, key: string)
    requires login.progress == Fetching(false, AtRow) || login.progress == Broken(false)
    ensures TurnedAway(login) && !Restores(login, key)
  {
  }

  // Once a key is gone and nothing is under way that writes it, it stays gone, and every login
  // on every instance is turned away, whatever the caches hold.
  lemma {:induction false} GoneStaysOut(run: Run, n: nat, key: string)
    requires n <= |run.events| && run.start.store.Gone(key) && Idle(run.start, key) && NoWrites(run.events, key)
    ensures Out(run.start, run.At(n), key)
  {
    if n == 0 {
    } else {
      GoneStaysOut(run, n - 1, key);
      hide Out, AfterEvent;
      EventKeepsOut(run.settings, run.start, run.At(n - 1), run.events[n - 1], key);
    }
  }

  // ----- ... and which are not -----------------------------------------------------------------------

  lemma {:induction false} SomeIdIsFree(ids: set<nat>) returns (c: nat)
    ensures forall id :: id in ids ==> id < c
  {
    if ids == {} {
      c := 0;
    } else {
      var id :| id in ids;
      var d := SomeIdIsFree(ids - {id});
      c := if id < d then d else id + 1;
      forall x | x in ids ensures x < c {
        assert x == id || x in ids - {id};
      }
    }
  }

  // A run in which a new login on the key gets somewhere.
  ghost predicate LetsIn(settings: Settings, world: World, events: seq<Event>, key: string) {
    NoWrites(events, key) && !ShutOut(world, Run(settings, world, events).Last(), key)
  }

  // It only takes a row or a copy.
  lemma PresentLetsIn(settings: Settings, world: World, key: string, now: real) returns (events: seq<Event>)
    requires !world.store.Gone(key)
    ensures LetsIn(settings, world, events, key)
  {
    hide AfterEvent;
    var c := SomeIdIsFree(world.logins.Keys);
    var begin, step := Event(Begin(c, 0, key), now), Event(Step(c, false), now);
    var w1 := AfterEvent(settings, world, begin);
    LoginBegins(settings, world, c, 0, key, now);
    LoginSteps(settings, w1, c, false, now);
    var w2 := AfterEvent(settings, w1, step);
    if key in world.store.keys {
      events := [begin, step];
      TwoEvents(settings, world, begin, step);
    } else {
      LoginSteps(settings, w2, c, false, now);
      events := [begin, step, step];
      ThreeEvents(settings, world, begin, step, step);
    }
    var last := Run(settings, world, events).Last();
    assert c in last.logins && last.logins[c].key == key && !TurnedAway(last.logins[c]);
  }

  // A run can be put before one that lets a login in.
  lemma LetsInLater(settings: Settings, world: World, first: seq<Event>, events: seq<Event>, key: string)
    requires NoWrites(first, key) && LetsIn(settings, Run(settings, world, first).Last(), events, key)
    requires Run(settings, world, first).Last().logins.Keys >= world.logins.Keys
    ensures LetsIn(settings, world, first + events, key)
  {
    hide AfterEvent, Run.At, TurnedAway, StartsNoWrite;
    LastOfBoth(settings, world, first, events);
    hide Run.Last;
  }

  lemma PendingJobLetsIn(settings: Settings, world: World, key: string, j: JobId, now: real)
    returns (events: seq<Event>)
    requires world.store.Gone(key) && j in world.jobs && WritesKey(world.jobs[j], key)
    ensures LetsIn(settings, world, events, key)
    decreases world.jobs[j].stage.part.TheRow?
  {
    var work := Event(Work(j), now);
    var next := AfterEvent(settings, world, work);
    OneEvent(settings, world, work);
    if next.store.Gone(key) {
      events := PendingJobLetsIn(settings, next, key, j, now);
    } else {
      events := PresentLetsIn(settings, next, key, now);
    }
    LetsInLater(settings, world, [work], events, key);
    events := [work] + events;
  }

  lemma PendingLoginLetsIn(settings: Settings, world: World, key: string, c: LoginId, now: real)
    returns (events: seq<Event>)
    requires c in world.logins && Restores(world.logins[c], key)
    ensures LetsIn(settings, world, events, key)
  {
    var step := Event(Step(c, false), now);
    var next := AfterEvent(settings, world, step);
    OneEvent(settings, world, step);
    events := PresentLetsIn(settings, next, key, now);
    LetsInLater(settings, world, [step], events, key);
    events := [step] + events;
  }

  // From here on every new login on the key is refused, on every instance and in every run in
  // which nobody starts to write the key, exactly when neither a row nor a copy is there and
  // nothing that writes one is under way: no save, no count of a request, no backfill.
  lemma KeyIsOutIff(settings: Settings, world: World, key: string)
    ensures (forall events: seq<Event> :: NoWrites(events, key) ==>
               ShutOut(world, Run(settings, world, events).Last(), key))
      <==> world.store.Gone(key) && Idle(world, key)
  {
    hide ShutOut, AfterEvent;
    if world.store.Gone(key) && Idle(world, key) {
      forall events: seq<Event> | NoWrites(events, key)
        ensures ShutOut(world, Run(settings, world, events).Last(), key)
      {
        GoneStaysOut(Run(settings, world, events), |events|, key);
      }
    } else {
      var events: seq<Event>;
      if !world.store.Gone(key) {
        events := PresentLetsIn(settings, world, key, 0.0);
      } else if j :| j in world.jobs && WritesKey(world.jobs[j], key) {
        events := PendingJobLetsIn(settings, world, key, j, 0.0);
      } else {
        var c :| c in world.logins && Restores(world.logins[c], key);
        events := PendingLoginLetsIn(settings, world, key, c, 0.0);
      }
      assert LetsIn(settings, world, events, key);
    }
  }

  // ----- Deleting a key -----------------------------------------------------------------------------

  ghost predicate NothingToDo(world: World) {
    forall j :: j in world.jobs ==> world.jobs[j].stage == Done
  }

  // A delete that nothing comes in between leaves the key gone exactly if it had a row, or no
  // copy: a key that is only in Redis survives it.
  lemma DeleteAlone(settings: Settings, world: World, j: JobId, i: InstanceId, key: string, now: real)
    requires j !in world.jobs && Idle(world, key)
    ensures
      var work := Event(Work(j), now);
      var last := Run(settings, world, [Event(Start(j, i, DeleteKey(key)), now)] + [work, work, work]).Last();
      && Idle(last, key) && j in last.jobs && last.jobs[j].stage == Done
      && (last.store.Gone(key) <==> key in world.store.keys || key !in world.store.keyCopies)
  {
    var start, work := Event(Start(j, i, DeleteKey(key)), now), Event(Work(j), now);
    var w0 := AfterEvent(settings, world, start);
    var w1 := AfterEvent(settings, w0, work);
    var w2 := AfterEvent(settings, w1, work);
    assert w0.store == world.store && j in w0.jobs && w0.jobs[j] == Job(i, DeleteKey(key), Todo(TheRow));
    assert Idle(w0, key) by { hide Restores; }
    DeleteStep(settings, w0, j, key, now);
    assert [work, work, work] == [work] + [work, work] && [work, work] == [work] + [work];
    FirstStep(settings, world, start, [work, work, work]);
    FirstStep(settings, w0, work, [work, work]);
    hide AfterEvent, Idle;
    if key in world.store.keys {
      DeleteStep(settings, w1, j, key, now);
      DeleteStep(settings, w2, j, key, now);
    }
    FirstStep(settings, w1, work, [work]);
    OneEvent(settings, w2, work);
    if key !in world.store.keys {
      DoneJobRests(settings, w1, j, now);
      DoneJobRests(settings, w2, j, now);
    }
  }

  lemma DoneJobRests(settings: Settings, world: World, j: JobId, now: real)
    requires j in world.jobs && world.jobs[j].stage == Done
    ensures AfterEvent(settings, world, Event(Work(j), now)) == world.(events := world.events + 1)
    ensures forall key :: Idle(world.(events := world.events + 1), key) <==> Idle(world, key)
  {
  }

  // One part of a delete.
  lemma DeleteStep(settings: Settings, world: World, j: JobId, key: string, now: real)
    requires j in world.jobs && world.jobs[j].operation == DeleteKey(key) && world.jobs[j].stage.Todo?
    requires Idle(world, key)
    ensures
      var next := AfterEvent(settings, world, Event(Work(j), now));
      var part := world.jobs[j].stage.part;
      && Idle(next, key) && j in next.jobs && next.jobs[j].operation == DeleteKey(key)
      && next.jobs[j].stage == (if part == TheRow && key !in world.store.keys then Done else Next(part))
      && (key in next.store.keys <==> part != TheRow && key in world.store.keys)
      && (key in next.store.keyCopies <==> part != TheCopy && key in world.store.keyCopies)
  {
    hide Restores, Without;
  }

  // A run that saves a key.
  function Saving(key: string, record: Record, now: real): seq<Event> {
    var work := Event(Work(0), now);
    [Event(Start(0, 0, SaveKey(key, record)), now), work, work, work]
  }

  lemma AfterSaving(settings: Settings, key: string, record: Record, now: real)
    ensures
      var saved := Run(settings, Opening(EMPTY), Saving(key, record, now)).Last();
      && saved.store == EMPTY.PutKey(key, record).PutKeyCopy(key, record) && saved.logins == map[]
      && saved.jobs == map[0 := Job(0, SaveKey(key, record), Done)] && saved.events == 4
  {
    hide AfterEvent, Without;
    var start, work := Event(Start(0, 0, SaveKey(key, record)), now), Event(Work(0), now);
    JobStarts(settings, Opening(EMPTY), 0, 0, SaveKey(key, record), now);
    var w0 := AfterEvent(settings, Opening(EMPTY), start);
    JobWorks(settings, w0, 0, now);
    var w1 := AfterEvent(settings, w0, work);
    JobWorks(settings, w1, 0, now);
    var w2 := AfterEvent(settings, w1, work);
    JobWorks(settings, w2, 0, now);
    FourEvents(settings, Opening(EMPTY), start, work, work, work);
  }

  // Two awaits of a delete, and a login that reads the store between them.
  lemma RowIsDropped(settings: Settings, world: World, key: string, now: real)
    requires key in world.store.keys && 1 !in world.jobs
    ensures
      var start, work := Event(Start(1, 0, DeleteKey(key)), now), Event(Work(1), now);
      var next := Run(settings, world, [start, work]).Last();
      && key !in next.store.keys && next.store.keyCopies == world.store.keyCopies && next.logins == world.logins
      && next.jobs == world.jobs[1 := Job(0, DeleteKey(key), Todo(TheCopy))] && next.events == world.events + 2
  {
    hide AfterEvent, Without, Run.At;
    var start, work := Event(Start(1, 0, DeleteKey(key)), now), Event(Work(1), now);
    JobStarts(settings, world, 1, 0, DeleteKey(key), now);
    JobWorks(settings, AfterEvent(settings, world, start), 1, now);
    TwoEvents(settings, world, start, work);
  }

  lemma CopyIsRead(settings: Settings, world: World, key: string, now: real)
    requires key !in world.store.keys && world.store.CopyOf(key).Some? && world.store.CopyOf(key).value.Whole?
    requires world.logins == map[]
    ensures
      var begin, step := Event(Begin(0, 0, key), now), Event(Step(0, false), now);
      var next := Run(settings, world, [begin, step, step]).Last();
      && next.logins.Keys == {0} && Restores(next.logins[0], key) && next.logins[0].progress.fetch.part == TheRow
      && next.store == world.store && next.jobs == world.jobs && next.events == world.events + 3
  {
    hide AfterEvent, Run.At;
    var begin, step := Event(Begin(0, 0, key), now), Event(Step(0, false), now);
    LoginBegins(settings, world, 0, 0, key, now);
    var w1 := AfterEvent(settings, world, begin);
    LoginSteps(settings, w1, 0, false, now);
    LoginSteps(settings, AfterEvent(settings, w1, step), 0, false, now);
    ThreeEvents(settings, world, begin, step, step);
  }

  lemma LoginBetween(settings: Settings, world: World, key: string, now: real) returns (events: seq<Event>)
    requires key in world.store.keys && world.store.CopyOf(key).Some? && world.store.CopyOf(key).value.Whole?
    requires world.logins == map[] && 1 !in world.jobs
    ensures |events| == 5
    ensures
      var last := Run(settings, world, events).Last();
      && last.logins.Keys == {0} && Restores(last.logins[0], key) && last.logins[0].progress.fetch.part == TheRow
      && key !in last.store.keys && last.jobs == world.jobs[1 := Job(0, DeleteKey(key), Todo(TheCopy))]
      && last.events == world.events + 5
  {
    hide AfterEvent, Run.At, Restores;
    var drop := [Event(Start(1, 0, DeleteKey(key)), now), Event(Work(1), now)];
    var read := [Event(Begin(0, 0, key), now), Event(Step(0, false), now), Event(Step(0, false), now)];
    RowIsDropped(settings, world, key, now);
    CopyIsRead(settings, Run(settings, world, drop).Last(), key, now);
    LastOfBoth(settings, world, drop, read);
    events := drop + read;
  }

  // The rest of the delete.
  lemma DeleteEnds(settings: Settings, world: World, key: string, now: real) returns (events: seq<Event>)
    requires 1 in world.jobs && world.jobs[1] == Job(0, DeleteKey(key), Todo(TheCopy)) && key !in world.store.keys
    requires forall j :: j in world.jobs && j != 1 ==> world.jobs[j].stage == Done
    ensures |events| == 2
    ensures
      var last := Run(settings, world, events).Last();
      && NothingToDo(last) && last.store.Gone(key) && last.logins == world.logins && last.events == world.events + 2
  {
    hide AfterEvent, Without;
    var work := Event(Work(1), now);
    JobWorks(settings, world, 1, now);
    JobWorks(settings, AfterEvent(settings, world, work), 1, now);
    TwoEvents(settings, world, work, work);
    events := [work, work];
  }

  // A backfill makes the key good for the logins that follow.
  lemma BackfillResolvesNext(settings: Settings, world: World, key: string, now: real) returns (events: seq<Event>)
    requires world.logins.Keys == {0} && world.logins[0].key == key && world.logins[0].progress.Fetching?
    requires world.logins[0].progress.fetch.AtBackfill? && world.logins[0].progress.fetch.part == TheRow
    ensures NoWrites(events, key)
    ensures
      var last := Run(settings, world, events).Last();
      1 in last.logins && last.logins[1].key == key && last.logins[1].begun >= world.events
      && last.logins[1].progress == Resolved
  {
    hide AfterEvent, Without;
    var step, begin, read := Event(Step(0, false), now), Event(Begin(1, 0, key), now), Event(Step(1, false), now);
    LoginSteps(settings, world, 0, false, now);
    var w1 := AfterEvent(settings, world, step);
    LoginBegins(settings, w1, 1, 0, key, now);
    var w2 := AfterEvent(settings, w1, begin);
    LoginSteps(settings, w2, 1, false, now);
    ThreeEvents(settings, world, step, begin, read);
    events := [step, begin, read];
  }

  // A deleted key that comes back. A login reads the copy after the delete has dropped the row;
  // the delete then finishes, and nothing is under way but that login.
  lemma DeletedKeyComesBack(settings: Settings, key: string, record: Record, now: real) returns (run: Run, n: nat)
    ensures run.start == Opening(EMPTY) && n <= |run.events| && NoWrites(run.events[n..], key)
    ensures NothingToDo(run.At(n)) && run.At(n).store.Gone(key)
    ensures
      var logins := run.Last().logins;
      exists c :: c in logins && logins[c].key == key && logins[c].begun >= n && logins[c].progress == Resolved
  {
    hide AfterEvent;
    var saving := Saving(key, record, now);
    AfterSaving(settings, key, record, now);
    var saved := Run(settings, Opening(EMPTY), saving).Last();
    var between := LoginBetween(settings, saved, key, now);
    var w1 := Run(settings, saved, between).Last();
    var ends := DeleteEnds(settings, w1, key, now);
    RunsCompose(settings, saved, between, ends, |ends|);
    var w2 := Run(settings, saved, between + ends).Last();
    var back := BackfillResolvesNext(settings, w2, key, now);
    RunInThree(settings, Opening(EMPTY), saving, between + ends, back);
    run, n := Run(settings, Opening(EMPTY), saving + (between + ends) + back), |saving + (between + ends)|;
    assert run.events[n..] == back;
  }

  // Two awaits of the count of a request, and a delete that has dropped the row between them.
  lemma DeleteBetween(settings: Settings, world: World, key: string, now: real) returns (events: seq<Event>)
    requires key in world.store.keys && 1 !in world.jobs && 2 !in world.jobs
    ensures |events| == 4
    ensures
      var last := Run(settings, world, events).Last();
      && last.logins == world.logins && key !in last.store.keys && last.events == world.events + 4
      && last.jobs == world.jobs[1 := Job(0, CountRequest(key), Todo(TheCopy))]
                                [2 := Job(0, DeleteKey(key), Todo(TheCopy))]
  {
    hide AfterEvent, Without;
    var count, drop := Event(Start(1, 0, CountRequest(key)), now), Event(Start(2, 0, DeleteKey(key)), now);
    JobStarts(settings, world, 1, 0, CountRequest(key), now);
    var w1 := AfterEvent(settings, world, count);
    JobWorks(settings, w1, 1, now);
    var w2 := AfterEvent(settings, w1, Event(Work(1), now));
    assert w2.jobs == world.jobs[1 := Job(0, CountRequest(key), Todo(TheCopy))];
    JobStarts(settings, w2, 2, 0, DeleteKey(key), now);
    var w3 := AfterEvent(settings, w2, drop);
    JobWorks(settings, w3, 2, now);
    FourEvents(settings, world, count, Event(Work(1), now), drop, Event(Work(2), now));
    events := [count, Event(Work(1), now), drop, Event(Work(2), now)];
  }

  // The rest of both.
  lemma DeleteThenCountEnd(settings: Settings, world: World, key: string, now: real) returns (events: seq<Event>)
    requires 1 in world.jobs && world.jobs[1] == Job(0, CountRequest(key), Todo(TheCopy))
    requires 2 in world.jobs && world.jobs[2] == Job(0, DeleteKey(key), Todo(TheCopy)) && key !in world.store.keys
    requires forall j :: j in world.jobs && j != 1 && j != 2 ==> world.jobs[j].stage == Done
    ensures |events| == 4
    ensures
      var last := Run(settings, world, events).Last();
      && NothingToDo(last) && key !in last.store.keys && last.store.CopyOf(key) == Some(Partial)
      && last.logins == world.logins && last.events == world.events + 4
  {
    hide AfterEvent, Without;
    var drop, count := Event(Work(2), now), Event(Work(1), now);
    JobWorks(settings, world, 2, now);
    var w1 := AfterEvent(settings, world, drop);
    JobWorks(settings, w1, 2, now);
    var w2 := AfterEvent(settings, w1, drop);
    JobWorks(settings, w2, 1, now);
    var w3 := AfterEvent(settings, w2, count);
    JobWorks(settings, w3, 1, now);
    FourEvents(settings, world, drop, drop, count, count);
    events := [drop, drop, count, count];
  }

  lemma PartialBreaksNext(settings: Settings, world: World, key: string, now: real) returns (events: seq<Event>)
    requires world.logins == map[] && key !in world.store.keys && world.store.CopyOf(key) == Some(Partial)
    ensures NoWrites(events, key)
    ensures
      var last := Run(settings, world, events).Last();
      0 in last.logins && last.logins[0] == Login(0, key, world.events, Broken(true))
  {
    hide AfterEvent;
    var begin, step := Event(Begin(0, 0, key), now), Event(Step(0, false), now);
    LoginBegins(settings, world, 0, 0, key, now);
    var w1 := AfterEvent(settings, world, begin);
    LoginSteps(settings, w1, 0, false, now);
    var w2 := AfterEvent(settings, w1, step);
    LoginSteps(settings, w2, 0, false, now);
    ThreeEvents(settings, world, begin, step, step);
    events := [begin, step, step];
  }

  // A deleted key that is neither in nor out. A request is counted while the key is deleted, and
  // leaves a copy with nothing but the count, on which every login breaks.
  lemma CountBreaksDeletedKey(settings: Settings, key: string, record: Record, now: real) returns (run: Run, n: nat)
    ensures run.start == Opening(EMPTY) && n <= |run.events| && NoWrites(run.events[n..], key)
    ensures NothingToDo(run.At(n)) && key !in run.At(n).store.keys
    ensures
      var logins := run.Last().logins;
      exists c :: c in logins && logins[c].key == key && logins[c].begun >= n && logins[c].progress == Broken(true)
  {
    hide AfterEvent;
    var saving := Saving(key, record, now);
    AfterSaving(settings, key, record, now);
    var saved := Run(settings, Opening(EMPTY), saving).Last();
    var between := DeleteBetween(settings, saved, key, now);
    var w1 := Run(settings, saved, between).Last();
    var ends := DeleteThenCountEnd(settings, w1, key, now);
    RunsCompose(settings, saved, between, ends, |ends|);
    var w2 := Run(settings, saved, between + ends).Last();
    var breaks := PartialBreaksNext(settings, w2, key, now);
    RunInThree(settings, Opening(EMPTY), saving, between + ends, breaks);
    run, n := Run(settings, Opening(EMPTY), saving + (between + ends) + breaks), |saving + (between + ends)|;
    assert run.events[n..] == breaks;
  }
}
