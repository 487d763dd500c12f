/** Interleaved registration tasks and firing jobs over one schedule registry
    (src/scheduler_actor.rs, src/schedule.rs). */
module Scheduler {
  import opened Basics
  import opened ScheduleRegistry
  import opened Runs

  datatype Kind = Repeating | OneShot | Random

  /** Where one `process_schedule_registration` task stands, after its begin. */
  datatype Pc =
    | RemovingOld(previous: JobId)
    | Registering
    | Registered(job: JobId)
    | Discarding(job: JobId)
    | Done

  /** A registration: what its task knows, and (as history) the epoch of its key in which
      it began, its place among the registrations of that epoch, and the job it added. */
  datatype Task = Task(key: Key, kind: Kind, version: nat, pc: Pc, epoch: nat, index: nat, job: Option<JobId>)

  /** `Fired` jobs have run and still have to complete. */
  datatype Status = Live | Fired | Finished | Removed

  /** Who answers for a job. */
  datatype Home = InRegistry | WithTask(task: nat) | Released

  /** A scheduler job, with the task whose guard it carries and (as history) its home. */
  datatype Job = Job(task: nat, status: Status, home: Home)

  /** The registry, the tasks in the order they began, and all jobs ever added; then history
      variables no step reads. An epoch of a key lasts until its entry is removed.
      - `epochs`, `counts`, `latest`: per key the current epoch, and, while it has an entry,
        how many registrations began in the epoch and which began last;
      - `mistaken`: the keys for which a commit or rollback acted on the entry of another
        registration;
      - `leaked`: the keys for which removing a live job failed;
      - `shutDown`: the keys for which `deactivate_all` forgot a tracked job;
      - `stopped`: the random registrations that failed to add their next job;
      - `dispatched`: the jobs that dispatched their message, in the order they did. */
  datatype World = World(
    jobs: Jobs,
    tasks: seq<Task>,
    added: seq<Job>,
    epochs: map<Key, nat>,
    counts: map<Key, nat>,
    latest: map<Key, nat>,
    mistaken: set<Key>,
    leaked: set<Key>,
    shutDown: set<Key>,
    stopped: set<nat>,
    dispatched: seq<JobId>)

  const INIT := World(map[], [], [], map[], map[], map[], {}, {}, {}, {}, [])

  datatype Step =
    | BeginTask(key: Key, kind: Kind)
    | Advance(task: nat, succeeds: bool)
    | Fire(job: JobId)
    | Complete(job: JobId, succeeds: bool)
    | Shutdown

  function EpochOf(w: World, key: Key): nat {
    if key in w.epochs then w.epochs[key] else 0
  }

  predicate GuardOf(w: World, t: nat)
    requires t < |w.tasks|
  {
    Guard(w.jobs, w.tasks[t].key, w.tasks[t].version)
  }

  function SetHome(added: seq<Job>, j: Option<JobId>, home: Home): seq<Job> {
    if j.Some? && j.value < |added| then added[j.value := added[j.value].(home := home)] else added
  }

  function DoBegin(w: World, key: Key, kind: Kind): World {
    var previous := PreviousJob(w.jobs, key);
    var index := if key in w.jobs && key in w.counts then w.counts[key] + 1 else 1;
    var pc := if previous.Some? then RemovingOld(previous.value) else Registering;
    w.(jobs := Begin(w.jobs, key),
       tasks := w.tasks + [Task(key, kind, NextVersion(w.jobs, key), pc, EpochOf(w, key), index, None)],
       added := SetHome(w.added, previous, WithTask(|w.tasks|)),
       counts := w.counts[key := index],
       latest := w.latest[key := |w.tasks|])
  }

  predicate IsLatest(w: World, t: nat)
    requires t < |w.tasks|
  {
    w.tasks[t].key in w.latest && w.latest[w.tasks[t].key] == t
  }

  /** `rollback_registration` on behalf of task `t`. */
  function DoRollback(w: World, t: nat): World
    requires t < |w.tasks|
  {
    var jobs := Rollback(w.jobs, w.tasks[t].key, w.tasks[t].version);
    if GuardOf(w, t) then
      w.(jobs := jobs,
         added := SetHome(w.added, PreviousJob(w.jobs, w.tasks[t].key), Released),
         epochs := w.epochs[w.tasks[t].key := EpochOf(w, w.tasks[t].key) + 1],
         mistaken := w.mistaken + if IsLatest(w, t) then {} else {w.tasks[t].key})
    else w.(jobs := jobs)
  }

  function SetPc(w: World, t: nat, pc: Pc): World
    requires t < |w.tasks|
  {
    w.(tasks := w.tasks[t := w.tasks[t].(pc := pc)])
  }

  /** The key of the task that added a job. */
  function KeysOf(w: World, j: JobId): set<Key>
    requires j < |w.added|
  {
    if w.added[j].task < |w.tasks| then {w.tasks[w.added[j].task].key} else {}
  }

  /** Asks the scheduler to remove a job; a job that is no longer live stays as it is. */
  function DoRemove(w: World, j: JobId, succeeds: bool): World {
    if j >= |w.added| then w
    else
      var job := w.added[j];
      w.(added := w.added[j := job.(status := if job.status.Live? && succeeds then Removed else job.status,
                                    home := Released)],
         leaked := w.leaked + if job.status.Live? && !succeeds then KeysOf(w, j) else {})
  }

  /** Task `t` has added a job to the scheduler. */
  function DoRegister(w: World, t: nat): World
    requires t < |w.tasks|
  {
    w.(added := w.added + [Job(t, Live, WithTask(t))],
       tasks := w.tasks[t := w.tasks[t].(pc := Registered(|w.added|), job := Some(|w.added|))])
  }

  /** Task `t` commits job `j`, or learns that it was superseded. */
  function DoCommit(w: World, t: nat, j: JobId): World
    requires t < |w.tasks|
  {
    var jobs := Commit(w.jobs, w.tasks[t].key, w.tasks[t].version, j);
    if GuardOf(w, t) then
      SetPc(w, t, Done).(jobs := jobs,
                         added := SetHome(w.added, Some(j), InRegistry),
                         mistaken := w.mistaken + if IsLatest(w, t) then {} else {w.tasks[t].key})
    else SetPc(w, t, Discarding(j)).(jobs := jobs)
  }

  /** The next await of task `t` comes back, successfully or not. */
  function DoAdvance(w: World, t: nat, succeeds: bool): World
    requires t < |w.tasks|
  {
    match w.tasks[t].pc
    case RemovingOld(j) => SetPc(DoRemove(w, j, succeeds), t, Registering)
    case Registering => if succeeds then DoRegister(w, t) else DoRollback(SetPc(w, t, Done), t)
    case Registered(j) => DoCommit(w, t, j)
    case Discarding(j) => SetPc(DoRemove(w, j, succeeds), t, Done)
    case Done => w
  }

  /** A live job fires: it dispatches if its guard holds, and runs only once unless it repeats. */
  function DoFire(w: World, j: JobId): World
    requires j < |w.added| && w.added[j].task < |w.tasks|
  {
    var w1 := if GuardOf(w, w.added[j].task) then w.(dispatched := w.dispatched + [j]) else w;
    if w.tasks[w.added[j].task].kind.Repeating? then w1
    else w1.(added := w.added[j := w.added[j].(status := Fired)])
  }

  /** A fired one-shot rolls its registration back; a fired random job adds a successor if
      its guard holds. */
  function DoComplete(w: World, j: JobId, succeeds: bool): World
    requires j < |w.added| && w.added[j].task < |w.tasks|
  {
    var t := w.added[j].task;
    var w1 := w.(added := w.added[j := w.added[j].(status := Finished)]);
    if w.tasks[t].kind.OneShot? then DoRollback(w1, t)
    else if !GuardOf(w, t) then w1
    else if succeeds then w1.(added := w1.added + [Job(t, Live, Released)])
    else w1.(stopped := w.stopped + {t})
  }

  function DoShutdown(w: World): World {
    w.(jobs := map[],
       epochs := map key | key in w.epochs.Keys + w.jobs.Keys :: EpochOf(w, key) + (if key in w.jobs then 1 else 0),
       shutDown := w.shutDown + set key | key in w.jobs && w.jobs[key].jobId.Some?)
  }

  function Next(w: World, step: Step): Option<World> {
    match step
    case BeginTask(key, kind) => Some(DoBegin(w, key, kind))
    case Advance(t, succeeds) => if t < |w.tasks| then Some(DoAdvance(w, t, succeeds)) else None
    case Fire(j) =>
      if j < |w.added| && w.added[j].task < |w.tasks| && w.added[j].status.Live? then Some(DoFire(w, j)) else None
    case Complete(j, succeeds) =>
      if j < |w.added| && w.added[j].task < |w.tasks| && w.added[j].status.Fired?
         && !w.tasks[w.added[j].task].kind.Repeating?
      then Some(DoComplete(w, j, succeeds))
      else None
    case Shutdown => Some(DoShutdown(w))
  }

  // ----- Versions

  function Saturate(n: nat): nat {
    if n > VERSION_MAX then VERSION_MAX else n
  }

  /** The entry of a key belongs to the registration that began last. */
  ghost predicate EntryInv(w: World, key: Key) {
    key in w.jobs ==>
      && key in w.counts && w.counts[key] >= 1
      && key in w.latest && w.latest[key] < |w.tasks|
      && w.jobs[key].version == Saturate(w.counts[key])
      && w.tasks[w.latest[key]].key == key
      && w.tasks[w.latest[key]].epoch == EpochOf(w, key)
  }

  /** A registration's version is its place in its epoch; those of the current epoch have an
      entry, and the last of them is the one the entry belongs to. */
  ghost predicate TaskInv(w: World, t: nat)
    requires t < |w.tasks|
  {
    var task := w.tasks[t];
    && task.version == Saturate(task.index)
    && task.epoch <= EpochOf(w, task.key)
    && (task.epoch == EpochOf(w, task.key) ==>
          && task.key in w.jobs && task.key in w.counts && task.key in w.latest
          && 1 <= task.index <= w.counts[task.key]
          && (task.index == w.counts[task.key] <==> w.latest[task.key] == t))
    && (task.key in w.jobs && task.key in w.latest ==> t <= w.latest[task.key])
  }

  ghost predicate VersionInv(w: World) {
    && (forall key :: EntryInv(w, key))
    && (forall t :: 0 <= t < |w.tasks| ==> TaskInv(w, t))
  }

  lemma BeginKeepsVersions(w: World, key: Key, kind: Kind)
    requires VersionInv(w)
    ensures VersionInv(DoBegin(w, key, kind))
  {
    var w' := DoBegin(w, key, kind);
    forall k ensures EntryInv(w', k) {
      assert EntryInv(w, k);
    }
    forall t | 0 <= t < |w'.tasks| ensures TaskInv(w', t) {
      assert EntryInv(w, key);
      if t < |w.tasks| {
        assert TaskInv(w, t);
      }
    }
  }

  lemma RollbackKeepsVersions(w: World, t: nat)
    requires VersionInv(w) && t < |w.tasks|
    ensures VersionInv(DoRollback(w, t))
  {
    var w' := DoRollback(w, t);
    forall k ensures EntryInv(w', k) {
      assert EntryInv(w, k);
    }
    forall s | 0 <= s < |w'.tasks| ensures TaskInv(w', s) {
      assert TaskInv(w, s);
    }
  }

  /** Steps that leave versions, histories and the set of entries alone. */
  lemma QuietKeepsVersions(w: World, w': World)
    requires VersionInv(w)
    requires w'.jobs.Keys == w.jobs.Keys && forall k :: k in w.jobs ==> w'.jobs[k].version == w.jobs[k].version
    requires |w'.tasks| == |w.tasks| && w'.epochs == w.epochs && w'.counts == w.counts && w'.latest == w.latest
    requires forall t :: 0 <= t < |w.tasks| ==> w'.tasks[t] == w.tasks[t].(pc := w'.tasks[t].pc, job := w'.tasks[t].job)
    ensures VersionInv(w')
  {
    forall k ensures EntryInv(w', k) {
      assert EntryInv(w, k);
    }
    forall t | 0 <= t < |w'.tasks| ensures TaskInv(w', t) {
      assert TaskInv(w, t);
    }
  }

  lemma RemoveKeepsVersions(w: World, t: nat, j: JobId, succeeds: bool, pc: Pc)
    requires VersionInv(w) && t < |w.tasks|
    ensures VersionInv(SetPc(DoRemove(w, j, succeeds), t, pc))
  {
    var w1 := DoRemove(w, j, succeeds);
    assert w1 == w.(added := w1.added, leaked := w1.leaked);
    QuietKeepsVersions(w, SetPc(w1, t, pc));
  }

  lemma FailedRegistrationKeepsVersions(w: World, t: nat)
    requires VersionInv(w) && t < |w.tasks|
    ensures VersionInv(SetPc(w, t, Done)) && VersionInv(DoRollback(SetPc(w, t, Done), t))
  {
    QuietKeepsVersions(w, SetPc(w, t, Done));
    RollbackKeepsVersions(SetPc(w, t, Done), t);
  }

  lemma CommitKeepsVersions(w: World, t: nat, j: JobId)
    requires VersionInv(w) && t < |w.tasks|
    ensures VersionInv(DoCommit(w, t, j))
  {
    if GuardOf(w, t) {
      var jobs := Commit(w.jobs, w.tasks[t].key, w.tasks[t].version, j);
      assert jobs.Keys == w.jobs.Keys && forall k :: k in w.jobs ==> jobs[k].version == w.jobs[k].version;
      QuietKeepsVersions(w, DoCommit(w, t, j));
    } else {
      QuietKeepsVersions(w, SetPc(w, t, Discarding(j)));
    }
  }

  lemma AdvanceKeepsVersions(w: World, t: nat, succeeds: bool)
    requires VersionInv(w) && t < |w.tasks|
    ensures VersionInv(DoAdvance(w, t, succeeds))
  {
    match w.tasks[t].pc
    case RemovingOld(j) => RemoveKeepsVersions(w, t, j, succeeds, Registering);
    case Registering =>
      FailedRegistrationKeepsVersions(w, t);
      QuietKeepsVersions(w, DoRegister(w, t));
    case Registered(j) => CommitKeepsVersions(w, t, j);
    case Discarding(j) => RemoveKeepsVersions(w, t, j, succeeds, Done);
    case Done =>
  }

  lemma CompleteKeepsVersions(w: World, j: JobId, succeeds: bool)
    requires VersionInv(w) && j < |w.added| && w.added[j].task < |w.tasks|
    ensures VersionInv(DoComplete(w, j, succeeds))
  {
    var t := w.added[j].task;
    if w.tasks[t].kind.OneShot? {
      var w1 := w.(added := w.added[j := w.added[j].(status := Finished)]);
      QuietKeepsVersions(w, w1);
      RollbackKeepsVersions(w1, t);
    } else {
      QuietKeepsVersions(w, DoComplete(w, j, succeeds));
    }
  }

  lemma ShutdownKeepsVersions(w: World)
    requires VersionInv(w)
    ensures VersionInv(DoShutdown(w))
  {
    var w' := DoShutdown(w);
    forall t | 0 <= t < |w'.tasks| ensures TaskInv(w', t) {
      assert TaskInv(w, t);
    }
  }

  lemma FireKeepsVersions(w: World, j: JobId)
    requires VersionInv(w) && j < |w.added| && w.added[j].task < |w.tasks|
    ensures VersionInv(DoFire(w, j))
  {
    QuietKeepsVersions(w, DoFire(w, j));
  }

  lemma StepKeepsVersions(w: World, step: Step)
    requires VersionInv(w) && Next(w, step).Some?
    ensures VersionInv(Next(w, step).value)
  {
    match step
    case BeginTask(key, kind) => BeginKeepsVersions(w, key, kind);
    case Advance(t, succeeds) => AdvanceKeepsVersions(w, t, succeeds);
    case Fire(j) => FireKeepsVersions(w, j);
    case Complete(j, succeeds) => CompleteKeepsVersions(w, j, succeeds);
    case Shutdown => ShutdownKeepsVersions(w);
  }

  // ----- Accounting for jobs

  /** Task `t` answers for job `j`: as the job it replaces, or as its own. */
  predicate Holds(task: Task, j: JobId) {
    match task.pc
    case RemovingOld(k) => k == j
    case Registered(k) => k == j
    case Discarding(k) => k == j
    case _ => false
  }

  predicate Tracks(w: World, key: Key, j: JobId) {
    key in w.jobs && w.jobs[key].jobId == Some(j)
  }

  /** For this key nothing went wrong that the registry cannot see. */
  predicate Sound(w: World, key: Key) {
    key !in w.mistaken && key !in w.leaked && key !in w.shutDown
  }

  predicate JobOfKey(w: World, j: JobId, key: Key) {
    j < |w.added| && w.added[j].task < |w.tasks| && w.tasks[w.added[j].task].key == key
  }

  /** A tracked job is one of its key. It is at home in the registry, and was added by the task
      the entry belongs to, which is done. */
  ghost predicate TrackedInv(w: World, key: Key) {
    key in w.jobs && w.jobs[key].jobId.Some? ==>
      var j := w.jobs[key].jobId.value;
      && JobOfKey(w, j, key)
      && (Sound(w, key) ==>
            && w.added[j].home == InRegistry
            && key in w.latest && w.latest[key] < |w.tasks|
            && w.added[j].task == w.latest[key] && w.tasks[w.latest[key]].pc.Done?)
  }

  /** A held job is one of its holder's key. It is at home with its holder, and the holder's
      own unless it replaces it. */
  ghost predicate HeldInv(w: World, t: nat)
    requires t < |w.tasks|
  {
    var pc := w.tasks[t].pc;
    pc.RemovingOld? || pc.Registered? || pc.Discarding? ==>
      var j := if pc.RemovingOld? then pc.previous else pc.job;
      && JobOfKey(w, j, w.tasks[t].key)
      && (if pc.RemovingOld? then w.added[j].task < t else w.added[j].task == t)
      && (Sound(w, w.tasks[t].key) ==> w.added[j].home == WithTask(t))
  }

  /** Removed, or a one-shot that has fired. */
  predicate IsGone(w: World, j: JobId)
    requires j < |w.added| && w.added[j].task < |w.tasks|
  {
    var job := w.added[j];
    job.status.Removed? || (w.tasks[job.task].kind.OneShot? && !job.status.Live?)
  }

  /** The registration's epoch has ended, or a later registration has begun. */
  predicate IsOver(w: World, t: nat)
    requires t < |w.tasks|
  {
    w.tasks[t].epoch < EpochOf(w, w.tasks[t].key) || !IsLatest(w, t)
  }

  /** A job comes from a task past its registration, is tracked or held as its home says, and
      is released only when it is gone; kinds that re-add themselves aside. A removed job is
      released, only jobs that do not repeat run out, and a one-shot takes its registration
      with it. */
  ghost predicate JobInv(w: World, j: JobId)
    requires j < |w.added|
  {
    var t := w.added[j].task;
    && t < |w.tasks|
    && (w.tasks[t].kind.Repeating? ==> w.added[j].status.Live? || w.added[j].status.Removed?)
    && (Sound(w, w.tasks[t].key) ==>
          && !w.tasks[t].pc.RemovingOld? && !w.tasks[t].pc.Registering?
          && (match w.added[j].home
              case InRegistry => Tracks(w, w.tasks[t].key, j)
              case WithTask(s) => s < |w.tasks| && Holds(w.tasks[s], j)
              case Released => w.tasks[t].kind.Random? || IsGone(w, j))
          && (w.added[j].status.Removed? ==> w.added[j].home.Released?)
          && (w.tasks[t].kind.OneShot? && w.added[j].status.Finished? ==> IsOver(w, t))
          && (w.tasks[t].kind.Random? || w.tasks[t].job == Some(j)))
  }

  ghost predicate AccountInv(w: World) {
    && (forall key :: TrackedInv(w, key))
    && (forall t :: 0 <= t < |w.tasks| ==> HeldInv(w, t))
    && (forall j :: 0 <= j < |w.added| ==> JobInv(w, j))
  }

  lemma BeginKeepsAccount(w: World, key: Key, kind: Kind)
    requires VersionInv(w) && AccountInv(w)
    ensures AccountInv(DoBegin(w, key, kind))
  {
    var w' := DoBegin(w, key, kind);
    assert TrackedInv(w, key) && EntryInv(w, key);
    forall k ensures TrackedInv(w', k) {
      assert TrackedInv(w, k) && EntryInv(w, k);
    }
    forall t | 0 <= t < |w'.tasks| ensures HeldInv(w', t) {
      assert t < |w.tasks| ==> HeldInv(w, t);
    }
    forall j | 0 <= j < |w'.added| ensures JobInv(w', j) {
      assert JobInv(w, j);
    }
  }

  /** The jobs of registration `t` that are at home in the registry are gone. */
  ghost predicate OwnJobsGone(w: World, t: nat)
    requires t < |w.tasks|
  {
    Sound(w, w.tasks[t].key) ==>
      forall j :: 0 <= j < |w.added| && w.added[j].task == t && w.added[j].home.InRegistry? ==> IsGone(w, j)
  }

  lemma RollbackKeepsJob(w: World, t: nat, j: JobId)
    requires VersionInv(w) && AccountInv(w) && t < |w.tasks| && OwnJobsGone(w, t) && j < |w.added|
    ensures JobInv(DoRollback(w, t), j)
  {
    assert TrackedInv(w, w.tasks[t].key) && JobInv(w, j);
  }

  /** A rollback drops the job of its own registration, which is gone. */
  lemma RollbackKeepsAccount(w: World, t: nat)
    requires VersionInv(w) && AccountInv(w) && t < |w.tasks| && OwnJobsGone(w, t)
    ensures AccountInv(DoRollback(w, t))
  {
    var w' := DoRollback(w, t);
    assert TrackedInv(w, w.tasks[t].key);
    forall k ensures TrackedInv(w', k) {
      assert TrackedInv(w, k) && EntryInv(w, k);
    }
    forall s | 0 <= s < |w'.tasks| ensures HeldInv(w', s) {
      assert HeldInv(w, s);
    }
    forall j: JobId | j < |w'.added| ensures JobInv(w', j) {
      RollbackKeepsJob(w, t, j);
    }
  }

  /** Task `t` has asked for the removal of the job it held, and goes on. */
  predicate LetsGo(w: World, t: nat, j: JobId, pc: Pc)
    requires t < |w.tasks|
  {
    (w.tasks[t].pc == RemovingOld(j) && pc == Registering) || (w.tasks[t].pc == Discarding(j) && pc == Done)
  }

  lemma RemoveKeepsJob(w: World, t: nat, j: JobId, succeeds: bool, pc: Pc, i: JobId)
    requires VersionInv(w) && AccountInv(w) && t < |w.tasks| && LetsGo(w, t, j, pc) && i < |w.added|
    ensures JobInv(SetPc(DoRemove(w, j, succeeds), t, pc), i)
  {
    assert HeldInv(w, t) && JobInv(w, i);
  }

  lemma RemoveKeepsTasks(w: World, t: nat, j: JobId, succeeds: bool, pc: Pc)
    requires VersionInv(w) && AccountInv(w) && t < |w.tasks| && LetsGo(w, t, j, pc)
    ensures var w' := SetPc(DoRemove(w, j, succeeds), t, pc);
            (forall k :: TrackedInv(w', k)) && forall s :: 0 <= s < |w'.tasks| ==> HeldInv(w', s)
  {
    var w' := SetPc(DoRemove(w, j, succeeds), t, pc);
    assert HeldInv(w, t);
    forall k ensures TrackedInv(w', k) {
      assert TrackedInv(w, k) && EntryInv(w, k);
    }
    forall s | 0 <= s < |w'.tasks| ensures HeldInv(w', s) {
      assert HeldInv(w, s);
    }
  }

  lemma RemoveKeepsAccount(w: World, t: nat, j: JobId, succeeds: bool, pc: Pc)
    requires VersionInv(w) && AccountInv(w) && t < |w.tasks| && LetsGo(w, t, j, pc)
    ensures AccountInv(SetPc(DoRemove(w, j, succeeds), t, pc))
  {
    RemoveKeepsTasks(w, t, j, succeeds, pc);
    forall i: JobId | i < |w.added| ensures JobInv(SetPc(DoRemove(w, j, succeeds), t, pc), i) {
      RemoveKeepsJob(w, t, j, succeeds, pc, i);
    }
  }

  lemma RegisterKeepsAccount(w: World, t: nat)
    requires VersionInv(w) && AccountInv(w) && t < |w.tasks| && w.tasks[t].pc.Registering?
    ensures AccountInv(DoRegister(w, t))
  {
    var w' := DoRegister(w, t);
    forall k ensures TrackedInv(w', k) {
      assert TrackedInv(w, k) && EntryInv(w, k);
    }
    forall s | 0 <= s < |w'.tasks| ensures HeldInv(w', s) {
      assert HeldInv(w, s);
    }
    forall j | 0 <= j < |w'.added| ensures JobInv(w', j) {
      assert j < |w.added| ==> JobInv(w, j);
    }
  }

  lemma FailedRegistrationKeepsAccount(w: World, t: nat)
    requires VersionInv(w) && AccountInv(w) && t < |w.tasks| && w.tasks[t].pc.Registering?
    ensures AccountInv(SetPc(w, t, Done))
    ensures Sound(w, w.tasks[t].key) ==> forall j :: 0 <= j < |w.added| ==> w.added[j].task != t
  {
    var w' := SetPc(w, t, Done);
    forall k ensures TrackedInv(w', k) {
      assert TrackedInv(w, k) && EntryInv(w, k);
    }
    forall s | 0 <= s < |w'.tasks| ensures HeldInv(w', s) {
      assert HeldInv(w, s);
    }
    forall j | 0 <= j < |w'.added|
      ensures JobInv(w', j) && (Sound(w, w.tasks[t].key) ==> w.added[j].task != t)
    {
      assert JobInv(w, j);
    }
  }

  lemma SupersededKeepsAccount(w: World, t: nat, j: JobId)
    requires AccountInv(w) && t < |w.tasks| && w.tasks[t].pc == Registered(j)
    ensures AccountInv(SetPc(w, t, Discarding(j)))
  {
    var w' := SetPc(w, t, Discarding(j));
    assert HeldInv(w, t);
    forall k ensures TrackedInv(w', k) {
      assert TrackedInv(w, k);
    }
    forall s | 0 <= s < |w'.tasks| ensures HeldInv(w', s) {
      assert HeldInv(w, s);
    }
    forall i | 0 <= i < |w'.added| ensures JobInv(w', i) {
      assert JobInv(w, i);
    }
  }

  /** The committing registration is the last one of the current epoch. */
  lemma CommitterIsNotOver(w: World, t: nat)
    requires VersionInv(w) && t < |w.tasks| && GuardOf(w, t) && IsLatest(w, t)
    ensures !IsOver(w, t)
  {
    assert EntryInv(w, w.tasks[t].key);
  }

  /** Before the commit no job of the key is at home in the registry. */
  lemma NothingTrackedYet(w: World, t: nat, j: JobId)
    requires VersionInv(w) && AccountInv(w) && t < |w.tasks| && w.tasks[t].pc == Registered(j)
    requires GuardOf(w, t) && IsLatest(w, t) && Sound(w, w.tasks[t].key)
    ensures w.jobs[w.tasks[t].key].jobId.None?
    ensures JobOfKey(w, j, w.tasks[t].key) && w.added[j].home == WithTask(t) && w.added[j].task == t
    ensures !w.added[j].status.Removed? && !(w.tasks[t].kind.OneShot? && w.added[j].status.Finished?)
  {
    CommitterIsNotOver(w, t);
    assert TrackedInv(w, w.tasks[t].key) && HeldInv(w, t) && JobInv(w, j);
  }

  lemma CommitKeepsJob(w: World, t: nat, j: JobId, i: JobId)
    requires VersionInv(w) && AccountInv(w) && t < |w.tasks| && w.tasks[t].pc == Registered(j)
    requires GuardOf(w, t) && i < |w.added|
    ensures JobInv(DoCommit(w, t, j), i)
  {
    assert HeldInv(w, t) && JobInv(w, i) && JobInv(w, j);
    if IsLatest(w, t) && Sound(w, w.tasks[t].key) {
      NothingTrackedYet(w, t, j);
    }
  }

  lemma CommitKeepsAccount(w: World, t: nat, j: JobId)
    requires VersionInv(w) && AccountInv(w) && t < |w.tasks| && w.tasks[t].pc == Registered(j)
    ensures AccountInv(DoCommit(w, t, j))
  {
    var w' := DoCommit(w, t, j);
    if GuardOf(w, t) {
      assert HeldInv(w, t);
      forall k ensures TrackedInv(w', k) {
        assert TrackedInv(w, k) && EntryInv(w, k);
      }
      forall s | 0 <= s < |w'.tasks| ensures HeldInv(w', s) {
        assert HeldInv(w, s);
      }
      forall i: JobId | i < |w'.added| ensures JobInv(w', i) {
        CommitKeepsJob(w, t, j, i);
      }
    } else {
      SupersededKeepsAccount(w, t, j);
    }
  }

  /** Accounting does not look at what was dispatched or stopped. */
  lemma SameAccount(w: World, w': World)
    requires AccountInv(w) && w' == w.(dispatched := w'.dispatched, stopped := w'.stopped)
    ensures AccountInv(w')
  {
    forall k ensures TrackedInv(w', k) {
      assert TrackedInv(w, k);
    }
    forall s | 0 <= s < |w'.tasks| ensures HeldInv(w', s) {
      assert HeldInv(w, s);
    }
    forall i | 0 <= i < |w'.added| ensures JobInv(w', i) {
      assert JobInv(w, i);
    }
  }

  lemma FireKeepsJob(w: World, j: JobId, i: JobId)
    requires AccountInv(w) && j < |w.added| && w.added[j].task < |w.tasks| && w.added[j].status.Live?
    requires i < |w.added| && !w.tasks[w.added[j].task].kind.Repeating?
    ensures JobInv(DoFire(w, j), i)
  {
    assert JobInv(w, i);
  }

  lemma FireKeepsAccount(w: World, j: JobId)
    requires AccountInv(w) && j < |w.added| && w.added[j].task < |w.tasks| && w.added[j].status.Live?
    ensures AccountInv(DoFire(w, j))
  {
    var w' := DoFire(w, j);
    if w.tasks[w.added[j].task].kind.Repeating? {
      SameAccount(w, w');
    } else {
      forall k ensures TrackedInv(w', k) {
        assert TrackedInv(w, k);
      }
      forall s | 0 <= s < |w'.tasks| ensures HeldInv(w', s) {
        assert HeldInv(w, s);
      }
      forall i: JobId | i < |w'.added| ensures JobInv(w', i) {
        FireKeepsJob(w, j, i);
      }
    }
  }

  /** A fired random job, or a one-shot whose registration is over, has finished. */
  lemma FinishKeepsAccount(w: World, j: JobId)
    requires AccountInv(w) && j < |w.added| && w.added[j].task < |w.tasks|
    requires w.added[j].status.Fired? && !w.tasks[w.added[j].task].kind.Repeating?
    requires w.tasks[w.added[j].task].kind.OneShot? ==> IsOver(w, w.added[j].task)
    ensures AccountInv(w.(added := w.added[j := w.added[j].(status := Finished)]))
  {
    var w' := w.(added := w.added[j := w.added[j].(status := Finished)]);
    forall k ensures TrackedInv(w', k) {
      assert TrackedInv(w, k);
    }
    forall s | 0 <= s < |w'.tasks| ensures HeldInv(w', s) {
      assert HeldInv(w, s);
    }
    forall i | 0 <= i < |w'.added| ensures JobInv(w', i) {
      assert JobInv(w, i);
    }
  }

  lemma ReAddKeepsAccount(w: World, t: nat)
    requires AccountInv(w) && t < |w.tasks| && w.tasks[t].kind.Random?
    requires Sound(w, w.tasks[t].key) ==> !w.tasks[t].pc.RemovingOld? && !w.tasks[t].pc.Registering?
    ensures AccountInv(w.(added := w.added + [Job(t, Live, Released)]))
  {
    var w' := w.(added := w.added + [Job(t, Live, Released)]);
    forall k ensures TrackedInv(w', k) {
      assert TrackedInv(w, k);
    }
    forall s | 0 <= s < |w'.tasks| ensures HeldInv(w', s) {
      assert HeldInv(w, s);
    }
    forall i | 0 <= i < |w'.added| ensures JobInv(w', i) {
      assert i < |w.added| ==> JobInv(w, i);
    }
  }

  lemma AdvanceKeepsAccount(w: World, t: nat, succeeds: bool)
    requires VersionInv(w) && AccountInv(w) && t < |w.tasks|
    ensures AccountInv(DoAdvance(w, t, succeeds))
  {
    match w.tasks[t].pc
    case RemovingOld(j) => RemoveKeepsAccount(w, t, j, succeeds, Registering);
    case Registering =>
      if succeeds {
        RegisterKeepsAccount(w, t);
      } else {
        FailedRegistrationKeepsAccount(w, t);
        FailedRegistrationKeepsVersions(w, t);
        RollbackKeepsAccount(SetPc(w, t, Done), t);
      }
    case Registered(j) => CommitKeepsAccount(w, t, j);
    case Discarding(j) => RemoveKeepsAccount(w, t, j, succeeds, Done);
    case Done =>
  }

  lemma RollbackEndsRegistration(w: World, t: nat)
    requires VersionInv(w) && t < |w.tasks|
    ensures IsOver(DoRollback(w, t), t)
  {
    assert TaskInv(w, t) && EntryInv(w, w.tasks[t].key);
  }

  lemma OneShotCompletes(w: World, j: JobId, succeeds: bool)
    requires VersionInv(w) && AccountInv(w) && j < |w.added| && w.added[j].task < |w.tasks|
    requires w.added[j].status.Fired? && w.tasks[w.added[j].task].kind.OneShot?
    ensures AccountInv(DoComplete(w, j, succeeds))
  {
    var t := w.added[j].task;
    var w1 := DoRollback(w, t);
    if Sound(w, w.tasks[t].key) {
      forall i | 0 <= i < |w.added| && w.added[i].task == t && w.added[i].home.InRegistry? ensures IsGone(w, i) {
        assert JobInv(w, i) && JobInv(w, j);
      }
    }
    RollbackEndsRegistration(w, t);
    RollbackKeepsAccount(w, t);
    FinishKeepsAccount(w1, j);
    assert DoComplete(w, j, succeeds).added == w1.added[j := w1.added[j].(status := Finished)];
  }

  lemma CompleteKeepsAccount(w: World, j: JobId, succeeds: bool)
    requires j < |w.added| && w.added[j].task < |w.tasks| && !w.tasks[w.added[j].task].kind.Repeating?
    requires VersionInv(w) && AccountInv(w) && w.added[j].status.Fired?
    ensures AccountInv(DoComplete(w, j, succeeds))
  {
    var t := w.added[j].task;
    assert JobInv(w, j);
    if w.tasks[t].kind.OneShot? {
      OneShotCompletes(w, j, succeeds);
    } else {
      var w1 := w.(added := w.added[j := w.added[j].(status := Finished)]);
      FinishKeepsAccount(w, j);
      SameAccount(w1, w1.(stopped := w.stopped + {t}));
      if GuardOf(w, t) && succeeds {
        ReAddKeepsAccount(w1, t);
      }
    }
  }

  lemma ShutdownKeepsAccount(w: World)
    requires AccountInv(w)
    ensures AccountInv(DoShutdown(w))
  {
    var w' := DoShutdown(w);
    forall t | 0 <= t < |w'.tasks| ensures HeldInv(w', t) {
      assert HeldInv(w, t);
    }
    forall j | 0 <= j < |w'.added| ensures JobInv(w', j) {
      assert JobInv(w, j);
    }
  }

  ghost predicate Inv(w: World) {
    VersionInv(w) && AccountInv(w)
  }

  lemma StepKeeps(w: World, step: Step)
    requires Inv(w) && Next(w, step).Some?
    ensures Inv(Next(w, step).value)
  {
    StepKeepsVersions(w, step);
    match step
    case BeginTask(key, kind) => BeginKeepsAccount(w, key, kind);
    case Advance(t, succeeds) => AdvanceKeepsAccount(w, t, succeeds);
    case Fire(j) => FireKeepsAccount(w, j);
    case Complete(j, succeeds) => CompleteKeepsAccount(w, j, succeeds);
    case Shutdown => ShutdownKeepsAccount(w);
  }

  lemma ReachableInv(steps: seq<Step>, w: World)
    requires Reaches(Next, INIT, steps, w)
    ensures Inv(w)
  {
    forall v, s | Inv(v) && Next(v, s).Some? ensures Inv(Next(v, s).value) {
      StepKeeps(v, s);
    }
    Preserved(Next, v => Inv(v), INIT, steps, w);
  }
}
