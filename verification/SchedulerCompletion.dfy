/** What registrations and jobs do get done: random schedules go on, registrations come to
    track a live job, and guarded jobs dispatch. */
module SchedulerCompletion {
  import opened Basics
  import opened ScheduleRegistry
  import opened Runs
  import opened Scheduler
  import opened SchedulerTheorems

  // ----- The chain of jobs of a random schedule

  /** Job `j` of registration `t` is waiting to fire, or has fired and is about to complete. */
  predicate IsActive(w: World, t: nat, j: JobId) {
    j < |w.added| && w.added[j].task == t && (w.added[j].status.Live? || w.added[j].status.Fired?)
  }

  /** A random registration has no job until it registers, at most one that is active then, and
      one as long as it is the last of its epoch and has not failed to add the next. */
  ghost predicate ChainInv(w: World, t: nat)
    requires t < |w.tasks|
  {
    var task := w.tasks[t];
    && (task.pc.RemovingOld? || task.pc.Registering? ==> task.job.None?)
    && (task.pc.Discarding? ==> IsOver(w, t))
    && (task.kind.Random? ==>
          && (task.job.None? ==> forall j :: 0 <= j < |w.added| ==> w.added[j].task != t)
          && (forall i, j :: IsActive(w, t, i) && IsActive(w, t, j) ==> i == j)
          && (task.job.Some? && !IsOver(w, t) && t !in w.stopped ==> exists j :: IsActive(w, t, j)))
  }

  ghost predicate ChainsInv(w: World) {
    forall t :: 0 <= t < |w.tasks| ==> ChainInv(w, t)
  }

  /** Once over, a registration stays over. */
  ghost predicate OverStays(w: World, w': World) {
    && |w.tasks| <= |w'.tasks|
    && (forall t: nat :: t < |w.tasks| ==>
          && w'.tasks[t].key == w.tasks[t].key && w'.tasks[t].kind == w.tasks[t].kind
          && (IsOver(w, t) ==> IsOver(w', t)))
  }

  /** Jobs keep what they are, as far as chains are concerned. */
  ghost predicate SameActivity(w: World, w': World) {
    && |w'.added| == |w.added|
    && forall j: nat :: j < |w.added| ==>
         w'.added[j].task == w.added[j].task && IsActive(w', w.added[j].task, j) == IsActive(w, w.added[j].task, j)
  }

  lemma SameActivityKeepsChain(w: World, w': World, t: nat)
    requires t < |w.tasks| && ChainInv(w, t) && OverStays(w, w') && SameActivity(w, w') && w.stopped <= w'.stopped
    requires w'.tasks[t].job == w.tasks[t].job
    requires w'.tasks[t].pc == w.tasks[t].pc || !(w'.tasks[t].pc.RemovingOld? || w'.tasks[t].pc.Registering?)
    requires w'.tasks[t].pc.Discarding? ==> IsOver(w', t)
    ensures ChainInv(w', t)
  {
    if w.tasks[t].kind.Random? && w.tasks[t].job.Some? && !IsOver(w', t) && t !in w'.stopped {
      var j :| IsActive(w, t, j);
      assert IsActive(w', t, j);
    }
    forall i, j | IsActive(w', t, i) && IsActive(w', t, j) && w.tasks[t].kind.Random? ensures i == j {
      assert IsActive(w, t, i) && IsActive(w, t, j);
    }
  }

  lemma BeginKeepsChains(w: World, key: Key, kind: Kind)
    requires Inv(w) && ChainsInv(w)
    ensures ChainsInv(DoBegin(w, key, kind))
  {
    var w' := DoBegin(w, key, kind);
    forall t: nat | t < |w.tasks| ensures IsOver(w, t) ==> IsOver(w', t) {
      assert EpochOf(w', w.tasks[t].key) == EpochOf(w, w.tasks[t].key);
    }
    forall t: nat | t < |w'.tasks| ensures ChainInv(w', t) {
      if t < |w.tasks| {
        SameActivityKeepsChain(w, w', t);
      } else {
        forall j | 0 <= j < |w'.added| ensures w'.added[j].task != t {
          assert JobInv(w, j);
        }
      }
    }
  }

  lemma RollbackKeepsChains(w: World, t: nat)
    requires ChainsInv(w) && t < |w.tasks|
    ensures ChainsInv(DoRollback(w, t))
  {
    var w' := DoRollback(w, t);
    forall s: nat | s < |w'.tasks| ensures ChainInv(w', s) {
      SameActivityKeepsChain(w, w', s);
    }
  }

  /** A later registration of the same key makes this one over. */
  lemma LaterIsOver(w: World, s: nat, t: nat)
    requires VersionInv(w) && s < t < |w.tasks| && w.tasks[s].key == w.tasks[t].key
    ensures IsOver(w, s)
  {
    assert TaskInv(w, s) && TaskInv(w, t);
  }

  /** A job that is removed belongs to a registration that is over. */
  lemma RemovedIsOver(w: World, t: nat, j: JobId, pc: Pc)
    requires Inv(w) && ChainsInv(w) && t < |w.tasks| && LetsGo(w, t, j, pc)
    ensures j < |w.added| && w.added[j].task < |w.tasks| && IsOver(w, w.added[j].task)
  {
    assert HeldInv(w, t) && ChainInv(w, t);
    if w.tasks[t].pc.RemovingOld? {
      LaterIsOver(w, w.added[j].task, t);
    }
  }

  lemma RemoveKeepsChains(w: World, t: nat, j: JobId, succeeds: bool, pc: Pc)
    requires Inv(w) && ChainsInv(w) && t < |w.tasks| && LetsGo(w, t, j, pc)
    ensures ChainsInv(SetPc(DoRemove(w, j, succeeds), t, pc))
  {
    var w' := SetPc(DoRemove(w, j, succeeds), t, pc);
    RemovedIsOver(w, t, j, pc);
    forall s: nat | s < |w'.tasks| ensures ChainInv(w', s) {
      assert ChainInv(w, s) && IsOver(w', s) == IsOver(w, s);
      if w.tasks[s].kind.Random? && w.tasks[s].job.Some? && !IsOver(w, s) && s !in w.stopped {
        var i :| IsActive(w, s, i);
        assert IsActive(w', s, i);
      }
      forall i, k | IsActive(w', s, i) && IsActive(w', s, k) && w.tasks[s].kind.Random? ensures i == k {
        assert IsActive(w, s, i) && IsActive(w, s, k);
      }
    }
  }

  lemma RegisterKeepsChains(w: World, t: nat)
    requires Inv(w) && ChainsInv(w) && t < |w.tasks| && w.tasks[t].pc.Registering?
    ensures ChainsInv(DoRegister(w, t))
  {
    var w' := DoRegister(w, t);
    assert ChainInv(w, t);
    forall s: nat | s < |w'.tasks| ensures ChainInv(w', s) {
      assert ChainInv(w, s) && IsOver(w', s) == IsOver(w, s);
      if s == t {
        assert IsActive(w', t, |w.added|);
      } else if w.tasks[s].kind.Random? && w.tasks[s].job.Some? && !IsOver(w, s) && s !in w.stopped {
        var i :| IsActive(w, s, i);
        assert IsActive(w', s, i);
      }
      forall i, k | IsActive(w', s, i) && IsActive(w', s, k) && w.tasks[s].kind.Random? ensures i == k {
        assert s != t ==> IsActive(w, s, i) && IsActive(w, s, k);
      }
    }
  }

  lemma CommitKeepsChains(w: World, t: nat, j: JobId)
    requires Inv(w) && ChainsInv(w) && t < |w.tasks| && w.tasks[t].pc == Registered(j)
    ensures ChainsInv(DoCommit(w, t, j))
  {
    var w' := DoCommit(w, t, j);
    if !GuardOf(w, t) {
      assert TaskInv(w, t) && EntryInv(w, w.tasks[t].key);
    }
    forall s: nat | s < |w'.tasks| ensures ChainInv(w', s) {
      assert IsOver(w', s) == IsOver(w, s);
      SameActivityKeepsChain(w, w', s);
    }
  }

  lemma AdvanceKeepsChains(w: World, t: nat, succeeds: bool)
    requires Inv(w) && ChainsInv(w) && t < |w.tasks|
    ensures ChainsInv(DoAdvance(w, t, succeeds))
  {
    match w.tasks[t].pc
    case RemovingOld(j) => RemoveKeepsChains(w, t, j, succeeds, Registering);
    case Registering =>
      if succeeds {
        RegisterKeepsChains(w, t);
      } else {
        var w1 := SetPc(w, t, Done);
        forall s: nat | s < |w1.tasks| ensures ChainInv(w1, s) {
          SameActivityKeepsChain(w, w1, s);
        }
        RollbackKeepsChains(w1, t);
      }
    case Registered(j) => CommitKeepsChains(w, t, j);
    case Discarding(j) => RemoveKeepsChains(w, t, j, succeeds, Done);
    case Done =>
  }

  lemma FireKeepsChains(w: World, j: JobId)
    requires ChainsInv(w) && j < |w.added| && w.added[j].task < |w.tasks| && w.added[j].status.Live?
    ensures ChainsInv(DoFire(w, j))
  {
    var w' := DoFire(w, j);
    forall s: nat | s < |w'.tasks| ensures ChainInv(w', s) {
      SameActivityKeepsChain(w, w', s);
    }
  }

  lemma OneShotKeepsChains(w: World, j: JobId, succeeds: bool)
    requires ChainsInv(w) && j < |w.added| && w.added[j].task < |w.tasks| && w.tasks[w.added[j].task].kind.OneShot?
    ensures ChainsInv(DoComplete(w, j, succeeds))
  {
    var w1 := w.(added := w.added[j := w.added[j].(status := Finished)]);
    forall s: nat | s < |w1.tasks| ensures ChainInv(w1, s) {
      assert ChainInv(w, s);
      forall i | w.tasks[s].kind.Random? ensures IsActive(w1, s, i) == IsActive(w, s, i) {
      }
    }
    RollbackKeepsChains(w1, w.added[j].task);
  }

  /** The job that completes was its registration's only one, and is replaced. */
  lemma RandomKeepsOwnChain(w: World, j: JobId, succeeds: bool)
    requires Inv(w) && ChainsInv(w) && j < |w.added| && w.added[j].task < |w.tasks|
    requires w.added[j].status.Fired? && w.tasks[w.added[j].task].kind.Random?
    ensures ChainInv(DoComplete(w, j, succeeds), w.added[j].task)
  {
    var t, w' := w.added[j].task, DoComplete(w, j, succeeds);
    assert ChainInv(w, t) && IsActive(w, t, j) && IsOver(w', t) == IsOver(w, t);
    if GuardOf(w, t) && succeeds {
      assert IsActive(w', t, |w.added|);
    }
    if !GuardOf(w, t) {
      assert TaskInv(w, t) && EntryInv(w, w.tasks[t].key);
    }
    forall i: JobId | IsActive(w', t, i) && GuardOf(w, t) && succeeds ensures i == |w.added| {
      assert i < |w.added| ==> IsActive(w, t, i);
    }
    forall i: JobId | IsActive(w', t, i) && !(GuardOf(w, t) && succeeds) ensures false {
      assert i < |w.added| ==> IsActive(w, t, i);
    }
  }

  lemma RandomKeepsOtherChain(w: World, j: JobId, succeeds: bool, s: nat)
    requires ChainsInv(w) && j < |w.added| && w.added[j].task < |w.tasks| && w.tasks[w.added[j].task].kind.Random?
    requires s < |w.tasks| && s != w.added[j].task
    ensures ChainInv(DoComplete(w, j, succeeds), s)
  {
    var w' := DoComplete(w, j, succeeds);
    assert ChainInv(w, s) && IsOver(w', s) == IsOver(w, s);
    forall i ensures IsActive(w', s, i) == IsActive(w, s, i) {
    }
  }

  lemma CompleteKeepsChains(w: World, j: JobId, succeeds: bool)
    requires Inv(w) && ChainsInv(w) && j < |w.added| && w.added[j].task < |w.tasks|
    requires w.added[j].status.Fired? && !w.tasks[w.added[j].task].kind.Repeating?
    ensures ChainsInv(DoComplete(w, j, succeeds))
  {
    if w.tasks[w.added[j].task].kind.OneShot? {
      OneShotKeepsChains(w, j, succeeds);
    } else {
      forall s: nat | s < |DoComplete(w, j, succeeds).tasks| ensures ChainInv(DoComplete(w, j, succeeds), s) {
        if s == w.added[j].task {
          RandomKeepsOwnChain(w, j, succeeds);
        } else {
          RandomKeepsOtherChain(w, j, succeeds, s);
        }
      }
    }
  }

  lemma ShutdownKeepsChains(w: World)
    requires ChainsInv(w)
    ensures ChainsInv(DoShutdown(w))
  {
    var w' := DoShutdown(w);
    forall s: nat | s < |w'.tasks| ensures ChainInv(w', s) {
      SameActivityKeepsChain(w, w', s);
    }
  }

  lemma StepKeepsChains(w: World, step: Step)
    requires Inv(w) && ChainsInv(w) && Next(w, step).Some?
    ensures ChainsInv(Next(w, step).value)
  {
    match step
    case BeginTask(key, kind) => BeginKeepsChains(w, key, kind);
    case Advance(t, succeeds) => AdvanceKeepsChains(w, t, succeeds);
    case Fire(j) => FireKeepsChains(w, j);
    case Complete(j, succeeds) => CompleteKeepsChains(w, j, succeeds);
    case Shutdown => ShutdownKeepsChains(w);
  }

  lemma ReachableChains(steps: seq<Step>, w: World)
    requires Reaches(Next, INIT, steps, w)
    ensures Inv(w) && ChainsInv(w)
  {
    forall v, s | Inv(v) && ChainsInv(v) && Next(v, s).Some?
      ensures Inv(Next(v, s).value) && ChainsInv(Next(v, s).value)
    {
      StepKeeps(v, s);
      StepKeepsChains(v, s);
    }
    Preserved(Next, (v: World) => Inv(v) && ChainsInv(v), INIT, steps, w);
  }

  /** A random schedule goes on: from the time its registration has added a job until a later
      one begins or the key's entry is removed, exactly one of its jobs is waiting to fire or
      has fired, provided the scheduler has taken each next one. It never has two, even later. */
  lemma RandomScheduleGoesOn(steps: seq<Step>, w: World, t: nat)
    requires Reaches(Next, INIT, steps, w) && t < |w.tasks| && w.tasks[t].kind.Random?
    ensures forall i, j :: IsActive(w, t, i) && IsActive(w, t, j) ==> i == j
    ensures w.tasks[t].job.Some? && InEpoch(w, t) && !IsSuperseded(w, t) && t !in w.stopped ==>
              exists j :: IsActive(w, t, j)
  {
    ReachableChains(steps, w);
    assert ChainInv(w, t);
    if InEpoch(w, t) && !IsSuperseded(w, t) {
      assert TaskInv(w, t) && EntryInv(w, w.tasks[t].key);
      assert w.latest[w.tasks[t].key] == t;
    }
  }

  // ----- Registrations

  /** The awaits of a registration that replaces job `previous`, if there is one. */
  function RegistrationSteps(t: nat, key: Key, kind: Kind, previous: Option<JobId>): seq<Step> {
    if previous.Some? then [BeginTask(key, kind), Advance(t, true), Advance(t, true), Advance(t, true)]
    else [BeginTask(key, kind), Advance(t, true), Advance(t, true)]
  }

  /** Job `j`, when it was live, has been removed; the others are as they were. */
  predicate OnlyRemoved(w: World, w': World, previous: Option<JobId>) {
    && |w'.added| >= |w.added|
    && (previous.Some? && previous.value < |w.added| ==> !w'.added[previous.value].status.Live?)
    && forall i: nat :: i < |w.added| && Some(i) != previous ==> w'.added[i] == w.added[i]
  }

  lemma ThenReach(w: World, steps: seq<Step>, w1: World, step: Step) returns (w2: World)
    requires Reaches(Next, w, steps, w1) && Next(w1, step).Some?
    ensures Reaches(Next, w, steps + [step], w2) && Next(w1, step) == Some(w2)
  {
    w2 := Next(w1, step).value;
    Extend(Next, w, steps, w1, step, w2);
  }

  /** Task `t` is about to register: the entry is its own, and holds no job. */
  ghost predicate AboutToRegister(w: World, t: nat) {
    && t < |w.tasks| && w.tasks[t].pc.Registering? && GuardOf(w, t) && IsLatest(w, t)
    && w.jobs[w.tasks[t].key] == TrackedJob(w.tasks[t].version, None)
  }

  lemma BeginRun(w: World, key: Key, kind: Kind) returns (steps: seq<Step>, w': World)
    requires Inv(w)
    ensures Reaches(Next, w, steps, w') && AboutToRegister(w', |w.tasks|) && |w'.tasks| == |w.tasks| + 1
    ensures steps + [Advance(|w.tasks|, true), Advance(|w.tasks|, true)] ==
            RegistrationSteps(|w.tasks|, key, kind, PreviousJob(w.jobs, key))
    ensures w'.tasks[|w.tasks|].key == key && w'.tasks[|w.tasks|].kind == kind
    ensures OnlyRemoved(w, w', PreviousJob(w.jobs, key)) && |w'.added| == |w.added|
    ensures forall k :: k != key ==> (k in w'.jobs <==> k in w.jobs) && (k in w.jobs ==> w'.jobs[k] == w.jobs[k])
  {
    var t := |w.tasks|;
    assert Reaches(Next, w, [], w);
    w' := ThenReach(w, [], w, BeginTask(key, kind));
    steps := [] + [BeginTask(key, kind)];
    if PreviousJob(w.jobs, key).Some? {
      assert TrackedInv(w, key);
      w' := ThenReach(w, steps, w', Advance(t, true));
      steps := steps + [Advance(t, true)];
    }
  }

  lemma RegisterRun(w: World, t: nat) returns (w': World)
    requires AboutToRegister(w, t)
    ensures Reaches(Next, w, [Advance(t, true), Advance(t, true)], w')
    ensures w'.jobs == w.jobs[w.tasks[t].key := TrackedJob(w.tasks[t].version, Some(|w.added|))]
    ensures w'.added == w.added + [Job(t, Live, InRegistry)]
    ensures w'.tasks == w.tasks[t := w.tasks[t].(pc := Done, job := Some(|w.added|))] && GuardOf(w', t)
  {
    assert Reaches(Next, w, [], w);
    var w1 := ThenReach(w, [], w, Advance(t, true));
    assert w1 == DoRegister(w, t);
    w' := ThenReach(w, [] + [Advance(t, true)], w1, Advance(t, true));
    assert w' == DoCommit(w1, t, |w.added|);
    assert [] + [Advance(t, true)] + [Advance(t, true)] == [Advance(t, true), Advance(t, true)];
    assert w'.added == w.added + [Job(t, Live, InRegistry)];
    assert w'.tasks == w.tasks[t := w.tasks[t].(pc := Done, job := Some(|w.added|))];
  }

  /** A registration that nothing interferes with removes the job it replaces, adds its own, and
      ends with the key's entry tracking that live job under a guard that holds. Other keys
      and jobs are untouched. */
  lemma RegistrationCompletes(w: World, key: Key, kind: Kind) returns (w': World)
    requires Inv(w)
    ensures var t, previous := |w.tasks|, PreviousJob(w.jobs, key);
            && Reaches(Next, w, RegistrationSteps(t, key, kind, previous), w')
            && |w'.tasks| == |w.tasks| + 1 && w'.tasks[t].key == key && w'.tasks[t].kind == kind
            && w'.tasks[t].pc.Done? && GuardOf(w', t)
            && OnlyRemoved(w, w', previous)
            && Tracks(w', key, |w.added|) && w'.added[|w.added|..] == [Job(t, Live, InRegistry)]
            && (forall k :: k != key ==> (k in w'.jobs <==> k in w.jobs) && (k in w.jobs ==> w'.jobs[k] == w.jobs[k]))
  {
    var t := |w.tasks|;
    var s1, w1 := BeginRun(w, key, kind);
    w' := RegisterRun(w1, t);
    Chain(Next, w, s1, w1, [Advance(t, true), Advance(t, true)], w');
  }

  /** A registration whose job the scheduler refuses leaves no entry behind: the job it was to
      replace is gone, and no guard of the key holds. */
  lemma FailedRegistrationLeavesNoEntry(w: World, key: Key, kind: Kind) returns (steps: seq<Step>, w': World)
    requires Inv(w)
    ensures Reaches(Next, w, steps + [Advance(|w.tasks|, false)], w')
    ensures steps + [Advance(|w.tasks|, true), Advance(|w.tasks|, true)] ==
            RegistrationSteps(|w.tasks|, key, kind, PreviousJob(w.jobs, key))
    ensures w'.jobs == w.jobs - {key} && OnlyRemoved(w, w', PreviousJob(w.jobs, key)) && |w'.added| == |w.added|
  {
    var t := |w.tasks|;
    var w1;
    steps, w1 := BeginRun(w, key, kind);
    w' := ThenReach(w, steps, w1, Advance(t, false));
    assert w' == DoRollback(SetPc(w1, t, Done), t);
    assert w1.jobs[key] == TrackedJob(w1.tasks[t].version, None);
    assert w'.jobs == w1.jobs - {key} == w.jobs - {key};
  }

  /** A registration that was superseded before its commit takes its own job away again and
      leaves the entry to the later one. */
  lemma SupersededIsDiscarded(w: World, t: nat, j: JobId) returns (w': World)
    requires t < |w.tasks| && w.tasks[t].pc == Registered(j) && !GuardOf(w, t)
    requires j < |w.added| && w.added[j].task < |w.tasks| && w.added[j].status.Live?
    ensures Reaches(Next, w, [Advance(t, true), Advance(t, true)], w')
    ensures w'.jobs == w.jobs && w'.tasks == w.tasks[t := w.tasks[t].(pc := Done)]
    ensures w'.added == w.added[j := w.added[j].(status := Removed, home := Released)]
  {
    assert Reaches(Next, w, [], w);
    var w1 := ThenReach(w, [], w, Advance(t, true));
    assert w1 == SetPc(w, t, Discarding(j));
    w' := ThenReach(w, [] + [Advance(t, true)], w1, Advance(t, true));
    assert [] + [Advance(t, true)] + [Advance(t, true)] == [Advance(t, true), Advance(t, true)];
  }

  // ----- Dispatching

  /** Within an epoch, a job that fires dispatches exactly when no later registration has begun;
      only repeating jobs can fire again. */
  lemma FiringDispatchesExactly(steps: seq<Step>, w: World, j: JobId)
    requires Reaches(Next, INIT, steps, w) && Next(w, Fire(j)).Some? && InEpoch(w, w.added[j].task)
    ensures var w' := Next(w, Fire(j)).value;
            && w'.dispatched == (if IsSuperseded(w, w.added[j].task) then w.dispatched else w.dispatched + [j])
            && (w'.added[j].status.Live? <==> w.tasks[w.added[j].task].kind.Repeating?)
  {
    LatestWins(steps, w, w.added[j].task);
  }

  /** Nothing else dispatches, and what was dispatched stays on record. */
  lemma OnlyFiringDispatches(w: World, step: Step)
    requires Next(w, step).Some? && !step.Fire?
    ensures Next(w, step).value.dispatched == w.dispatched
  {
    match step
    case Advance(t, succeeds) =>
      match w.tasks[t].pc {
        case Registered(j) => assert DoAdvance(w, t, succeeds) == DoCommit(w, t, j);
        case _ =>
      }
    case _ =>
  }

  /** A one-shot whose guard holds dispatches once and takes the key's entry with it. */
  lemma OneShotEndsItsEntry(w: World, j: JobId, succeeds: bool) returns (w': World)
    requires j < |w.added| && w.added[j].task < |w.tasks| && w.added[j].status.Live?
    requires w.tasks[w.added[j].task].kind.OneShot? && GuardOf(w, w.added[j].task)
    ensures Reaches(Next, w, [Fire(j), Complete(j, succeeds)], w')
    ensures w'.dispatched == w.dispatched + [j] && w'.jobs == w.jobs - {w.tasks[w.added[j].task].key}
    ensures Next(w', Fire(j)).None? && Next(w', Complete(j, succeeds)).None?
  {
    assert Reaches(Next, w, [], w);
    var w1 := ThenReach(w, [], w, Fire(j));
    assert w1 == DoFire(w, j);
    w' := ThenReach(w, [] + [Fire(j)], w1, Complete(j, succeeds));
    assert w' == DoComplete(w1, j, succeeds);
    assert [] + [Fire(j)] + [Complete(j, succeeds)] == [Fire(j), Complete(j, succeeds)];
  }

  /** A shutdown ends every registration: no job of it dispatches, and none re-adds itself. */
  lemma ShutdownEndsAll(w: World, t: nat)
    requires Inv(w) && t < |w.tasks|
    ensures !GuardOf(Next(w, Shutdown).value, t) && IsOver(Next(w, Shutdown).value, t)
  {
    assert TaskInv(w, t);
  }
}
