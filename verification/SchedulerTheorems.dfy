/** Which registration counts, what superseded ones can still do, and where every scheduler
    job is, over all interleavings. */
module SchedulerTheorems {
  import opened Basics
  import opened ScheduleRegistry
  import opened Runs
  import opened Scheduler

  /** A guard holds exactly when its registration's place in its own epoch is the number of
      registrations begun in the key's current epoch, both saturated. */
  lemma GuardExactly(steps: seq<Step>, w: World, t: nat)
    requires Reaches(Next, INIT, steps, w) && t < |w.tasks|
    ensures var task := w.tasks[t];
            GuardOf(w, t) <==>
              task.key in w.jobs && task.key in w.counts && Saturate(task.index) == Saturate(w.counts[task.key])
  {
    ReachableInv(steps, w);
    assert TaskInv(w, t) && EntryInv(w, w.tasks[t].key);
  }

  /** The registration belongs to its key's current epoch, and versions have not saturated. */
  predicate InEpoch(w: World, t: nat)
    requires t < |w.tasks|
  {
    var task := w.tasks[t];
    task.epoch == EpochOf(w, task.key) && task.key in w.counts && w.counts[task.key] <= VERSION_MAX
  }

  /** A registration for the same key began later. */
  ghost predicate IsSuperseded(w: World, t: nat)
    requires t < |w.tasks|
  {
    exists s :: t < s < |w.tasks| && w.tasks[s].key == w.tasks[t].key
  }

  /** Latest wins: within an epoch the guard of exactly the last begun registration holds. */
  lemma LatestWins(steps: seq<Step>, w: World, t: nat)
    requires Reaches(Next, INIT, steps, w) && t < |w.tasks| && InEpoch(w, t)
    ensures GuardOf(w, t) <==> !IsSuperseded(w, t)
  {
    ReachableInv(steps, w);
    var key := w.tasks[t].key;
    assert TaskInv(w, t) && EntryInv(w, key);
    if w.latest[key] != t {
      assert t < w.latest[key] && w.tasks[w.latest[key]].key == key;
    } else {
      forall s | t < s < |w.tasks| ensures w.tasks[s].key != key {
        assert TaskInv(w, s);
      }
    }
  }

  /** So a superseded registration changes nothing any more: its commit is refused, its
      rollback and its one-shot completion keep the entry, and its random job ends. */
  lemma SupersededChangesNothing(steps: seq<Step>, w: World, t: nat, j: JobId, succeeds: bool)
    requires Reaches(Next, INIT, steps, w) && t < |w.tasks| && InEpoch(w, t) && IsSuperseded(w, t)
    ensures DoCommit(w, t, j).jobs == w.jobs && DoRollback(w, t) == w
    ensures j < |w.added| && w.added[j].task == t ==>
              var w' := DoComplete(w, j, succeeds);
              w'.jobs == w.jobs && |w'.added| == |w.added|
  {
    LatestWins(steps, w, t);
  }

  /** Later worlds extend the list of registrations, and only their progress changes. */
  ghost predicate Extends(w: World, w': World) {
    && |w.tasks| <= |w'.tasks|
    && forall t :: 0 <= t < |w.tasks| ==> SameRegistration(w.tasks[t], w'.tasks[t])
  }

  predicate SameRegistration(a: Task, b: Task) {
    b == a.(pc := b.pc, job := b.job)
  }

  lemma PcChangeExtends(w: World, t: nat, pc: Pc, job: Option<JobId>, w': World)
    requires t < |w.tasks| && w'.tasks == w.tasks[t := w.tasks[t].(pc := pc, job := job)]
    ensures Extends(w, w')
  {
  }

  lemma RegisteringExtends(w: World, t: nat)
    requires t < |w.tasks|
    ensures Extends(w, DoRegister(w, t)) && Extends(w, DoRollback(SetPc(w, t, Done), t))
  {
    PcChangeExtends(w, t, Registered(|w.added|), Some(|w.added|), DoRegister(w, t));
    PcChangeExtends(w, t, Done, w.tasks[t].job, SetPc(w, t, Done));
    assert DoRollback(SetPc(w, t, Done), t).tasks == SetPc(w, t, Done).tasks;
  }

  lemma CommitExtends(w: World, t: nat, j: JobId)
    requires t < |w.tasks|
    ensures Extends(w, DoCommit(w, t, j))
  {
    PcChangeExtends(w, t, if GuardOf(w, t) then Done else Discarding(j), w.tasks[t].job, DoCommit(w, t, j));
  }

  lemma RemoveExtends(w: World, t: nat, j: JobId, succeeds: bool, pc: Pc)
    requires t < |w.tasks|
    ensures Extends(w, SetPc(DoRemove(w, j, succeeds), t, pc))
  {
    PcChangeExtends(w, t, pc, w.tasks[t].job, SetPc(DoRemove(w, j, succeeds), t, pc));
  }

  lemma AdvanceExtends(w: World, t: nat, succeeds: bool)
    requires t < |w.tasks|
    ensures Extends(w, DoAdvance(w, t, succeeds))
  {
    match w.tasks[t].pc
    case RemovingOld(j) => RemoveExtends(w, t, j, succeeds, Registering);
    case Registering => RegisteringExtends(w, t);
    case Registered(j) => CommitExtends(w, t, j);
    case Discarding(j) => RemoveExtends(w, t, j, succeeds, Done);
    case Done =>
  }

  lemma StepExtends(w: World, step: Step)
    requires Next(w, step).Some?
    ensures Extends(w, Next(w, step).value)
  {
    match step
    case Advance(t, succeeds) => AdvanceExtends(w, t, succeeds);
    case _ =>
  }

  lemma {:induction false} RunExtends(w: World, steps: seq<Step>, w': World)
    requires Reaches(Next, w, steps, w')
    ensures Extends(w, w')
    decreases |steps|
  {
    if steps != [] {
      StepExtends(w, steps[0]);
      RunExtends(Next(w, steps[0]).value, steps[1..], w');
    }
  }

  /** Once superseded, a registration's guard never holds again in its epoch, whatever
      happens in between: no later check lets it dispatch or re-add itself. */
  lemma SupersededStaysSilent(before: seq<Step>, w: World, after: seq<Step>, w': World, t: nat)
    requires Reaches(Next, INIT, before, w) && Reaches(Next, w, after, w')
    requires t < |w.tasks| && IsSuperseded(w, t)
    ensures t < |w'.tasks| && (InEpoch(w', t) ==> !GuardOf(w', t))
  {
    RunExtends(w, after, w');
    Chain(Next, INIT, before, w, after, w');
    var s :| t < s < |w.tasks| && w.tasks[s].key == w.tasks[t].key;
    assert SameRegistration(w.tasks[s], w'.tasks[s]) && SameRegistration(w.tasks[t], w'.tasks[t]);
    assert IsSuperseded(w', t);
    if InEpoch(w', t) {
      LatestWins(before + after, w', t);
    }
  }

  /** A registration can act on the entry of another one exactly when the key was removed
      since it began and as many registrations have begun again as in its own epoch. */
  lemma MistakesAreReusedVersions(steps: seq<Step>, w: World, t: nat)
    requires Reaches(Next, INIT, steps, w) && t < |w.tasks|
    requires w.tasks[t].key in w.counts && w.counts[w.tasks[t].key] <= VERSION_MAX && w.tasks[t].index <= VERSION_MAX
    ensures GuardOf(w, t) && !IsLatest(w, t) <==>
            w.tasks[t].key in w.jobs && w.tasks[t].epoch < EpochOf(w, w.tasks[t].key)
            && w.tasks[t].index == w.counts[w.tasks[t].key]
  {
    GuardExactly(steps, w, t);
    ReachableInv(steps, w);
    assert TaskInv(w, t) && EntryInv(w, w.tasks[t].key);
  }

  // ----- Where every job is

  ghost predicate IsHeld(w: World, j: JobId) {
    exists t :: 0 <= t < |w.tasks| && Holds(w.tasks[t], j)
  }

  ghost predicate IsTracked(w: World, j: JobId) {
    exists key :: Tracks(w, key, j)
  }

  /** Job accounting: as long as, for its key, nothing acted on another registration's entry, no
      removal failed and no shutdown forgot a tracked job, a job is tracked by the entry of its
      key, or held by exactly one task, or neither, and never two of these. A removed job is
      neither. A job that is neither was removed, or is a one-shot that has fired; only jobs
      that re-add themselves may be neither and live. A repeating job ends by removal alone,
      and a finished one-shot is not tracked. */
  lemma EveryJobIsAccountedFor(steps: seq<Step>, w: World, j: JobId)
    requires Reaches(Next, INIT, steps, w) && j < |w.added|
    ensures w.added[j].task < |w.tasks|
    ensures var task := w.tasks[w.added[j].task];
            Sound(w, task.key) ==>
              && !(IsTracked(w, j) && IsHeld(w, j))
              && (IsTracked(w, j) <==> Tracks(w, task.key, j))
              && (forall s, t :: 0 <= s < t < |w.tasks| ==> !(Holds(w.tasks[s], j) && Holds(w.tasks[t], j)))
              && (w.added[j].status.Removed? ==> !IsTracked(w, j) && !IsHeld(w, j))
              && (!IsTracked(w, j) && !IsHeld(w, j) ==> task.kind.Random? || IsGone(w, j))
              && (task.kind.Repeating? ==> w.added[j].status.Live? || w.added[j].status.Removed?)
              && (task.kind.OneShot? && w.added[j].status.Finished? ==> !IsTracked(w, j))
  {
    ReachableInv(steps, w);
    assert JobInv(w, j);
    var key := w.tasks[w.added[j].task].key;
    if Sound(w, key) {
      forall s | 0 <= s < |w.tasks| && Holds(w.tasks[s], j) ensures w.added[j].home == WithTask(s) {
        assert HeldInv(w, s);
      }
      forall k | Tracks(w, k, j) ensures k == key && w.added[j].home == InRegistry && !IsOver(w, w.added[j].task) {
        assert TrackedInv(w, k) && EntryInv(w, k);
      }
    }
  }

  /** At rest of a key no two live jobs of it are left, unless their kind re-adds itself. */
  lemma OneLiveJobPerKey(steps: seq<Step>, w: World, i: JobId, j: JobId, key: Key)
    requires Reaches(Next, INIT, steps, w) && Sound(w, key) && JobOfKey(w, i, key) && JobOfKey(w, j, key)
    requires forall t :: 0 <= t < |w.tasks| && w.tasks[t].key == key ==> w.tasks[t].pc.Done?
    requires w.added[i].status.Live? && w.added[j].status.Live?
    requires !w.tasks[w.added[i].task].kind.Random? && !w.tasks[w.added[j].task].kind.Random?
    ensures i == j
  {
    EveryJobIsAccountedFor(steps, w, i);
    EveryJobIsAccountedFor(steps, w, j);
    ReachableInv(steps, w);
    forall t | 0 <= t < |w.tasks| ensures !Holds(w.tasks[t], i) && !Holds(w.tasks[t], j) {
      assert HeldInv(w, t);
    }
  }

  // ----- Why epochs matter

  lemma Then(steps: seq<Step>, w: World, step: Step) returns (steps': seq<Step>, w': World)
    requires Reaches(Next, INIT, steps, w) && Next(w, step).Some?
    ensures w' == Next(w, step).value && Reaches(Next, INIT, steps', w')
  {
    w' := Next(w, step).value;
    Extend(Next, INIT, steps, w, step, w');
    steps' := steps + [step];
  }

  const KEY: Key := "k"

  /** Two registrations begin; the second one fails and removes the entry. */
  lemma SecondFails() returns (s: seq<Step>, w: World)
    ensures Reaches(Next, INIT, s, w)
    ensures |w.tasks| == 2 && w.tasks[0].key == KEY && w.tasks[0].pc == Registering && w.tasks[0].version == 1
    ensures KEY !in w.jobs && w.added == [] && w.leaked == {} && w.shutDown == {}
  {
    s, w := Then([], INIT, BeginTask(KEY, Repeating));
    s, w := Then(s, w, BeginTask(KEY, Repeating));
    assert |w.tasks| == 2 && w.tasks[1].version == 2 && w.tasks[1].pc == Registering;
    s, w := Then(s, w, Advance(1, false));
  }

  /** A third registration begins with the first one's version, and both add their jobs. */
  lemma FirstAndThirdRegister(s0: seq<Step>, w0: World) returns (s: seq<Step>, w: World)
    requires Reaches(Next, INIT, s0, w0)
    requires |w0.tasks| == 2 && w0.tasks[0].key == KEY && w0.tasks[0].pc == Registering && w0.tasks[0].version == 1
    requires KEY !in w0.jobs && w0.added == [] && w0.leaked == {} && w0.shutDown == {}
    ensures Reaches(Next, INIT, s, w)
    ensures |w.tasks| == 3 && w.tasks[0].key == w.tasks[2].key == KEY && w.tasks[0].version == w.tasks[2].version == 1
    ensures w.tasks[0].pc == Registered(0) && w.tasks[2].pc == Registered(1)
    ensures w.added == [Job(0, Live, WithTask(0)), Job(2, Live, WithTask(2))]
    ensures Guard(w.jobs, KEY, 1) && w.leaked == {} && w.shutDown == {}
  {
    s, w := Then(s0, w0, BeginTask(KEY, Repeating));
    assert |w.tasks| == 3 && w.tasks[2].version == 1 && w.tasks[2].pc == Registering && w.added == [];
    s, w := Then(s, w, Advance(0, true));
    s, w := Then(s, w, Advance(2, true));
  }

  lemma BothCommit(s0: seq<Step>, w0: World) returns (s: seq<Step>, w: World)
    requires Reaches(Next, INIT, s0, w0)
    requires |w0.tasks| == 3 && w0.tasks[0].key == w0.tasks[2].key == KEY
    requires w0.tasks[0].version == w0.tasks[2].version == 1
    requires w0.tasks[0].pc == Registered(0) && w0.tasks[2].pc == Registered(1)
    requires w0.added == [Job(0, Live, WithTask(0)), Job(2, Live, WithTask(2))]
    requires Guard(w0.jobs, KEY, 1) && w0.leaked == {} && w0.shutDown == {}
    ensures Reaches(Next, INIT, s, w) && w.leaked == {} && w.shutDown == {}
    ensures w.added == [Job(0, Live, InRegistry), Job(2, Live, InRegistry)]
    ensures |w.tasks| == 3 && w.tasks[0].key == w.tasks[2].key && GuardOf(w, 0) && GuardOf(w, 2)
  {
    s, w := Then(s0, w0, Advance(0, true));
    assert w.added == [Job(0, Live, InRegistry), Job(2, Live, WithTask(2))] && w.tasks[2].pc == Registered(1);
    s, w := Then(s, w, Advance(2, true));
  }

  /** A first registration is slow; a second one fails and removes the entry; a third one
      gets the first one's version. Both then commit: two live jobs of one key, both with a
      guard that holds, and only the last one tracked. */
  lemma ReusedVersionDoublesTheJob()
    ensures exists steps, w, i: nat, j: nat ::
              && Reaches(Next, INIT, steps, w) && w.leaked == {} && w.shutDown == {}
              && i < |w.added| && j < |w.added| && i != j
              && w.added[i].status.Live? && w.added[j].status.Live?
              && w.added[i].task < |w.tasks| && w.added[j].task < |w.tasks|
              && w.tasks[w.added[i].task].key == w.tasks[w.added[j].task].key
              && GuardOf(w, w.added[i].task) && GuardOf(w, w.added[j].task)
  {
    var s, w := SecondFails();
    s, w := FirstAndThirdRegister(s, w);
    s, w := BothCommit(s, w);
    assert w.added[0].task == 0 && w.added[1].task == 2;
  }
}
