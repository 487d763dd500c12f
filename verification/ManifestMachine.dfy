/** Interleaved manifest writer calls (src/manifest.rs): tasks that wait for one mutex, hold
    it across their remote calls, may see any of these fail, and may be dropped at any await. */
module ManifestMachine {
  import opened Basics
  import opened Manifest
  import opened Runs

  /** Where a call stands; every constructor up to `Recording` is one of its awaits. */
  datatype Pc =
    | Queued
    | Fetching
    | Editing(base: RuntimeManifest)
    | LoadingNode(base: RuntimeManifest)
    | PuttingNode(base: RuntimeManifest, node: EntityNode)
    | Putting(updated: RuntimeManifest)
    | Pinning(updated: RuntimeManifest, newCid: Cid)
    | Recording(newCid: Cid)
    | Committed(newCid: Cid)
    | Unchanged(oldCid: Cid)
    | Failed
    | Dropped(committed: bool)

  /** Inside the critical section. */
  predicate InSection(pc: Pc) {
    pc.Fetching? || pc.Editing? || pc.LoadingNode? || pc.PuttingNode? || pc.Putting? || pc.Pinning? || pc.Recording?
  }

  /** The call has moved the root. */
  predicate HasCommitted(pc: Pc) {
    pc.Recording? || pc.Committed? || (pc.Dropped? && pc.committed)
  }

  datatype Task = Task(call: Call, pc: Pc)

  /** One published mutation, in the order the lock was held, and how it moved the root. */
  datatype Commit = Commit(task: nat, before: RuntimeManifest, after: RuntimeManifest, oldCid: Cid, newCid: Cid)

  /** The store, the mutex with the state under it, the tasks, and the runtime's stats; then
      history variables no step reads: the manifest at the start, the commits so far, and
      `lagging`: since the stats were written last, a task that had moved the root was dropped
      before it wrote them. */
  datatype World = World(
    store: Store,
    cid: Cid,
    manifest: Option<RuntimeManifest>,
    lock: Option<nat>,
    tasks: seq<Task>,
    rootCid: Option<Cid>,
    initial: RuntimeManifest,
    commits: seq<Commit>,
    lagging: bool)

  ghost predicate Init(w: World) {
    && ManifestAt(w.store, w.cid) == Some(w.initial) && w.manifest == None && w.lock == None
    && w.tasks == [] && w.rootCid == Some(w.cid) && w.commits == [] && !w.lagging
  }

  /** How an await comes back: with success, naming the id a put answers, or not; a put may
      fail after it has stored its block. */
  datatype Outcome = Ok(cid: Cid) | Fail | FailStored(cid: Cid)

  datatype Step =
    | Start(call: Call)
    | Acquire(task: nat)
    | Resume(task: nat, outcome: Outcome)
    | Drop(task: nat)
    | PutElsewhere(cid: Cid, block: Block)

  function SetPc(w: World, t: nat, pc: Pc): World
    requires t < |w.tasks|
  {
    w.(tasks := w.tasks[t := w.tasks[t].(pc := pc)])
  }

  /** The task returns, and its guard with it. */
  function Leave(w: World, t: nat, pc: Pc): World
    requires t < |w.tasks|
  {
    SetPc(w, t, pc).(lock := None)
  }

  /** From the manifest in hand to the next await; the cached copy is taken by now. */
  ghost function WithManifest(w: World, t: nat, m: RuntimeManifest): World
    requires t < |w.tasks|
  {
    match w.tasks[t].call
    case Mutate(edit, awaits) =>
      if awaits then SetPc(w, t, Editing(m))
      else if m in edit then SetPc(w, t, Putting(edit[m]))
      else Leave(w, t, Failed)
    case Update(fragment, _) =>
      if fragment in m.entities then SetPc(w, t, LoadingNode(m)) else Leave(w, t, Failed)
  }

  /** The lock is granted, and the cached manifest taken out or fetched. */
  ghost function DoAcquire(w: World, t: nat): World
    requires t < |w.tasks|
  {
    var w1 := w.(lock := Some(t));
    if w.manifest.Some? then WithManifest(w1.(manifest := None), t, w.manifest.value)
    else SetPc(w1, t, Fetching)
  }

  ghost function DoEdited(w: World, t: nat, m: RuntimeManifest, outcome: Outcome): World
    requires t < |w.tasks|
  {
    var call := w.tasks[t].call;
    if outcome.Ok? && call.Mutate? && m in call.edit then SetPc(w, t, Putting(call.edit[m]))
    else Leave(w, t, Failed)
  }

  ghost function DoNodeLoaded(w: World, t: nat, m: RuntimeManifest, outcome: Outcome): World
    requires t < |w.tasks|
  {
    var call := w.tasks[t].call;
    if !outcome.Ok? || !call.Update? || NodeAt(w.store, m, call.fragment).None? then Leave(w, t, Failed)
    else
      var updated := Set(NodeAt(w.store, m, call.fragment).value, call.setter);
      if updated.None? then Leave(w, t, Unchanged(w.cid)).(manifest := Some(m))
      else SetPc(w, t, PuttingNode(m, updated.value))
  }

  /** What a put leaves in the store. */
  function AfterPut(store: Store, outcome: Outcome, block: Block): Store {
    match outcome
    case Ok(c) => store[c := block]
    case FailStored(c) => store[c := block]
    case Fail => store
  }

  ghost function DoNodePut(w: World, t: nat, m: RuntimeManifest, node: EntityNode, outcome: Outcome): World
    requires t < |w.tasks|
  {
    var w1 := w.(store := AfterPut(w.store, outcome, EntityBlock(node)));
    var call := w.tasks[t].call;
    if outcome.Ok? && call.Update? then
      SetPc(w1, t, Putting(m.(entities := m.entities[call.fragment := outcome.cid])))
    else Leave(w1, t, Failed)
  }

  ghost function DoPut(w: World, t: nat, m: RuntimeManifest, outcome: Outcome): World
    requires t < |w.tasks|
  {
    var w1 := w.(store := AfterPut(w.store, outcome, ManifestBlock(m)));
    if outcome.Ok? then SetPc(w1, t, Pinning(m, outcome.cid)) else Leave(w1, t, Failed)
  }

  /** The pin call is back, whatever it answered: root and cached copy move together. */
  ghost function DoPinned(w: World, t: nat, m: RuntimeManifest, newCid: Cid): World
    requires t < |w.tasks|
  {
    SetPc(w, t, Recording(newCid)).(
      cid := newCid, manifest := Some(m),
      commits := w.commits + [Commit(t, CurrentManifest(w), m, w.cid, newCid)])
  }

  /** The manifest published at the writer's root. */
  ghost function CurrentManifest(w: World): RuntimeManifest {
    if ManifestAt(w.store, w.cid).Some? then ManifestAt(w.store, w.cid).value else w.initial
  }

  ghost function DoResume(w: World, t: nat, outcome: Outcome): World
    requires t < |w.tasks|
  {
    match w.tasks[t].pc
    case Fetching =>
      if outcome.Ok? && ManifestAt(w.store, w.cid).Some? then WithManifest(w, t, ManifestAt(w.store, w.cid).value)
      else Leave(w, t, Failed)
    case Editing(m) => DoEdited(w, t, m, outcome)
    case LoadingNode(m) => DoNodeLoaded(w, t, m, outcome)
    case PuttingNode(m, node) => DoNodePut(w, t, m, node, outcome)
    case Putting(m) => DoPut(w, t, m, outcome)
    case Pinning(m, newCid) => DoPinned(w, t, m, newCid)
    case Recording(newCid) => Leave(w, t, Committed(newCid)).(rootCid := Some(newCid), lagging := false)
    case _ => w
  }

  /** The last commit moved the root. */
  predicate RootMoved(w: World) {
    |w.commits| > 0 && w.commits[|w.commits| - 1].oldCid != w.commits[|w.commits| - 1].newCid
  }

  /** The task is dropped at an await: its guard is released and its locals are lost. */
  ghost function DoDrop(w: World, t: nat): World
    requires t < |w.tasks|
  {
    var pc := w.tasks[t].pc;
    if pc.Queued? then SetPc(w, t, Dropped(false))
    else if InSection(pc) then
      Leave(w, t, Dropped(pc.Recording?)).(lagging := w.lagging || (pc.Recording? && RootMoved(w)))
    else w
  }

  /** The block a resumed put writes, if the task is putting. */
  ghost function PutBlock(pc: Pc): Option<Block> {
    match pc
    case PuttingNode(_, node) => Some(EntityBlock(node))
    case Putting(m) => Some(ManifestBlock(m))
    case _ => None
  }

  ghost predicate CanResume(w: World, t: nat, outcome: Outcome) {
    && t < |w.tasks| && InSection(w.tasks[t].pc)
    && (PutBlock(w.tasks[t].pc).Some? && !outcome.Fail? ==>
          CanPut(w.store, outcome.cid, PutBlock(w.tasks[t].pc).value))
  }

  ghost function Next(w: World, step: Step): Option<World> {
    match step
    case Start(call) => Some(w.(tasks := w.tasks + [Task(call, Queued)]))
    case Acquire(t) =>
      if t < |w.tasks| && w.tasks[t].pc.Queued? && w.lock.None? then Some(DoAcquire(w, t)) else None
    case Resume(t, outcome) => if CanResume(w, t, outcome) then Some(DoResume(w, t, outcome)) else None
    case Drop(t) => if t < |w.tasks| then Some(DoDrop(w, t)) else None
    case PutElsewhere(c, block) => if CanPut(w.store, c, block) then Some(w.(store := w.store[c := block])) else None
  }

  // ----- Invariants

  /** A cached manifest is the one published under the writer's root. */
  ghost predicate Coherent(w: World) {
    && ManifestAt(w.store, w.cid).Some?
    && (w.manifest.Some? ==> w.manifest == ManifestAt(w.store, w.cid))
  }

  /** Whoever is in the critical section holds the lock. */
  ghost predicate LockInv(w: World) {
    && (w.lock.Some? ==> w.lock.value < |w.tasks|)
    && forall t :: 0 <= t < |w.tasks| ==> (InSection(w.tasks[t].pc) <==> w.lock == Some(t))
  }

  /** What a task carries was derived from the manifest now published. */
  ghost predicate CarriesInv(w: World, t: nat)
    requires t < |w.tasks|
  {
    var call := w.tasks[t].call;
    match w.tasks[t].pc
    case Editing(m) => ManifestAt(w.store, w.cid) == Some(m) && call.Mutate?
    case LoadingNode(m) => ManifestAt(w.store, w.cid) == Some(m) && call.Update?
    case PuttingNode(m, node) =>
      && ManifestAt(w.store, w.cid) == Some(m)
      && call.Update? && NodeAt(w.store, m, call.fragment).Some?
      && Set(NodeAt(w.store, m, call.fragment).value, call.setter) == Some(node)
    case Putting(m') => Effect(w.store, call, CurrentManifest(w), m')
    case Pinning(m', c) => Effect(w.store, call, CurrentManifest(w), m') && ManifestAt(w.store, c) == Some(m')
    case Recording(c) => c == w.cid
    case _ => true
  }

  /** The manifest before the `i`-th commit. */
  ghost function ManifestBefore(w: World, i: nat): RuntimeManifest
    requires i <= |w.commits|
  {
    if i == 0 then w.initial else w.commits[i - 1].after
  }

  ghost predicate CommitInv(w: World, i: nat)
    requires i < |w.commits|
  {
    var c := w.commits[i];
    && c.before == ManifestBefore(w, i)
    && c.task < |w.tasks| && HasCommitted(w.tasks[c.task].pc)
    && Effect(w.store, w.tasks[c.task].call, c.before, c.after)
  }

  ghost predicate CommitsOf(w: World, t: nat) {
    exists i :: 0 <= i < |w.commits| && w.commits[i].task == t
  }

  /** The commits form a chain from the first manifest to the published one, each of them
      the effect of a call; and every call that moved the root appears exactly once. */
  ghost predicate HistoryInv(w: World) {
    && (forall i :: 0 <= i < |w.commits| ==> CommitInv(w, i))
    && ManifestAt(w.store, w.cid) == Some(ManifestBefore(w, |w.commits|))
    && (forall i, j :: 0 <= i < j < |w.commits| ==> w.commits[i].task != w.commits[j].task)
    && (forall t :: 0 <= t < |w.tasks| && HasCommitted(w.tasks[t].pc) ==> CommitsOf(w, t))
  }

  /** The lock holder has moved the root and not yet written the stats. */
  predicate IsRecording(w: World) {
    w.lock.Some? && w.lock.value < |w.tasks| && w.tasks[w.lock.value].pc.Recording?
  }

  /** The root is where the last commit moved it; the stats name it, or, while they are about
      to be written, the one before. */
  ghost predicate StatsInv(w: World) {
    && (|w.commits| > 0 ==> w.commits[|w.commits| - 1].newCid == w.cid)
    && (IsRecording(w) ==> |w.commits| > 0)
    && (!w.lagging ==>
          w.rootCid == Some(if IsRecording(w) && |w.commits| > 0 then w.commits[|w.commits| - 1].oldCid else w.cid))
  }

  ghost predicate Inv(w: World) {
    && Coherent(w) && LockInv(w) && HistoryInv(w) && StatsInv(w)
    && forall t :: 0 <= t < |w.tasks| ==> CarriesInv(w, t)
  }

  // ----- Every step keeps the invariant

  /** The tasks of `w` are still there, each with its call and on its side of the commit. */
  ghost predicate SameCommitters(w: World, w': World) {
    && |w.tasks| <= |w'.tasks|
    && (forall t :: 0 <= t < |w.tasks| ==>
          w'.tasks[t].call == w.tasks[t].call && HasCommitted(w'.tasks[t].pc) == HasCommitted(w.tasks[t].pc))
    && (forall t :: |w.tasks| <= t < |w'.tasks| ==> !HasCommitted(w'.tasks[t].pc))
  }

  lemma HistoryKept(w: World, w': World)
    requires HistoryInv(w) && SameCommitters(w, w') && Grows(w.store, w'.store)
    requires w'.commits == w.commits && w'.cid == w.cid && w'.initial == w.initial
    ensures HistoryInv(w')
  {
    forall i: nat | i < |w'.commits| ensures CommitInv(w', i) {
      var c := w.commits[i];
      assert CommitInv(w, i);
      EffectLasts(w.store, w'.store, w.tasks[c.task].call, c.before, c.after);
    }
    forall t: nat | t < |w'.tasks| && HasCommitted(w'.tasks[t].pc) ensures CommitsOf(w', t) {
      assert CommitsOf(w, t);
    }
  }

  /** Only task `t` moves, and it keeps its call; the store only grows. */
  ghost predicate Moved(w: World, w': World, t: nat)
    requires t < |w.tasks|
  {
    && |w'.tasks| == |w.tasks| && w'.tasks[t].call == w.tasks[t].call
    && (forall u :: 0 <= u < |w.tasks| && u != t ==> w'.tasks[u] == w.tasks[u])
    && Grows(w.store, w'.store) && w'.initial == w.initial
  }

  /** The lock follows the one task that moves. */
  ghost predicate LockFollows(w: World, w': World, t: nat)
    requires t < |w.tasks| && |w'.tasks| == |w.tasks|
  {
    && (InSection(w'.tasks[t].pc) ==> w'.lock == Some(t) && (w.lock == Some(t) || w.lock.None?))
    && (!InSection(w'.tasks[t].pc) ==> w'.lock == if InSection(w.tasks[t].pc) then None else w.lock)
  }

  lemma LockKept(w: World, w': World, t: nat)
    requires t < |w.tasks| && LockInv(w) && Moved(w, w', t) && LockFollows(w, w', t)
    ensures LockInv(w')
  {
    assert InSection(w.tasks[t].pc) <==> w.lock == Some(t);
  }

  /** A task outside the critical section carries nothing. */
  lemma OutsideCarriesNothing(w: World, t: nat)
    requires t < |w.tasks| && !InSection(w.tasks[t].pc)
    ensures CarriesInv(w, t)
  {
  }

  /** What a task carries outlives the growth of the store. */
  lemma CarriesLasts(w: World, w': World, t: nat)
    requires t < |w.tasks| && t < |w'.tasks| && w'.tasks[t] == w.tasks[t]
    requires Coherent(w) && CarriesInv(w, t) && Grows(w.store, w'.store) && w'.cid == w.cid
    ensures CarriesInv(w', t)
  {
    var call := w.tasks[t].call;
    assert CurrentManifest(w') == CurrentManifest(w);
    match w.tasks[t].pc
    case Putting(m) => EffectLasts(w.store, w'.store, call, CurrentManifest(w), m);
    case Pinning(m, c) => EffectLasts(w.store, w'.store, call, CurrentManifest(w), m);
    case PuttingNode(m, node) => assert NodeAt(w'.store, m, call.fragment) == NodeAt(w.store, m, call.fragment);
    case _ =>
  }

  lemma OthersCarry(w: World, w': World, t: nat)
    requires t < |w.tasks| && Inv(w) && Moved(w, w', t) && w'.cid == w.cid
    ensures forall u :: 0 <= u < |w.tasks| && u != t ==> CarriesInv(w', u)
  {
    forall u: nat | u < |w.tasks| && u != t ensures CarriesInv(w', u) {
      CarriesLasts(w, w', u);
    }
  }

  /** A move that neither publishes nor records: the root and the stats stay. */
  ghost predicate Quiet(w: World, w': World, t: nat)
    requires t < |w.tasks|
  {
    && Moved(w, w', t) && LockFollows(w, w', t)
    && w'.cid == w.cid && w'.commits == w.commits && w'.rootCid == w.rootCid && w'.lagging == w.lagging
    && !HasCommitted(w.tasks[t].pc) && !HasCommitted(w'.tasks[t].pc)
    && (w'.manifest.Some? ==> w'.manifest == w.manifest || w'.manifest == ManifestAt(w.store, w.cid))
  }

  lemma QuietKeeps(w: World, w': World, t: nat)
    requires t < |w.tasks| && Inv(w) && Quiet(w, w', t) && CarriesInv(w', t)
    ensures Inv(w')
  {
    LockKept(w, w', t);
    OthersCarry(w, w', t);
    HistoryKept(w, w');
    assert IsRecording(w') == IsRecording(w);
  }

  /** Inside the critical section, with the cached copy still there or taken. */
  ghost predicate Entered(w: World, w0: World, t: nat)
    requires t < |w.tasks|
  {
    && ((w.tasks[t].pc.Queued? && w.lock.None?) || (InSection(w.tasks[t].pc) && !w.tasks[t].pc.Recording?))
    && w0 == w.(lock := Some(t), manifest := w0.manifest)
    && (w0.manifest == None || w0.manifest == w.manifest)
  }

  lemma MovesOn(w: World, w0: World, t: nat, pc: Pc)
    requires t < |w.tasks| && Inv(w) && Entered(w, w0, t)
    requires InSection(pc) && !pc.Recording? && CarriesInv(SetPc(w0, t, pc), t)
    ensures Inv(SetPc(w0, t, pc))
  {
    assert InSection(w.tasks[t].pc) <==> w.lock == Some(t);
    QuietKeeps(w, SetPc(w0, t, pc), t);
  }

  lemma GivesUp(w: World, w0: World, t: nat)
    requires t < |w.tasks| && Inv(w) && Entered(w, w0, t)
    ensures Inv(Leave(w0, t, Failed))
  {
    OutsideCarriesNothing(Leave(w0, t, Failed), t);
    assert InSection(w.tasks[t].pc) <==> w.lock == Some(t);
    QuietKeeps(w, Leave(w0, t, Failed), t);
  }

  lemma WithManifestKeeps(w: World, w0: World, t: nat, m: RuntimeManifest)
    requires t < |w.tasks| && Inv(w) && Entered(w, w0, t)
    requires ManifestAt(w.store, w.cid) == Some(m)
    ensures Inv(WithManifest(w0, t, m))
  {
    match w.tasks[t].call
    case Mutate(edit, awaits) =>
      if awaits {
        MovesOn(w, w0, t, Editing(m));
      } else if m in edit {
        assert CurrentManifest(SetPc(w0, t, Putting(edit[m]))) == m;
        MovesOn(w, w0, t, Putting(edit[m]));
      } else {
        GivesUp(w, w0, t);
      }
    case Update(fragment, _) =>
      if fragment in m.entities {
        MovesOn(w, w0, t, LoadingNode(m));
      } else {
        GivesUp(w, w0, t);
      }
  }

  lemma AcquireKeeps(w: World, t: nat)
    requires t < |w.tasks| && Inv(w) && w.tasks[t].pc.Queued? && w.lock.None?
    ensures Inv(DoAcquire(w, t))
  {
    if w.manifest.Some? {
      WithManifestKeeps(w, w.(lock := Some(t), manifest := None), t, w.manifest.value);
    } else {
      QuietKeeps(w, DoAcquire(w, t), t);
    }
  }

  lemma FailKeeps(w: World, w1: World, t: nat, pc: Pc)
    requires t < |w.tasks| && Inv(w) && InSection(w.tasks[t].pc) && !w.tasks[t].pc.Recording?
    requires w1 == w.(store := w1.store) && Grows(w.store, w1.store)
    requires !InSection(pc) && !HasCommitted(pc)
    ensures Inv(Leave(w1, t, pc))
  {
    var w' := Leave(w1, t, pc);
    OutsideCarriesNothing(w', t);
    QuietKeeps(w, w', t);
  }

  lemma FetchedKeeps(w: World, t: nat, outcome: Outcome)
    requires Inv(w) && CanResume(w, t, outcome) && w.tasks[t].pc.Fetching?
    ensures Inv(DoResume(w, t, outcome))
  {
    if outcome.Ok? {
      assert w.lock == Some(t);
      WithManifestKeeps(w, w, t, ManifestAt(w.store, w.cid).value);
    } else {
      FailKeeps(w, w, t, Failed);
    }
  }

  lemma EditedKeeps(w: World, t: nat, outcome: Outcome)
    requires Inv(w) && CanResume(w, t, outcome) && w.tasks[t].pc.Editing?
    ensures Inv(DoResume(w, t, outcome))
  {
    var m, call := w.tasks[t].pc.base, w.tasks[t].call;
    assert CarriesInv(w, t);
    if outcome.Ok? && call.Mutate? && m in call.edit {
      QuietKeeps(w, DoEdited(w, t, m, outcome), t);
    } else {
      FailKeeps(w, w, t, Failed);
    }
  }

  lemma NodeLoadedKeeps(w: World, t: nat, outcome: Outcome)
    requires Inv(w) && CanResume(w, t, outcome) && w.tasks[t].pc.LoadingNode?
    ensures Inv(DoResume(w, t, outcome))
  {
    var m, call := w.tasks[t].pc.base, w.tasks[t].call;
    assert CarriesInv(w, t);
    if !outcome.Ok? || !call.Update? || NodeAt(w.store, m, call.fragment).None? {
      FailKeeps(w, w, t, Failed);
    } else {
      var updated := Set(NodeAt(w.store, m, call.fragment).value, call.setter);
      if updated.None? {
        OutsideCarriesNothing(DoNodeLoaded(w, t, m, outcome), t);
        QuietKeeps(w, DoNodeLoaded(w, t, m, outcome), t);
      } else {
        assert w.lock == Some(t);
        MovesOn(w, w, t, PuttingNode(m, updated.value));
      }
    }
  }

  lemma NodePutKeeps(w: World, t: nat, outcome: Outcome)
    requires Inv(w) && CanResume(w, t, outcome) && w.tasks[t].pc.PuttingNode?
    ensures Inv(DoResume(w, t, outcome))
  {
    var m, node, call := w.tasks[t].pc.base, w.tasks[t].pc.node, w.tasks[t].call;
    assert CarriesInv(w, t);
    var store := AfterPut(w.store, outcome, EntityBlock(node));
    if outcome.Ok? {
      PutNodeHasEffect(w.store, call.fragment, call.setter, m, node, outcome.cid);
      var w' := DoNodePut(w, t, m, node, outcome);
      assert CurrentManifest(w') == m;
      QuietKeeps(w, w', t);
    } else {
      FailKeeps(w, w.(store := store), t, Failed);
    }
  }

  lemma PutKeeps(w: World, t: nat, outcome: Outcome)
    requires Inv(w) && CanResume(w, t, outcome) && w.tasks[t].pc.Putting?
    ensures Inv(DoResume(w, t, outcome))
  {
    var m := w.tasks[t].pc.updated;
    assert CarriesInv(w, t);
    var store := AfterPut(w.store, outcome, ManifestBlock(m));
    if outcome.Ok? {
      var w' := DoPut(w, t, m, outcome);
      assert CurrentManifest(w') == CurrentManifest(w);
      EffectLasts(w.store, store, w.tasks[t].call, CurrentManifest(w), m);
      QuietKeeps(w, w', t);
    } else {
      FailKeeps(w, w.(store := store), t, Failed);
    }
  }

  lemma PinnedKeepsHistory(w: World, t: nat)
    requires t < |w.tasks| && Inv(w) && w.tasks[t].pc.Pinning?
    ensures HistoryInv(DoPinned(w, t, w.tasks[t].pc.updated, w.tasks[t].pc.newCid))
  {
    var m := w.tasks[t].pc.updated;
    var w' := DoPinned(w, t, m, w.tasks[t].pc.newCid);
    assert CarriesInv(w, t);
    var n := |w.commits|;
    forall i: nat | i < |w'.commits| ensures CommitInv(w', i) {
      if i < n {
        assert CommitInv(w, i);
      } else {
        assert ManifestBefore(w', n) == ManifestBefore(w, n);
      }
    }
    forall i: nat | i < n ensures w.commits[i].task != t {
      assert CommitInv(w, i);
    }
    forall u: nat | u < |w'.tasks| && HasCommitted(w'.tasks[u].pc) ensures CommitsOf(w', u) {
      if u == t {
        assert w'.commits[n].task == t;
      } else {
        assert CommitsOf(w, u);
        var i: nat :| i < n && w.commits[i].task == u;
        assert w'.commits[i].task == u;
      }
    }
  }

  lemma PinnedKeeps(w: World, t: nat)
    requires t < |w.tasks| && Inv(w) && w.tasks[t].pc.Pinning?
    ensures Inv(DoPinned(w, t, w.tasks[t].pc.updated, w.tasks[t].pc.newCid))
  {
    var w' := DoPinned(w, t, w.tasks[t].pc.updated, w.tasks[t].pc.newCid);
    assert CarriesInv(w, t);
    assert w.lock == Some(t);
    PinnedKeepsHistory(w, t);
    LockKept(w, w', t);
    assert w'.tasks[t].pc.Recording?;
    forall u: nat | u < |w'.tasks| && u != t ensures CarriesInv(w', u) {
      OutsideCarriesNothing(w', u);
    }
  }

  /** Leaving after the commit, with the stats written or not. */
  lemma RecordingLeaves(w: World, t: nat, pc: Pc, rootCid: Option<Cid>, lagging: bool)
    requires t < |w.tasks| && Inv(w) && w.tasks[t].pc.Recording?
    requires !InSection(pc) && HasCommitted(pc) && (lagging || rootCid == Some(w.cid))
    ensures Inv(Leave(w, t, pc).(rootCid := rootCid, lagging := lagging))
  {
    var w' := Leave(w, t, pc).(rootCid := rootCid, lagging := lagging);
    assert w.lock == Some(t);
    LockKept(w, w', t);
    OthersCarry(w, w', t);
    OutsideCarriesNothing(w', t);
    HistoryKept(w, w');
  }

  lemma ResumeKeeps(w: World, t: nat, outcome: Outcome)
    requires Inv(w) && CanResume(w, t, outcome)
    ensures Inv(DoResume(w, t, outcome))
  {
    match w.tasks[t].pc
    case Fetching => FetchedKeeps(w, t, outcome);
    case Editing(_) => EditedKeeps(w, t, outcome);
    case LoadingNode(_) => NodeLoadedKeeps(w, t, outcome);
    case PuttingNode(_, _) => NodePutKeeps(w, t, outcome);
    case Putting(_) => PutKeeps(w, t, outcome);
    case Pinning(_, _) => PinnedKeeps(w, t);
    case Recording(newCid) =>
      assert CarriesInv(w, t);
      RecordingLeaves(w, t, Committed(newCid), Some(newCid), false);
    case _ =>
  }

  lemma DropKeeps(w: World, t: nat)
    requires Inv(w) && t < |w.tasks|
    ensures Inv(DoDrop(w, t))
  {
    var pc := w.tasks[t].pc;
    if pc.Queued? {
      OutsideCarriesNothing(DoDrop(w, t), t);
      QuietKeeps(w, DoDrop(w, t), t);
    } else if pc.Recording? {
      assert w.lock == Some(t);
      RecordingLeaves(w, t, Dropped(true), w.rootCid, w.lagging || RootMoved(w));
    } else if InSection(pc) {
      FailKeeps(w, w, t, Dropped(false));
    }
  }

  lemma StartKeeps(w: World, call: Call)
    requires Inv(w)
    ensures Inv(w.(tasks := w.tasks + [Task(call, Queued)]))
  {
    var w' := w.(tasks := w.tasks + [Task(call, Queued)]);
    HistoryKept(w, w');
    forall u: nat | u < |w'.tasks| ensures CarriesInv(w', u) {
      if u < |w.tasks| {
        CarriesLasts(w, w', u);
      } else {
        OutsideCarriesNothing(w', u);
      }
    }
    assert IsRecording(w') == IsRecording(w);
  }

  lemma PutElsewhereKeeps(w: World, c: Cid, block: Block)
    requires Inv(w) && CanPut(w.store, c, block)
    ensures Inv(w.(store := w.store[c := block]))
  {
    var w' := w.(store := w.store[c := block]);
    HistoryKept(w, w');
    forall u: nat | u < |w'.tasks| ensures CarriesInv(w', u) {
      CarriesLasts(w, w', u);
    }
  }

  lemma StepKeeps(w: World, step: Step)
    requires Inv(w) && Next(w, step).Some?
    ensures Inv(Next(w, step).value)
  {
    match step
    case Start(call) => StartKeeps(w, call);
    case Acquire(t) => AcquireKeeps(w, t);
    case Resume(t, outcome) => ResumeKeeps(w, t, outcome);
    case Drop(t) => DropKeeps(w, t);
    case PutElsewhere(c, block) => PutElsewhereKeeps(w, c, block);
  }

  lemma ReachableInv(w0: World, steps: seq<Step>, w: World)
    requires Init(w0) && Reaches(Next, w0, steps, w)
    ensures Inv(w)
  {
    forall v, s | Inv(v) && Next(v, s).Some? ensures Inv(Next(v, s).value) {
      StepKeeps(v, s);
    }
    Preserved(Next, (v: World) => Inv(v), w0, steps, w);
  }
}
