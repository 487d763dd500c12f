/** What holds for the manifest over every interleaving of writer calls, failures and drops. */
module ManifestTheorems {
  import opened Basics
  import opened Manifest
  import opened ManifestMachine
  import opened Runs

  // ----- Coherence

  /** A cached manifest always equals the one stored under the writer's root, which is always
      a published manifest; and at most one call is ever past its lock. */
  lemma CacheIsCoherent(w0: World, steps: seq<Step>, w: World)
    requires Init(w0) && Reaches(Next, w0, steps, w)
    ensures ManifestAt(w.store, w.cid).Some?
    ensures w.manifest.Some? ==> w.manifest == ManifestAt(w.store, w.cid)
    ensures forall t, u :: 0 <= t < u < |w.tasks| ==> !(InSection(w.tasks[t].pc) && InSection(w.tasks[u].pc))
  {
    ReachableInv(w0, steps, w);
  }

  /** One step either leaves the root and what is published there alone, or is the lock
      holder's, whose call has just this effect on the manifest published until then. */
  lemma RootMovesOnlyByPublishing(w: World, step: Step)
    requires Inv(w) && Next(w, step).Some?
    ensures var w' := Next(w, step).value;
            if w'.commits == w.commits then
              w'.cid == w.cid && ManifestAt(w'.store, w'.cid) == ManifestAt(w.store, w.cid)
            else
              && step.Resume? && step.task < |w.tasks| && w.lock == Some(step.task) && w'.manifest.Some?
              && w'.commits == w.commits + [Commit(step.task, CurrentManifest(w), w'.manifest.value, w.cid, w'.cid)]
              && ManifestAt(w'.store, w'.cid) == w'.manifest
              && Effect(w'.store, w.tasks[step.task].call, CurrentManifest(w), w'.manifest.value)
  {
    StepKeeps(w, step);
    match step
    case Resume(t, outcome) =>
      if w.tasks[t].pc.Pinning? {
        assert CarriesInv(w, t);
        assert DoResume(w, t, outcome) == DoPinned(w, t, w.tasks[t].pc.updated, w.tasks[t].pc.newCid);
      } else {
        ResumeKeepsRoot(w, t, outcome);
      }
    case _ =>
  }

  lemma ResumeKeepsRoot(w: World, t: nat, outcome: Outcome)
    requires CanResume(w, t, outcome) && !w.tasks[t].pc.Pinning? && ManifestAt(w.store, w.cid).Some?
    ensures var w' := DoResume(w, t, outcome);
            w'.commits == w.commits && w'.cid == w.cid && ManifestAt(w'.store, w'.cid) == ManifestAt(w.store, w.cid)
  {
  }

  lemma UnchangedWasLoading(w: World, t: nat, outcome: Outcome)
    requires CanResume(w, t, outcome) && DoResume(w, t, outcome).tasks[t].pc.Unchanged?
    ensures w.tasks[t].pc.LoadingNode?
  {
  }

  /** An update answers "nothing to change" only when that is so of the published node. */
  lemma UnchangedIsUpToDate(w: World, t: nat, outcome: Outcome)
    requires Inv(w) && CanResume(w, t, outcome) && DoResume(w, t, outcome).tasks[t].pc.Unchanged?
    ensures var call := w.tasks[t].call;
            && call.Update? && NodeAt(w.store, CurrentManifest(w), call.fragment).Some?
            && Set(NodeAt(w.store, CurrentManifest(w), call.fragment).value, call.setter) == None
    ensures DoResume(w, t, outcome).manifest == ManifestAt(w.store, w.cid)
  {
    UnchangedWasLoading(w, t, outcome);
    assert CarriesInv(w, t);
    assert DoResume(w, t, outcome) == DoNodeLoaded(w, t, w.tasks[t].pc.base, outcome);
  }

  // ----- Serialisation

  /** The published manifest is what the calls of `order`, one after the other, make of `first`. */
  ghost predicate IsSerial(store: Store, calls: seq<Call>, manifests: seq<RuntimeManifest>) {
    && |manifests| == |calls| + 1
    && forall i :: 0 <= i < |calls| ==> Effect(store, calls[i], manifests[i], manifests[i + 1])
  }

  ghost function CallsOf(w: World): (r: seq<Call>)
    requires Inv(w)
    ensures |r| == |w.commits|
  {
    seq(|w.commits|, i requires 0 <= i < |w.commits| => assert CommitInv(w, i); w.tasks[w.commits[i].task].call)
  }

  ghost function ManifestsOf(w: World): (r: seq<RuntimeManifest>)
    ensures |r| == |w.commits| + 1
  {
    seq(|w.commits| + 1, i requires 0 <= i <= |w.commits| => ManifestBefore(w, i))
  }

  /** Serialisation without lost updates: the published manifest is the first one with the
      committed calls applied one after the other; every call that returned a new root is
      among them exactly once, and no call that failed, changed nothing or was dropped
      before it published. */
  lemma CommitsAreSerial(w0: World, steps: seq<Step>, w: World)
    requires Init(w0) && Reaches(Next, w0, steps, w)
    ensures Inv(w) && w.initial == w0.initial
    ensures IsSerial(w.store, CallsOf(w), ManifestsOf(w))
    ensures ManifestsOf(w)[0] == w0.initial && ManifestAt(w.store, w.cid) == Some(ManifestsOf(w)[|w.commits|])
    ensures forall t :: 0 <= t < |w.tasks| ==>
              (HasCommitted(w.tasks[t].pc) <==> exists i :: 0 <= i < |w.commits| && w.commits[i].task == t)
    ensures forall i, j :: 0 <= i < j < |w.commits| ==> w.commits[i].task != w.commits[j].task
  {
    ReachableInv(w0, steps, w);
    InitialStays(w0, steps, w);
    forall i: nat | i < |w.commits|
      ensures Effect(w.store, CallsOf(w)[i], ManifestsOf(w)[i], ManifestsOf(w)[i + 1])
    {
      assert CommitInv(w, i);
    }
    forall t: nat | t < |w.tasks|
      ensures HasCommitted(w.tasks[t].pc) <==> exists i :: 0 <= i < |w.commits| && w.commits[i].task == t
    {
      if HasCommitted(w.tasks[t].pc) {
        assert CommitsOf(w, t);
      }
      if i: nat :| i < |w.commits| && w.commits[i].task == t {
        assert CommitInv(w, i);
      }
    }
  }

  lemma StepKeepsCommits(w: World, step: Step)
    requires Inv(w) && Next(w, step).Some?
    ensures w.commits <= Next(w, step).value.commits
  {
    RootMovesOnlyByPublishing(w, step);
  }

  lemma {:induction false} CommitsStay(w: World, steps: seq<Step>, w': World)
    requires Inv(w) && Reaches(Next, w, steps, w')
    ensures w.commits <= w'.commits
    decreases |steps|
  {
    if steps != [] {
      StepKeeps(w, steps[0]);
      StepKeepsCommits(w, steps[0]);
      CommitsStay(Next(w, steps[0]).value, steps[1..], w');
    }
  }

  /** The serial order is the order of the lock: whatever a call that still waits for the lock
      will commit comes after everything committed by then, and that never changes again. */
  lemma CommitsKeepLockOrder(w0: World, before: seq<Step>, w: World, after: seq<Step>, w': World, t: nat, i: nat)
    requires Init(w0) && Reaches(Next, w0, before, w) && Reaches(Next, w, after, w')
    requires t < |w.tasks| && w.tasks[t].pc.Queued? && i < |w'.commits| && w'.commits[i].task == t
    ensures w.commits <= w'.commits && i >= |w.commits|
  {
    ReachableInv(w0, before, w);
    CommitsStay(w, after, w');
    forall j: nat | j < |w.commits| ensures w.commits[j].task != t {
      assert CommitInv(w, j);
    }
  }

  lemma {:induction false} InitialStays(w0: World, steps: seq<Step>, w: World)
    requires Reaches(Next, w0, steps, w)
    ensures w.initial == w0.initial
    decreases |steps|
  {
    if steps != [] {
      InitialStays(Next(w0, steps[0]).value, steps[1..], w);
    }
  }

  // ----- Entity nodes

  /** The setters that the first `n` commits applied to the node at `fragment`, in order. */
  ghost function SettersFor(w: World, fragment: Fragment, n: nat): seq<Setter>
    requires Inv(w) && n <= |w.commits|
  {
    if n == 0 then []
    else
      assert CommitInv(w, n - 1);
      var call := w.tasks[w.commits[n - 1].task].call;
      SettersFor(w, fragment, n - 1) + if call.Update? && call.fragment == fragment then [call.setter] else []
  }

  predicate SameLink(a: RuntimeManifest, b: RuntimeManifest, fragment: Fragment) {
    && (fragment in a.entities <==> fragment in b.entities)
    && (fragment in a.entities ==> a.entities[fragment] == b.entities[fragment])
  }

  /** Only setters wrote to `fragment`: every edit that committed kept its link. */
  ghost predicate OnlySettersWrite(w: World, fragment: Fragment)
    requires Inv(w)
  {
    forall i :: 0 <= i < |w.commits| ==>
      assert CommitInv(w, i);
      w.tasks[w.commits[i].task].call.Mutate? ==> SameLink(w.commits[i].before, w.commits[i].after, fragment)
  }

  lemma EffectOnNode(store: Store, call: Call, before: RuntimeManifest, after: RuntimeManifest, fragment: Fragment)
    requires Effect(store, call, before, after)
    requires call.Mutate? ==> SameLink(before, after, fragment)
    ensures if call.Update? && call.fragment == fragment then
              && NodeAt(store, before, fragment).Some?
              && NodeAt(store, after, fragment) == Set(NodeAt(store, before, fragment).value, call.setter)
            else
              SameLink(before, after, fragment) && NodeAt(store, after, fragment) == NodeAt(store, before, fragment)
  {
  }

  lemma SetAllExtends(node: EntityNode, earlier: seq<Setter>, last: Setter)
    requires Set(SetAll(node, earlier), last).Some?
    ensures Some(SetAll(node, earlier + [last])) == Set(SetAll(node, earlier), last)
  {
    assert (earlier + [last])[..|earlier|] == earlier;
  }

  /** The node at `fragment` after the first `n` commits is the first one with these setters. */
  ghost predicate NodeIsFold(w: World, fragment: Fragment, n: nat)
    requires Inv(w) && n <= |w.commits| && NodeAt(w.store, w.initial, fragment).Some?
  {
    var setters := SettersFor(w, fragment, n);
    && NodeAt(w.store, ManifestBefore(w, n), fragment)
       == Some(SetAll(NodeAt(w.store, w.initial, fragment).value, setters))
    && (setters == [] ==> SameLink(w.initial, ManifestBefore(w, n), fragment))
  }

  lemma NodeStep(w: World, fragment: Fragment, n: nat)
    requires Inv(w) && 0 < n <= |w.commits| && OnlySettersWrite(w, fragment)
    requires NodeAt(w.store, w.initial, fragment).Some? && NodeIsFold(w, fragment, n - 1)
    ensures NodeIsFold(w, fragment, n)
  {
    assert CommitInv(w, n - 1);
    var c := w.commits[n - 1];
    var call := w.tasks[c.task].call;
    var earlier := SettersFor(w, fragment, n - 1);
    assert c.before == ManifestBefore(w, n - 1) && c.after == ManifestBefore(w, n);
    EffectOnNode(w.store, call, c.before, c.after, fragment);
    if call.Update? && call.fragment == fragment {
      SetAllExtends(NodeAt(w.store, w.initial, fragment).value, earlier, call.setter);
      assert SettersFor(w, fragment, n) == earlier + [call.setter];
    } else {
      assert SettersFor(w, fragment, n) == earlier;
    }
  }

  lemma {:induction false} NodeAfter(w: World, fragment: Fragment, n: nat)
    requires Inv(w) && n <= |w.commits| && OnlySettersWrite(w, fragment)
    requires NodeAt(w.store, w.initial, fragment).Some?
    ensures NodeIsFold(w, fragment, n)
    decreases n
  {
    if n > 0 {
      NodeAfter(w, fragment, n - 1);
      NodeStep(w, fragment, n);
    }
  }

  /** Concurrent setters lose nothing: the published node of an entity is its first node with
      all setters committed for it applied in order; an entity no setter named keeps its link. */
  lemma EntityIsFoldOfItsSetters(w0: World, steps: seq<Step>, w: World, fragment: Fragment)
    requires Init(w0) && Reaches(Next, w0, steps, w) && Inv(w) && OnlySettersWrite(w, fragment)
    requires NodeAt(w0.store, w0.initial, fragment).Some?
    ensures var setters := SettersFor(w, fragment, |w.commits|);
            && NodeAt(w.store, CurrentManifest(w), fragment)
               == Some(SetAll(NodeAt(w0.store, w0.initial, fragment).value, setters))
            && (setters == [] ==> SameLink(w0.initial, CurrentManifest(w), fragment))
  {
    InitialStays(w0, steps, w);
    StoreGrows(w0, steps, w);
    NodeAfter(w, fragment, |w.commits|);
  }

  lemma {:induction false} StoreGrows(w0: World, steps: seq<Step>, w: World)
    requires Reaches(Next, w0, steps, w)
    ensures Grows(w0.store, w.store)
    decreases |steps|
  {
    if steps != [] {
      var w1 := Next(w0, steps[0]).value;
      StepGrows(w0, steps[0]);
      StoreGrows(w1, steps[1..], w);
    }
  }

  lemma StepGrows(w: World, step: Step)
    requires Next(w, step).Some?
    ensures Grows(w.store, Next(w, step).value.store)
  {
    match step
    case Resume(t, outcome) =>
      match w.tasks[t].pc {
        case PuttingNode(m, node) => assert CanResume(w, t, outcome);
        case Putting(m) => assert CanResume(w, t, outcome);
        case _ =>
      }
    case _ =>
  }

  /** So each field of a published node is the one committed last for that field, whatever
      the other setters did meanwhile, and an initialised entity stays initialised. */
  lemma SettersDoNotUndoEachOther(w0: World, steps: seq<Step>, w: World, fragment: Fragment)
    requires Init(w0) && Reaches(Next, w0, steps, w) && Inv(w) && OnlySettersWrite(w, fragment)
    requires NodeAt(w0.store, w0.initial, fragment).Some?
    ensures NodeAt(w.store, CurrentManifest(w), fragment).Some?
    ensures var first := NodeAt(w0.store, w0.initial, fragment).value;
            var now := NodeAt(w.store, CurrentManifest(w), fragment).value;
            var setters := SettersFor(w, fragment, |w.commits|);
            && now.state == (if LastState(setters).Some? then LastState(setters) else first.state)
            && now.behaviour == (if LastBehaviour(setters).Some? then LastBehaviour(setters).value else first.behaviour)
            && now.reloadError ==
               (if LastReloadError(setters).Some? then LastReloadError(setters).value else first.reloadError)
            && (now.initialised <==> first.initialised || exists i :: 0 <= i < |setters| && Initialises(setters[i]))
            && now == first.(state := now.state, behaviour := now.behaviour,
                             initialised := now.initialised, reloadError := now.reloadError)
  {
    EntityIsFoldOfItsSetters(w0, steps, w, fragment);
    SettersKeepEachOthersFields(NodeAt(w0.store, w0.initial, fragment).value, SettersFor(w, fragment, |w.commits|));
  }

  /** Setters leave everything but the entity links of the manifest as it was. */
  lemma SettersTouchNoOtherField(w0: World, steps: seq<Step>, w: World)
    requires Init(w0) && Reaches(Next, w0, steps, w) && Inv(w)
    requires forall i :: 0 <= i < |w.commits| ==> (assert CommitInv(w, i); w.tasks[w.commits[i].task].call.Update?)
    ensures CurrentManifest(w) == w0.initial.(entities := CurrentManifest(w).entities)
    ensures CurrentManifest(w).entities.Keys == w0.initial.entities.Keys
  {
    InitialStays(w0, steps, w);
    OnlyLinksDiffer(w, |w.commits|);
  }

  lemma {:induction false} OnlyLinksDiffer(w: World, n: nat)
    requires Inv(w) && n <= |w.commits|
    requires forall i :: 0 <= i < |w.commits| ==> (assert CommitInv(w, i); w.tasks[w.commits[i].task].call.Update?)
    ensures ManifestBefore(w, n) == w.initial.(entities := ManifestBefore(w, n).entities)
    ensures ManifestBefore(w, n).entities.Keys == w.initial.entities.Keys
    decreases n
  {
    if n > 0 {
      OnlyLinksDiffer(w, n - 1);
      assert CommitInv(w, n - 1);
    }
  }

  // ----- The runtime's stats

  /** With nobody in the critical section the stats name the root, unless the last call to
      publish was dropped before it wrote them. */
  lemma StatsNameTheRoot(w0: World, steps: seq<Step>, w: World)
    requires Init(w0) && Reaches(Next, w0, steps, w) && w.lock.None?
    ensures !w.lagging ==> w.rootCid == Some(w.cid)
    ensures (forall i :: 0 <= i < |steps| ==> !steps[i].Drop?) ==> w.rootCid == Some(w.cid)
  {
    ReachableInv(w0, steps, w);
    if forall i :: 0 <= i < |steps| ==> !steps[i].Drop? {
      NoDropNoLag(w0, steps, w);
    }
  }

  lemma {:induction false} NoDropNoLag(w0: World, steps: seq<Step>, w: World)
    requires Reaches(Next, w0, steps, w) && !w0.lagging
    requires forall i :: 0 <= i < |steps| ==> !steps[i].Drop?
    ensures !w.lagging
    decreases |steps|
  {
    if steps != [] {
      assert !steps[0].Drop?;
      NoDropNoLag(Next(w0, steps[0]).value, steps[1..], w);
    }
  }

  /** Dropping the lock holder leaves the stats behind exactly when it is dropped between
      moving the root and writing the stats, and its commit moved the root to another one. */
  lemma DropLeavesStatsBehindExactly(w0: World, steps: seq<Step>, w: World, t: nat)
    requires Init(w0) && Reaches(Next, w0, steps, w) && w.lock == Some(t) && !w.lagging
    ensures t < |w.tasks| && DoDrop(w, t).lock.None?
    ensures DoDrop(w, t).rootCid != Some(DoDrop(w, t).cid) <==> w.tasks[t].pc.Recording? && RootMoved(w)
  {
    ReachableInv(w0, steps, w);
    assert InSection(w.tasks[t].pc);
  }

  /** The steps of one edit up to the moment it has published at `c`. */
  function PublishingEdit(call: Call, c: Cid): seq<Step> {
    [Start(call), Acquire(0), Resume(0, Outcome.Ok("")), Resume(0, Outcome.Ok(c)), Resume(0, Fail)]
  }

  lemma EditReachesPinning(w0: World, after: RuntimeManifest, c: Cid) returns (w: World)
    requires Init(w0) && c !in w0.store
    ensures var call := Mutate(imap[w0.initial := after], false);
            Reaches(Next, w0, PublishingEdit(call, c)[..4], w)
    ensures w == w0.(store := w0.store[c := ManifestBlock(after)], lock := Some(0), tasks := w.tasks)
    ensures |w.tasks| == 1 && w.tasks[0].pc == Pinning(after, c)
  {
    var call := Mutate(imap[w0.initial := after], false);
    var steps := PublishingEdit(call, c);
    var w1 := Next(w0, steps[0]).value;
    assert w1.tasks == [Task(call, Queued)];
    var w2 := Next(w1, steps[1]).value;
    assert w2.tasks == [Task(call, Fetching)];
    var w3 := Next(w2, steps[2]).value;
    assert w3.tasks == [Task(call, Putting(after))];
    w := Next(w3, steps[3]).value;
    Extend(Next, w0, [], w0, steps[0], w1);
    Extend(Next, w0, [] + [steps[0]], w1, steps[1], w2);
    Extend(Next, w0, [] + [steps[0]] + [steps[1]], w2, steps[2], w3);
    Extend(Next, w0, [] + [steps[0]] + [steps[1]] + [steps[2]], w3, steps[3], w);
    assert [] + [steps[0]] + [steps[1]] + [steps[2]] + [steps[3]] == steps[..4];
  }

  /** Dropped right after that, the edit leaves a root that has moved and stats that name the
      old one. */
  lemma StatsCanLag(w0: World, after: RuntimeManifest, c: Cid) returns (w: World)
    requires Init(w0) && c !in w0.store
    ensures Reaches(Next, w0, PublishingEdit(Mutate(imap[w0.initial := after], false), c) + [Drop(0)], w)
    ensures w.lock.None? && w.cid == c && ManifestAt(w.store, w.cid) == Some(after)
    ensures w.rootCid == Some(w0.cid) && w0.cid != c
  {
    var steps := PublishingEdit(Mutate(imap[w0.initial := after], false), c);
    var w4 := EditReachesPinning(w0, after, c);
    var w5 := Next(w4, steps[4]).value;
    assert w5.tasks[0].pc == Recording(c);
    w := Next(w5, Drop(0)).value;
    Extend(Next, w0, steps[..4], w4, steps[4], w5);
    assert steps[..4] + [steps[4]] == steps;
    Extend(Next, w0, steps, w5, Drop(0), w);
  }
}
