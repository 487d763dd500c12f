/** When a writer call gets through: left alone, with its remote calls succeeding, it publishes
    its effect; and it fails for no other reasons than these calls and what is published. */
module ManifestCompletion {
  import opened Basics
  import opened Manifest
  import opened ManifestMachine
  import opened Runs

  /** The call has something to work on in the published manifest. */
  ghost predicate Applies(w: World, call: Call) {
    match call
    case Mutate(edit, _) => CurrentManifest(w) in edit
    case Update(fragment, _) => NodeAt(w.store, CurrentManifest(w), fragment).Some?
  }

  /** The manifest itself refuses the call, as soon as it is in hand. */
  ghost predicate RefusedAtOnce(w: World, call: Call) {
    match call
    case Mutate(edit, awaits) => !awaits && CurrentManifest(w) !in edit
    case Update(fragment, _) => fragment !in CurrentManifest(w).entities
  }

  /** The await that task `t` is at can make its call fail when it comes back like this. */
  ghost predicate FailsOn(w: World, t: nat, outcome: Outcome)
    requires t < |w.tasks|
  {
    var call := w.tasks[t].call;
    match w.tasks[t].pc
    case Fetching => !outcome.Ok? || RefusedAtOnce(w, call)
    case Editing(_) => !outcome.Ok? || !Applies(w, call)
    case LoadingNode(_) => !outcome.Ok? || !Applies(w, call)
    case PuttingNode(_, _) => !outcome.Ok?
    case Putting(_) => !outcome.Ok?
    case _ => false
  }

  /** A call fails exactly when a fetch, a put or its closure does, or when the published
      manifest refuses it or lacks its node. The pin may fail without harm. */
  lemma ResumeFailsExactly(w: World, t: nat, outcome: Outcome)
    requires Inv(w) && CanResume(w, t, outcome)
    ensures DoResume(w, t, outcome).tasks[t].pc.Failed? <==> FailsOn(w, t, outcome)
  {
    assert CarriesInv(w, t);
    match w.tasks[t].pc
    case Fetching =>
      if outcome.Ok? {
        OpenedFailsExactly(w, t, CurrentManifest(w));
      }
    case Editing(m) => EditedFailsExactly(w, t, m, outcome);
    case LoadingNode(m) => LoadedFailsExactly(w, t, m, outcome);
    case PuttingNode(m, node) => assert DoResume(w, t, outcome) == DoNodePut(w, t, m, node, outcome);
    case Putting(m) => assert DoResume(w, t, outcome) == DoPut(w, t, m, outcome);
    case _ =>
  }

  lemma OpenedFailsExactly(w: World, t: nat, m: RuntimeManifest)
    requires t < |w.tasks| && m == CurrentManifest(w)
    ensures WithManifest(w, t, m).tasks[t].pc.Failed? <==> RefusedAtOnce(w, w.tasks[t].call)
  {
  }

  lemma EditedFailsExactly(w: World, t: nat, m: RuntimeManifest, outcome: Outcome)
    requires t < |w.tasks| && m == CurrentManifest(w) && w.tasks[t].call.Mutate?
    ensures DoEdited(w, t, m, outcome).tasks[t].pc.Failed? <==> !outcome.Ok? || !Applies(w, w.tasks[t].call)
  {
  }

  lemma LoadedFailsExactly(w: World, t: nat, m: RuntimeManifest, outcome: Outcome)
    requires t < |w.tasks| && m == CurrentManifest(w) && w.tasks[t].call.Update?
    ensures DoNodeLoaded(w, t, m, outcome).tasks[t].pc.Failed? <==> !outcome.Ok? || !Applies(w, w.tasks[t].call)
  {
  }

  /** With a cached manifest a call can be refused as soon as it has the lock, and only then. */
  lemma AcquireFailsExactly(w: World, t: nat)
    requires Inv(w) && t < |w.tasks|
    ensures DoAcquire(w, t).tasks[t].pc.Failed? <==> w.manifest.Some? && RefusedAtOnce(w, w.tasks[t].call)
  {
    if w.manifest.Some? {
      OpenedFailsExactly(w.(lock := Some(t), manifest := None), t, w.manifest.value);
    }
  }

  // ----- Building runs

  lemma Then(w: World, steps: seq<Step>, w1: World, step: Step, w2: World)
    requires Reaches(Next, w, steps, w1) && Next(w1, step) == Some(w2)
    ensures Reaches(Next, w, steps + [step], w2)
  {
    Extend(Next, w, steps, w1, step, w2);
  }

  /** The world once task `t` holds the lock, with the published manifest in hand. */
  ghost function Holding(w: World, t: nat, pc: Pc): World
    requires t < |w.tasks|
  {
    SetPc(w, t, pc).(lock := Some(t), manifest := None)
  }

  /** The lock is granted and the manifest taken out of the cache or fetched. */
  ghost function Opening(w: World, t: nat): seq<Step> {
    if w.manifest.Some? then [Acquire(t)] else [Acquire(t), Resume(t, Outcome.Ok(""))]
  }

  /** Where the manifest in hand sends the call. */
  ghost function OnOpen(w: World, call: Call): Pc {
    match call
    case Mutate(edit, awaits) =>
      if awaits then Editing(CurrentManifest(w))
      else if CurrentManifest(w) in edit then Putting(edit[CurrentManifest(w)]) else Failed
    case Update(_, _) => LoadingNode(CurrentManifest(w))
  }

  lemma OpenRun(w: World, t: nat)
    requires Inv(w) && t < |w.tasks| && w.tasks[t].pc.Queued? && w.lock.None? && Applies(w, w.tasks[t].call)
    ensures Reaches(Next, w, Opening(w, t), Holding(w, t, OnOpen(w, w.tasks[t].call)))
  {
    var w' := Holding(w, t, OnOpen(w, w.tasks[t].call));
    if w.manifest.Some? {
      assert DoAcquire(w, t) == w';
      Then(w, [], w, Acquire(t), w');
      assert [] + [Acquire(t)] == Opening(w, t);
    } else {
      var w1 := DoAcquire(w, t);
      Then(w, [], w, Acquire(t), w1);
      assert w1.tasks[t := w'.tasks[t]] == w'.tasks;
      assert WithManifest(w1, t, CurrentManifest(w)) == w';
      Then(w, [] + [Acquire(t)], w1, Resume(t, Outcome.Ok("")), w');
      assert [] + [Acquire(t)] + [Resume(t, Outcome.Ok(""))] == Opening(w, t);
    }
  }

  /** The put at `c`, the pin with whatever outcome, and the stats. */
  ghost function Publishing(t: nat, c: Cid, pin: Outcome, stats: Outcome): seq<Step> {
    [Resume(t, Outcome.Ok(c)), Resume(t, pin), Resume(t, stats)]
  }

  /** The world after task `t` has published `after` at `c`. */
  ghost function Published(w: World, t: nat, after: RuntimeManifest, c: Cid): World
    requires t < |w.tasks|
  {
    SetPc(w, t, Committed(c)).(
      store := w.store[c := ManifestBlock(after)], cid := c, manifest := Some(after), lock := None,
      rootCid := Some(c), commits := w.commits + [Commit(t, CurrentManifest(w), after, w.cid, c)], lagging := false)
  }

  lemma RecordRun(w: World, t: nat, c: Cid, stats: Outcome, w': World)
    requires t < |w.tasks| && w.tasks[t].pc == Recording(c)
    requires w' == SetPc(w, t, Committed(c)).(lock := None, rootCid := Some(c), lagging := false)
    ensures Reaches(Next, w, [Resume(t, stats)], w')
  {
    Then(w, [], w, Resume(t, stats), w');
    assert [] + [Resume(t, stats)] == [Resume(t, stats)];
  }

  lemma PutRun(w: World, t: nat, after: RuntimeManifest, c: Cid)
    requires t < |w.tasks| && w.tasks[t].pc == Putting(after) && CanPut(w.store, c, ManifestBlock(after))
    ensures Next(w, Resume(t, Outcome.Ok(c))) ==
            Some(SetPc(w, t, Pinning(after, c)).(store := w.store[c := ManifestBlock(after)]))
  {
  }

  lemma PinRun(w: World, t: nat, after: RuntimeManifest, c: Cid, pin: Outcome)
    requires t < |w.tasks| && w.tasks[t].pc == Pinning(after, c)
    ensures Next(w, Resume(t, pin)) ==
            Some(SetPc(w, t, Recording(c)).(
                   cid := c, manifest := Some(after),
                   commits := w.commits + [Commit(t, CurrentManifest(w), after, w.cid, c)]))
  {
  }

  /** The world after task `t` has put and pinned `after` at `c`. */
  ghost function Pinned(w: World, t: nat, after: RuntimeManifest, c: Cid): World
    requires t < |w.tasks|
  {
    SetPc(w, t, Recording(c)).(
      store := w.store[c := ManifestBlock(after)], cid := c, manifest := Some(after),
      commits := w.commits + [Commit(t, CurrentManifest(w), after, w.cid, c)])
  }

  lemma PutAndPinRun(w: World, t: nat, after: RuntimeManifest, c: Cid, pin: Outcome)
    requires t < |w.tasks| && w.tasks[t].pc == Putting(after)
    requires CanPut(w.store, c, ManifestBlock(after)) && ManifestAt(w.store, w.cid).Some?
    ensures Reaches(Next, w, [Resume(t, Outcome.Ok(c)), Resume(t, pin)], Pinned(w, t, after, c))
  {
    var w1 := SetPc(w, t, Pinning(after, c)).(store := w.store[c := ManifestBlock(after)]);
    PutRun(w, t, after, c);
    PinRun(w1, t, after, c, pin);
    assert CurrentManifest(w1) == CurrentManifest(w);
    assert SetPc(w1, t, Recording(c)).tasks == SetPc(w, t, Recording(c)).tasks;
    Then(w, [], w, Resume(t, Outcome.Ok(c)), w1);
    Then(w, [] + [Resume(t, Outcome.Ok(c))], w1, Resume(t, pin), Pinned(w, t, after, c));
    assert [] + [Resume(t, Outcome.Ok(c))] + [Resume(t, pin)] == [Resume(t, Outcome.Ok(c)), Resume(t, pin)];
  }

  /** Once `after` is ready, over the world `w` with the node stored, it gets published. */
  lemma HeldPublishes(w: World, t: nat, after: RuntimeManifest, c: Cid, pin: Outcome, stats: Outcome)
    requires t < |w.tasks| && CanPut(w.store, c, ManifestBlock(after)) && ManifestAt(w.store, w.cid).Some?
    ensures Reaches(Next, Holding(w, t, Putting(after)), Publishing(t, c, pin, stats), Published(w, t, after, c))
  {
    var w1 := Holding(w, t, Putting(after));
    PutAndPinRun(w1, t, after, c, pin);
    assert CurrentManifest(w1) == CurrentManifest(w);
    var w2 := Pinned(w1, t, after, c);
    assert w2.tasks[t := w2.tasks[t].(pc := Committed(c))] == Published(w, t, after, c).tasks;
    RecordRun(w2, t, c, stats, Published(w, t, after, c));
    Chain(Next, w1, [Resume(t, Outcome.Ok(c)), Resume(t, pin)], w2, [Resume(t, stats)], Published(w, t, after, c));
    assert [Resume(t, Outcome.Ok(c)), Resume(t, pin)] + [Resume(t, stats)] == Publishing(t, c, pin, stats);
  }

  // ----- Mutations

  /** The closure of `mutate_async` comes back. */
  ghost function Closure(t: nat, call: Call): seq<Step> {
    if call.Mutate? && call.awaits then [Resume(t, Outcome.Ok(""))] else []
  }

  lemma MutationReady(w: World, t: nat)
    requires Inv(w) && t < |w.tasks| && w.tasks[t].pc.Queued? && w.lock.None?
    requires w.tasks[t].call.Mutate? && Applies(w, w.tasks[t].call)
    ensures var call := w.tasks[t].call;
            Reaches(Next, w, Opening(w, t) + Closure(t, call), Holding(w, t, Putting(call.edit[CurrentManifest(w)])))
  {
    var call := w.tasks[t].call;
    var after := call.edit[CurrentManifest(w)];
    var w1 := Holding(w, t, OnOpen(w, call));
    var w2 := Holding(w, t, Putting(after));
    OpenRun(w, t);
    if call.awaits {
      assert w1.tasks[t := w1.tasks[t].(pc := Putting(after))] == w2.tasks;
      assert DoEdited(w1, t, CurrentManifest(w), Outcome.Ok("")) == w2;
      Then(w, Opening(w, t), w1, Resume(t, Outcome.Ok("")), w2);
    } else {
      assert Opening(w, t) + [] == Opening(w, t);
    }
  }

  /** With the lock free, a mutation that accepts the published manifest goes through, awaiting
      or not, when its fetch, closure and put succeed: its edit is published, the cache and the
      stats follow, and nothing else changes. */
  lemma MutationCompletes(w: World, t: nat, c: Cid, pin: Outcome, stats: Outcome)
    requires Inv(w) && t < |w.tasks| && w.tasks[t].pc.Queued? && w.lock.None?
    requires w.tasks[t].call.Mutate? && Applies(w, w.tasks[t].call)
    requires CanPut(w.store, c, ManifestBlock(w.tasks[t].call.edit[CurrentManifest(w)]))
    ensures var call := w.tasks[t].call;
            Reaches(Next, w, Opening(w, t) + Closure(t, call) + Publishing(t, c, pin, stats),
                    Published(w, t, call.edit[CurrentManifest(w)], c))
  {
    var call := w.tasks[t].call;
    var after := call.edit[CurrentManifest(w)];
    MutationReady(w, t);
    HeldPublishes(w, t, after, c, pin, stats);
    Chain(Next, w, Opening(w, t) + Closure(t, call), Holding(w, t, Putting(after)),
          Publishing(t, c, pin, stats), Published(w, t, after, c));
  }

  // ----- Updates of an entity node

  ghost function CurrentNode(w: World, call: Call): EntityNode
    requires call.Update? && Applies(w, call)
  {
    NodeAt(w.store, CurrentManifest(w), call.fragment).value
  }

  lemma LoadRun(w: World, t: nat) returns (w': World)
    requires Inv(w) && t < |w.tasks| && w.tasks[t].pc.Queued? && w.lock.None?
    requires w.tasks[t].call.Update? && Applies(w, w.tasks[t].call)
    ensures Reaches(Next, w, Opening(w, t) + [Resume(t, Outcome.Ok(""))], w')
    ensures var call := w.tasks[t].call;
            var updated := Set(CurrentNode(w, call), call.setter);
            w' == if updated.Some? then Holding(w, t, PuttingNode(CurrentManifest(w), updated.value))
                  else SetPc(w, t, Unchanged(w.cid)).(manifest := Some(CurrentManifest(w)))
  {
    var w1 := Holding(w, t, LoadingNode(CurrentManifest(w)));
    OpenRun(w, t);
    w' := DoNodeLoaded(w1, t, CurrentManifest(w), Outcome.Ok(""));
    Then(w, Opening(w, t), w1, Resume(t, Outcome.Ok("")), w');
    assert w1.tasks[t := w'.tasks[t]] == w'.tasks == w.tasks[t := w'.tasks[t]];
  }

  /** A setter with nothing to change leaves everything as it is, but for the cached copy. */
  lemma IdleUpdateCompletes(w: World, t: nat)
    requires Inv(w) && t < |w.tasks| && w.tasks[t].pc.Queued? && w.lock.None?
    requires w.tasks[t].call.Update? && Applies(w, w.tasks[t].call)
    requires Set(CurrentNode(w, w.tasks[t].call), w.tasks[t].call.setter).None?
    ensures Reaches(Next, w, Opening(w, t) + [Resume(t, Outcome.Ok(""))],
                    SetPc(w, t, Unchanged(w.cid)).(manifest := Some(CurrentManifest(w))))
  {
    var w' := LoadRun(w, t);
  }

  /** The published manifest with one entity link replaced. */
  ghost function Relinked(w: World, fragment: Fragment, nc: Cid): RuntimeManifest {
    CurrentManifest(w).(entities := CurrentManifest(w).entities[fragment := nc])
  }

  /** The world with the updated node stored at `nc`. */
  ghost function Stored(w: World, call: Call, nc: Cid): World
    requires call.Update? && Applies(w, call) && Set(CurrentNode(w, call), call.setter).Some?
  {
    w.(store := w.store[nc := EntityBlock(Set(CurrentNode(w, call), call.setter).value)])
  }

  lemma NodePutRun(w: World, t: nat, m: RuntimeManifest, node: EntityNode, nc: Cid)
    requires t < |w.tasks| && w.tasks[t].pc == PuttingNode(m, node) && w.tasks[t].call.Update?
    requires CanPut(w.store, nc, EntityBlock(node))
    ensures Next(w, Resume(t, Outcome.Ok(nc))) ==
            Some(SetPc(w, t, Putting(m.(entities := m.entities[w.tasks[t].call.fragment := nc]))).(
                   store := w.store[nc := EntityBlock(node)]))
  {
  }

  lemma UpdateReady(w: World, t: nat, nc: Cid)
    requires Inv(w) && t < |w.tasks| && w.tasks[t].pc.Queued? && w.lock.None?
    requires w.tasks[t].call.Update? && Applies(w, w.tasks[t].call)
    requires Set(CurrentNode(w, w.tasks[t].call), w.tasks[t].call.setter).Some?
    requires CanPut(w.store, nc, EntityBlock(Set(CurrentNode(w, w.tasks[t].call), w.tasks[t].call.setter).value))
    ensures var call := w.tasks[t].call;
            Reaches(Next, w, Opening(w, t) + [Resume(t, Outcome.Ok(""))] + [Resume(t, Outcome.Ok(nc))],
                    Holding(Stored(w, call, nc), t, Putting(Relinked(w, call.fragment, nc))))
  {
    var call := w.tasks[t].call;
    var node := Set(CurrentNode(w, call), call.setter).value;
    var after := Relinked(w, call.fragment, nc);
    var w1 := LoadRun(w, t);
    var w2 := Holding(Stored(w, call, nc), t, Putting(after));
    assert w1.tasks[t := w1.tasks[t].(pc := Putting(after))] == w2.tasks;
    NodePutRun(w1, t, CurrentManifest(w), node, nc);
    Then(w, Opening(w, t) + [Resume(t, Outcome.Ok(""))], w1, Resume(t, Outcome.Ok(nc)), w2);
  }

  /** Any other update goes through when its remote calls succeed: the node is stored at `nc`
      and the manifest that links to it at `c`. */
  lemma UpdateCompletes(w: World, t: nat, nc: Cid, c: Cid, pin: Outcome, stats: Outcome)
    requires Inv(w) && t < |w.tasks| && w.tasks[t].pc.Queued? && w.lock.None?
    requires w.tasks[t].call.Update? && Applies(w, w.tasks[t].call)
    requires Set(CurrentNode(w, w.tasks[t].call), w.tasks[t].call.setter).Some?
    requires CanPut(w.store, nc, EntityBlock(Set(CurrentNode(w, w.tasks[t].call), w.tasks[t].call.setter).value))
    requires CanPut(Stored(w, w.tasks[t].call, nc).store, c, ManifestBlock(Relinked(w, w.tasks[t].call.fragment, nc)))
    ensures var call := w.tasks[t].call;
            Reaches(Next, w, Opening(w, t) + [Resume(t, Outcome.Ok(""))] + [Resume(t, Outcome.Ok(nc))]
                             + Publishing(t, c, pin, stats),
                    Published(Stored(w, call, nc), t, Relinked(w, call.fragment, nc), c))
  {
    var call := w.tasks[t].call;
    var after := Relinked(w, call.fragment, nc);
    UpdateReady(w, t, nc);
    HeldPublishes(Stored(w, call, nc), t, after, c, pin, stats);
    Chain(Next, w, Opening(w, t) + [Resume(t, Outcome.Ok(""))] + [Resume(t, Outcome.Ok(nc))],
          Holding(Stored(w, call, nc), t, Putting(after)), Publishing(t, c, pin, stats),
          Published(Stored(w, call, nc), t, after, c));
  }

  // ----- Calls that are dropped

  /** Dropping a call before its root has moved leaves no trace but the empty cache: store, root,
      stats and commits are as they were, and its lock is free; a call that still waits for
      the lock is gone as well. A call that has ended cannot be dropped any more. */
  lemma DroppedCallLeavesNoTrace(w: World, t: nat)
    requires Inv(w) && t < |w.tasks| && !w.tasks[t].pc.Recording?
    ensures DoDrop(w, t) == if InSection(w.tasks[t].pc) then SetPc(w, t, Dropped(false)).(lock := None)
                            else if w.tasks[t].pc.Queued? then SetPc(w, t, Dropped(false))
                            else w
  {
  }
}
