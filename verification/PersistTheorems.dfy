/** What the persist protocol guarantees over whole runs, and exactly when it does not. */
module PersistTheorems {
  import opened Basics
  import opened StateCtx
  import opened Persist
  import opened PersistRuns
  import opened PersistWakeup
  import opened Runs

  /** At most one loop is ever between setting and clearing the flag. */
  lemma AtMostOneLoop(w: World, steps: seq<Step>, w': World, i: nat, j: nat)
    requires Init(w) && Reaches(Next, w, steps, w')
    requires i < |w'.loops| && j < |w'.loops| && InMain(w'.loops[i]) && InMain(w'.loops[j])
    ensures i == j && w'.inFlight
  {
    ReachableInv(w, steps, w');
  }

  /** If the step starts a loop, it starts it with bytes that are not out of date. */
  ghost predicate StartsFresh(w: World, step: Step)
  {
    match step
    case HandOver(b) => w.inFlight || Fresh(w, b)
    case Loop(id, _) =>
      id < |w.loops| && w.loops[id].PostAnswered? && w.loops[id].reply.Some? ==>
        w.inFlight || Fresh(w, w.loops[id].reply.value)
    case _ => true
  }

  ghost predicate FreshRun(w: World, steps: seq<Step>)
    decreases |steps|
  {
    steps == [] ||
    (StartsFresh(w, steps[0]) && Next(w, steps[0]).Some? && FreshRun(Next(w, steps[0]).value, steps[1..]))
  }

  lemma RestartIsNotStale(w: World, id: nat, succeeds: bool)
    requires id < |w.loops| && w.loops[id].PostAnswered? && !w.stale && StartsFresh(w, Loop(id, succeeds))
    ensures !DoLoop(w, id, succeeds).stale
  {
  }

  lemma OtherLoopStepsStartNothing(w: World, id: nat, succeeds: bool)
    requires id < |w.loops| && !w.loops[id].PostAnswered?
    ensures DoLoop(w, id, succeeds).stale == w.stale
  {
    if !TouchesFlag(w.loops[id]) {
      LoopMoves(w, id, succeeds);
    }
  }

  lemma WorkIsNotStale(w: World)
    requires !w.stale && w.mailbox != []
    ensures !DoWork(w).stale
  {
  }

  lemma StepIsNotStale(w: World, step: Step)
    requires !w.stale && StartsFresh(w, step) && Next(w, step).Some?
    ensures !Next(w, step).value.stale
  {
    match step
    case Send(_, _) =>
    case Work => WorkIsNotStale(w);
    case HandOver(_) =>
    case Loop(id, succeeds) =>
      if w.loops[id].PostAnswered? {
        RestartIsNotStale(w, id, succeeds);
      } else {
        OtherLoopStepsStartNothing(w, id, succeeds);
      }
  }

  lemma {:induction false} FreshRunIsNotStale(w: World, steps: seq<Step>, w': World)
    requires Reaches(Next, w, steps, w') && FreshRun(w, steps) && !w.stale
    ensures !w'.stale
    decreases |steps|
  {
    if steps != [] {
      StepIsNotStale(w, steps[0]);
      FreshRunIsNotStale(Next(w, steps[0]).value, steps[1..], w');
    }
  }

  // ----- When a save of outdated bytes shows

  /** A loop's add, or its update of the manifest, fails. */
  predicate FailsSave(w: World, step: Step) {
    step.Loop? && step.id < |w.loops| && !step.succeeds && (w.loops[step.id].Adding? || w.loops[step.id].Added?)
  }

  ghost predicate SavesSucceed(w: World, steps: seq<Step>)
    decreases |steps|
  {
    steps == [] ||
    (!FailsSave(w, steps[0]) && Next(w, steps[0]).Some? && SavesSucceed(Next(w, steps[0]).value, steps[1..]))
  }

  /** After a start with outdated bytes nothing is pending, and these bytes are on their way
      or persisted. */
  ghost predicate StaleShows(w: World) {
    w.stale ==> w.ctx.pending.None? && (InTransit(w).None? ==> w.ctx.persisted != Some(w.lastAccepted))
  }

  lemma SameTransitShows(w: World, w': World)
    requires StaleShows(w) && InTransit(w') == InTransit(w)
    requires w'.ctx == w.ctx && w'.stale == w.stale && w'.lastAccepted == w.lastAccepted
    ensures StaleShows(w')
  {
  }

  lemma DispatchShows(w: World, sets: seq<Bytes>, delivered: bool)
    requires Inv(w) && StaleShows(w) && w.mailbox != [] && w.mailbox[0] == Dispatch(sets, delivered)
    ensures StaleShows(DoWork(w))
  {
    QueueAllEffect(w.ctx, sets);
    assert OwnerMail(w.mailbox) == OwnerMail(w.mailbox[1..]);
    assert InTransit(DoWork(w)) == InTransit(w);
  }

  lemma TakeOwnerShows(w: World, asker: nat)
    requires Inv(w) && w.clean && StaleShows(w) && w.mailbox != [] && w.mailbox[0] == TakePending(asker, false)
    ensures StaleShows(DoWork(w))
  {
    assert OwnerMail(w.mailbox)[1..] == OwnerMail(w.mailbox[1..]);
  }

  lemma TakeAfterReleaseShows(w: World, asker: nat)
    requires Inv(w) && w.clean && StaleShows(w) && w.mailbox != [] && w.mailbox[0] == TakePending(asker, true)
    ensures StaleShows(DoWork(w))
  {
    assert OwnerMail(w.mailbox) == OwnerMail(w.mailbox[1..]);
    if asker < |w.loops| && w.loops[asker].PostWaiting? {
      assert w.owner != Some(asker);
    } else {
      assert DoWork(w) == w.(mailbox := w.mailbox[1..]);
    }
    SameTransitShows(w, DoWork(w));
  }

  lemma WorkShows(w: World)
    requires Inv(w) && w.clean && StaleShows(w) && w.mailbox != []
    ensures StaleShows(DoWork(w))
  {
    match w.mailbox[0]
    case Dispatch(sets, delivered) => DispatchShows(w, sets, delivered);
    case TakePending(asker, afterRelease) =>
      if afterRelease { TakeAfterReleaseShows(w, asker); } else { TakeOwnerShows(w, asker); }
    case MarkSavedMsg(_) =>
  }

  lemma SpawnShows(w: World, bytes: Bytes)
    requires SingleFlight(w) && MailInv(w) && StaleShows(w)
    ensures StaleShows(Spawn(w, bytes))
  {
  }

  lemma AskOwnerShows(w: World, id: nat)
    requires Inv(w) && w.clean && StaleShows(w) && id < |w.loops| && w.loops[id].Asking? && HasRoom(w)
    ensures StaleShows(Ask(w, id, false))
  {
    OwnerMailAppend(w.mailbox, TakePending(id, false));
    SameTransitShows(w, Ask(w, id, false));
  }

  lemma AskAfterReleaseShows(w: World, id: nat)
    requires Inv(w) && w.clean && StaleShows(w) && id < |w.loops| && w.loops[id].PostAsking? && HasRoom(w)
    ensures StaleShows(Ask(w, id, true))
  {
    OwnerMailAppend(w.mailbox, TakePending(id, true));
    assert w.owner != Some(id);
    SameTransitShows(w, Ask(w, id, true));
  }

  lemma PublishedShows(w: World, id: nat, succeeds: bool)
    requires Inv(w) && w.clean && StaleShows(w) && id < |w.loops| && w.loops[id].Published?
    ensures StaleShows(DoLoop(w, id, succeeds)) || !HasRoom(w)
  {
    if HasRoom(w) {
      OwnerMailAppend(w.mailbox, MarkSavedMsg(w.loops[id].bytes));
      SameTransitShows(w, DoLoop(w, id, succeeds));
    }
  }

  lemma PostAnsweredShows(w: World, id: nat, succeeds: bool)
    requires Inv(w) && w.clean && StaleShows(w) && id < |w.loops| && w.loops[id].PostAnswered?
    ensures StaleShows(DoLoop(w, id, succeeds))
  {
    var w1 := SetPc(w, id, Finished);
    MovedKeepsFlight(w, id, Finished, w1);
    SameTransitShows(w, w1);
    if w.loops[id].reply.Some? {
      SpawnShows(w1, w.loops[id].reply.value);
    }
  }

  lemma QuietStepShows(w: World, id: nat)
    requires Inv(w) && w.clean && StaleShows(w) && id < |w.loops|
    requires var pc := w.loops[id]; pc.Adding? || pc.Added? || pc.Answered? || pc.Releasing?
    ensures StaleShows(DoLoop(w, id, true))
  {
    SameTransitShows(w, DoLoop(w, id, true));
  }

  lemma LoopShows(w: World, id: nat, succeeds: bool)
    requires Inv(w) && StaleShows(w) && id < |w.loops| && !FailsSave(w, Loop(id, succeeds))
    requires w.clean && DoLoop(w, id, succeeds).clean
    ensures StaleShows(DoLoop(w, id, succeeds))
  {
    match w.loops[id]
    case Asking => AskOwnerShows(w, id);
    case PostAsking => AskAfterReleaseShows(w, id);
    case Published(_) => PublishedShows(w, id, succeeds);
    case PostAnswered(_) => PostAnsweredShows(w, id, succeeds);
    case Waiting =>
    case PostWaiting =>
    case Finished =>
    case _ =>
      assert DoLoop(w, id, succeeds) == DoLoop(w, id, true);
      QuietStepShows(w, id);
  }

  lemma StepShows(w: World, step: Step)
    requires Inv(w) && StaleShows(w) && Next(w, step).Some? && !FailsSave(w, step)
    requires w.clean && Next(w, step).value.clean
    ensures StaleShows(Next(w, step).value)
  {
    match step
    case Send(sets, delivered) =>
      OwnerMailAppend(w.mailbox, Dispatch(sets, delivered));
      SameTransitShows(w, Next(w, step).value);
    case Work => WorkShows(w);
    case HandOver(b) => SpawnShows(w.(results := w.results - multiset{b}), b);
    case Loop(id, succeeds) => LoopShows(w, id, succeeds);
  }

  lemma {:induction false} RunShows(w: World, steps: seq<Step>, w': World)
    requires Inv(w) && StaleShows(w) && Reaches(Next, w, steps, w') && SavesSucceed(w, steps) && w'.clean
    ensures StaleShows(w')
    decreases |steps|
  {
    if steps != [] {
      var w1 := Next(w, steps[0]).value;
      RunHistory(w1, steps[1..], w');
      RunHistory(w, steps, w');
      StepKeeps(w, steps[0]);
      StepShows(w, steps[0]);
      RunShows(w1, steps[1..], w');
    }
  }

  // ----- Agreement at rest

  /** Nothing is pending, and the persisted bytes, which the manifest links to once something
      was saved, are the ones accepted last. */
  predicate Agrees(w: World) {
    && w.ctx.pending.None? && !w.ctx.dirty
    && w.ctx.persisted == Some(w.lastAccepted)
    && (w.manifest.Some? ==> w.manifest == Some(w.lastAccepted))
  }

  lemma RestIsSettled(w: World, steps: seq<Step>, w': World)
    requires Inv(w) && NoLostWakeup(w) && Reaches(Next, w, steps, w') && w'.clean && w'.tracked && Quiescent(w')
    ensures Inv(w') && w'.ctx.pending.None? && !w'.ctx.dirty && InTransit(w') == None
    ensures w'.manifest.Some? ==> w'.manifest == w'.ctx.persisted
  {
    ReachableInv(w, steps, w');
    CleanDropsNone(w, steps, w');
    KeptWhileNothingDrops(w, steps, w');
    assert w'.owner == None;
  }

  /** Once everything has come to rest nothing is pending, and the manifest links to the
      bytes the context calls persisted, whatever failed and was retried on the way. These are
      the bytes accepted last if no loop was started with other ones, with nothing pending,
      since they were accepted or last saved; and only if, when saves succeed. */
  lemma QuiescentAgreement(w: World, steps: seq<Step>, w': World)
    requires Init(w) && Reaches(Next, w, steps, w') && w'.clean && w'.tracked && Quiescent(w')
    ensures w'.ctx.pending.None? && !w'.ctx.dirty
    ensures w'.manifest.Some? ==> w'.manifest == w'.ctx.persisted
    ensures !w'.stale ==> Agrees(w')
    ensures SavesSucceed(w, steps) ==> (Agrees(w') <==> !w'.stale)
    ensures FreshRun(w, steps) ==> Agrees(w')
  {
    RestIsSettled(w, steps, w');
    if FreshRun(w, steps) {
      FreshRunIsNotStale(w, steps, w');
    }
    if SavesSucceed(w, steps) {
      RunShows(w, steps, w');
    }
  }

  // ----- Prompt hand-overs

  /** Handing every result over before the next dispatch begins makes each hand-over
      fresh, so only a post-release restart can bring older bytes back. */
  lemma PromptHandOverIsFresh(w: World, b: Bytes)
    requires Inv(w) && w.clean && w.prompt && b in w.results
    ensures Fresh(w, b)
  {
  }

  /** The post-release restarts of the run start with bytes that are not out of date. */
  ghost predicate RestartsFresh(w: World, steps: seq<Step>)
    decreases |steps|
  {
    steps == [] ||
    ((steps[0].Loop? ==> StartsFresh(w, steps[0])) && Next(w, steps[0]).Some?
     && RestartsFresh(Next(w, steps[0]).value, steps[1..]))
  }

  lemma {:induction false} PromptRunIsFresh(w: World, steps: seq<Step>, w': World)
    requires Inv(w) && Reaches(Next, w, steps, w') && w'.clean && w'.prompt && RestartsFresh(w, steps)
    ensures FreshRun(w, steps)
    decreases |steps|
  {
    if steps != [] {
      RunHistory(w, steps, w');
      if steps[0].HandOver? {
        PromptHandOverIsFresh(w, steps[0].bytes);
      }
      StepKeeps(w, steps[0]);
      PromptRunIsFresh(Next(w, steps[0]).value, steps[1..], w');
    }
  }

  /** So with prompt hand-overs everything agrees at rest, provided the restarts are fresh. */
  lemma PromptAgreement(w: World, steps: seq<Step>, w': World)
    requires Init(w) && Reaches(Next, w, steps, w') && w'.clean && w'.tracked && Quiescent(w')
    requires w'.prompt && RestartsFresh(w, steps)
    ensures Agrees(w')
  {
    PromptRunIsFresh(w, steps, w');
    QuiescentAgreement(w, steps, w');
  }

  // ----- All completions of a start

  lemma LoopGrowsLoops(w: World, id: nat, succeeds: bool)
    requires id < |w.loops|
    ensures |w.loops| <= |DoLoop(w, id, succeeds).loops|
    ensures !StartsFresh(w, Loop(id, succeeds)) ==> |w.loops| < |DoLoop(w, id, succeeds).loops|
  {
    if !TouchesFlag(w.loops[id]) {
      LoopMoves(w, id, succeeds);
    }
  }

  lemma StartGrowsLoops(w: World, step: Step)
    requires Next(w, step).Some?
    ensures |w.loops| <= |Next(w, step).value.loops|
    ensures !StartsFresh(w, step) ==> |w.loops| < |Next(w, step).value.loops|
  {
    match step
    case Loop(id, succeeds) => LoopGrowsLoops(w, id, succeeds);
    case _ =>
  }

  lemma {:induction false} RunGrowsLoops(w: World, steps: seq<Step>, w': World)
    requires Reaches(Next, w, steps, w')
    ensures |w.loops| <= |w'.loops|
    ensures |w.loops| == |w'.loops| ==> FreshRun(w, steps)
    decreases |steps|
  {
    if steps != [] {
      StartGrowsLoops(w, steps[0]);
      RunGrowsLoops(Next(w, steps[0]).value, steps[1..], w');
    }
  }

  /** The run comes to rest without another start with outdated bytes. */
  ghost predicate Completes(w: World, steps: seq<Step>, w': World) {
    Reaches(Next, w, steps, w') && FreshRun(w, steps) && w'.clean && Quiescent(w')
  }

  lemma FreshStartAgrees(w: World, b: Bytes, steps: seq<Step>, w': World)
    requires Inv(w) && w.clean && w.tracked && !w.stale && w.ctx.pending.None? && Fresh(w, b)
    requires Completes(Spawn(w, b), steps, w')
    ensures Agrees(w')
  {
    var w1 := Spawn(w, b);
    SpawnKeeps(w, b);
    RunHistory(w1, steps, w');
    RestIsSettled(w1, steps, w');
    FreshRunIsNotStale(w1, steps, w');
  }

  lemma StartCanComplete(w: World, b: Bytes) returns (steps: seq<Step>, w': World)
    requires Inv(w) && w.clean && w.ctx.pending.None? && Quiescent(w)
    ensures Completes(Spawn(w, b), steps, w') && w'.ctx.persisted == Some(b) && w'.lastAccepted == w.lastAccepted
  {
    assert !w.inFlight;
    steps := SaveToEnd(Spawn(w, b), |w.loops|, b);
    w' := Saved(Spawn(w, b), |w.loops|, b);
    RunGrowsLoops(Spawn(w, b), steps, w');
  }

  /** From an agreeing world at rest, every way to completion after a start with `b` ends in
      agreement again, whatever is dispatched, handed over or fails meanwhile, exactly when
      `b` is not out of date; and there is such a way. */
  lemma StartAgreesExactlyWhenFresh(w: World, b: Bytes)
    requires Inv(w) && w.clean && w.tracked && Quiescent(w) && !w.stale && w.ctx.pending.None?
    ensures Fresh(w, b) <==> forall steps, w' :: Completes(Spawn(w, b), steps, w') ==> Agrees(w')
    ensures exists steps, w' :: Completes(Spawn(w, b), steps, w')
  {
    var steps0, w0 := StartCanComplete(w, b);
    if Fresh(w, b) {
      forall steps, w' | Completes(Spawn(w, b), steps, w') ensures Agrees(w') {
        FreshStartAgrees(w, b, steps, w');
      }
    }
  }

  // ----- Runs that show the conditions are needed

  function Start(initial: Bytes): World {
    World(New(initial), [], multiset{}, false, [], None, None, true, true, initial, false, true)
  }

  /** The world after a dispatch that sets `b` has run, its result not yet handed over. */
  function Dispatched(w: World, b: Bytes): World {
    w.(ctx := QueueState(w.ctx, b), results := multiset{b}, tracked := true, lastAccepted := b, stale := false)
  }

  ghost predicate AtRest(w: World) {
    && Bookkeeping(w.ctx) && w.ctx.pending.None? && w.mailbox == [] && w.results == multiset{}
    && !w.inFlight && w.owner == None && w.clean && w.prompt
  }

  lemma OneSet(s: State, b: Bytes)
    requires Accepts(s, b)
    ensures AcceptedCount(s, [b]) == 1 && LastAccepted(s, [b]) == b && QueueAll(s, [b]) == QueueState(s, b)
  {
    assert [b][..0] == [];
  }

  /** A dispatch that fails after queueing state leaves it pending with nobody to save it. */
  lemma FailedDispatchLosesWakeup(initial: Bytes, b: Bytes) returns (steps: seq<Step>, w': World)
    requires b != initial
    ensures Init(Start(initial)) && Reaches(Next, Start(initial), steps, w') && !DropsNone(Start(initial), steps)
    ensures w'.tracked && w'.ctx.pending == Some(b) && !Covered(w')
  {
    var w := Start(initial);
    var w1 := w.(mailbox := [Dispatch([b], false)]);
    OneSet(w.ctx, b);
    OneMessage(w.mailbox, Dispatch([b], false));
    w' := w.(ctx := QueueState(w.ctx, b), clean := false, lastAccepted := b);
    steps := Then(w, [], w, Send([b], false), w1);
    steps := Then(w, steps, w1, Work, w');
    if DropsNone(w, steps) {
      WakeupIsNeverLost(w, steps, w');
    }
  }

  lemma DispatchRun(w: World, b: Bytes) returns (steps: seq<Step>)
    requires AtRest(w) && Accepts(w.ctx, b)
    ensures Reaches(Next, w, steps, Dispatched(w, b))
  {
    var w1 := w.(mailbox := [Dispatch([b], true)]);
    OneSet(w.ctx, b);
    OneMessage(w.mailbox, Dispatch([b], true));
    DispatchReportsExactly(w.ctx, [b]);
    assert multiset{} + multiset{b} == multiset{b};
    steps := Then(w, [], w, Send([b], true), w1);
    steps := Then(w, steps, w1, Work, Dispatched(w, b));
  }

  /** The world after `b` has been handed over, saved and the loop has ended. */
  function HandedOver(w: World, b: Bytes): World {
    Marked(w, b).(results := multiset{}, loops := w.loops + [Finished], manifest := Some(b))
  }

  lemma HandOverRun(w: World, b: Bytes) returns (steps: seq<Step>)
    requires w.mailbox == [] && !w.inFlight && w.results == multiset{b} && w.owner == None
    requires w.ctx.pending == Some(b) && w.lastAccepted == b
    ensures Reaches(Next, w, steps, HandedOver(w, b))
  {
    assert w.results - multiset{b} == multiset{};
    var w1 := Spawn(w.(results := multiset{}), b);
    steps := Then(w, [], w, HandOver(b), w1);
    var s := SaveToEnd(w1, |w.loops|, b);
    assert w1.loops[|w.loops| := Finished] == w.loops + [Finished];
    steps := ThenRun(w, steps, w1, s, HandedOver(w, b));
  }

  lemma OneLoopReleased(w: World) returns (s: seq<Step>, w': World)
    requires w == Start([0])
    ensures Reaches(Next, w, s, w') && AtRest(w') && w'.ctx.persisted == Some([1]) && w'.loops == [PostAsking]
  {
    s := DispatchRun(w, [1]);
    var w1 := Dispatched(w, [1]);
    assert multiset{[1]} - multiset{[1]} == multiset{};
    var w2 := w1.(results := multiset{}, inFlight := true, loops := [Adding([1])], owner := Some(0));
    assert w1.loops + [Adding([1])] == w2.loops;
    s := Then(w, s, w1, HandOver([1]), w2);
    var s2 := SaveToRelease(w2, 0, [1]);
    var w3 := Marked(SetPc(w2, 0, Releasing), [1]).(manifest := Some([1]));
    s := ThenRun(w, s, w2, s2, w3);
    w' := SetPc(w3, 0, PostAsking).(inFlight := false, owner := None);
    s := Then(w, s, w3, Loop(0, true), w');
  }

  lemma SecondStateRead(w: World) returns (s: seq<Step>, w': World)
    requires AtRest(w) && w.ctx.persisted == Some([1]) && w.loops == [PostAsking]
    ensures Reaches(Next, w, s, w') && w' == Dispatched(w, [2]).(loops := [PostAnswered(Some([2]))])
  {
    s := DispatchRun(w, [2]);
    var w1 := Dispatched(w, [2]);
    OneMessage(w.mailbox, TakePending(0, true));
    var w2 := w1.(loops := [PostWaiting], mailbox := [TakePending(0, true)]);
    assert w1.loops[0 := PostWaiting] == w2.loops;
    s := Then(w, s, w1, Loop(0, true), w2);
    assert w2.loops[0 := PostAnswered(Some([2]))] == [PostAnswered(Some([2]))];
    w' := Dispatched(w, [2]).(loops := [PostAnswered(Some([2]))]);
    s := Then(w, s, w2, Work, w');
  }

  /** The second and a third state are handed over at once and saved, one after the other. */
  lemma TwoMoreSaved(w: World) returns (s: seq<Step>, w': World)
    requires w.ctx.pending == Some([2]) && w.ctx.persisted == Some([1]) && w.lastAccepted == [2]
    requires Bookkeeping(w.ctx) && w.mailbox == [] && w.results == multiset{[2]}
    requires !w.inFlight && w.owner == None && w.clean && w.prompt
    ensures Reaches(Next, w, s, w') && AtRest(w') && w'.ctx.persisted == Some([3]) && w'.lastAccepted == [3]
    ensures w'.loops == w.loops + [Finished, Finished] && w'.tracked
  {
    s := HandOverRun(w, [2]);
    var w1 := HandedOver(w, [2]);
    var s1 := DispatchRun(w1, [3]);
    s := ThenRun(w, s, w1, s1, Dispatched(w1, [3]));
    var s2 := HandOverRun(Dispatched(w1, [3]), [3]);
    w' := HandedOver(Dispatched(w1, [3]), [3]);
    s := ThenRun(w, s, Dispatched(w1, [3]), s2, w');
  }

  /** Prompt hand-overs are not enough. A loop that has cleared the flag reads the second
      state; before it acts on it, the second and a third state are dispatched, handed over
      at once and saved. Its restart then saves the second state over the third, and
      everything comes to rest there. */
  lemma StaleRestartOverwrites()
    ensures exists w, steps, w' ::
              && Init(w) && Reaches(Next, w, steps, w') && w'.clean && w'.prompt && w'.tracked && Quiescent(w')
              && w'.lastAccepted == [3] && w'.ctx.persisted == Some([2]) && w'.manifest == Some([2])
  {
    var w := Start([0]);
    var s, w1 := OneLoopReleased(w);
    var s2, w2 := SecondStateRead(w1);
    s := ThenRun(w, s, w1, s2, w2);
    var s3, w3 := TwoMoreSaved(w2);
    s := ThenRun(w, s, w2, s3, w3);
    assert w3.loops == [PostAnswered(Some([2])), Finished, Finished];
    var w4 := Spawn(SetPc(w3, 0, Finished), [2]);
    s := Then(w, s, w3, Loop(0, true), w4);
    assert w4.loops == [Finished, Finished, Finished, Adding([2])];
    var s5 := SaveToEnd(w4, 3, [2]);
    var w5 := Saved(w4, 3, [2]);
    s := ThenRun(w, s, w4, s5, w5);
    assert Reaches(Next, w, s, w5) && Quiescent(w5);
  }
}
