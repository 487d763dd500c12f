/** From every reachable world the persist protocol can come to rest with nothing pending. */
module PersistRest {
  import opened Basics
  import opened StateCtx
  import opened Persist
  import opened PersistRuns
  import opened PersistWakeup
  import opened Runs

  predicate NoSends(steps: seq<Step>) {
    forall i :: 0 <= i < |steps| ==> !steps[i].Send?
  }

  // ----- Snapshots that were asked for

  /** A loop that waits for its last snapshot has its message in the mailbox. */
  ghost predicate SnapshotsAsked(w: World) {
    forall i: nat :: i < |w.loops| && w.loops[i].PostWaiting? ==> TakePending(i, true) in w.mailbox
  }

  lemma TakeMovesAsker(w: World, asker: nat, afterRelease: bool)
    ensures DoTake(w, asker, afterRelease).mailbox == w.mailbox && |DoTake(w, asker, afterRelease).loops| == |w.loops|
    ensures forall i: nat :: i < |w.loops| && DoTake(w, asker, afterRelease).loops[i].PostWaiting? ==>
              w.loops[i].PostWaiting? && (i != asker || !afterRelease)
  {
  }

  /** The worker takes one message, and moves at most the loop that sent it. */
  lemma WorkMovesAsker(w: World)
    requires w.mailbox != []
    ensures DoWork(w).mailbox == w.mailbox[1..] && |DoWork(w).loops| == |w.loops|
    ensures forall i: nat :: i < |w.loops| && DoWork(w).loops[i].PostWaiting? ==>
              w.loops[i].PostWaiting? && w.mailbox[0] != TakePending(i, true)
  {
    if w.mailbox[0].TakePending? {
      TakeMovesAsker(w.(mailbox := w.mailbox[1..]), w.mailbox[0].asker, w.mailbox[0].afterRelease);
    }
  }

  lemma WorkKeepsAsked(w: World)
    requires SnapshotsAsked(w) && w.mailbox != []
    ensures SnapshotsAsked(DoWork(w))
  {
    WorkMovesAsker(w);
    assert w.mailbox == [w.mailbox[0]] + w.mailbox[1..];
  }

  lemma AskSends(w: World, id: nat, afterRelease: bool)
    requires id < |w.loops|
    ensures var w' := Ask(w, id, afterRelease);
            w.mailbox <= w'.mailbox && (w'.mailbox == w.mailbox || |w'.mailbox| <= 64)
  {
  }

  lemma PublishedSends(w: World, id: nat, succeeds: bool)
    requires id < |w.loops| && w.loops[id].Published?
    ensures var w' := DoLoop(w, id, succeeds);
            w.mailbox <= w'.mailbox && (w'.mailbox == w.mailbox || |w'.mailbox| <= 64)
  {
  }

  lemma SavingSendsNothing(w: World, id: nat, succeeds: bool)
    requires id < |w.loops|
    requires var pc := w.loops[id]; pc.Adding? || pc.Added? || pc.Waiting? || pc.Answered?
    ensures DoLoop(w, id, succeeds).mailbox == w.mailbox
  {
  }

  lemma EndingSendsNothing(w: World, id: nat, succeeds: bool)
    requires id < |w.loops|
    requires var pc := w.loops[id]; pc.Releasing? || pc.PostWaiting? || pc.PostAnswered? || pc.Finished?
    ensures DoLoop(w, id, succeeds).mailbox == w.mailbox
  {
  }

  /** A loop sends at most one message, and only when there is room for it. */
  lemma LoopSends(w: World, id: nat, succeeds: bool)
    requires id < |w.loops|
    ensures var w' := DoLoop(w, id, succeeds);
            && w.mailbox <= w'.mailbox && (w'.mailbox == w.mailbox || |w'.mailbox| <= 64)
            && forall m :: m in w.mailbox ==> m in w'.mailbox
  {
    var pc := w.loops[id];
    if pc.Asking? || pc.PostAsking? {
      AskSends(w, id, pc.PostAsking?);
    } else if pc.Published? {
      PublishedSends(w, id, succeeds);
    } else if pc.Releasing? || pc.PostWaiting? || pc.PostAnswered? || pc.Finished? {
      EndingSendsNothing(w, id, succeeds);
    } else {
      SavingSendsNothing(w, id, succeeds);
    }
  }

  lemma FlagStepsDoNotWait(w: World, id: nat, succeeds: bool)
    requires id < |w.loops| && TouchesFlag(w.loops[id])
    ensures |w.loops| <= |DoLoop(w, id, succeeds).loops| && !DoLoop(w, id, succeeds).loops[id].PostWaiting?
  {
  }

  /** A loop starts to wait for its last snapshot only when it has asked for it. */
  lemma LoopWaits(w: World, id: nat, succeeds: bool)
    requires id < |w.loops| && !w.loops[id].PostWaiting?
    ensures |w.loops| <= |DoLoop(w, id, succeeds).loops|
    ensures DoLoop(w, id, succeeds).loops[id].PostWaiting? ==> TakePending(id, true) in DoLoop(w, id, succeeds).mailbox
  {
    if w.loops[id].PostAsking? {
      assert DoLoop(w, id, succeeds) == Ask(w, id, true);
    } else if TouchesFlag(w.loops[id]) {
      FlagStepsDoNotWait(w, id, succeeds);
    } else {
      LoopMoves(w, id, succeeds);
    }
  }

  /** The other loops stay where they are; a new one does not wait. */
  lemma OtherLoopsStay(w: World, id: nat, succeeds: bool, i: nat)
    requires id < |w.loops| && i != id && i < |DoLoop(w, id, succeeds).loops|
    requires DoLoop(w, id, succeeds).loops[i].PostWaiting?
    ensures i < |w.loops| && w.loops[i].PostWaiting?
  {
    if !TouchesFlag(w.loops[id]) {
      LoopMoves(w, id, succeeds);
    }
  }

  lemma LoopKeepsAsked(w: World, id: nat, succeeds: bool)
    requires SnapshotsAsked(w) && id < |w.loops|
    ensures SnapshotsAsked(DoLoop(w, id, succeeds))
  {
    var w' := DoLoop(w, id, succeeds);
    LoopSends(w, id, succeeds);
    forall i: nat | i < |w'.loops| && w'.loops[i].PostWaiting? ensures TakePending(i, true) in w'.mailbox {
      if i != id {
        OtherLoopsStay(w, id, succeeds, i);
      } else if !w.loops[id].PostWaiting? {
        LoopWaits(w, id, succeeds);
      }
    }
  }

  lemma StepKeepsAsked(w: World, step: Step)
    requires SnapshotsAsked(w) && Next(w, step).Some?
    ensures SnapshotsAsked(Next(w, step).value)
  {
    match step
    case Work => WorkKeepsAsked(w);
    case Loop(id, succeeds) => LoopKeepsAsked(w, id, succeeds);
    case _ =>
  }

  // ----- What a run that goes well keeps

  /** No flaw so far, and all invariants. */
  ghost predicate Healthy(w: World) {
    w.clean && Inv(w) && NoLostWakeup(w) && SnapshotsAsked(w)
  }

  lemma {:induction false} RunKeepsHealth(w: World, steps: seq<Step>, w': World)
    requires Healthy(w) && Reaches(Next, w, steps, w') && w'.clean
    ensures Healthy(w')
    decreases |steps|
  {
    if steps != [] {
      var w1 := Next(w, steps[0]).value;
      RunHistory(w1, steps[1..], w');
      StepKeeps(w, steps[0]);
      StepKeepsAsked(w, steps[0]);
      if Drops(w, steps[0]) {
        DropIsNotClean(w, steps[0]);
      }
      StepLosesWakeupExactly(w, steps[0]);
      RunKeepsHealth(w1, steps[1..], w');
    }
  }

  // ----- One loop to its end

  /** How many loops have not ended. */
  function Unfinished(loops: seq<Pc>): nat {
    if loops == [] then 0 else (if loops[0].Finished? then 0 else 1) + Unfinished(loops[1..])
  }

  lemma {:induction false} UnfinishedAppend(a: seq<Pc>, b: seq<Pc>)
    ensures Unfinished(a + b) == Unfinished(a) + Unfinished(b)
    decreases |a|
  {
    if a == [] {
      assert a + b == b;
    } else {
      UnfinishedAppend(a[1..], b);
      assert (a + b)[1..] == a[1..] + b;
    }
  }

  lemma UnfinishedUpdate(loops: seq<Pc>, k: nat, pc: Pc)
    requires k < |loops|
    ensures Unfinished(loops[k := pc]) ==
            Unfinished(loops) - (if loops[k].Finished? then 0 else 1) + (if pc.Finished? then 0 else 1)
  {
    var a, b := loops[..k], loops[k + 1..];
    UnfinishedAppend(a, [loops[k]] + b);
    UnfinishedAppend(a, [pc] + b);
    assert loops == a + ([loops[k]] + b) && loops[k := pc] == a + ([pc] + b);
    assert ([loops[k]] + b)[1..] == b && ([pc] + b)[1..] == b;
  }

  lemma {:induction false} AllFinished(loops: seq<Pc>)
    ensures Unfinished(loops) == 0 <==> forall i :: 0 <= i < |loops| ==> loops[i].Finished?
  {
    if loops != [] {
      AllFinished(loops[1..]);
      assert forall i :: 0 < i < |loops| ==> loops[i] == loops[1..][i - 1];
      if forall i :: 0 <= i < |loops| ==> loops[i].Finished? {
        forall i: nat | i < |loops[1..]| ensures loops[1..][i].Finished? {
          assert loops[1..][i] == loops[i + 1];
        }
      }
    }
  }

  /** Only loop `k` has moved, to `pc`, and nothing is in the mail. */
  ghost predicate MovedTo(w: World, k: nat, pc: Pc, w': World) {
    && k < |w.loops| && w'.loops == w.loops[k := pc] && w'.mailbox == [] && w'.results == w.results
    && w'.clean == w.clean && w'.inFlight == w.inFlight && w'.owner == w.owner && Bookkeeping(w'.ctx)
  }

  lemma MarkedIsBooked(s: State, b: Bytes)
    requires Bookkeeping(s)
    ensures Bookkeeping(MarkSaved(s, b))
    ensures s.pending == Some(b) ==> MarkSaved(s, b).pending.None?
  {
  }

  lemma AskingToReleasing(w: World, k: nat) returns (steps: seq<Step>, w': World)
    requires k < |w.loops| && w.loops[k] == Asking && w.mailbox == [] && Bookkeeping(w.ctx)
    ensures Reaches(Next, w, steps, w') && Drives(steps, k) && MovedTo(w, k, Releasing, w')
    ensures w'.ctx.pending.None?
  {
    if w.ctx.pending.Some? {
      var b := w.ctx.pending.value;
      LoopDrains(w, k, b);
      MarkedIsBooked(w.ctx, b);
      steps := AskSteps(k) + SaveSteps(k) + AskSteps(k);
      w' := Marked(SetPc(w, k, Releasing), b).(manifest := Some(b));
    } else {
      AskRun(w, k);
      steps := AskSteps(k);
      w' := SetPc(w, k, Releasing);
    }
  }

  lemma AddingToReleasing(w: World, k: nat, b: Bytes) returns (steps: seq<Step>, w': World)
    requires k < |w.loops| && w.loops[k] == Adding(b) && w.mailbox == [] && Bookkeeping(w.ctx)
    ensures Reaches(Next, w, steps, w') && Drives(steps, k) && MovedTo(w, k, Releasing, w')
    ensures w'.ctx.pending.None?
  {
    SaveRun(w, k, b);
    MarkedIsBooked(w.ctx, b);
    var w1 := Marked(SetPc(w, k, Asking), b).(manifest := Some(b));
    var s;
    s, w' := AskingToReleasing(w1, k);
    steps := ThenRun(w, SaveSteps(k), w1, s, w');
    assert w.loops[k := Asking][k := Releasing] == w.loops[k := Releasing];
  }

  lemma PublishedToReleasing(w: World, k: nat, b: Bytes) returns (steps: seq<Step>, w': World)
    requires k < |w.loops| && w.loops[k] == Published(b) && w.mailbox == [] && Bookkeeping(w.ctx)
    ensures Reaches(Next, w, steps, w') && Drives(steps, k) && MovedTo(w, k, Releasing, w')
    ensures w'.ctx.pending.None?
  {
    var w1 := SetPc(w, k, Asking).(mailbox := [MarkSavedMsg(b)]);
    var w2 := Marked(SetPc(w, k, Asking), b);
    OneMessage(w.mailbox, MarkSavedMsg(b));
    MarkedIsBooked(w.ctx, b);
    steps := Then(w, [], w, Loop(k, true), w1);
    steps := Then(w, steps, w1, Work, w2);
    var s;
    s, w' := AskingToReleasing(w2, k);
    steps := ThenRun(w, steps, w2, s, w');
    assert w.loops[k := Asking][k := Releasing] == w.loops[k := Releasing];
  }

  lemma AddedToReleasing(w: World, k: nat, b: Bytes) returns (steps: seq<Step>, w': World)
    requires k < |w.loops| && w.loops[k] == Added(b) && w.mailbox == [] && Bookkeeping(w.ctx)
    ensures Reaches(Next, w, steps, w') && Drives(steps, k) && MovedTo(w, k, Releasing, w')
    ensures w'.ctx.pending.None?
  {
    var w1 := SetPc(w, k, Published(b)).(manifest := Some(b));
    steps := Then(w, [], w, Loop(k, true), w1);
    var s;
    s, w' := PublishedToReleasing(w1, k, b);
    steps := ThenRun(w, steps, w1, s, w');
    assert w.loops[k := Published(b)][k := Releasing] == w.loops[k := Releasing];
  }

  lemma AnsweredToReleasing(w: World, k: nat, reply: Option<Bytes>) returns (steps: seq<Step>, w': World)
    requires k < |w.loops| && w.loops[k] == Answered(reply) && w.mailbox == [] && Bookkeeping(w.ctx)
    ensures Reaches(Next, w, steps, w') && Drives(steps, k) && MovedTo(w, k, Releasing, w')
  {
    var w1 := SetPc(w, k, OnAnswer(reply));
    steps := Then(w, [], w, Loop(k, true), w1);
    if reply.Some? {
      var s;
      s, w' := AddingToReleasing(w1, k, reply.value);
      steps := ThenRun(w, steps, w1, s, w');
      assert w.loops[k := Adding(reply.value)][k := Releasing] == w.loops[k := Releasing];
    } else {
      w' := w1;
    }
  }

  lemma MainToReleasing(w: World, k: nat) returns (steps: seq<Step>, w': World)
    requires Inv(w) && k < |w.loops| && InMain(w.loops[k]) && !w.loops[k].Waiting? && w.mailbox == []
    ensures Reaches(Next, w, steps, w') && Drives(steps, k) && MovedTo(w, k, Releasing, w')
  {
    match w.loops[k]
    case Adding(b) => steps, w' := AddingToReleasing(w, k, b);
    case Added(b) => steps, w' := AddedToReleasing(w, k, b);
    case Published(b) => steps, w' := PublishedToReleasing(w, k, b);
    case Asking => steps, w' := AskingToReleasing(w, k);
    case Answered(reply) => steps, w' := AnsweredToReleasing(w, k, reply);
    case Releasing =>
      steps, w' := [], w;
      assert w.loops[k := Releasing] == w.loops;
  }

  // ----- After the release

  /** The loops that are left are those of `w`, but for `k`, and nothing is in the mail. */
  ghost predicate EndedLoop(w: World, k: nat, w': World) {
    && k < |w.loops| && Unfinished(w'.loops) < Unfinished(w.loops)
    && w'.mailbox == [] && w'.results == w.results && !w'.inFlight
  }

  /** A restarted loop saves what is pending and ends. */
  lemma RestartToEnd(w: World, b: Bytes) returns (steps: seq<Step>, w': World)
    requires !w.inFlight && w.mailbox == [] && Bookkeeping(w.ctx)
    ensures Reaches(Next, Spawn(w, b), steps, w') && NoSends(steps)
    ensures Unfinished(w'.loops) == Unfinished(w.loops) && w'.mailbox == [] && w'.results == w.results
    ensures w'.clean == w.clean && !w'.inFlight
  {
    var k, w1 := |w.loops|, Spawn(w, b);
    var s, w2 := AddingToReleasing(w1, k, b);
    var s2 := ReleaseToEnd(w2, k);
    w' := SetPc(w2, k, Finished).(inFlight := false, owner := None);
    steps := ThenRun(w1, s, w2, s2, w');
    assert w'.loops == w.loops + [Finished];
    UnfinishedAppend(w.loops, [Finished]);
  }

  lemma PostAnsweredEnds(w: World, k: nat, reply: Option<Bytes>) returns (steps: seq<Step>, w': World)
    requires k < |w.loops| && w.loops[k] == PostAnswered(reply) && w.mailbox == [] && !w.inFlight && Bookkeeping(w.ctx)
    ensures Reaches(Next, w, steps, w') && NoSends(steps) && EndedLoop(w, k, w') && w'.clean == w.clean
  {
    var w1 := SetPc(w, k, Finished);
    UnfinishedUpdate(w.loops, k, Finished);
    if reply.Some? {
      steps := Then(w, [], w, Loop(k, true), Spawn(w1, reply.value));
      var s;
      s, w' := RestartToEnd(w1, reply.value);
      steps := ThenRun(w, steps, Spawn(w1, reply.value), s, w');
    } else {
      w' := w1;
      steps := Then(w, [], w, Loop(k, true), w1);
    }
  }

  lemma PostAskingEnds(w: World, k: nat) returns (steps: seq<Step>, w': World)
    requires k < |w.loops| && w.loops[k] == PostAsking && w.mailbox == [] && !w.inFlight && Bookkeeping(w.ctx)
    ensures Reaches(Next, w, steps, w') && NoSends(steps) && EndedLoop(w, k, w') && w'.clean == w.clean
  {
    var w1 := SetPc(w, k, PostWaiting).(mailbox := [TakePending(k, true)]);
    var w2 := SetPc(w, k, PostAnswered(w.ctx.pending));
    OneMessage(w.mailbox, TakePending(k, true));
    steps := Then(w, [], w, Loop(k, true), w1);
    assert SetPc(w1, k, PostAnswered(w.ctx.pending)).loops == w2.loops;
    steps := Then(w, steps, w1, Work, w2);
    UnfinishedUpdate(w.loops, k, PostAnswered(w.ctx.pending));
    var s;
    s, w' := PostAnsweredEnds(w2, k, w.ctx.pending);
    steps := ThenRun(w, steps, w2, s, w');
  }

  lemma ReleasingEnds(w: World, k: nat) returns (steps: seq<Step>, w': World)
    requires k < |w.loops| && w.loops[k] == Releasing && w.mailbox == [] && Bookkeeping(w.ctx)
    ensures Reaches(Next, w, steps, w') && NoSends(steps) && EndedLoop(w, k, w') && w'.clean == w.clean
  {
    var w1 := SetPc(w, k, PostAsking).(inFlight := false, owner := None);
    steps := Then(w, [], w, Loop(k, true), w1);
    UnfinishedUpdate(w.loops, k, PostAsking);
    var s;
    s, w' := PostAskingEnds(w1, k);
    steps := ThenRun(w, steps, w1, s, w');
  }

  /** A loop that waits for an answer that will not come gives up, and ends. */
  lemma TimeoutEnds(w: World, k: nat) returns (steps: seq<Step>, w': World)
    requires k < |w.loops| && w.loops[k].Waiting? && w.mailbox == [] && Bookkeeping(w.ctx)
    ensures Reaches(Next, w, steps, w') && NoSends(steps) && EndedLoop(w, k, w')
  {
    var w1 := SetPc(w, k, Releasing).(clean := false);
    var s1 := Then(w, [], w, Loop(k, false), w1);
    UnfinishedUpdate(w.loops, k, Releasing);
    var s2;
    s2, w' := ReleasingEnds(w1, k);
    steps := ThenRun(w, s1, w1, s2, w');
  }

  lemma MainEnds(w: World, k: nat) returns (steps: seq<Step>, w': World)
    requires Inv(w) && k < |w.loops| && InMain(w.loops[k]) && w.mailbox == []
    ensures Reaches(Next, w, steps, w') && NoSends(steps) && EndedLoop(w, k, w')
    ensures Healthy(w) ==> w'.clean
  {
    if w.loops[k].Waiting? {
      assert w.owner == Some(k);
      steps, w' := TimeoutEnds(w, k);
    } else {
      var s1, w1 := MainToReleasing(w, k);
      var s2;
      s2, w' := ReleasingEnds(w1, k);
      UnfinishedUpdate(w.loops, k, Releasing);
      steps := ThenRun(w, s1, w1, s2, w');
    }
  }

  lemma LastTimeoutEnds(w: World, k: nat) returns (steps: seq<Step>, w': World)
    requires k < |w.loops| && w.loops[k].PostWaiting? && w.mailbox == [] && !w.inFlight
    ensures Reaches(Next, w, steps, w') && NoSends(steps) && EndedLoop(w, k, w')
  {
    w' := SetPc(w, k, Finished).(clean := false);
    steps := Then(w, [], w, Loop(k, false), w');
    UnfinishedUpdate(w.loops, k, Finished);
  }

  /** With the mailbox empty some loop can be brought to its end, if one has not ended. */
  lemma SomeLoopEnds(w: World) returns (steps: seq<Step>, w': World)
    requires Inv(w) && w.mailbox == [] && Unfinished(w.loops) > 0
    ensures Reaches(Next, w, steps, w') && NoSends(steps) && w'.mailbox == [] && w'.results == w.results
    ensures Unfinished(w'.loops) < Unfinished(w.loops) && (Healthy(w) ==> w'.clean)
  {
    if w.owner.Some? {
      steps, w' := MainEnds(w, w.owner.value);
    } else {
      AllFinished(w.loops);
      var k: nat :| k < |w.loops| && !w.loops[k].Finished?;
      assert !InMain(w.loops[k]);
      if w.loops[k].PostAsking? {
        steps, w' := PostAskingEnds(w, k);
      } else if w.loops[k].PostWaiting? {
        steps, w' := LastTimeoutEnds(w, k);
      } else {
        steps, w' := PostAnsweredEnds(w, k, w.loops[k].reply);
      }
    }
  }

  // ----- To rest

  lemma {:induction false} Settle(w: World) returns (steps: seq<Step>, w': World)
    requires Inv(w) && w.mailbox == [] && w.results == multiset{}
    ensures Reaches(Next, w, steps, w') && NoSends(steps) && Quiescent(w') && (Healthy(w) ==> w'.clean)
    decreases Unfinished(w.loops)
  {
    AllFinished(w.loops);
    if Unfinished(w.loops) == 0 {
      steps, w' := [], w;
    } else {
      var s1, w1 := SomeLoopEnds(w);
      ReachableInv(w, s1, w1);
      if Healthy(w) {
        RunKeepsHealth(w, s1, w1);
      }
      var s2;
      s2, w' := Settle(w1);
      steps := ThenRun(w, s1, w1, s2, w');
    }
  }

  lemma {:induction false} HandAllOver(w: World) returns (steps: seq<Step>, w': World)
    requires w.mailbox == []
    ensures Reaches(Next, w, steps, w') && NoSends(steps)
    ensures w'.mailbox == [] && w'.results == multiset{} && w'.clean == w.clean
    decreases |w.results|
  {
    if w.results == multiset{} {
      steps, w' := [], w;
    } else {
      var b :| b in w.results;
      var w1 := Spawn(w.(results := w.results - multiset{b}), b);
      var s1 := Then(w, [], w, HandOver(b), w1);
      var s2;
      s2, w' := HandAllOver(w1);
      steps := ThenRun(w, s1, w1, s2, w');
    }
  }

  /** The world after the worker has gone through its mail. */
  function Worked(w: World): World
    decreases |w.mailbox|
  {
    if w.mailbox == [] then w
    else
      WorkMovesAsker(w);
      Worked(DoWork(w))
  }

  lemma {:induction false} WorkThrough(w: World) returns (steps: seq<Step>)
    ensures Reaches(Next, w, steps, Worked(w)) && NoSends(steps) && Worked(w).mailbox == []
    decreases |w.mailbox|
  {
    steps := [];
    if w.mailbox != [] {
      WorkMovesAsker(w);
      var s := WorkThrough(DoWork(w));
      steps := [Work] + s;
      assert steps[1..] == s;
    }
  }

  lemma RestOfHealthy(w: World, w1: World, s1: seq<Step>, w2: World, s2: seq<Step>, w': World, s3: seq<Step>)
    requires Healthy(w) && w1.clean && w2.clean == w1.clean && Reaches(Next, w, s1, w1) && Reaches(Next, w1, s2, w2)
    requires Reaches(Next, w2, s3, w') && Quiescent(w') && (Healthy(w2) ==> w'.clean)
    ensures w'.clean && (w'.tracked ==> w'.ctx.pending.None? && !w'.ctx.dirty)
  {
    RunKeepsHealth(w, s1, w1);
    RunKeepsHealth(w1, s2, w2);
    RunKeepsHealth(w2, s3, w');
    assert w'.owner == None;
  }

  /** The protocol never gets stuck: from every reachable world it can come to rest without
      further dispatches; the worker goes through its mail, every result is handed over, every
      loop ends and the flag is clear. If nothing was refused, lost or timed out until then, and no
      dispatch in the mail fails to report what it queues, that takes no such flaw either, and
      nothing that a dispatch queued is left pending. */
  lemma CanComeToRest(w0: World, before: seq<Step>, w: World) returns (steps: seq<Step>, w': World)
    requires Init(w0) && Reaches(Next, w0, before, w)
    ensures Reaches(Next, w, steps, w') && NoSends(steps) && Quiescent(w') && !w'.inFlight
    ensures Worked(w).clean ==> w'.clean && (w'.tracked ==> w'.ctx.pending.None? && !w'.ctx.dirty)
  {
    var s1 := WorkThrough(w);
    var w1 := Worked(w);
    var s2, w2 := HandAllOver(w1);
    ReachableInv(w0, before, w);
    ReachableInv(w, s1, w1);
    ReachableInv(w1, s2, w2);
    var s3;
    s3, w' := Settle(w2);
    ReachableInv(w2, s3, w');
    var s12 := ThenRun(w, s1, w1, s2, w2);
    steps := ThenRun(w, s12, w2, s3, w');
    if w1.clean {
      RunHistory(w, s1, w1);
      RunHistory(w0, before, w);
      RunKeepsHealth(w0, before, w);
      RestOfHealthy(w, w1, s1, w2, s2, w', s3);
    }
    assert w'.owner == None;
  }

  // ----- The mailbox

  lemma StepKeepsRoom(w: World, step: Step)
    requires |w.mailbox| <= 64 && Next(w, step).Some?
    ensures |Next(w, step).value.mailbox| <= 64
  {
    match step
    case Work => WorkMovesAsker(w);
    case Loop(id, succeeds) => LoopSends(w, id, succeeds);
    case _ =>
  }

  /** The mailbox never holds more than 64 messages, and a dispatch is refused exactly when it
      holds that many. */
  lemma MailboxIsBounded(w0: World, steps: seq<Step>, w: World, sets: seq<Bytes>, delivered: bool)
    requires Init(w0) && Reaches(Next, w0, steps, w)
    ensures |w.mailbox| <= 64
    ensures Next(w, Send(sets, delivered)).None? <==> |w.mailbox| == 64
  {
    forall v: World, s: Step | |v.mailbox| <= 64 && Next(v, s).Some? ensures |Next(v, s).value.mailbox| <= 64 {
      StepKeepsRoom(v, s);
    }
    Preserved(Next, (v: World) => |v.mailbox| <= 64, w0, steps, w);
  }
}
