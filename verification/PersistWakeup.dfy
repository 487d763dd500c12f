/** Exactly which steps of the persist protocol leave pending state with nobody to save it. */
module PersistWakeup {
  import opened Basics
  import opened StateCtx
  import opened Persist
  import opened Runs

  /** Released, with the post-release snapshot still to be acted on. */
  predicate OwesSnapshot(pc: Pc) {
    pc.PostAsking? || pc.PostWaiting? || (pc.PostAnswered? && pc.reply.Some?)
  }

  /** Somebody is still going to look at the pending state. */
  ghost predicate Covered(w: World) {
    || w.results != multiset{}
    || w.inFlight
    || exists i :: 0 <= i < |w.loops| && OwesSnapshot(w.loops[i])
  }

  ghost predicate NoLostWakeup(w: World) {
    w.tracked && w.ctx.pending.Some? ==> Covered(w)
  }

  // ----- Which steps lose the wakeup

  /** A dispatch queues state and its caller never learns of it. */
  predicate Unreported(w: World, sets: seq<Bytes>, delivered: bool) {
    AcceptedCount(w.ctx, sets) > 0 && !(delivered && AcceptedCount(w.ctx, sets) % GENERATIONS != 0)
  }

  /** A loop that has cleared the flag is refused its snapshot, or stops waiting for it. */
  predicate GivesUpSnapshot(w: World, id: nat, succeeds: bool)
    requires id < |w.loops|
  {
    (w.loops[id].PostAsking? && !HasRoom(w)) || (w.loops[id].PostWaiting? && !succeeds)
  }

  /** The only two kinds of step that can lose a wakeup. */
  predicate Drops(w: World, step: Step) {
    match step
    case Work => w.mailbox != [] && w.mailbox[0].Dispatch? && Unreported(w, w.mailbox[0].sets, w.mailbox[0].delivered)
    case Loop(id, succeeds) => id < |w.loops| && GivesUpSnapshot(w, id, succeeds)
    case _ => false
  }

  /** Nobody but loop `id` is going to look at the pending state. */
  ghost predicate OnlyCover(w: World, id: nat) {
    w.results == multiset{} && !w.inFlight && forall i :: 0 <= i < |w.loops| && i != id ==> !OwesSnapshot(w.loops[i])
  }

  /** Such a step with no other cover. */
  ghost predicate LosesWakeup(w: World, step: Step) {
    Drops(w, step) &&
    match step
    case Work => !Covered(w)
    case Loop(id, _) => w.tracked && w.ctx.pending.Some? && OnlyCover(w, id)
    case _ => false
  }

  /** After a dispatch somebody attends to what is pending exactly when somebody did before,
      or nothing was accepted, or the caller gets the report. */
  lemma DispatchLosesWakeupExactly(w: World, sets: seq<Bytes>, delivered: bool)
    requires w.mailbox != [] && w.mailbox[0] == Dispatch(sets, delivered) && Bookkeeping(w.ctx) && NoLostWakeup(w)
    ensures NoLostWakeup(DoWork(w)) <==>
            || Covered(w)
            || AcceptedCount(w.ctx, sets) == 0
            || (delivered && AcceptedCount(w.ctx, sets) % GENERATIONS != 0)
  {
    QueueAllEffect(w.ctx, sets);
    DispatchReportsExactly(w.ctx, sets);
  }

  /** Covers that are there after a loop's step were there before, or are its own. */
  lemma CoverAfterMove(w: World, id: nat, pc: Pc, w': World)
    requires id < |w.loops| && w'.loops == w.loops[id := pc] && w'.inFlight == w.inFlight && w'.results == w.results
    ensures Covered(w') <==> OwesSnapshot(pc) || !OnlyCover(w, id)
  {
    if OwesSnapshot(pc) {
      assert OwesSnapshot(w'.loops[id]);
    }
    if i :| 0 <= i < |w.loops| && i != id && OwesSnapshot(w.loops[i]) {
      assert OwesSnapshot(w'.loops[i]);
    }
  }

  lemma CoverBefore(w: World, id: nat)
    requires id < |w.loops|
    ensures Covered(w) <==> OwesSnapshot(w.loops[id]) || !OnlyCover(w, id)
  {
    CoverAfterMove(w, id, w.loops[id], w);
  }

  lemma TakeLosesNothing(w: World, asker: nat, afterRelease: bool)
    requires w.mailbox != [] && w.mailbox[0] == TakePending(asker, afterRelease) && NoLostWakeup(w)
    ensures NoLostWakeup(DoWork(w))
  {
    var w' := DoWork(w);
    if w'.loops != w.loops {
      CoverBefore(w, asker);
      CoverAfterMove(w, asker, w'.loops[asker], w');
    }
  }

  /** The loop's step is to clear the flag or to start another loop. */
  predicate TouchesFlag(pc: Pc) {
    pc.Releasing? || (pc.PostAnswered? && pc.reply.Some?)
  }

  /** `w'` differs from `w` in where loop `id` stands, and otherwise at most in mailbox and
      manifest, and in a flaw on record. */
  ghost predicate OnlyMoves(w: World, id: nat, w': World)
    requires id < |w.loops|
  {
    && |w'.loops| == |w.loops| && w'.loops == w.loops[id := w'.loops[id]]
    && w' == w.(loops := w'.loops, mailbox := w'.mailbox, manifest := w'.manifest, clean := w'.clean)
    && (w'.clean ==> w.clean)
  }

  lemma AskMoves(w: World, id: nat, afterRelease: bool)
    requires id < |w.loops|
    ensures OnlyMoves(w, id, Ask(w, id, afterRelease))
    ensures OwesSnapshot(Ask(w, id, afterRelease).loops[id]) <==> afterRelease && HasRoom(w)
  {
  }

  lemma SavingMoves(w: World, id: nat, succeeds: bool)
    requires id < |w.loops|
    requires var pc := w.loops[id]; pc.Adding? || pc.Added? || pc.Published? || pc.Answered?
    ensures OnlyMoves(w, id, DoLoop(w, id, succeeds))
    ensures !OwesSnapshot(DoLoop(w, id, succeeds).loops[id])
  {
  }

  lemma WaitingMoves(w: World, id: nat, succeeds: bool)
    requires id < |w.loops| && (w.loops[id].Waiting? || w.loops[id].PostWaiting?)
    ensures OnlyMoves(w, id, DoLoop(w, id, succeeds))
    ensures OwesSnapshot(DoLoop(w, id, succeeds).loops[id]) <==> w.loops[id].PostWaiting? && succeeds
  {
    assert succeeds ==> w.loops[id := w.loops[id]] == w.loops;
  }

  lemma EndingMoves(w: World, id: nat, succeeds: bool)
    requires id < |w.loops| && (w.loops[id] == PostAnswered(None) || w.loops[id].Finished?)
    ensures OnlyMoves(w, id, DoLoop(w, id, succeeds))
    ensures !OwesSnapshot(DoLoop(w, id, succeeds).loops[id])
  {
    assert w.loops[id := w.loops[id]] == w.loops;
  }

  /** Any other step moves the loop, which stays in debt unless it gives up. */
  lemma LoopMoves(w: World, id: nat, succeeds: bool)
    requires id < |w.loops| && !TouchesFlag(w.loops[id])
    ensures OnlyMoves(w, id, DoLoop(w, id, succeeds))
    ensures OwesSnapshot(DoLoop(w, id, succeeds).loops[id]) <==>
            OwesSnapshot(w.loops[id]) && !GivesUpSnapshot(w, id, succeeds)
  {
    var pc := w.loops[id];
    if pc.Asking? || pc.PostAsking? {
      AskMoves(w, id, pc.PostAsking?);
    } else if pc.Waiting? || pc.PostWaiting? {
      WaitingMoves(w, id, succeeds);
    } else if pc.PostAnswered? || pc.Finished? {
      EndingMoves(w, id, succeeds);
    } else {
      SavingMoves(w, id, succeeds);
    }
  }

  lemma LoopLosesExactly(w: World, id: nat, succeeds: bool)
    requires id < |w.loops| && NoLostWakeup(w)
    ensures NoLostWakeup(DoLoop(w, id, succeeds)) <==> !LosesWakeup(w, Loop(id, succeeds))
  {
    var w' := DoLoop(w, id, succeeds);
    if w.loops[id].Releasing? {
      assert OwesSnapshot(w'.loops[id]);
    } else if TouchesFlag(w.loops[id]) {
      assert w'.inFlight;
    } else {
      LoopMoves(w, id, succeeds);
      CoverBefore(w, id);
      CoverAfterMove(w, id, w'.loops[id], w');
    }
  }

  /** A step loses the wakeup exactly when it is a dispatch that queues state and does not
      report it, or a post-release snapshot that is given up, and nobody else is left to look. */
  lemma StepLosesWakeupExactly(w: World, step: Step)
    requires Bookkeeping(w.ctx) && NoLostWakeup(w) && Next(w, step).Some?
    ensures NoLostWakeup(Next(w, step).value) <==> !LosesWakeup(w, step)
  {
    match step
    case Loop(id, succeeds) => LoopLosesExactly(w, id, succeeds);
    case Work =>
      match w.mailbox[0] {
        case Dispatch(sets, delivered) => DispatchLosesWakeupExactly(w, sets, delivered);
        case TakePending(asker, afterRelease) => TakeLosesNothing(w, asker, afterRelease);
        case MarkSavedMsg(_) =>
      }
    case _ =>
  }

  // ----- Whole runs

  /** No step of the run loses the wakeup. */
  ghost predicate LosesNone(w: World, steps: seq<Step>)
    decreases |steps|
  {
    steps == [] ||
    (!LosesWakeup(w, steps[0]) && Next(w, steps[0]).Some? && LosesNone(Next(w, steps[0]).value, steps[1..]))
  }

  ghost predicate HoldsThroughout(w: World, steps: seq<Step>)
    decreases |steps|
  {
    && NoLostWakeup(w)
    && (steps == [] || (Next(w, steps[0]).Some? && HoldsThroughout(Next(w, steps[0]).value, steps[1..])))
  }

  lemma {:induction false} HoldsThroughoutExactly(w: World, steps: seq<Step>, w': World)
    requires Inv(w) && NoLostWakeup(w) && Reaches(Next, w, steps, w')
    ensures HoldsThroughout(w, steps) <==> LosesNone(w, steps)
    decreases |steps|
  {
    if steps != [] {
      var w1 := Next(w, steps[0]).value;
      StepKeeps(w, steps[0]);
      StepLosesWakeupExactly(w, steps[0]);
      if NoLostWakeup(w1) {
        HoldsThroughoutExactly(w1, steps[1..], w');
      }
    }
  }

  /** Along a whole run pending state queued by a dispatch is always attended to exactly when
      none of its steps loses the wakeup. */
  lemma WakeupHoldsThroughoutExactly(w: World, steps: seq<Step>, w': World)
    requires Init(w) && Reaches(Next, w, steps, w')
    ensures HoldsThroughout(w, steps) <==> LosesNone(w, steps)
  {
    HoldsThroughoutExactly(w, steps, w');
  }

  /** No dispatch fails to report what it queued, and no post-release snapshot is given up. */
  ghost predicate DropsNone(w: World, steps: seq<Step>)
    decreases |steps|
  {
    steps == [] || (!Drops(w, steps[0]) && Next(w, steps[0]).Some? && DropsNone(Next(w, steps[0]).value, steps[1..]))
  }

  lemma {:induction false} KeptWhileNothingDrops(w: World, steps: seq<Step>, w': World)
    requires Inv(w) && NoLostWakeup(w) && Reaches(Next, w, steps, w') && DropsNone(w, steps)
    ensures NoLostWakeup(w')
    decreases |steps|
  {
    if steps != [] {
      StepKeeps(w, steps[0]);
      StepLosesWakeupExactly(w, steps[0]);
      KeptWhileNothingDrops(Next(w, steps[0]).value, steps[1..], w');
    }
  }

  /** Pending state queued by a dispatch never waits unattended, whatever else fails: saves,
      refused messages about saved state, and snapshots before the flag is cleared. */
  lemma WakeupIsNeverLost(w: World, steps: seq<Step>, w': World)
    requires Init(w) && Reaches(Next, w, steps, w') && DropsNone(w, steps)
    ensures w'.tracked && w'.ctx.pending.Some? ==> Covered(w')
  {
    KeptWhileNothingDrops(w, steps, w');
  }

  lemma DropIsNotClean(w: World, step: Step)
    requires Bookkeeping(w.ctx) && Next(w, step).Some? && Drops(w, step)
    ensures !Next(w, step).value.clean
  {
    if step.Work? {
      DispatchReportsExactly(w.ctx, w.mailbox[0].sets);
    }
  }

  // ----- What the history variables can do

  /** Flaws and late hand-overs stay on record, and so does the first accepted value. */
  predicate HistoryMoves(w: World, w': World) {
    (w'.clean ==> w.clean) && (w'.prompt ==> w.prompt) && (w.tracked ==> w'.tracked)
  }

  lemma LoopHistory(w: World, id: nat, succeeds: bool)
    requires id < |w.loops|
    ensures HistoryMoves(w, DoLoop(w, id, succeeds))
  {
    if !TouchesFlag(w.loops[id]) {
      LoopMoves(w, id, succeeds);
    }
  }

  lemma {:induction false} RunHistory(w: World, steps: seq<Step>, w': World)
    requires Reaches(Next, w, steps, w')
    ensures HistoryMoves(w, w')
    decreases |steps|
  {
    if steps != [] {
      var w1 := Next(w, steps[0]).value;
      if steps[0].Loop? {
        LoopHistory(w, steps[0].id, steps[0].succeeds);
      }
      RunHistory(w1, steps[1..], w');
    }
  }

  lemma {:induction false} CleanDropsNone(w: World, steps: seq<Step>, w': World)
    requires Inv(w) && Reaches(Next, w, steps, w') && w'.clean
    ensures DropsNone(w, steps)
    decreases |steps|
  {
    if steps != [] {
      var w1 := Next(w, steps[0]).value;
      StepKeeps(w, steps[0]);
      CleanDropsNone(w1, steps[1..], w');
      RunHistory(w1, steps[1..], w');
      if Drops(w, steps[0]) {
        DropIsNotClean(w, steps[0]);
      }
    }
  }
}
