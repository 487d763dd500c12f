/** Runs of the persist protocol: what a loop does when its calls succeed. */
module PersistRuns {
  import opened Basics
  import opened StateCtx
  import opened Persist
  import opened Runs

  /** No loop, no message, no result outstanding. */
  ghost predicate Quiescent(w: World) {
    && w.mailbox == [] && w.results == multiset{}
    && forall i :: 0 <= i < |w.loops| ==> w.loops[i].Finished?
  }

  /** A run under construction: the steps so far lead from `w` to `w1`; this takes one more. */
  lemma Then(w: World, steps: seq<Step>, w1: World, step: Step, w2: World) returns (steps': seq<Step>)
    requires Reaches(Next, w, steps, w1) && Next(w1, step) == Some(w2)
    ensures Reaches(Next, w, steps', w2) && steps' == steps + [step]
  {
    Extend(Next, w, steps, w1, step, w2);
    steps' := steps + [step];
  }

  lemma ThenRun(w: World, s1: seq<Step>, w1: World, s2: seq<Step>, w2: World) returns (steps': seq<Step>)
    requires Reaches(Next, w, s1, w1) && Reaches(Next, w1, s2, w2)
    ensures Reaches(Next, w, steps', w2) && steps' == s1 + s2
  {
    Chain(Next, w, s1, w1, s2, w2);
    steps' := s1 + s2;
  }

  /** Only the worker and loop `k` move, and no call fails. */
  predicate Drives(steps: seq<Step>, k: nat) {
    forall i :: 0 <= i < |steps| ==> steps[i] == Work || steps[i] == Loop(k, true)
  }

  /** A mailbox with one message in it. */
  lemma OneMessage(mailbox: seq<Msg>, m: Msg)
    requires mailbox == []
    ensures mailbox + [m] == [m] && [m][1..] == mailbox
  {
  }

  /** The worker has learned that `b` is saved. */
  function Marked(w: World, b: Bytes): World {
    w.(ctx := MarkSaved(w.ctx, b), stale := w.stale && b != w.lastAccepted)
  }

  // ----- Draining

  /** Loop `k` asks, the worker answers, and the loop takes the answer up. */
  function AskSteps(k: nat): seq<Step> {
    [Loop(k, true), Work, Loop(k, true)]
  }

  /** Loop `k` adds, publishes, reports what it saved, and the worker hears of it. */
  function SaveSteps(k: nat): seq<Step> {
    [Loop(k, true), Loop(k, true), Loop(k, true), Work]
  }

  /** Where the answer sends the loop. */
  function OnAnswer(reply: Option<Bytes>): Pc {
    if reply.Some? then Adding(reply.value) else Releasing
  }

  lemma AnswerRun(w: World, k: nat)
    requires k < |w.loops| && w.loops[k] == Asking && w.mailbox == []
    ensures Reaches(Next, w, [Loop(k, true), Work], SetPc(w, k, Answered(w.ctx.pending)))
  {
    var w1 := SetPc(w, k, Waiting).(mailbox := [TakePending(k, false)]);
    OneMessage(w.mailbox, TakePending(k, false));
    var steps := Then(w, [], w, Loop(k, true), w1);
    assert SetPc(w1, k, Answered(w.ctx.pending)).loops == SetPc(w, k, Answered(w.ctx.pending)).loops;
    steps := Then(w, steps, w1, Work, SetPc(w, k, Answered(w.ctx.pending)));
    assert steps == [Loop(k, true), Work];
  }

  lemma AskRun(w: World, k: nat)
    requires k < |w.loops| && w.loops[k] == Asking && w.mailbox == []
    ensures Reaches(Next, w, AskSteps(k), SetPc(w, k, OnAnswer(w.ctx.pending)))
  {
    AnswerRun(w, k);
    var w2 := SetPc(w, k, Answered(w.ctx.pending));
    assert SetPc(w2, k, OnAnswer(w.ctx.pending)).loops == SetPc(w, k, OnAnswer(w.ctx.pending)).loops;
    var steps := Then(w, [Loop(k, true), Work], w2, Loop(k, true), SetPc(w, k, OnAnswer(w.ctx.pending)));
    assert steps == AskSteps(k);
  }

  lemma SaveRun(w: World, k: nat, b: Bytes)
    requires k < |w.loops| && w.loops[k] == Adding(b) && w.mailbox == []
    ensures Reaches(Next, w, SaveSteps(k), Marked(SetPc(w, k, Asking), b).(manifest := Some(b)))
  {
    var w1 := SetPc(w, k, Added(b));
    var w2 := SetPc(w, k, Published(b)).(manifest := Some(b));
    var w3 := SetPc(w, k, Asking).(manifest := Some(b), mailbox := [MarkSavedMsg(b)]);
    OneMessage(w.mailbox, MarkSavedMsg(b));
    var steps := Then(w, [], w, Loop(k, true), w1);
    assert SetPc(w1, k, Published(b)).loops == w2.loops;
    steps := Then(w, steps, w1, Loop(k, true), w2);
    assert SetPc(w2, k, Asking).loops == w3.loops;
    steps := Then(w, steps, w2, Loop(k, true), w3);
    steps := Then(w, steps, w3, Work, Marked(SetPc(w, k, Asking), b).(manifest := Some(b)));
    assert steps == SaveSteps(k);
  }

  lemma SaveAndAskRun(w: World, k: nat, b: Bytes)
    requires k < |w.loops| && w.loops[k] == Adding(b) && w.mailbox == [] && MarkSaved(w.ctx, b).pending.None?
    ensures Reaches(Next, w, SaveSteps(k) + AskSteps(k), Marked(SetPc(w, k, Releasing), b).(manifest := Some(b)))
  {
    var w1 := Marked(SetPc(w, k, Asking), b).(manifest := Some(b));
    SaveRun(w, k, b);
    AskRun(w1, k);
    assert SetPc(w1, k, Releasing).loops == SetPc(w, k, Releasing).loops;
    Chain(Next, w, SaveSteps(k), w1, AskSteps(k), Marked(SetPc(w, k, Releasing), b).(manifest := Some(b)));
  }

  /** State that is pending when a loop takes its snapshot is saved by that very loop, before it
      releases the flag: it asks, is told the pending bytes, saves these and asks again. */
  lemma LoopDrains(w: World, k: nat, b: Bytes)
    requires k < |w.loops| && w.loops[k] == Asking && w.mailbox == [] && w.ctx.pending == Some(b)
    ensures Reaches(Next, w, AskSteps(k) + SaveSteps(k) + AskSteps(k),
                    Marked(SetPc(w, k, Releasing), b).(manifest := Some(b)))
  {
    var w1 := SetPc(w, k, Adding(b));
    AskRun(w, k);
    SaveAndAskRun(w1, k, b);
    assert SetPc(w1, k, Releasing).loops == SetPc(w, k, Releasing).loops;
    Chain(Next, w, AskSteps(k), w1, SaveSteps(k) + AskSteps(k),
          Marked(SetPc(w, k, Releasing), b).(manifest := Some(b)));
    assert AskSteps(k) + (SaveSteps(k) + AskSteps(k)) == AskSteps(k) + SaveSteps(k) + AskSteps(k);
  }

  /** A loop whose save fails does not insist on its bytes: it goes on with the newest ones. */
  lemma FailedSaveDrains(w: World, k: nat, b: Bytes)
    requires k < |w.loops| && (w.loops[k].Adding? || w.loops[k].Added?) && w.mailbox == [] && w.ctx.pending == Some(b)
    ensures Reaches(Next, w, [Loop(k, false)] + (AskSteps(k) + SaveSteps(k) + AskSteps(k)),
                    Marked(SetPc(w, k, Releasing), b).(manifest := Some(b)))
  {
    var w1 := SetPc(w, k, Asking);
    var steps := Then(w, [], w, Loop(k, false), w1);
    assert steps == [Loop(k, false)];
    LoopDrains(w1, k, b);
    assert SetPc(w1, k, Releasing).loops == SetPc(w, k, Releasing).loops;
    Chain(Next, w, [Loop(k, false)], w1, AskSteps(k) + SaveSteps(k) + AskSteps(k),
          Marked(SetPc(w, k, Releasing), b).(manifest := Some(b)));
  }

  // ----- Giving up

  /** The flag is clear, and the loop is about to ask for its last snapshot. */
  function Released(w: World, k: nat): World
    requires k < |w.loops|
  {
    SetPc(w, k, PostAsking).(inFlight := false, owner := None)
  }

  /** A loop that cannot get its snapshot, because the mailbox is full or the answer does not
      come, saves nothing more, clears the flag and asks once more. */
  lemma GivesUpRun(w: World, k: nat, any: bool)
    requires k < |w.loops| && (w.loops[k].Waiting? || (w.loops[k].Asking? && !HasRoom(w)))
    ensures Reaches(Next, w, [Loop(k, false), Loop(k, any)], Released(w, k).(clean := false))
  {
    var w1 := SetPc(w, k, Releasing).(clean := false);
    var steps := Then(w, [], w, Loop(k, false), w1);
    assert SetPc(w1, k, PostAsking).loops == SetPc(w, k, PostAsking).loops;
    steps := Then(w, steps, w1, Loop(k, any), Released(w, k).(clean := false));
    assert steps == [Loop(k, false), Loop(k, any)];
  }

  /** A loop that cannot get its last snapshot either just ends, leaving the flag alone. */
  lemma LastGiveUpRun(w: World, k: nat)
    requires k < |w.loops| && (w.loops[k].PostWaiting? || (w.loops[k].PostAsking? && !HasRoom(w)))
    ensures Next(w, Loop(k, false)) == Some(SetPc(w, k, Finished).(clean := false))
  {
  }

  /** A loop whose report of a save is refused goes on to its snapshot all the same. */
  lemma RefusedReportRun(w: World, k: nat, any: bool)
    requires k < |w.loops| && w.loops[k].Published? && !HasRoom(w)
    ensures Next(w, Loop(k, any)) == Some(SetPc(w, k, Asking).(clean := false))
  {
  }

  // ----- To the end of a loop

  /** Loop `k` saves `b` without failure: from the add until just before the flag is cleared. */
  lemma SaveToRelease(w: World, k: nat, b: Bytes) returns (steps: seq<Step>)
    requires k < |w.loops| && w.loops[k] == Adding(b) && w.mailbox == [] && MarkSaved(w.ctx, b).pending.None?
    ensures Reaches(Next, w, steps, Marked(SetPc(w, k, Releasing), b).(manifest := Some(b)))
    ensures Drives(steps, k)
  {
    SaveAndAskRun(w, k, b);
    steps := SaveSteps(k) + AskSteps(k);
  }

  /** Loop `k` clears the flag, finds nothing pending and ends. */
  lemma ReleaseToEnd(w: World, k: nat) returns (steps: seq<Step>)
    requires k < |w.loops| && w.loops[k] == Releasing && w.mailbox == [] && w.ctx.pending.None?
    ensures Reaches(Next, w, steps, SetPc(w, k, Finished).(inFlight := false, owner := None))
    ensures Drives(steps, k)
  {
    var w1 := SetPc(w, k, PostAsking).(inFlight := false, owner := None);
    var w2 := SetPc(w1, k, PostWaiting).(mailbox := [TakePending(k, true)]);
    var w3 := SetPc(w1, k, PostAnswered(None));
    var w4 := SetPc(w, k, Finished).(inFlight := false, owner := None);
    OneMessage(w.mailbox, TakePending(k, true));
    steps := Then(w, [], w, Loop(k, true), w1);
    steps := Then(w, steps, w1, Loop(k, true), w2);
    assert SetPc(w2, k, PostAnswered(None)).loops == w3.loops;
    steps := Then(w, steps, w2, Work, w3);
    assert SetPc(w3, k, Finished).loops == w4.loops;
    steps := Then(w, steps, w3, Loop(k, true), w4);
  }

  /** The world after the last loop has saved `b` and ended. */
  function Saved(w: World, k: nat, b: Bytes): World
    requires k < |w.loops|
  {
    Marked(w, b).(loops := w.loops[k := Finished], manifest := Some(b), inFlight := false, owner := None)
  }

  lemma SaveToEnd(w: World, k: nat, b: Bytes) returns (steps: seq<Step>)
    requires k < |w.loops| && w.loops[k] == Adding(b) && w.mailbox == [] && MarkSaved(w.ctx, b).pending.None?
    ensures Reaches(Next, w, steps, Saved(w, k, b))
    ensures Drives(steps, k)
  {
    steps := SaveToRelease(w, k, b);
    var w1 := Marked(SetPc(w, k, Releasing), b).(manifest := Some(b));
    var s := ReleaseToEnd(w1, k);
    assert SetPc(w1, k, Finished).loops == Saved(w, k, b).loops;
    steps := ThenRun(w, steps, w1, s, Saved(w, k, b));
  }
}
