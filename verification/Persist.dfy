/** The single-flight persist protocol of one entity (src/plugin/mod.rs, with the worker's
    mailbox loop in src/plugin/backend.rs), as interleaved steps of the worker thread, the
    callers that hand dispatched state over, and the background persist loops. */
module Persist {
  import opened Basics
  import opened StateCtx
  import opened Runs

  const MAILBOX_CAPACITY: nat := 64

  /** `Dispatch` carries what the plugin will do: the states it sets, and whether its
      result reaches the caller. `TakePending` says which loop asks, and from where. */
  datatype Msg =
    | Dispatch(sets: seq<Bytes>, delivered: bool)
    | TakePending(asker: nat, afterRelease: bool)
    | MarkSavedMsg(bytes: Bytes)

  /** Where one `run_state_persist_loop` task stands. */
  datatype Pc =
    | Adding(bytes: Bytes)
    | Added(bytes: Bytes)
    | Published(bytes: Bytes)
    | Asking
    | Waiting
    | Answered(reply: Option<Bytes>)
    | Releasing
    | PostAsking
    | PostWaiting
    | PostAnswered(reply: Option<Bytes>)
    | Finished

  /** Between `swap(true)` and `store(false)`. */
  predicate InMain(pc: Pc) {
    pc.Adding? || pc.Added? || pc.Published? || pc.Asking? || pc.Waiting? || pc.Answered? || pc.Releasing?
  }

  /** The protocol state, followed by history variables that no step reads:
      - `owner`: the loop that set the flag;
      - `clean`: no send was refused, no snapshot timed out, and no dispatch that queued
        state failed to report it;
      - `tracked`: what is pending, if anything, was queued by a dispatch;
      - `lastAccepted`: the last value `queue_state` accepted, or the initial one;
      - `stale`: since that value was accepted or last marked saved, a loop was started
        with other bytes while nothing was pending;
      - `prompt`: every dispatch began with all earlier results handed over. */
  datatype World = World(
    ctx: State,
    mailbox: seq<Msg>,
    results: multiset<Bytes>,
    inFlight: bool,
    loops: seq<Pc>,
    manifest: Option<Bytes>,
    owner: Option<nat>,
    clean: bool,
    tracked: bool,
    lastAccepted: Bytes,
    stale: bool,
    prompt: bool)

  ghost predicate Init(w: World) {
    && Bookkeeping(w.ctx) && w.mailbox == [] && w.results == multiset{} && !w.inFlight
    && w.loops == [] && w.manifest == None && w.owner == None && w.clean
    && w.tracked == w.ctx.pending.None? && Some(w.lastAccepted) == Effective(w.ctx)
    && !w.stale && w.prompt
  }

  datatype Step =
    | Send(sets: seq<Bytes>, delivered: bool)
    | Work
    | HandOver(bytes: Bytes)
    | Loop(id: nat, succeeds: bool)

  // ----- The worker

  function DoDispatch(w: World, sets: seq<Bytes>, delivered: bool): World {
    var ctx' := QueueAll(w.ctx, sets);
    var report := if delivered then Report(w.ctx, ctx') else None;
    var accepted := AcceptedCount(w.ctx, sets) > 0;
    w.(ctx := ctx',
       results := if report.Some? then w.results + multiset{report.value} else w.results,
       clean := w.clean && (accepted ==> report.Some?),
       tracked := w.tracked || accepted,
       lastAccepted := if accepted then LastAccepted(w.ctx, sets) else w.lastAccepted,
       stale := w.stale && !accepted,
       prompt := w.prompt && w.results == multiset{})
  }

  function DoTake(w: World, asker: nat, afterRelease: bool): World {
    if asker < |w.loops| && !afterRelease && w.loops[asker].Waiting? then
      w.(loops := w.loops[asker := Answered(w.ctx.pending)])
    else if asker < |w.loops| && afterRelease && w.loops[asker].PostWaiting? then
      w.(loops := w.loops[asker := PostAnswered(w.ctx.pending)])
    else w
  }

  function DoWork(w: World): World
    requires w.mailbox != []
  {
    var w1 := w.(mailbox := w.mailbox[1..]);
    match w.mailbox[0]
    case Dispatch(sets, delivered) => DoDispatch(w1, sets, delivered)
    case TakePending(asker, afterRelease) => DoTake(w1, asker, afterRelease)
    case MarkSavedMsg(bytes) =>
      w1.(ctx := MarkSaved(w.ctx, bytes), stale := w.stale && bytes != w.lastAccepted)
  }

  // ----- The callers and the loops

  predicate HasRoom(w: World) {
    |w.mailbox| < MAILBOX_CAPACITY
  }

  /** Starting with these bytes cannot bring older bytes back. */
  predicate Fresh(w: World, bytes: Bytes) {
    bytes == w.lastAccepted || w.ctx.pending.Some?
  }

  /** `spawn_state_persist`: swap the flag, and start a loop if it was clear. */
  function Spawn(w: World, bytes: Bytes): World {
    if w.inFlight then w
    else w.(inFlight := true, loops := w.loops + [Adding(bytes)], owner := Some(|w.loops|),
            stale := w.stale || !Fresh(w, bytes))
  }

  function SetPc(w: World, id: nat, pc: Pc): World
    requires id < |w.loops|
  {
    w.(loops := w.loops[id := pc])
  }

  function Ask(w: World, id: nat, afterRelease: bool): World
    requires id < |w.loops|
  {
    if HasRoom(w) then
      SetPc(w, id, if afterRelease then PostWaiting else Waiting)
        .(mailbox := w.mailbox + [TakePending(id, afterRelease)])
    else
      SetPc(w, id, if afterRelease then Finished else Releasing).(clean := false)
  }

  /** One step of a loop; `succeeds` says whether the call it awaits succeeds. A reply
      that is awaited arrives through the worker, so failing there is the timeout. */
  function DoLoop(w: World, id: nat, succeeds: bool): World
    requires id < |w.loops|
  {
    match w.loops[id]
    case Adding(b) => SetPc(w, id, if succeeds then Added(b) else Asking)
    case Added(b) =>
      if succeeds then SetPc(w, id, Published(b)).(manifest := Some(b)) else SetPc(w, id, Asking)
    case Published(b) =>
      if HasRoom(w) then SetPc(w, id, Asking).(mailbox := w.mailbox + [MarkSavedMsg(b)])
      else SetPc(w, id, Asking).(clean := false)
    case Asking => Ask(w, id, false)
    case Waiting => if succeeds then w else SetPc(w, id, Releasing).(clean := false)
    case Answered(reply) => SetPc(w, id, if reply.Some? then Adding(reply.value) else Releasing)
    case Releasing => SetPc(w, id, PostAsking).(inFlight := false, owner := None)
    case PostAsking => Ask(w, id, true)
    case PostWaiting => if succeeds then w else SetPc(w, id, Finished).(clean := false)
    case PostAnswered(reply) =>
      var w1 := SetPc(w, id, Finished);
      if reply.Some? then Spawn(w1, reply.value) else w1
    case Finished => w
  }

  /** The world after a step, if the step is possible. */
  function Next(w: World, step: Step): Option<World> {
    match step
    case Send(sets, delivered) =>
      if HasRoom(w) then Some(w.(mailbox := w.mailbox + [Dispatch(sets, delivered)])) else None
    case Work => if w.mailbox != [] then Some(DoWork(w)) else None
    case HandOver(b) =>
      if b in w.results then Some(Spawn(w.(results := w.results - multiset{b}), b)) else None
    case Loop(id, succeeds) => if id < |w.loops| then Some(DoLoop(w, id, succeeds)) else None
  }

  // ----- Single flight

  ghost predicate SingleFlight(w: World) {
    && w.inFlight == w.owner.Some?
    && (w.owner.Some? ==> w.owner.value < |w.loops|)
    && (forall i :: 0 <= i < |w.loops| ==> (InMain(w.loops[i]) <==> w.owner == Some(i)))
  }

  ghost predicate ContextInv(w: World) {
    && Bookkeeping(w.ctx)
    && (w.ctx.pending.Some? ==> w.ctx.pending == Some(w.lastAccepted))
  }

  // ----- Messages of the loop that owns the flag, in mailbox order

  function OwnerMail(mailbox: seq<Msg>): seq<Msg> {
    if mailbox == [] then []
    else
      var m := mailbox[0];
      (if m.MarkSavedMsg? || (m.TakePending? && !m.afterRelease) then [m] else []) + OwnerMail(mailbox[1..])
  }

  lemma {:induction false} OwnerMailAppend(mailbox: seq<Msg>, m: Msg)
    ensures OwnerMail(mailbox + [m]) == OwnerMail(mailbox) + OwnerMail([m])
  {
    if mailbox == [] {
      assert mailbox + [m] == [m];
    } else {
      OwnerMailAppend(mailbox[1..], m);
      assert (mailbox + [m])[1..] == mailbox[1..] + [m];
    }
  }

  ghost predicate MailInv(w: World) {
    var mail := OwnerMail(w.mailbox);
    match w.owner
    case None => mail == []
    case Some(k) =>
      && k < |w.loops|
      && match w.loops[k] {
           case Asking => mail == [] || (|mail| == 1 && mail[0].MarkSavedMsg?)
           case Waiting =>
             || mail == [TakePending(k, false)]
             || (|mail| == 2 && mail[0].MarkSavedMsg? && mail[1] == TakePending(k, false))
           case _ => mail == []
         }
  }

  // ----- Agreement of the context, the last accepted value and the manifest

  /** Bytes on their way to being marked saved. */
  function InTransit(w: World): Option<Bytes> {
    var mail := OwnerMail(w.mailbox);
    if mail != [] && mail[0].MarkSavedMsg? then Some(mail[0].bytes)
    else if w.owner.Some? && w.owner.value < |w.loops| then
      match w.loops[w.owner.value]
      case Adding(b) => Some(b)
      case Added(b) => Some(b)
      case Published(b) => Some(b)
      case Answered(reply) => reply
      case _ => None
    else None
  }

  /** Bytes the manifest already links to that the context has not been told about. */
  function Unmarked(w: World): Option<Bytes> {
    var mail := OwnerMail(w.mailbox);
    if mail != [] && mail[0].MarkSavedMsg? then Some(mail[0].bytes)
    else if w.owner.Some? && w.owner.value < |w.loops| && w.loops[w.owner.value].Published? then
      Some(w.loops[w.owner.value].bytes)
    else None
  }

  ghost predicate DataInv(w: World) {
    && (InTransit(w).Some? ==> Fresh(w, InTransit(w).value) || w.stale)
    && (w.ctx.pending.None? ==> w.ctx.persisted == Some(w.lastAccepted) || w.stale)
    && (Unmarked(w).Some? ==> w.manifest == Unmarked(w))
    && (Unmarked(w).None? && w.manifest.Some? ==> w.manifest == w.ctx.persisted)
    && (w.prompt ==> forall b :: b in w.results ==> b == w.lastAccepted)
  }

  ghost predicate Inv(w: World) {
    && SingleFlight(w)
    && ContextInv(w)
    && (w.clean ==> MailInv(w) && DataInv(w))
  }

  // ----- Every step keeps the invariant

  lemma DispatchKeeps(w: World, sets: seq<Bytes>, delivered: bool)
    requires w.mailbox != [] && w.mailbox[0] == Dispatch(sets, delivered) && Inv(w)
    ensures Inv(DoWork(w))
  {
    QueueAllEffect(w.ctx, sets);
    DispatchReportsExactly(w.ctx, sets);
    assert OwnerMail(w.mailbox) == OwnerMail(w.mailbox[1..]);
    var w' := DoWork(w);
    if w'.clean {
      assert InTransit(w') == InTransit(w) && Unmarked(w') == Unmarked(w);
    }
  }

  /** `w'` differs from `w` in where loop `id` stands, and in the mailbox at most. */
  ghost predicate Moved(w: World, id: nat, pc: Pc, w': World) {
    && id < |w.loops|
    && w' == w.(loops := w.loops[id := pc], mailbox := w'.mailbox, clean := w'.clean, manifest := w'.manifest)
  }

  lemma MovedKeepsFlight(w: World, id: nat, pc: Pc, w': World)
    requires Moved(w, id, pc, w') && SingleFlight(w) && InMain(pc) == InMain(w.loops[id])
    ensures SingleFlight(w')
  {
  }

  lemma MovedElsewhereKeepsData(w: World, id: nat, pc: Pc, w': World)
    requires Moved(w, id, pc, w') && w'.manifest == w.manifest
    requires SingleFlight(w) && !InMain(w.loops[id]) && MailInv(w) && DataInv(w)
    requires OwnerMail(w'.mailbox) == OwnerMail(w.mailbox)
    ensures MailInv(w') && DataInv(w')
  {
    assert w.owner != Some(id);
    assert InTransit(w') == InTransit(w) && Unmarked(w') == Unmarked(w);
  }

  lemma TakeOwnerKeeps(w: World, asker: nat)
    requires w.mailbox != [] && w.mailbox[0] == TakePending(asker, false) && Inv(w)
    ensures Inv(DoWork(w))
  {
    var w' := DoWork(w);
    if asker < |w.loops| && w.loops[asker].Waiting? {
      MovedKeepsFlight(w, asker, Answered(w.ctx.pending), w');
      if w.clean {
        assert OwnerMail(w.mailbox)[1..] == OwnerMail(w'.mailbox);
      }
    } else {
      assert w' == w.(mailbox := w'.mailbox);
    }
  }

  lemma TakeAfterReleaseKeeps(w: World, asker: nat)
    requires w.mailbox != [] && w.mailbox[0] == TakePending(asker, true) && Inv(w)
    ensures Inv(DoWork(w))
  {
    var w' := DoWork(w);
    assert OwnerMail(w.mailbox) == OwnerMail(w'.mailbox);
    if asker < |w.loops| && w.loops[asker].PostWaiting? {
      MovedKeepsFlight(w, asker, PostAnswered(w.ctx.pending), w');
      if w.clean {
        MovedElsewhereKeepsData(w, asker, PostAnswered(w.ctx.pending), w');
      }
    } else {
      assert w' == w.(mailbox := w'.mailbox);
    }
  }

  lemma MarkKeeps(w: World, bytes: Bytes)
    requires w.mailbox != [] && w.mailbox[0] == MarkSavedMsg(bytes) && Inv(w)
    ensures Inv(DoWork(w))
  {
    if w.clean {
      assert OwnerMail(w.mailbox)[1..] == OwnerMail(w.mailbox[1..]);
    }
  }

  lemma SpawnKeeps(w: World, bytes: Bytes)
    requires SingleFlight(w) && ContextInv(w)
    requires w.clean ==> MailInv(w) && DataInv(w)
    ensures Inv(Spawn(w, bytes))
  {
  }

  lemma HandOverKeeps(w: World, bytes: Bytes)
    requires Inv(w) && bytes in w.results
    ensures Inv(Spawn(w.(results := w.results - multiset{bytes}), bytes))
  {
    var w1 := w.(results := w.results - multiset{bytes});
    SpawnKeeps(w1, bytes);
  }

  lemma AskOwnerKeeps(w: World, id: nat)
    requires Inv(w) && id < |w.loops| && w.loops[id].Asking?
    ensures Inv(Ask(w, id, false))
  {
    var w' := Ask(w, id, false);
    MovedKeepsFlight(w, id, w'.loops[id], w');
    if w'.clean {
      OwnerMailAppend(w.mailbox, TakePending(id, false));
      assert OwnerMail([TakePending(id, false)]) == [TakePending(id, false)];
    }
  }

  lemma AskAfterReleaseKeeps(w: World, id: nat)
    requires Inv(w) && id < |w.loops| && w.loops[id].PostAsking?
    ensures Inv(Ask(w, id, true))
  {
    var w' := Ask(w, id, true);
    MovedKeepsFlight(w, id, w'.loops[id], w');
    if w'.clean {
      OwnerMailAppend(w.mailbox, TakePending(id, true));
      assert OwnerMail([TakePending(id, true)]) == [];
      MovedElsewhereKeepsData(w, id, w'.loops[id], w');
    }
  }

  lemma PublishedKeeps(w: World, id: nat, succeeds: bool)
    requires Inv(w) && id < |w.loops| && w.loops[id].Published?
    ensures Inv(DoLoop(w, id, succeeds))
  {
    var w' := DoLoop(w, id, succeeds);
    MovedKeepsFlight(w, id, Asking, w');
    if w'.clean {
      var m := MarkSavedMsg(w.loops[id].bytes);
      OwnerMailAppend(w.mailbox, m);
      assert OwnerMail([m]) == [m];
    }
  }

  /** The steps of a loop that send nothing and do not touch the flag. */
  lemma QuietStepKeeps(w: World, id: nat, succeeds: bool)
    requires Inv(w) && id < |w.loops|
    requires var pc := w.loops[id]; pc.Adding? || pc.Added? || pc.Waiting? || pc.Answered? || pc.PostWaiting?
    ensures Inv(DoLoop(w, id, succeeds))
  {
    var w' := DoLoop(w, id, succeeds);
    MovedKeepsFlight(w, id, w'.loops[id], w');
  }

  lemma ReleaseKeeps(w: World, id: nat, succeeds: bool)
    requires Inv(w) && id < |w.loops| && w.loops[id].Releasing?
    ensures Inv(DoLoop(w, id, succeeds))
  {
  }

  lemma PostAnsweredKeeps(w: World, id: nat, succeeds: bool)
    requires Inv(w) && id < |w.loops| && w.loops[id].PostAnswered?
    ensures Inv(DoLoop(w, id, succeeds))
  {
    var w1 := SetPc(w, id, Finished);
    if w.loops[id].reply.Some? {
      SpawnKeeps(w1, w.loops[id].reply.value);
    }
  }

  lemma LoopKeeps(w: World, id: nat, succeeds: bool)
    requires Inv(w) && id < |w.loops|
    ensures Inv(DoLoop(w, id, succeeds))
  {
    match w.loops[id]
    case Asking => AskOwnerKeeps(w, id);
    case PostAsking => AskAfterReleaseKeeps(w, id);
    case Published(_) => PublishedKeeps(w, id, succeeds);
    case Releasing => ReleaseKeeps(w, id, succeeds);
    case PostAnswered(_) => PostAnsweredKeeps(w, id, succeeds);
    case Finished =>
    case _ => QuietStepKeeps(w, id, succeeds);
  }

  lemma StepKeeps(w: World, step: Step)
    requires Inv(w) && Next(w, step).Some?
    ensures Inv(Next(w, step).value)
  {
    match step
    case Send(sets, delivered) =>
      OwnerMailAppend(w.mailbox, Dispatch(sets, delivered));
    case HandOver(b) => HandOverKeeps(w, b);
    case Loop(id, succeeds) => LoopKeeps(w, id, succeeds);
    case Work =>
      match w.mailbox[0]
      case Dispatch(sets, delivered) => DispatchKeeps(w, sets, delivered);
      case TakePending(asker, afterRelease) =>
        if afterRelease { TakeAfterReleaseKeeps(w, asker); } else { TakeOwnerKeeps(w, asker); }
      case MarkSavedMsg(bytes) => MarkKeeps(w, bytes);
  }

  lemma ReachableInv(w: World, steps: seq<Step>, w': World)
    requires Inv(w) && Reaches(Next, w, steps, w')
    ensures Inv(w')
  {
    forall v, s | Inv(v) && Next(v, s).Some? ensures Inv(Next(v, s).value) {
      StepKeeps(v, s);
    }
    Preserved(Next, v => Inv(v), w, steps, w');
  }
}
