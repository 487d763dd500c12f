/** The per-entity state context owned by a plugin's worker thread
    (src/plugin/backend.rs): which bytes wait to be persisted, which bytes were
    persisted last, and what one dispatch reports back to its caller. */
module StateCtx {
  import opened Basics

  /** `save_generation` is a u64 that wraps around. */
  const GENERATIONS: nat := 0x1_0000_0000_0000_0000

  datatype State = State(
    pending: Option<Bytes>,
    persisted: Option<Bytes>,
    dirty: bool,
    saveGeneration: nat)

  function New(persisted: Bytes): State {
    State(None, Some(persisted), false, 0)
  }

  function MarkSaved(s: State, bytes: Bytes): State {
    if s.pending == Some(bytes) then
      s.(persisted := Some(bytes), pending := None, dirty := false)
    else
      s.(persisted := Some(bytes), dirty := s.pending.Some? && s.pending != Some(bytes))
  }

  /** The guard of `queue_state`: the bytes differ from both known snapshots. */
  predicate Accepts(s: State, bytes: Bytes) {
    s.persisted != Some(bytes) && s.pending != Some(bytes)
  }

  function QueueState(s: State, bytes: Bytes): State {
    if Accepts(s, bytes) then
      s.(pending := Some(bytes), dirty := true, saveGeneration := (s.saveGeneration + 1) % GENERATIONS)
    else
      s
  }

  /** What every reachable context keeps. */
  predicate Bookkeeping(s: State) {
    && (s.dirty <==> s.pending.Some?)
    && (s.pending.Some? ==> s.pending != s.persisted)
    && s.persisted.Some?
    && s.saveGeneration < GENERATIONS
  }

  /** The bytes the entity will have on disk once everything queued is saved. */
  function Effective(s: State): Option<Bytes> {
    if s.pending.Some? then s.pending else s.persisted
  }

  // ----- Runs of the two operations

  datatype Op = Queue(bytes: Bytes) | Mark(bytes: Bytes)

  function Apply(s: State, op: Op): State {
    match op
    case Queue(b) => QueueState(s, b)
    case Mark(b) => MarkSaved(s, b)
  }

  function Run(s: State, ops: seq<Op>): State {
    if ops == [] then s else Apply(Run(s, ops[..|ops| - 1]), ops[|ops| - 1])
  }

  /** The bytes of the last accepted `queue_state` of a run, if there was one. */
  function LastAcceptedIn(s: State, ops: seq<Op>): Option<Bytes> {
    if ops == [] then None
    else
      var init, last := ops[..|ops| - 1], ops[|ops| - 1];
      if last.Queue? && Accepts(Run(s, init), last.bytes) then Some(last.bytes) else LastAcceptedIn(s, init)
  }

  /** A set is ignored for exactly the bytes that are already pending or already persisted. */
  lemma QueueIgnoresExactly(s: State, bytes: Bytes)
    requires Bookkeeping(s)
    ensures QueueState(s, bytes) == s <==> s.pending == Some(bytes) || s.persisted == Some(bytes)
    ensures QueueState(s, bytes) != s ==> QueueState(s, bytes).pending == Some(bytes) && QueueState(s, bytes).dirty
    ensures QueueState(s, bytes) != s ==> QueueState(s, bytes).saveGeneration != s.saveGeneration
    ensures QueueState(s, bytes).persisted == s.persisted
  {
    WrapsExactly(s.saveGeneration, 1);
  }

  /** Over every run from a fresh context the bookkeeping holds, and what is pending is
      always the last *accepted* value: not simply the last value set. */
  lemma {:induction false} RunKeepsBookkeeping(initial: Bytes, ops: seq<Op>)
    ensures Bookkeeping(Run(New(initial), ops))
    ensures var s := Run(New(initial), ops); s.pending.Some? ==> s.pending == LastAcceptedIn(New(initial), ops)
  {
    if ops != [] {
      RunKeepsBookkeeping(initial, ops[..|ops| - 1]);
    }
  }

  /** Step `i` of the run is a set of new bytes that is accepted. */
  predicate AcceptedAt(initial: Bytes, ops: seq<Op>, i: nat)
    requires i < |ops|
  {
    var s := Run(New(initial), ops[..i]);
    ops[i].Queue? && s.pending != Some(ops[i].bytes) && s.persisted != Some(ops[i].bytes)
  }

  /** Step `i` accepted `b`, and since then nothing else was accepted and `b` was not saved. */
  ghost predicate OwedSince(initial: Bytes, ops: seq<Op>, b: Bytes, i: nat) {
    && i < |ops| && AcceptedAt(initial, ops, i) && ops[i].bytes == b
    && forall j: nat :: i < j < |ops| ==> !AcceptedAt(initial, ops, j) && ops[j] != Mark(b)
  }

  lemma OwedOneStepOn(initial: Bytes, ops: seq<Op>, b: Bytes, i: nat)
    requires i + 1 < |ops|
    ensures OwedSince(initial, ops, b, i) <==>
            && OwedSince(initial, ops[..|ops| - 1], b, i)
            && !AcceptedAt(initial, ops, |ops| - 1) && ops[|ops| - 1] != Mark(b)
  {
    var init := ops[..|ops| - 1];
    assert forall j: nat :: j < |init| ==> init[j] == ops[j] && init[..j] == ops[..j];
    assert forall j: nat :: j < |init| ==> AcceptedAt(initial, init, j) == AcceptedAt(initial, ops, j);
  }

  /** Pending is exactly what was accepted last and has not been saved since; a save of other
      bytes leaves it alone. */
  lemma {:induction false} PendingExactly(initial: Bytes, ops: seq<Op>, b: Bytes)
    ensures Run(New(initial), ops).pending == Some(b) <==> exists i :: OwedSince(initial, ops, b, i)
  {
    if ops != [] {
      var n := |ops| - 1;
      var init := ops[..n];
      PendingExactly(initial, init, b);
      forall i: nat | i < n ensures OwedSince(initial, ops, b, i) <==>
          OwedSince(initial, init, b, i) && !AcceptedAt(initial, ops, n) && ops[n] != Mark(b) {
        OwedOneStepOn(initial, ops, b, i);
      }
      if Run(New(initial), ops).pending == Some(b) {
        if AcceptedAt(initial, ops, n) {
          assert OwedSince(initial, ops, b, n);
        } else {
          var i :| OwedSince(initial, init, b, i);
          assert OwedSince(initial, ops, b, i);
        }
      }
      if i: nat :| OwedSince(initial, ops, b, i) {
        assert i < n ==> OwedSince(initial, init, b, i);
      }
    }
  }

  /** Persisted is exactly what was reported saved last, or the initial state. */
  lemma {:induction false} PersistedExactly(initial: Bytes, ops: seq<Op>)
    ensures var persisted := Run(New(initial), ops).persisted;
            if forall i :: 0 <= i < |ops| ==> ops[i].Queue? then persisted == Some(initial)
            else exists i :: 0 <= i < |ops| && ops[i].Mark? && persisted == Some(ops[i].bytes)
                             && forall j :: i < j < |ops| ==> ops[j].Queue?
  {
    if ops != [] {
      var init, last := ops[..|ops| - 1], ops[|ops| - 1];
      PersistedExactly(initial, init);
      assert forall i :: 0 <= i < |init| ==> init[i] == ops[i];
      if last.Mark? {
        assert !ops[|ops| - 1].Queue?;
      }
    }
  }

  /** "The last set wins" holds for exactly the calls that do not revert to the
      persisted bytes while other bytes are pending. */
  lemma LastSetWinsExactly(s: State, bytes: Bytes)
    requires Bookkeeping(s)
    ensures Effective(QueueState(s, bytes)) == Some(bytes) <==> (s.pending.None? || s.persisted != Some(bytes))
  {
    if s.pending.Some? && s.persisted == Some(bytes) {
      assert QueueState(s, bytes) == s;
    }
  }

  /** Setting new bytes and then the original ones again leaves the new bytes queued. */
  lemma RevertIsIgnored(initial: Bytes, other: Bytes)
    requires initial != other
    ensures var s := Run(New(initial), [Queue(other), Queue(initial)]);
            s.pending == Some(other) && Effective(s) != Some(initial)
  {
    var ops := [Queue(other), Queue(initial)];
    assert ops[..1] == [Queue(other)];
    assert [Queue(other)][..0] == [];
    assert Run(New(initial), ops[..1]) == QueueState(New(initial), other);
  }

  // ----- One dispatch: any number of `ma_set_state` calls

  function QueueAll(s: State, sets: seq<Bytes>): State {
    if sets == [] then s else QueueState(QueueAll(s, sets[..|sets| - 1]), sets[|sets| - 1])
  }

  function AcceptedCount(s: State, sets: seq<Bytes>): nat {
    if sets == [] then 0
    else
      var init := sets[..|sets| - 1];
      AcceptedCount(s, init) + (if Accepts(QueueAll(s, init), sets[|sets| - 1]) then 1 else 0)
  }

  /** The last accepted value of a dispatch that had one. */
  function LastAccepted(s: State, sets: seq<Bytes>): Bytes
    requires AcceptedCount(s, sets) > 0
  {
    var init := sets[..|sets| - 1];
    if Accepts(QueueAll(s, init), sets[|sets| - 1]) then sets[|sets| - 1] else LastAccepted(s, init)
  }

  /** What a successful dispatch hands to its caller for persistence. */
  function Report(before: State, after: State): Option<Bytes> {
    if after.dirty && after.saveGeneration != before.saveGeneration then after.pending else None
  }

  lemma {:induction false} QueueAllEffect(s: State, sets: seq<Bytes>)
    requires Bookkeeping(s)
    ensures var t, n := QueueAll(s, sets), AcceptedCount(s, sets);
            && Bookkeeping(t)
            && t.persisted == s.persisted
            && t.saveGeneration == (s.saveGeneration + n) % GENERATIONS
            && (n == 0 ==> t == s)
            && (n > 0 ==> t.pending == Some(LastAccepted(s, sets)))
  {
    if sets != [] {
      QueueAllEffect(s, sets[..|sets| - 1]);
    }
  }

  lemma WrapsExactly(g: nat, n: nat)
    requires g < GENERATIONS
    ensures (g + n) % GENERATIONS == g <==> n % GENERATIONS == 0
  {
    var q, r := n / GENERATIONS, n % GENERATIONS;
    assert n == q * GENERATIONS + r;
    assert (g + n) % GENERATIONS == (g + r) % GENERATIONS;
    if g + r >= GENERATIONS {
      assert (g + r) % GENERATIONS == g + r - GENERATIONS;
    }
  }

  /** A dispatch reports state exactly when some `ma_set_state` call in it was accepted,
      counted modulo the width of the generation counter, and it reports the value that
      was accepted last. */
  lemma DispatchReportsExactly(s: State, sets: seq<Bytes>)
    requires Bookkeeping(s)
    ensures var r, n := Report(s, QueueAll(s, sets)), AcceptedCount(s, sets);
            && (r.Some? <==> n % 0x1_0000_0000_0000_0000 != 0)
            && (r.Some? ==> r == QueueAll(s, sets).pending == Some(LastAccepted(s, sets)))
  {
    QueueAllEffect(s, sets);
    WrapsExactly(s.saveGeneration, AcceptedCount(s, sets));
  }

  /** Every set of the dispatch repeats the bytes that are pending or persisted. */
  predicate OnlyRepeats(s: State, sets: seq<Bytes>) {
    forall i :: 0 <= i < |sets| ==> s.pending == Some(sets[i]) || s.persisted == Some(sets[i])
  }

  lemma {:induction false} RepeatsChangeNothing(s: State, sets: seq<Bytes>)
    requires Bookkeeping(s) && OnlyRepeats(s, sets)
    ensures QueueAll(s, sets) == s && AcceptedCount(s, sets) == 0
  {
    if sets != [] {
      RepeatsChangeNothing(s, sets[..|sets| - 1]);
      QueueIgnoresExactly(s, sets[|sets| - 1]);
    }
  }

  lemma {:induction false} NewBytesAreAccepted(s: State, sets: seq<Bytes>)
    requires Bookkeeping(s) && !OnlyRepeats(s, sets)
    ensures AcceptedCount(s, sets) > 0
  {
    var init, last := sets[..|sets| - 1], sets[|sets| - 1];
    if OnlyRepeats(s, init) {
      RepeatsChangeNothing(s, init);
      assert s.pending != Some(last) && s.persisted != Some(last) by {
        assert sets == init + [last];
      }
      QueueIgnoresExactly(s, last);
    } else {
      NewBytesAreAccepted(s, init);
    }
  }

  lemma {:induction false} CountIsBounded(s: State, sets: seq<Bytes>)
    ensures AcceptedCount(s, sets) <= |sets|
  {
    if sets != [] {
      CountIsBounded(s, sets[..|sets| - 1]);
    }
  }

  /** State is saved once per change: a dispatch that only repeats what is pending or persisted
      changes and reports nothing; one of fewer than 2^64 sets that sets anything else reports
      what is pending in the end. */
  lemma ReportsOncePerChange(s: State, sets: seq<Bytes>)
    requires Bookkeeping(s)
    ensures OnlyRepeats(s, sets) ==> QueueAll(s, sets) == s && Report(s, QueueAll(s, sets)) == None
    ensures !OnlyRepeats(s, sets) && |sets| < 0x1_0000_0000_0000_0000 ==>
              Report(s, QueueAll(s, sets)).Some? && Report(s, QueueAll(s, sets)) == QueueAll(s, sets).pending
  {
    DispatchReportsExactly(s, sets);
    if OnlyRepeats(s, sets) {
      RepeatsChangeNothing(s, sets);
    } else {
      NewBytesAreAccepted(s, sets);
    }
    CountIsBounded(s, sets);
  }

  // ----- The mutable context and the dispatch that drives it

  datatype DispatchError = PluginCallFailed

  class StateCell {
    var pending: Option<Bytes>
    var persisted: Option<Bytes>
    var dirty: bool
    var saveGeneration: nat

    function View(): State
      reads this
    {
      State(pending, persisted, dirty, saveGeneration)
    }

    constructor (initial: Bytes)
      ensures View() == New(initial)
      ensures pending == None && persisted == Some(initial) && !dirty && saveGeneration == 0
    {
      pending, persisted, dirty, saveGeneration := None, Some(initial), false, 0;
    }

    method MarkSavedBytes(bytes: Bytes)
      modifies this
      ensures View() == MarkSaved(old(View()), bytes)
    {
      persisted := Some(bytes);
      if pending == Some(bytes) {
        pending := None;
        dirty := false;
      } else {
        dirty := pending.Some? && pending != persisted;
      }
    }

    method Queue(bytes: Bytes)
      modifies this
      ensures View() == QueueState(old(View()), bytes)
    {
      if persisted != Some(bytes) && pending != Some(bytes) {
        pending := Some(bytes);
        dirty := true;
        saveGeneration := (saveGeneration + 1) % GENERATIONS;
      }
    }

    /** One dispatch of the plugin, which calls `ma_set_state` with `sets` in turn and
        then returns or fails. A failing call keeps what it queued and reports nothing. */
    method ExecuteDispatch(sets: seq<Bytes>, succeeds: bool) returns (report: Result<Option<Bytes>, DispatchError>)
      requires Bookkeeping(View())
      modifies this
      ensures View() == QueueAll(old(View()), sets) && Bookkeeping(View())
      ensures report.Ok? <==> succeeds
      ensures succeeds && AcceptedCount(old(View()), sets) % GENERATIONS != 0
              ==> report == Ok(Some(LastAccepted(old(View()), sets)))
      ensures succeeds && AcceptedCount(old(View()), sets) % GENERATIONS == 0 ==> report == Ok(None)
    {
      var generationBefore := saveGeneration;
      for i := 0 to |sets|
        invariant View() == QueueAll(old(View()), sets[..i])
      {
        Queue(sets[i]);
        assert sets[..i + 1][..i] == sets[..i];
      }
      assert sets[..|sets|] == sets;
      QueueAllEffect(old(View()), sets);
      DispatchReportsExactly(old(View()), sets);
      if !succeeds {
        return Err(PluginCallFailed);
      }
      report := Ok(if dirty && saveGeneration != generationBefore then pending else None);
    }
  }
}
