/** The Fibonacci backoff for outboxes that could not be reached (src/ipfs.rs). */
module Backoff {
  import opened Basics

  // ----- Durations and delays

  /** Times and durations are in nanoseconds. */
  const SECOND: nat := 1_000_000_000

  /** The largest `Duration`: 2^64 seconds less one nanosecond. */
  const DURATION_MAX: nat := 0x1_0000_0000_0000_0000 * SECOND - 1

  function SaturatingAdd(a: nat, b: nat): nat {
    if a + b <= DURATION_MAX then a + b else DURATION_MAX
  }

  function Fib(n: nat): nat {
    if n < 2 then n else Fib(n - 2) + Fib(n - 1)
  }

  /** Fib(n) seconds, as far as a `Duration` goes. */
  function Delay(n: nat): nat {
    SaturatingAdd(Fib(n) * SECOND, 0)
  }

  lemma NextDelay(n: nat)
    requires n > 0
    ensures SaturatingAdd(Delay(n - 1), Delay(n)) == Delay(n + 1)
  {
    assert Fib(n + 1) == Fib(n - 1) + Fib(n);
    Distribute(Fib(n - 1), Fib(n));
  }

  lemma Distribute(a: nat, b: nat)
    ensures (a + b) * SECOND == a * SECOND + b * SECOND
  {
  }

  lemma {:induction false} FibGrows(m: nat, n: nat)
    requires m <= n
    ensures Fib(m) <= Fib(n)
    decreases n
  {
    if m < n {
      FibGrows(m, n - 1);
    }
  }

  lemma DelayGrows(m: nat, n: nat)
    requires m <= n
    ensures Delay(m) <= Delay(n)
  {
    FibGrows(m, n);
  }

  /** `(a, b)` are neighbouring Fibonacci numbers, ten places on from `(Fib(n), Fib(n + 1))`. */
  lemma TenOn(n: nat)
    ensures Fib(n + 10) == 34 * Fib(n) + 55 * Fib(n + 1)
    ensures Fib(n + 11) == 55 * Fib(n) + 89 * Fib(n + 1)
  {
    var a, b := Fib(n), Fib(n + 1);
    assert Fib(n + 2) == a + b;
    assert Fib(n + 3) == a + 2 * b;
    assert Fib(n + 4) == 2 * a + 3 * b;
    assert Fib(n + 5) == 3 * a + 5 * b;
    assert Fib(n + 6) == 5 * a + 8 * b;
    assert Fib(n + 7) == 8 * a + 13 * b;
    assert Fib(n + 8) == 13 * a + 21 * b;
    assert Fib(n + 9) == 21 * a + 34 * b;
    assert Fib(n + 10) == 34 * a + 55 * b;
  }

  lemma Fib90()
    ensures Fib(90) == 2880067194370816120 && Fib(91) == 4660046610375530309
  {
    assert Fib(0) == 0 && Fib(1) == 1;
    TenOn(0);
    TenOn(10);
    TenOn(20);
    TenOn(30);
    TenOn(40);
    TenOn(50);
    TenOn(60);
    TenOn(70);
    TenOn(80);
  }

  /** Delays are exact up to the 93rd failure and saturated from the 94th on. */
  lemma DelayIsExactly(n: nat)
    ensures n <= 93 ==> Delay(n) == Fib(n) * 1_000_000_000
    ensures n > 93 ==> Delay(n) == 18446744073709551615_999999999 < Fib(n) * 1_000_000_000
  {
    Fib90();
    assert Fib(92) == Fib(90) + Fib(91);
    assert Fib(93) == Fib(91) + Fib(92);
    assert Fib(94) == Fib(92) + Fib(93);
    if n <= 93 {
      FibGrows(n, 93);
    } else {
      FibGrows(94, n);
    }
  }

  // ----- The cache

  datatype Key = Key(did: string, protocol: string)

  datatype Entry = Entry(retryAt: nat, previous: nat, current: nat, attempts: nat)

  /** The entries and the cap on counted attempts. */
  datatype Cache = Cache(unreachable: map<Key, Entry>, cap: nat)

  function AtLeastOne(n: nat): nat {
    if n < 1 then 1 else n
  }

  function NextEntry(known: Option<Entry>, cap: nat, now: nat): Entry {
    if known.None? then Entry(now + SECOND, 0, SECOND, 1)
    else if known.value.attempts >= AtLeastOne(cap) then
      known.value.(retryAt := now + known.value.current)
    else
      var current := SaturatingAdd(known.value.previous, known.value.current);
      Entry(now + current, known.value.current, current, known.value.attempts + 1)
  }

  function EntryOf(c: Cache, key: Key): Option<Entry> {
    if key in c.unreachable then Some(c.unreachable[key]) else None
  }

  /** `None` when the retry time is past `clockMax`, the last time the clock can express:
      that addition panics before anything is stored. */
  function Mark(c: Cache, key: Key, now: nat, clockMax: nat): Option<Cache> {
    var entry := NextEntry(EntryOf(c, key), c.cap, now);
    if entry.retryAt > clockMax then None else Some(c.(unreachable := c.unreachable[key := entry]))
  }

  /** How long an outbox is still to be left alone. */
  function Wait(c: Cache, key: Key, now: nat): Option<nat> {
    var entry := EntryOf(c, key);
    if entry.Some? && entry.value.retryAt > now then Some(entry.value.retryAt - now) else None
  }

  function Clear(c: Cache, did: string): Cache {
    c.(unreachable := map k | k in c.unreachable && k.did != did :: c.unreachable[k])
  }

  function SetCap(c: Cache, attempts: nat): Cache {
    c.(cap := AtLeastOne(attempts))
  }

  class OutboxCache {
    const clockMax: nat
    var unreachable: map<Key, Entry>
    var backoffAttempts: nat

    function State(): Cache
      reads this
    {
      Cache(unreachable, backoffAttempts)
    }

    constructor (backoffAttempts: nat, clockMax: nat)
      ensures State() == SetCap(Cache(map[], 0), backoffAttempts) && this.clockMax == clockMax
    {
      this.unreachable := map[];
      this.backoffAttempts := AtLeastOne(backoffAttempts);
      this.clockMax := clockMax;
    }

    method SetBackoffAttempts(attempts: nat)
      modifies this`backoffAttempts
      ensures State() == SetCap(old(State()), attempts)
    {
      backoffAttempts := AtLeastOne(attempts);
    }

    method UnreachableFor(did: string, protocol: string, now: nat) returns (wait: Option<nat>)
      ensures wait == Wait(State(), Key(did, protocol), now)
    {
      var key := Key(did, protocol);
      if key in unreachable && unreachable[key].retryAt > now {
        return Some(unreachable[key].retryAt - now);
      }
      return None;
    }

    /** The new delay, or `None` if the clock overflows and the call panics. */
    method MarkUnreachable(did: string, protocol: string, now: nat) returns (delay: Option<nat>)
      modifies this`unreachable
      ensures var key, marked := Key(did, protocol), Mark(old(State()), Key(did, protocol), now, clockMax);
              if marked.None? then delay == None && State() == old(State())
              else State() == marked.value && delay == Some(unreachable[key].current)
    {
      var key := Key(did, protocol);
      var maxAttempts := AtLeastOne(backoffAttempts);
      var previous, current, attempts := 0, SECOND, 1;
      if key in unreachable {
        var backoff := unreachable[key];
        if backoff.attempts >= maxAttempts {
          previous, current, attempts := backoff.previous, backoff.current, backoff.attempts;
        } else {
          previous := backoff.current;
          current := SaturatingAdd(backoff.previous, backoff.current);
          attempts := backoff.attempts + 1;
        }
      }
      if now + current > clockMax {
        return None;
      }
      unreachable := unreachable[key := Entry(now + current, previous, current, attempts)];
      return Some(current);
    }

    method ClearUnreachable(did: string)
      modifies this`unreachable
      ensures State() == Clear(old(State()), did)
    {
      unreachable := map k | k in unreachable && k.did != did :: unreachable[k];
    }
  }

  // ----- Runs of marks, contacts and cap changes

  datatype Op = Failed(key: Key, now: nat) | Contact(did: string) | Reconfigured(attempts: nat)

  /** A mark that panics leaves the cache as it is. */
  function Apply(c: Cache, op: Op, clockMax: nat): Cache {
    match op
    case Failed(key, now) => var marked := Mark(c, key, now, clockMax); if marked.Some? then marked.value else c
    case Contact(did) => Clear(c, did)
    case Reconfigured(attempts) => SetCap(c, attempts)
  }

  function Run(c: Cache, ops: seq<Op>, clockMax: nat): Cache {
    if ops == [] then c else Apply(Run(c, ops[..|ops| - 1], clockMax), ops[|ops| - 1], clockMax)
  }

  function New(attempts: nat): Cache {
    SetCap(Cache(map[], 0), attempts)
  }

  /** The delays are the Fibonacci numbers of the counted attempts. */
  predicate IsFibonacci(e: Entry) {
    e.attempts >= 1 && e.current == Delay(e.attempts) && e.previous == Delay(e.attempts - 1)
  }

  predicate CacheInv(c: Cache) {
    c.cap >= 1 && forall k :: k in c.unreachable ==> IsFibonacci(c.unreachable[k])
  }

  lemma NextEntryIsFibonacci(known: Option<Entry>, cap: nat, now: nat)
    requires known.Some? ==> IsFibonacci(known.value)
    ensures IsFibonacci(NextEntry(known, cap, now))
  {
    if known.None? {
      assert Fib(0) == 0 && Fib(1) == 1;
    } else {
      NextDelay(known.value.attempts);
    }
  }

  /** In every run each entry's two delays are those of its counted attempts. */
  lemma {:induction false} DelaysAreFibonacci(attempts: nat, ops: seq<Op>, clockMax: nat)
    ensures CacheInv(Run(New(attempts), ops, clockMax))
    decreases |ops|
  {
    if ops != [] {
      var c := Run(New(attempts), ops[..|ops| - 1], clockMax);
      DelaysAreFibonacci(attempts, ops[..|ops| - 1], clockMax);
      match ops[|ops| - 1]
      case Failed(key, now) => NextEntryIsFibonacci(EntryOf(c, key), c.cap, now);
      case _ =>
    }
  }

  /** A failure makes its outbox wait for exactly the delay of the failures counted by then,
      and a contact of its peer ends the wait at once; other outboxes go on waiting. */
  lemma WaitsExactlyItsDelay(c: Cache, key: Key, now: nat, clockMax: nat, other: Key, later: nat)
    requires CacheInv(c) && Mark(c, key, now, clockMax).Some? && later >= now
    ensures var marked := Mark(c, key, now, clockMax).value;
            && EntryOf(marked, key).Some?
            && var delay := Delay(EntryOf(marked, key).value.attempts);
               && Wait(marked, key, later) == (if later < now + delay then Some(now + delay - later) else None)
               && Wait(Clear(marked, key.did), key, later) == None
               && (other != key ==> Wait(marked, other, later) == Wait(c, other, later))
               && (other.did != key.did ==> Wait(Clear(marked, key.did), other, later) == Wait(c, other, later))
  {
    NextEntryIsFibonacci(EntryOf(c, key), c.cap, now);
  }

  /** The operations that concern one outbox: its failures, contacts of its peer, the cap. */
  predicate Concerns(op: Op, key: Key) {
    match op
    case Failed(k, _) => k == key
    case Contact(did) => did == key.did
    case Reconfigured(_) => true
  }

  function Concerning(ops: seq<Op>, key: Key): seq<Op> {
    if ops == [] then []
    else
      var last := ops[|ops| - 1];
      Concerning(ops[..|ops| - 1], key) + if Concerns(last, key) then [last] else []
  }

  /** No outbox notices the others: its entry is what its own operations alone make of it. */
  lemma {:induction false} EntriesAreIndependent(c: Cache, ops: seq<Op>, key: Key, clockMax: nat)
    ensures EntryOf(Run(c, ops, clockMax), key) == EntryOf(Run(c, Concerning(ops, key), clockMax), key)
    ensures Run(c, ops, clockMax).cap == Run(c, Concerning(ops, key), clockMax).cap
    decreases |ops|
  {
    if ops != [] {
      var before, last := ops[..|ops| - 1], ops[|ops| - 1];
      EntriesAreIndependent(c, before, key, clockMax);
      var own := Concerning(before, key);
      if Concerns(last, key) {
        assert (own + [last])[..|own|] == own;
      } else {
        assert own + [] == own;
      }
    }
  }

  /** The failures of `key` since its peer was last heard of. */
  function Failures(ops: seq<Op>, key: Key): nat {
    if ops == [] then 0 else CountOn(Failures(ops[..|ops| - 1], key), ops[|ops| - 1], key)
  }

  function CountOn(k: nat, op: Op, key: Key): nat {
    match op
    case Failed(f, _) => if f == key then k + 1 else k
    case Contact(did) => if did == key.did then 0 else k
    case Reconfigured(_) => k
  }

  function Min(a: nat, b: nat): nat {
    if a <= b then a else b
  }

  /** The clock has room for the longest delay of a cache capped at `cap`. */
  predicate ClockHasRoom(ops: seq<Op>, cap: nat, clockMax: nat) {
    forall i :: 0 <= i < |ops| && ops[i].Failed? ==> ops[i].now + Delay(cap) <= clockMax
  }

  lemma MarkHasRoom(c: Cache, key: Key, now: nat, clockMax: nat)
    requires CacheInv(c) && now + Delay(c.cap) <= clockMax
    requires EntryOf(c, key).Some? ==> EntryOf(c, key).value.attempts <= c.cap
    ensures Mark(c, key, now, clockMax).Some?
  {
    NextEntryIsFibonacci(EntryOf(c, key), c.cap, now);
    DelayGrows(NextEntry(EntryOf(c, key), c.cap, now).attempts, c.cap);
  }

  lemma FailureCounts(c: Cache, key: Key, now: nat, clockMax: nat)
    requires CacheInv(c) && Mark(c, key, now, clockMax).Some?
    requires EntryOf(c, key).Some? ==> EntryOf(c, key).value.attempts <= c.cap
    ensures var e := EntryOf(Mark(c, key, now, clockMax).value, key);
            && e.Some? && IsFibonacci(e.value)
            && e.value.attempts == Min(if EntryOf(c, key).None? then 1 else EntryOf(c, key).value.attempts + 1, c.cap)
  {
    NextEntryIsFibonacci(EntryOf(c, key), c.cap, now);
  }

  /** The outbox is marked exactly when `k` is positive, with min(k, cap) attempts and their delays. */
  predicate Counts(c: Cache, key: Key, k: nat, cap: nat) {
    && c.cap == cap
    && (k == 0 <==> EntryOf(c, key).None?)
    && (k > 0 ==> var e := EntryOf(c, key).value;
                  e.attempts == Min(k, cap) && IsFibonacci(e))
  }

  lemma StepCounts(c: Cache, op: Op, key: Key, k: nat, cap: nat, clockMax: nat)
    requires CacheInv(c) && cap >= 1 && Counts(c, key, k, cap) && !op.Reconfigured?
    requires op.Failed? ==> op.now + Delay(cap) <= clockMax
    ensures Counts(Apply(c, op, clockMax), key, CountOn(k, op, key), cap)
  {
    if op.Failed? && op.key == key {
      MarkHasRoom(c, key, op.now, clockMax);
      FailureCounts(c, key, op.now, clockMax);
    }
  }

  /** The clock can express the end of every delay of the run. */
  predicate NeverPanics(c: Cache, ops: seq<Op>, clockMax: nat) {
    forall i :: 0 <= i < |ops| && ops[i].Failed? ==>
      Mark(Run(c, ops[..i], clockMax), ops[i].key, ops[i].now, clockMax).Some?
  }

  /** Whatever the cap is and becomes, an outbox is marked exactly when it has failed since the
      last contact with its peer. */
  lemma {:induction false} MarkedExactlyWhenFailed(attempts: nat, ops: seq<Op>, key: Key, clockMax: nat)
    requires NeverPanics(New(attempts), ops, clockMax)
    ensures EntryOf(Run(New(attempts), ops, clockMax), key).Some? <==> Failures(ops, key) > 0
    decreases |ops|
  {
    if ops != [] {
      var before := ops[..|ops| - 1];
      assert forall i :: 0 <= i < |before| ==> before[i] == ops[i] && before[..i] == ops[..i];
      MarkedExactlyWhenFailed(attempts, before, key, clockMax);
    }
  }

  /** Marking panics exactly when the clock cannot express the end of the delay. */
  lemma MarkPanicsExactly(c: Cache, key: Key, now: nat, clockMax: nat)
    requires CacheInv(c)
    ensures var known := EntryOf(c, key);
            var k := if known.None? then 1 else if known.value.attempts < c.cap then known.value.attempts + 1
                     else known.value.attempts;
            Mark(c, key, now, clockMax).None? <==> now + Delay(k) > clockMax
  {
    NextEntryIsFibonacci(EntryOf(c, key), c.cap, now);
  }

  /** The first delays are one, one, two, three and five seconds. */
  lemma FirstDelays()
    ensures Delay(1) == Delay(2) == 1_000_000_000 && Delay(3) == 2_000_000_000
    ensures Delay(4) == 3_000_000_000 && Delay(5) == 5_000_000_000
  {
    assert Fib(2) == 1 && Fib(3) == 2 && Fib(4) == 3;
  }

  /** Under one cap, after any run the outbox is marked exactly when it has failed since the
      last contact, and `k` failures have put its delay at the Fibonacci number of `k`, or of
      the cap once `k` is past it. */
  lemma {:induction false} CappedFibonacci(attempts: nat, ops: seq<Op>, key: Key, clockMax: nat)
    requires forall i :: 0 <= i < |ops| ==> !ops[i].Reconfigured?
    requires ClockHasRoom(ops, if attempts == 0 then 1 else attempts, clockMax)
    ensures Counts(Run(New(attempts), ops, clockMax), key, Failures(ops, key), if attempts == 0 then 1 else attempts)
    decreases |ops|
  {
    if ops != [] {
      var before := ops[..|ops| - 1];
      assert forall i :: 0 <= i < |before| ==> before[i] == ops[i];
      CappedFibonacci(attempts, before, key, clockMax);
      DelaysAreFibonacci(attempts, before, clockMax);
      var c := Run(New(attempts), before, clockMax);
      StepCounts(c, ops[|ops| - 1], key, Failures(before, key), AtLeastOne(attempts), clockMax);
    }
  }

  /** Up to a cap of 93 those delays are exact, for any larger cap some are not. */
  lemma CapKeepsDelaysExact(cap: nat)
    ensures (forall k: nat :: Delay(Min(k, cap)) == Fib(Min(k, cap)) * SECOND) <==> cap <= 93
  {
    forall k: nat ensures Delay(Min(k, cap)) == Fib(Min(k, cap)) * SECOND <==> Min(k, cap) <= 93 {
      DelayIsExactly(Min(k, cap));
    }
    assert Min(cap, cap) == cap;
  }
}
