/** Which kinds must be reloaded when some kinds change (src/crud/helpers.rs), and exactly
    which changes that set misses. */
module KindReload {
  import opened Basics
  import opened Paths
  import opened KindResolve

  /** The kind nodes that could be fetched, by listed id. */
  type RawKinds = map<string, KindNode>

  function Raw(kinds: Kinds): RawKinds {
    map id | id in kinds && kinds[id].Some? :: kinds[id].value
  }

  function BaseOf(raw: RawKinds, protocol: string): Option<string> {
    if protocol in raw then raw[protocol].baseId else None
  }

  // ----- kind_depends_on

  /** The walk of `kind_depends_on`: comparing ids as they are written, remembering what it
      has seen, for at most `hops` hops. */
  predicate Walk(raw: RawKinds, current: Option<string>, updated: string, seen: set<string>, hops: nat)
    decreases hops
  {
    hops > 0 && current.Some?
    && (current.value == updated
        || (current.value !in seen
            && Walk(raw, BaseOf(raw, current.value), updated, seen + {current.value}, hops - 1)))
  }

  predicate DependsOn(raw: RawKinds, protocol: string, updated: string) {
    protocol == updated || Walk(raw, BaseOf(raw, protocol), updated, {}, MAX_DEPTH)
  }

  /** `kind_depends_on`, with its loop over at most 8 bases. */
  method KindDependsOn(protocol: string, updated: string, raw: RawKinds) returns (depends: bool)
    ensures depends == DependsOn(raw, protocol, updated)
  {
    if protocol == updated {
      return true;
    }
    var seen := {};
    var current := BaseOf(raw, protocol);
    for i := 0 to MAX_DEPTH
      invariant DependsOn(raw, protocol, updated) == Walk(raw, current, updated, seen, MAX_DEPTH - i)
    {
      if current.None? {
        return false;
      }
      if current.value == updated {
        return true;
      }
      if current.value in seen {
        return false;
      }
      seen := seen + {current.value};
      current := BaseOf(raw, current.value);
    }
    return false;
  }

  /** `affected_kind_protocols_for`: the updated protocols and every kind depending on one. */
  method AffectedKindProtocolsFor(updated: seq<string>, raw: RawKinds) returns (affected: set<string>)
    ensures forall p :: p in affected <==>
              p in updated || (p in raw && exists i :: 0 <= i < |updated| && DependsOn(raw, p, updated[i]))
  {
    affected := {};
    for i := 0 to |updated|
      invariant forall p :: p in affected <==>
                  p in updated[..i] || (p in raw && exists j :: 0 <= j < i && DependsOn(raw, p, updated[j]))
    {
      var dependents := DependentsOf(updated[i], raw);
      affected := affected + {updated[i]} + dependents;
      assert updated[..i + 1] == updated[..i] + [updated[i]];
    }
    assert updated[..|updated|] == updated;
  }

  method DependentsOf(updated: string, raw: RawKinds) returns (dependents: set<string>)
    ensures forall p :: p in dependents <==> p in raw && DependsOn(raw, p, updated)
  {
    dependents := {};
    var todo := raw.Keys;
    while todo != {}
      invariant todo <= raw.Keys
      invariant forall p :: p in dependents <==> p in raw && p !in todo && DependsOn(raw, p, updated)
      decreases todo
    {
      var protocol :| protocol in todo;
      var depends := KindDependsOn(protocol, updated, raw);
      if depends {
        dependents := dependents + {protocol};
      }
      todo := todo - {protocol};
    }
  }

  // ----- What a kind's resolution really depends on

  /** Kinds are listed under the ids the tree prints. */
  ghost predicate WellKeyed(kinds: Kinds) {
    forall id :: id in kinds ==> id == CanonicalId(id)
  }

  /** The listed ids that resolution looks up within `hops` hops. */
  function Visits(kinds: Kinds, baseId: Option<string>, hops: nat): set<string>
    decreases hops
  {
    if hops == 0 || baseId.None? then {}
    else
      {CanonicalId(baseId.value)} +
      match Lookup(kinds, baseId.value)
      case Err(_) => {}
      case Ok(base) => Visits(kinds, base.baseId, hops - 1)
  }

  /** The two sets of kinds differ at the given ids at most. */
  ghost predicate AgreeExceptAt(kinds: Kinds, kinds': Kinds, ids: set<string>) {
    forall id :: id !in ids ==> (id in kinds <==> id in kinds') && (id in kinds ==> kinds[id] == kinds'[id])
  }

  /** How the kind listed as `protocol` resolves. */
  function ResolveListed(kinds: Kinds, protocol: string): Result<KindNode, ResolveError>
    requires protocol in Raw(kinds)
  {
    Resolve(kinds, Raw(kinds)[protocol])
  }

  lemma {:induction false} UnvisitedDoesNotMatter(
    kinds: Kinds, kinds': Kinds, ids: set<string>, baseId: Option<string>, hops: nat)
    requires AgreeExceptAt(kinds, kinds', ids) && Visits(kinds, baseId, hops) !! ids
    ensures Bases(kinds', baseId, hops) == Bases(kinds, baseId, hops)
    decreases hops
  {
    if hops > 0 && baseId.Some? {
      assert CanonicalId(baseId.value) in Visits(kinds, baseId, hops);
      assert Lookup(kinds', baseId.value) == Lookup(kinds, baseId.value);
      if Lookup(kinds, baseId.value).Ok? {
        UnvisitedDoesNotMatter(kinds, kinds', ids, Lookup(kinds, baseId.value).value.baseId, hops - 1);
      }
    }
  }

  /** A kind with no base, for filling in at an id. */
  const ROOT_KIND := KindNode("", None, Extism, None, [], [], map[], None)

  lemma {:induction false} RootEndsTheChain(kinds: Kinds, id: string, baseId: Option<string>, hops: nat)
    requires id in Visits(kinds, baseId, hops)
    ensures Bases(kinds[id := Some(ROOT_KIND)], baseId, hops).Ok?
    decreases hops
  {
    if CanonicalId(baseId.value) != id {
      RootEndsTheChain(kinds, id, Lookup(kinds, baseId.value).value.baseId, hops - 1);
    }
  }

  lemma {:induction false} AbsenceBreaksTheChain(kinds: Kinds, id: string, baseId: Option<string>, hops: nat)
    requires id in Visits(kinds, baseId, hops)
    ensures Bases(kinds - {id}, baseId, hops).Err?
    decreases hops
  {
    if CanonicalId(baseId.value) != id {
      AbsenceBreaksTheChain(kinds, id, Lookup(kinds, baseId.value).value.baseId, hops - 1);
    }
  }

  /** Changing what is listed at `id` can change how another kind resolves exactly when that
      kind's resolution looks `id` up. */
  lemma DependenceIsVisiting(kinds: Kinds, protocol: string, id: string)
    requires protocol in Raw(kinds) && protocol != id
    ensures id in Visits(kinds, Raw(kinds)[protocol].baseId, MAX_DEPTH) <==>
            exists kinds' :: AgreeExceptAt(kinds, kinds', {id}) && protocol in Raw(kinds')
                             && ResolveListed(kinds', protocol) != ResolveListed(kinds, protocol)
  {
    var kind := Raw(kinds)[protocol];
    ResolveFromIsMergeAll(kinds, kind, 0);
    if id in Visits(kinds, kind.baseId, MAX_DEPTH) {
      RootEndsTheChain(kinds, id, kind.baseId, MAX_DEPTH);
      AbsenceBreaksTheChain(kinds, id, kind.baseId, MAX_DEPTH);
      var kinds' := if ResolveListed(kinds, protocol).Ok? then kinds - {id} else kinds[id := Some(ROOT_KIND)];
      ResolveFromIsMergeAll(kinds', kind, 0);
      assert AgreeExceptAt(kinds, kinds', {id}) && Raw(kinds')[protocol] == kind;
      assert ResolveListed(kinds', protocol) != ResolveListed(kinds, protocol);
    } else {
      forall kinds' | AgreeExceptAt(kinds, kinds', {id}) && protocol in Raw(kinds')
        ensures ResolveListed(kinds', protocol) == ResolveListed(kinds, protocol)
      {
        UnvisitedDoesNotMatter(kinds, kinds', {id}, kind.baseId, MAX_DEPTH);
        ResolveFromIsMergeAll(kinds', kind, 0);
      }
    }
  }

  // ----- The walk against the visits

  /** The ids visited before the first `extends` that is not written as the tree lists it. */
  function PlainVisits(kinds: Kinds, baseId: Option<string>, hops: nat): set<string>
    decreases hops
  {
    if hops == 0 || baseId.None? || baseId.value != CanonicalId(baseId.value) then {}
    else
      {baseId.value} +
      match Lookup(kinds, baseId.value)
      case Err(_) => {}
      case Ok(base) => PlainVisits(kinds, base.baseId, hops - 1)
  }

  /** What has been seen leads only to what has been seen, or to where the walk stands. */
  ghost predicate SeenIsClosed(raw: RawKinds, seen: set<string>, current: Option<string>) {
    forall s :: s in seen ==> BaseOf(raw, s) == current || (BaseOf(raw, s).Some? && BaseOf(raw, s).value in seen)
  }

  lemma {:induction false} OnCycleNothingNew(kinds: Kinds, seen: set<string>, current: string, hops: nat)
    requires current in seen && SeenIsClosed(Raw(kinds), seen, Some(current))
    ensures PlainVisits(kinds, Some(current), hops) <= seen
    decreases hops
  {
    if hops > 0 && current == CanonicalId(current) && Lookup(kinds, current).Ok? {
      var next := BaseOf(Raw(kinds), current);
      assert next == Lookup(kinds, current).value.baseId;
      if next.Some? {
        OnCycleNothingNew(kinds, seen, next.value, hops - 1);
      }
    }
  }

  lemma {:induction false} WalkIsPlainVisits(
    kinds: Kinds, current: Option<string>, updated: string, seen: set<string>, hops: nat)
    requires WellKeyed(kinds) && updated == CanonicalId(updated) && updated !in seen
    requires SeenIsClosed(Raw(kinds), seen, current)
    ensures Walk(Raw(kinds), current, updated, seen, hops) <==> updated in PlainVisits(kinds, current, hops)
    decreases hops
  {
    if hops > 0 && current.Some? && current.value != updated {
      var c := current.value;
      if c in seen {
        OnCycleNothingNew(kinds, seen, c, hops);
      } else {
        WalkIsPlainVisits(kinds, BaseOf(Raw(kinds), c), updated, seen + {c}, hops - 1);
      }
    }
  }

  /** `kind_depends_on` answers for exactly the plain visits. */
  lemma DependsOnExactly(kinds: Kinds, protocol: string, updated: string)
    requires WellKeyed(kinds) && updated == CanonicalId(updated) && protocol in Raw(kinds)
    ensures DependsOn(Raw(kinds), protocol, updated) <==>
            protocol == updated || updated in PlainVisits(kinds, Raw(kinds)[protocol].baseId, MAX_DEPTH)
  {
    WalkIsPlainVisits(kinds, BaseOf(Raw(kinds), protocol), updated, {}, MAX_DEPTH);
  }

  lemma {:induction false} PlainVisitsAreVisits(kinds: Kinds, baseId: Option<string>, hops: nat)
    ensures PlainVisits(kinds, baseId, hops) <= Visits(kinds, baseId, hops)
    decreases hops
  {
    if hops > 0 && baseId.Some? && Lookup(kinds, baseId.value).Ok? {
      PlainVisitsAreVisits(kinds, Lookup(kinds, baseId.value).value.baseId, hops - 1);
    }
  }

  /** Every `extends` is written as the tree lists it: with exactly one leading slash. */
  ghost predicate PlainlyWritten(kinds: Kinds) {
    forall id :: id in kinds && kinds[id].Some? && kinds[id].value.baseId.Some? ==>
      kinds[id].value.baseId.value == CanonicalId(kinds[id].value.baseId.value)
  }

  lemma {:induction false} PlainWritingVisitsAll(kinds: Kinds, baseId: Option<string>, hops: nat)
    requires PlainlyWritten(kinds) && (baseId.Some? ==> baseId.value == CanonicalId(baseId.value))
    ensures PlainVisits(kinds, baseId, hops) == Visits(kinds, baseId, hops)
    decreases hops
  {
    if hops > 0 && baseId.Some? && Lookup(kinds, baseId.value).Ok? {
      PlainWritingVisitsAll(kinds, Lookup(kinds, baseId.value).value.baseId, hops - 1);
    }
  }

  // ----- Soundness and exactness of the reload set

  /** The members of the reload set, as `affected_kind_protocols_for` computes it. */
  ghost predicate Affected(raw: RawKinds, updated: seq<string>, p: string) {
    p in updated || (p in raw && exists i :: 0 <= i < |updated| && DependsOn(raw, p, updated[i]))
  }

  ghost predicate ListedIds(updated: seq<string>) {
    forall i :: 0 <= i < |updated| ==> updated[i] == CanonicalId(updated[i])
  }

  function IdSet(ids: seq<string>): set<string> {
    set i | 0 <= i < |ids| :: ids[i]
  }

  /** Reload soundness: when every `extends` is plainly written, a kind outside the reload
      set resolves to the same node or the same error before and after the update, whatever
      the update was: new nodes, removed or unfetchable ones, cycles and deep chains. */
  lemma ReloadIsSound(kinds: Kinds, kinds': Kinds, updated: seq<string>, p: string)
    requires WellKeyed(kinds) && PlainlyWritten(kinds) && ListedIds(updated)
    requires AgreeExceptAt(kinds, kinds', IdSet(updated))
    requires p in Raw(kinds) && !Affected(Raw(kinds), updated, p)
    ensures p in Raw(kinds') && ResolveListed(kinds', p) == ResolveListed(kinds, p)
  {
    var kind := Raw(kinds)[p];
    assert p !in IdSet(updated);
    assert Raw(kinds')[p] == kind;
    PlainWritingVisitsAll(kinds, kind.baseId, MAX_DEPTH);
    forall i | 0 <= i < |updated| ensures updated[i] !in Visits(kinds, kind.baseId, MAX_DEPTH) {
      DependsOnExactly(kinds, p, updated[i]);
    }
    UnvisitedDoesNotMatter(kinds, kinds', IdSet(updated), kind.baseId, MAX_DEPTH);
    ResolveFromIsMergeAll(kinds, kind, 0);
    ResolveFromIsMergeAll(kinds', kind, 0);
  }

  /** One id: outside the reload set, every change at `updated` is harmless to `p` exactly
      when the resolution of `p` looks `updated` up, if at all, through plainly written links. */
  lemma ReloadIsSoundExactly(kinds: Kinds, p: string, updated: string)
    requires WellKeyed(kinds) && updated == CanonicalId(updated) && p in Raw(kinds) && p != updated
    ensures var baseId := Raw(kinds)[p].baseId;
            (DependsOn(Raw(kinds), p, updated)
             || forall kinds' :: AgreeExceptAt(kinds, kinds', {updated}) && p in Raw(kinds') ==>
                  ResolveListed(kinds', p) == ResolveListed(kinds, p))
            <==> (updated in Visits(kinds, baseId, MAX_DEPTH) ==> updated in PlainVisits(kinds, baseId, MAX_DEPTH))
  {
    DependsOnExactly(kinds, p, updated);
    DependenceIsVisiting(kinds, p, updated);
  }

  /** No kind is reloaded in vain: when every `extends` is plainly written, the reload set
      holds exactly the updated kinds and those whose resolution some update can change. */
  lemma ReloadSetIsExact(kinds: Kinds, updated: seq<string>, p: string)
    requires WellKeyed(kinds) && PlainlyWritten(kinds) && ListedIds(updated)
    requires p in Raw(kinds) && p !in updated
    ensures Affected(Raw(kinds), updated, p) <==>
            exists kinds' :: AgreeExceptAt(kinds, kinds', IdSet(updated)) && p in Raw(kinds')
                             && ResolveListed(kinds', p) != ResolveListed(kinds, p)
  {
    var raw := Raw(kinds);
    if Affected(raw, updated, p) {
      var i :| 0 <= i < |updated| && DependsOn(raw, p, updated[i]);
      assert updated[i] in updated && updated[i] in IdSet(updated);
      DependsOnExactly(kinds, p, updated[i]);
      PlainVisitsAreVisits(kinds, raw[p].baseId, MAX_DEPTH);
      DependenceIsVisiting(kinds, p, updated[i]);
      var kinds' :| AgreeExceptAt(kinds, kinds', {updated[i]}) && p in Raw(kinds')
                    && ResolveListed(kinds', p) != ResolveListed(kinds, p);
      assert AgreeExceptAt(kinds, kinds', IdSet(updated));
    } else {
      forall kinds' | AgreeExceptAt(kinds, kinds', IdSet(updated)) && p in Raw(kinds')
        ensures ResolveListed(kinds', p) == ResolveListed(kinds, p)
      {
        ReloadIsSound(kinds, kinds', updated, p);
      }
    }
  }

  /** A kind listed as `/a` whose base is written `b`, and a base listed as `/b`. */
  const UNSLASHED: Kinds := map["/a" := Some(ROOT_KIND.(baseId := Some("b"))), "/b" := Some(ROOT_KIND)]

  lemma UnslashedIds()
    ensures CanonicalId("b") == "/b" && CanonicalId("/a") == "/a" && CanonicalId("/b") == "/b"
  {
    assert TrimSlashes("b") == "b" && TrimSlashes("/a") == TrimSlashes("/a"[1..]) == "a";
    assert TrimSlashes("/b") == TrimSlashes("/b"[1..]) == "b";
  }

  lemma UnslashedVisits()
    ensures WellKeyed(UNSLASHED) && "/a" in Raw(UNSLASHED) && "/b" == CanonicalId("/b")
    ensures var baseId := Raw(UNSLASHED)["/a"].baseId;
            && Bases(UNSLASHED, baseId, MAX_DEPTH).Ok?
            && "/b" in Visits(UNSLASHED, baseId, MAX_DEPTH) && "/b" !in PlainVisits(UNSLASHED, baseId, MAX_DEPTH)
  {
    UnslashedIds();
    assert Lookup(UNSLASHED, "b") == Ok(ROOT_KIND);
    assert Bases(UNSLASHED, ROOT_KIND.baseId, MAX_DEPTH - 1) == Ok([]);
  }

  /** A kind that writes its base without the leading slash resolves through it, and is not
      reloaded when that base is removed. */
  lemma UnslashedBaseIsMissed()
    ensures exists kinds, kinds', p, updated ::
              && WellKeyed(kinds) && AgreeExceptAt(kinds, kinds', {updated}) && updated == CanonicalId(updated)
              && p in Raw(kinds) && p in Raw(kinds') && !Affected(Raw(kinds), [updated], p)
              && ResolveListed(kinds, p).Ok? && ResolveListed(kinds', p).Err?
  {
    UnslashedVisits();
    var kind := Raw(UNSLASHED)["/a"];
    DependsOnExactly(UNSLASHED, "/a", "/b");
    assert !Affected(Raw(UNSLASHED), ["/b"], "/a");
    var kinds' := UNSLASHED - {"/b"};
    AbsenceBreaksTheChain(UNSLASHED, "/b", kind.baseId, MAX_DEPTH);
    ResolveFromIsMergeAll(UNSLASHED, kind, 0);
    ResolveFromIsMergeAll(kinds', kind, 0);
    assert Raw(kinds')["/a"] == kind;
    assert AgreeExceptAt(UNSLASHED, kinds', {"/b"});
  }
}
