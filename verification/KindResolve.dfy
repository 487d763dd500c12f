/** Kind nodes, the merge of a derived kind over its base, and the resolution of `extends`
    chains (src/entity.rs). */
module KindResolve {
  import opened Basics
  import opened Paths
  import opened KindTree

  /** A JSON attribute value, as its text. */
  type Value = string

  datatype Evaluator = Extism | Native | Bash | Lua

  datatype KindNode = KindNode(
    protocol: string,
    cid: Option<Link>,
    kindType: Evaluator,
    behaviour: Option<Link>,
    behaviourChain: seq<Link>,
    hostFunctions: seq<string>,
    attributes: map<string, Value>,
    baseId: Option<string>)  // the source's `extends`

  // ----- Merging one kind over its base

  /** Appends the members of `more` that are not yet listed, one by one. */
  function Union(acc: seq<string>, more: seq<string>): seq<string>
    decreases |more|
  {
    if more == [] then acc
    else Union(if more[0] in acc then acc else acc + [more[0]], more[1..])
  }

  function ToSeq<T>(o: Option<T>): seq<T> {
    if o.Some? then [o.value] else []
  }

  /** The behaviour layers a kind stands for: its resolved chain, or its own link. */
  function Layers(k: KindNode): seq<Link> {
    if k.behaviourChain == [] then ToSeq(k.behaviour) else k.behaviourChain
  }

  function Or<T>(first: Option<T>, second: Option<T>): Option<T> {
    if first.Some? then first else second
  }

  function Merge(base: KindNode, derived: KindNode): KindNode {
    KindNode(
      derived.protocol,
      Or(derived.cid, base.cid),
      derived.kindType,
      Or(derived.behaviour, base.behaviour),
      Layers(base) + Layers(derived),
      Union(base.hostFunctions, derived.hostFunctions),
      base.attributes + derived.attributes,
      None)
  }

  /** `merge_kind_over_base`, building its lists step by step. */
  method MergeKindOverBase(base: KindNode, derived: KindNode) returns (merged: KindNode)
    ensures merged == Merge(base, derived)
  {
    var hostFunctions := base.hostFunctions;
    for i := 0 to |derived.hostFunctions|
      invariant Union(base.hostFunctions, derived.hostFunctions) == Union(hostFunctions, derived.hostFunctions[i..])
    {
      var f := derived.hostFunctions[i];
      assert derived.hostFunctions[i..][1..] == derived.hostFunctions[i + 1..];
      if f !in hostFunctions {
        hostFunctions := hostFunctions + [f];
      }
    }
    var chain := if base.behaviourChain == [] then ToSeq(base.behaviour) else base.behaviourChain;
    if derived.behaviourChain == [] {
      if derived.behaviour.Some? {
        chain := chain + [derived.behaviour.value];
      }
    } else {
      chain := chain + derived.behaviourChain;
    }
    merged := KindNode(
      derived.protocol, Or(derived.cid, base.cid), derived.kindType, Or(derived.behaviour, base.behaviour),
      chain, hostFunctions, base.attributes + derived.attributes, None);
  }

  lemma {:induction false} UnionMembers(acc: seq<string>, more: seq<string>)
    ensures forall x :: x in Union(acc, more) <==> x in acc || x in more
    decreases |more|
  {
    if more != [] {
      UnionMembers(if more[0] in acc then acc else acc + [more[0]], more[1..]);
    }
  }

  lemma {:induction false} UnionAppend(acc: seq<string>, a: seq<string>, b: seq<string>)
    ensures Union(acc, a + b) == Union(Union(acc, a), b)
    decreases |a|
  {
    if a == [] {
      assert a + b == b;
    } else {
      UnionAppend(if a[0] in acc then acc else acc + [a[0]], a[1..], b);
      assert (a + b)[1..] == a[1..] + b;
    }
  }

  /** A union keeps what it starts from and appends, in order, what is not yet listed. */
  lemma UnionAppendsNew(acc: seq<string>, more: seq<string>, x: string)
    ensures Union(acc, []) == acc
    ensures Union(acc, more + [x]) ==
            if x in acc || x in more then Union(acc, more) else Union(acc, more) + [x]
  {
    UnionAppend(acc, more, [x]);
    UnionMembers(acc, more);
    var u := Union(acc, more);
    assert [x][1..] == [];
    assert Union(u, [x]) == if x in u then u else u + [x];
  }

  /** What a union drops as already listed is dropped by an enclosing union as well. */
  lemma {:induction false} UnionOfUnion(acc: seq<string>, a: seq<string>, b: seq<string>)
    ensures Union(acc, Union(a, b)) == Union(acc, a + b)
    decreases |b|
  {
    if b == [] {
      assert a + b == a;
    } else {
      var a' := if b[0] in a then a else a + [b[0]];
      UnionOfUnion(acc, a', b[1..]);
      assert a + b == (a + [b[0]]) + b[1..];
      if b[0] in a {
        UnionAppend(acc, a, [b[0]]);
        UnionMembers(acc, a);
        UnionAppend(acc, a + [b[0]], b[1..]);
        UnionAppend(acc, a, b[1..]);
      }
    }
  }

  lemma MergeLayers(base: KindNode, derived: KindNode)
    ensures Layers(Merge(base, derived)) == Layers(base) + Layers(derived)
  {
  }

  /** Merging is associative, so a chain of kinds has one meaning. */
  lemma MergeIsAssociative(a: KindNode, b: KindNode, c: KindNode)
    ensures Merge(Merge(a, b), c) == Merge(a, Merge(b, c))
  {
    UnionAppend(a.hostFunctions, b.hostFunctions, c.hostFunctions);
    UnionOfUnion(a.hostFunctions, b.hostFunctions, c.hostFunctions);
    MergeLayers(a, b);
    MergeLayers(b, c);
  }

  // ----- Resolving an extends chain

  const MAX_DEPTH: nat := 8

  datatype ResolveError = TooDeep(at: string) | UnknownBase(base: string) | FetchFailed(base: string)

  /** The kinds of a manifest by listed id; `None` when the node cannot be fetched. */
  type Kinds = map<string, Option<KindNode>>

  function Lookup(kinds: Kinds, protocol: string): Result<KindNode, ResolveError> {
    var id := CanonicalId(protocol);
    if id !in kinds then Err(UnknownBase(protocol))
    else if kinds[id].None? then Err(FetchFailed(protocol))
    else Ok(kinds[id].value)
  }

  /** The kinds that a tree of links and a store of fetchable nodes stand for. */
  function KindsOf(tree: Tree, store: map<Link, KindNode>): Kinds {
    map id | id in (set p | p in StoredPaths(tree) :: Id(p)) && Get(tree, Segments(id)).Some? ::
      var link := Get(tree, Segments(id)).value;
      if link in store then Some(store[link]) else None
  }

  /** Looking a base up by protocol is the tree's lookup followed by the fetch. */
  lemma LookupIsTreeLookup(tree: Tree, store: map<Link, KindNode>, protocol: string)
    requires CanonicalTree(tree)
    ensures Lookup(KindsOf(tree, store), protocol) ==
            match Get(tree, Segments(protocol))
            case None => Err(UnknownBase(protocol))
            case Some(link) => if link in store then Ok(store[link]) else Err(FetchFailed(protocol))
  {
    var id := CanonicalId(protocol);
    CanonicalIdIsListed(protocol);
    PathsAreDomain(tree, Segments(protocol));
    if Get(tree, Segments(protocol)).Some? {
      assert Segments(protocol) in StoredPaths(tree) && Id(Segments(protocol)) == id;
    }
  }

  function ResolveFrom(kinds: Kinds, kind: KindNode, depth: nat): Result<KindNode, ResolveError>
    requires depth <= MAX_DEPTH
    decreases MAX_DEPTH - depth
  {
    match kind.baseId
    case None => Ok(kind)
    case Some(b) =>
      if depth + 1 > MAX_DEPTH then Err(TooDeep(b))
      else
        match Lookup(kinds, b)
        case Err(e) => Err(e)
        case Ok(base) => ResolveFrom(kinds, Merge(base, kind).(baseId := base.baseId), depth + 1)
  }

  function Resolve(kinds: Kinds, kind: KindNode): Result<KindNode, ResolveError> {
    ResolveFrom(kinds, kind, 0)
  }

  /** `resolve_kind_extends`, reassigning the kind on every hop. */
  method ResolveKindExtends(kinds: Kinds, start: KindNode) returns (r: Result<KindNode, ResolveError>)
    ensures r == Resolve(kinds, start)
  {
    var kind := start;
    var depth := 0;
    while kind.baseId.Some?
      invariant 0 <= depth <= MAX_DEPTH
      invariant Resolve(kinds, start) == ResolveFrom(kinds, kind, depth)
      decreases MAX_DEPTH - depth
    {
      var baseProtocol := kind.baseId.value;
      if depth + 1 > MAX_DEPTH {
        return Err(TooDeep(baseProtocol));
      }
      var found := Lookup(kinds, baseProtocol);
      if found.Err? {
        return Err(found.error);
      }
      var base := found.value;
      var merged := MergeKindOverBase(base, kind);
      kind := merged.(baseId := base.baseId);
      depth := depth + 1;
    }
    r := Ok(kind);
  }

  // ----- What resolution means

  /** The bases that an `extends` leads to, nearest first, within `hops` hops. */
  function Bases(kinds: Kinds, baseId: Option<string>, hops: nat): Result<seq<KindNode>, ResolveError>
    decreases hops
  {
    match baseId
    case None => Ok([])
    case Some(b) =>
      if hops == 0 then Err(TooDeep(b))
      else
        match Lookup(kinds, b)
        case Err(e) => Err(e)
        case Ok(base) =>
          match Bases(kinds, base.baseId, hops - 1)
          case Err(e) => Err(e)
          case Ok(rest) => Ok([base] + rest)
  }

  /** A kind under its bases, merged from the nearest to the farthest. */
  function MergeAll(bases: seq<KindNode>, kind: KindNode): KindNode {
    if bases == [] then kind else MergeAll(bases[1..], Merge(bases[0], kind))
  }

  lemma {:induction false} ResolveFromIsMergeAll(kinds: Kinds, kind: KindNode, depth: nat)
    requires depth <= MAX_DEPTH
    ensures ResolveFrom(kinds, kind, depth) ==
            match Bases(kinds, kind.baseId, MAX_DEPTH - depth)
            case Err(e) => Err(e)
            case Ok(bases) => Ok(MergeAll(bases, kind))
    decreases MAX_DEPTH - depth
  {
    if kind.baseId.Some? && depth < MAX_DEPTH {
      var found := Lookup(kinds, kind.baseId.value);
      if found.Ok? {
        var next := Merge(found.value, kind).(baseId := found.value.baseId);
        ResolveFromIsMergeAll(kinds, next, depth + 1);
        var rest := Bases(kinds, found.value.baseId, MAX_DEPTH - depth - 1);
        if rest.Ok? {
          assert ([found.value] + rest.value)[1..] == rest.value;
          ExtendsIsIgnored(rest.value, Merge(found.value, kind), found.value.baseId, kinds, MAX_DEPTH - depth - 1);
        }
      }
    }
  }

  /** Merging looks at a kind's own `extends` only when there is no base to merge. */
  lemma ExtendsIsIgnored(bases: seq<KindNode>, kind: KindNode, baseId: Option<string>, kinds: Kinds, hops: nat)
    requires kind.baseId == None && Bases(kinds, baseId, hops) == Ok(bases)
    ensures MergeAll(bases, kind.(baseId := baseId)) == MergeAll(bases, kind)
  {
    if bases == [] {
      assert baseId == None;
    } else {
      assert Merge(bases[0], kind.(baseId := baseId)) == Merge(bases[0], kind);
    }
  }

  lemma {:induction false} MergeAllOverBase(bases: seq<KindNode>, base: KindNode, kind: KindNode)
    ensures MergeAll(bases, Merge(base, kind)) == Merge(MergeAll(bases, base), kind)
    decreases |bases|
  {
    if bases != [] {
      MergeIsAssociative(bases[0], base, kind);
      MergeAllOverBase(bases[1..], Merge(bases[0], base), kind);
    }
  }

  /** Resolution succeeds exactly when the chain ends within 8 hops with every base found,
      and then it is the kind merged over its own resolved base. */
  lemma ResolveIsFold(kinds: Kinds, kind: KindNode)
    ensures Resolve(kinds, kind).Ok? <==> Bases(kinds, kind.baseId, MAX_DEPTH).Ok?
    ensures Resolve(kinds, kind).Err? ==> Resolve(kinds, kind).error == Bases(kinds, kind.baseId, MAX_DEPTH).error
    ensures kind.baseId.None? ==> Resolve(kinds, kind) == Ok(kind)
    ensures Resolve(kinds, kind).Ok? && kind.baseId.Some? ==>
              var base := Lookup(kinds, kind.baseId.value);
              && base.Ok? && Resolve(kinds, base.value).Ok?
              && Resolve(kinds, kind) == Ok(Merge(Resolve(kinds, base.value).value, kind))
  {
    ResolveFromIsMergeAll(kinds, kind, 0);
    if Resolve(kinds, kind).Ok? && kind.baseId.Some? {
      var base := Lookup(kinds, kind.baseId.value).value;
      var rest := Bases(kinds, base.baseId, MAX_DEPTH - 1);
      MoreHops(kinds, base.baseId, MAX_DEPTH - 1);
      ResolveFromIsMergeAll(kinds, base, 0);
      MergeAllOverBase(rest.value, base, kind);
      assert ([base] + rest.value)[1..] == rest.value;
    }
  }

  lemma {:induction false} MoreHops(kinds: Kinds, baseId: Option<string>, hops: nat)
    requires Bases(kinds, baseId, hops).Ok?
    ensures Bases(kinds, baseId, hops + 1) == Bases(kinds, baseId, hops)
    decreases hops
  {
    if baseId.Some? {
      MoreHops(kinds, Lookup(kinds, baseId.value).value.baseId, hops - 1);
    }
  }

  // ----- Field by field, over the whole chain

  /** The first layer that has a value, from the kind itself outwards. */
  function Nearest<T>(layers: seq<Option<T>>): Option<T> {
    if layers == [] then None else Or(layers[0], Nearest(layers[1..]))
  }

  function Cids(chain: seq<KindNode>): seq<Option<Link>> {
    seq(|chain|, i requires 0 <= i < |chain| => chain[i].cid)
  }

  function Behaviours(chain: seq<KindNode>): seq<Option<Link>> {
    seq(|chain|, i requires 0 <= i < |chain| => chain[i].behaviour)
  }

  function Attributes(chain: seq<KindNode>, key: string): seq<Option<Value>> {
    seq(|chain|, i requires 0 <= i < |chain| => Attribute(chain[i], key))
  }

  /** The behaviour layers of a chain given nearest first, listed base first. */
  function AllLayers(chain: seq<KindNode>): seq<Link> {
    if chain == [] then [] else AllLayers(chain[1..]) + Layers(chain[0])
  }

  /** The host functions of the kinds above the root, listed base first. */
  function AllHostFunctions(chain: seq<KindNode>): seq<string> {
    if |chain| <= 1 then [] else AllHostFunctions(chain[1..]) + chain[0].hostFunctions
  }

  lemma {:induction false} MergeAllCid(bases: seq<KindNode>, kind: KindNode)
    ensures var r := MergeAll(bases, kind);
            r.protocol == kind.protocol && r.kindType == kind.kindType && r.cid == Nearest(Cids([kind] + bases))
    decreases |bases|
  {
    var chain := [kind] + bases;
    if bases == [] {
      assert Cids(chain)[1..] == [];
    } else {
      MergeAllOverBase(bases[1..], bases[0], kind);
      MergeAllCid(bases[1..], bases[0]);
      assert [bases[0]] + bases[1..] == bases;
      assert Cids(chain)[1..] == Cids(bases);
    }
  }

  lemma {:induction false} MergeAllBehaviour(bases: seq<KindNode>, kind: KindNode)
    ensures MergeAll(bases, kind).behaviour == Nearest(Behaviours([kind] + bases))
    decreases |bases|
  {
    var chain := [kind] + bases;
    if bases == [] {
      assert Behaviours(chain)[1..] == [];
    } else {
      MergeAllOverBase(bases[1..], bases[0], kind);
      MergeAllBehaviour(bases[1..], bases[0]);
      assert [bases[0]] + bases[1..] == bases;
      assert Behaviours(chain)[1..] == Behaviours(bases);
    }
  }

  predicate FirstAt<T>(layers: seq<Option<T>>, i: nat) {
    i < |layers| && layers[i].Some? && forall j :: 0 <= j < i ==> layers[j].None?
  }

  /** The nearest value is that of a layer that has one, with none before it. */
  lemma {:induction false} NearestIsFirst<T>(layers: seq<Option<T>>)
    ensures Nearest(layers).None? <==> forall i :: 0 <= i < |layers| ==> layers[i].None?
    ensures Nearest(layers).Some? ==>
              exists i: nat :: FirstAt(layers, i) && layers[i] == Nearest(layers)
  {
    if layers != [] {
      NearestIsFirst(layers[1..]);
      assert forall i :: 0 < i < |layers| ==> layers[i] == layers[1..][i - 1];
      if layers[0].Some? {
        assert FirstAt(layers, 0);
      } else if Nearest(layers).Some? {
        var i: nat :| FirstAt(layers[1..], i) && layers[1..][i] == Nearest(layers);
        assert FirstAt(layers, i + 1);
        assert layers[i + 1] == Nearest(layers);
      }
    }
  }

  function Attribute(kind: KindNode, key: string): Option<Value> {
    if key in kind.attributes then Some(kind.attributes[key]) else None
  }

  lemma {:induction false} MergeAllAttribute(bases: seq<KindNode>, kind: KindNode, key: string)
    ensures Attribute(MergeAll(bases, kind), key) == Nearest(Attributes([kind] + bases, key))
    decreases |bases|
  {
    var chain := [kind] + bases;
    if bases == [] {
      assert Attributes(chain, key)[1..] == [];
    } else {
      MergeAllOverBase(bases[1..], bases[0], kind);
      MergeAllAttribute(bases[1..], bases[0], key);
      assert [bases[0]] + bases[1..] == bases;
      assert Attributes(chain, key)[1..] == Attributes(bases, key);
    }
  }

  lemma {:induction false} MergeAllLayers(bases: seq<KindNode>, kind: KindNode)
    ensures Layers(MergeAll(bases, kind)) == AllLayers([kind] + bases)
    decreases |bases|
  {
    var chain := [kind] + bases;
    if bases == [] {
      assert chain[1..] == [];
    } else {
      MergeAllOverBase(bases[1..], bases[0], kind);
      MergeAllLayers(bases[1..], bases[0]);
      assert chain[1..] == bases == [bases[0]] + bases[1..];
      MergeLayers(MergeAll(bases[1..], bases[0]), kind);
    }
  }

  lemma {:induction false} MergeAllHostFunctions(bases: seq<KindNode>, kind: KindNode)
    ensures var chain := [kind] + bases;
            MergeAll(bases, kind).hostFunctions == Union(chain[|chain| - 1].hostFunctions, AllHostFunctions(chain))
    decreases |bases|
  {
    var chain := [kind] + bases;
    if bases != [] {
      MergeAllOverBase(bases[1..], bases[0], kind);
      MergeAllHostFunctions(bases[1..], bases[0]);
      assert chain[1..] == bases == [bases[0]] + bases[1..];
      UnionAppend(bases[|bases| - 1].hostFunctions, AllHostFunctions(bases), kind.hostFunctions);
    }
  }

  lemma {:induction false} MergeAllEndsChain(bases: seq<KindNode>, kind: KindNode)
    requires bases == [] ==> kind.baseId == None
    ensures MergeAll(bases, kind).baseId == None
    decreases |bases|
  {
    if bases != [] {
      MergeAllEndsChain(bases[1..], Merge(bases[0], kind));
    }
  }

  /** The resolved kind keeps its own identity and evaluator, takes its binary, its behaviour
      and every attribute from the nearest layer that has one, and lists behaviours and host functions
      base first, the latter without repeating what a base already lists. */
  lemma ResolvedFields(kinds: Kinds, kind: KindNode, key: string)
    requires Resolve(kinds, kind).Ok?
    ensures Bases(kinds, kind.baseId, MAX_DEPTH).Ok?
    ensures var r, chain := Resolve(kinds, kind).value, [kind] + Bases(kinds, kind.baseId, MAX_DEPTH).value;
            && r.baseId == None && r.protocol == kind.protocol && r.kindType == kind.kindType
            && r.cid == Nearest(Cids(chain))
            && r.behaviour == Nearest(Behaviours(chain))
            && Attribute(r, key) == Nearest(Attributes(chain, key))
            && Layers(r) == AllLayers(chain)
            && r.hostFunctions == Union(chain[|chain| - 1].hostFunctions, AllHostFunctions(chain))
  {
    ResolveFromIsMergeAll(kinds, kind, 0);
    ResolveIsFold(kinds, kind);
    var bases := Bases(kinds, kind.baseId, MAX_DEPTH).value;
    MergeAllCid(bases, kind);
    MergeAllBehaviour(bases, kind);
    MergeAllAttribute(bases, kind, key);
    MergeAllLayers(bases, kind);
    MergeAllHostFunctions(bases, kind);
    MergeAllEndsChain(bases, kind);
  }

  // ----- When resolution fails

  /** Following `extends` from `baseId` finds the kinds of `path`, one after the other. */
  predicate Finds(kinds: Kinds, baseId: Option<string>, path: seq<KindNode>)
    decreases |path|
  {
    path == [] ||
    (baseId.Some? && Lookup(kinds, baseId.value) == Ok(path[0]) && Finds(kinds, path[0].baseId, path[1..]))
  }

  /** What the last kind on the way extends. */
  function Onwards(baseId: Option<string>, path: seq<KindNode>): Option<string> {
    if path == [] then baseId else path[|path| - 1].baseId
  }

  lemma {:induction false} BasesAreFound(kinds: Kinds, baseId: Option<string>, path: seq<KindNode>, hops: nat)
    requires Finds(kinds, baseId, path)
    ensures Onwards(baseId, path).None? && |path| <= hops ==> Bases(kinds, baseId, hops) == Ok(path)
    ensures Onwards(baseId, path).Some? && |path| == hops ==>
              Bases(kinds, baseId, hops) == Err(TooDeep(Onwards(baseId, path).value))
    ensures Onwards(baseId, path).Some? && |path| < hops && Lookup(kinds, Onwards(baseId, path).value).Err? ==>
              Bases(kinds, baseId, hops) == Err(Lookup(kinds, Onwards(baseId, path).value).error)
    decreases |path|
  {
    if path != [] && hops > 0 {
      BasesAreFound(kinds, path[0].baseId, path[1..], hops - 1);
      assert [path[0]] + path[1..] == path;
    }
  }

  /** How far `extends` can be followed within `hops` hops. */
  lemma {:induction false} Follow(kinds: Kinds, baseId: Option<string>, hops: nat) returns (path: seq<KindNode>)
    ensures Finds(kinds, baseId, path) && |path| <= hops
    ensures Onwards(baseId, path).Some? ==> |path| == hops || Lookup(kinds, Onwards(baseId, path).value).Err?
    decreases hops
  {
    if hops == 0 || baseId.None? || Lookup(kinds, baseId.value).Err? {
      path := [];
    } else {
      var base := Lookup(kinds, baseId.value).value;
      var rest := Follow(kinds, base.baseId, hops - 1);
      path := [base] + rest;
      assert path[1..] == rest;
    }
  }

  /** A way of at most 8 hops to base `b`, or to the end. */
  ghost predicate LeadsTo(kinds: Kinds, kind: KindNode, path: seq<KindNode>, b: Option<string>) {
    Finds(kinds, kind.baseId, path) && Onwards(kind.baseId, path) == b && |path| <= 8
  }

  /** What resolution comes to when this is how far `extends` leads. */
  ghost predicate Ends(kinds: Kinds, kind: KindNode, path: seq<KindNode>, b: Option<string>) {
    && LeadsTo(kinds, kind, path, b)
    && (b.Some? ==> |path| == 8 || Lookup(kinds, b.value).Err?)
  }

  /** The error at base `b`, after so many hops. */
  function EndError(kinds: Kinds, b: string, hops: nat): ResolveError {
    if hops == 8 then TooDeep(b)
    else if CanonicalId(b) !in kinds then UnknownBase(b)
    else FetchFailed(b)
  }

  lemma EndDecides(kinds: Kinds, kind: KindNode, path: seq<KindNode>, b: Option<string>)
    requires Ends(kinds, kind, path, b)
    ensures Resolve(kinds, kind).Ok? <==> b.None?
    ensures b.Some? ==> Resolve(kinds, kind) == Err(EndError(kinds, b.value, |path|))
  {
    ResolveFromIsMergeAll(kinds, kind, 0);
    BasesAreFound(kinds, kind.baseId, path, 8);
  }

  /** A kind resolves exactly when its `extends` can be followed to an end in at most 8 hops.
      Otherwise the error names the ninth base, or the first one that is unknown or cannot be
      fetched. Every kind has such an end, and each of them gives the same answer. */
  lemma ResolvesWithinEightHops(kinds: Kinds, kind: KindNode)
    ensures exists path, b :: Ends(kinds, kind, path, b)
    ensures Resolve(kinds, kind).Ok? <==> exists path :: LeadsTo(kinds, kind, path, None)
    ensures forall path, b :: Ends(kinds, kind, path, Some(b)) ==>
              Resolve(kinds, kind) == Err(EndError(kinds, b, |path|))
  {
    var path := Follow(kinds, kind.baseId, 8);
    var b := Onwards(kind.baseId, path);
    assert Ends(kinds, kind, path, b);
    EndDecides(kinds, kind, path, b);
    forall p | LeadsTo(kinds, kind, p, None) ensures Resolve(kinds, kind).Ok? {
      assert Ends(kinds, kind, p, None);
      EndDecides(kinds, kind, p, None);
    }
    forall p, c | Ends(kinds, kind, p, Some(c)) ensures Resolve(kinds, kind) == Err(EndError(kinds, c, |p|)) {
      EndDecides(kinds, kind, p, Some(c));
    }
  }

  // ----- Cycles

  /** The `extends` found after following `hops` links. */
  function ExtendsAt(kinds: Kinds, baseId: Option<string>, hops: nat): Option<string>
    decreases hops
  {
    if hops == 0 then baseId
    else if baseId.None? || Lookup(kinds, baseId.value).Err? then None
    else ExtendsAt(kinds, Lookup(kinds, baseId.value).value.baseId, hops - 1)
  }

  lemma {:induction false} ChainEnds(kinds: Kinds, baseId: Option<string>, hops: nat, i: nat)
    requires Bases(kinds, baseId, hops).Ok?
    ensures var n := |Bases(kinds, baseId, hops).value|;
            (i < n ==> ExtendsAt(kinds, baseId, i).Some?) && (i >= n ==> ExtendsAt(kinds, baseId, i).None?)
    decreases hops
  {
    if baseId.Some? && i > 0 {
      ChainEnds(kinds, Lookup(kinds, baseId.value).value.baseId, hops - 1, i - 1);
    }
  }

  lemma {:induction false} ExtendsAtSplits(kinds: Kinds, baseId: Option<string>, i: nat, k: nat)
    ensures ExtendsAt(kinds, baseId, i + k) == ExtendsAt(kinds, ExtendsAt(kinds, baseId, i), k)
    decreases i
  {
    if i > 0 {
      if baseId.Some? && Lookup(kinds, baseId.value).Ok? {
        ExtendsAtSplits(kinds, Lookup(kinds, baseId.value).value.baseId, i - 1, k);
      } else {
        NothingStays(kinds, k);
      }
    }
  }

  lemma NothingStays(kinds: Kinds, k: nat)
    ensures ExtendsAt(kinds, None, k) == None
  {
  }

  lemma SameBaseSameFuture(kinds: Kinds, a: string, b: string, k: nat)
    requires CanonicalId(a) == CanonicalId(b) && k > 0
    ensures ExtendsAt(kinds, Some(a), k) == ExtendsAt(kinds, Some(b), k)
  {
  }

  lemma RepeatNeverEnds(kinds: Kinds, baseId: Option<string>, hops: nat, i: nat, j: nat)
    requires i < j
    requires var a, b := ExtendsAt(kinds, baseId, i), ExtendsAt(kinds, baseId, j);
             a.Some? && b.Some? && CanonicalId(a.value) == CanonicalId(b.value)
    ensures Bases(kinds, baseId, hops).Err?
  {
    if Bases(kinds, baseId, hops).Ok? {
      var n := |Bases(kinds, baseId, hops).value|;
      ChainEnds(kinds, baseId, hops, j);
      SameBaseSameFuture(kinds, ExtendsAt(kinds, baseId, i).value, ExtendsAt(kinds, baseId, j).value, n - j);
      ExtendsAtSplits(kinds, baseId, i, n - j);
      ExtendsAtSplits(kinds, baseId, j, n - j);
      ChainEnds(kinds, baseId, hops, n);
      ChainEnds(kinds, baseId, hops, i + (n - j));
    }
  }

  /** A chain that comes back to a base it has already visited never resolves. */
  lemma CycleIsError(kinds: Kinds, kind: KindNode, i: nat, j: nat)
    requires i < j
    requires var a, b := ExtendsAt(kinds, kind.baseId, i), ExtendsAt(kinds, kind.baseId, j);
             a.Some? && b.Some? && CanonicalId(a.value) == CanonicalId(b.value)
    ensures Resolve(kinds, kind).Err?
  {
    ResolveFromIsMergeAll(kinds, kind, 0);
    RepeatNeverEnds(kinds, kind.baseId, MAX_DEPTH, i, j);
  }
}
