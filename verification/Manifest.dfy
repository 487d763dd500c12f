/** The runtime manifest, the entity nodes it links to, the store both are published in, and
    what one writer call does to them (src/manifest.rs, src/entity.rs). */
module Manifest {
  import opened Basics
  import KindTree

  type Cid = string
  type Fragment = string

  datatype EntityNode = EntityNode(
    kind: string,
    behaviour: Option<Cid>,
    acl: string,
    state: Option<Cid>,
    parent: Option<string>,
    labelText: Option<string>,  // the source's `label`
    attributes: map<string, string>,
    init: Option<string>,
    initialised: bool,
    reloadError: Option<string>)

  datatype RuntimeManifest = RuntimeManifest(
    acl: Option<Cid>,
    acls: map<string, Cid>,
    protocol: string,
    kinds: KindTree.Tree,
    entities: map<Fragment, Cid>,
    i18n: map<string, Cid>,
    grp: map<string, Cid>,
    config: map<string, string>)

  datatype Block = ManifestBlock(manifest: RuntimeManifest) | EntityBlock(node: EntityNode) | OtherBlock

  /** A content-addressed store: an id, once used, always names the same content. */
  type Store = map<Cid, Block>

  predicate CanPut(store: Store, cid: Cid, block: Block) {
    cid in store ==> store[cid] == block
  }

  /** `later` still has everything `store` has. */
  predicate Grows(store: Store, later: Store) {
    forall c :: c in store ==> c in later && later[c] == store[c]
  }

  function ManifestAt(store: Store, cid: Cid): Option<RuntimeManifest> {
    if cid in store && store[cid].ManifestBlock? then Some(store[cid].manifest) else None
  }

  function NodeAt(store: Store, m: RuntimeManifest, fragment: Fragment): Option<EntityNode> {
    if fragment in m.entities && m.entities[fragment] in store && store[m.entities[fragment]].EntityBlock? then
      Some(store[m.entities[fragment]].node)
    else None
  }

  // ----- The setters built on `update_entity_node`

  datatype Setter =
    | SetState(cid: Cid)
    | CompleteReload(stateCid: Option<Cid>)
    | SetBehaviour(behaviourCid: Option<Cid>)
    | SetReloadError(reason: Option<string>)

  /** The updated node, or nothing when the setter has nothing to change. */
  function Set(node: EntityNode, s: Setter): Option<EntityNode> {
    match s
    case SetState(cid) => Some(node.(state := Some(cid)))
    case CompleteReload(stateCid) =>
      Some(node.(state := if stateCid.Some? then stateCid else node.state, initialised := true, reloadError := None))
    case SetBehaviour(cid) => Some(node.(behaviour := cid, initialised := true))
    case SetReloadError(reason) => if node.reloadError == reason then None else Some(node.(reloadError := reason))
  }

  /** A setter has nothing to do exactly when it is to set the reload error that is there. */
  lemma NothingToSetExactly(node: EntityNode, s: Setter)
    ensures Set(node, s).None? <==> s == SetReloadError(node.reloadError)
  {
  }

  function SetAll(node: EntityNode, setters: seq<Setter>): EntityNode {
    if setters == [] then node
    else
      var before := SetAll(node, setters[..|setters| - 1]);
      var after := Set(before, setters[|setters| - 1]);
      if after.Some? then after.value else before
  }

  // ----- Calls and their effects

  /** A writer call. An edit stands for the closure passed to `mutate`: the manifests it
      accepts, each with what it makes of it; `awaits` is true for `mutate_async`. */
  datatype Call =
    | Mutate(edit: imap<RuntimeManifest, RuntimeManifest>, awaits: bool)
    | Update(fragment: Fragment, setter: Setter)

  /** Publishing `after` over `before` is what the call is for. */
  ghost predicate Effect(store: Store, call: Call, before: RuntimeManifest, after: RuntimeManifest) {
    match call
    case Mutate(edit, _) => before in edit && edit[before] == after
    case Update(fragment, setter) =>
      && NodeAt(store, before, fragment).Some? && NodeAt(store, after, fragment).Some?
      && Set(NodeAt(store, before, fragment).value, setter) == NodeAt(store, after, fragment)
      && after == before.(entities := before.entities[fragment := after.entities[fragment]])
  }

  lemma EffectLasts(store: Store, later: Store, call: Call, before: RuntimeManifest, after: RuntimeManifest)
    requires Effect(store, call, before, after) && Grows(store, later)
    ensures Effect(later, call, before, after)
  {
  }

  /** Putting the updated node and linking to it has the effect of the update. */
  lemma PutNodeHasEffect(
    store: Store, fragment: Fragment, setter: Setter, before: RuntimeManifest, node: EntityNode, c: Cid)
    requires NodeAt(store, before, fragment).Some? && Set(NodeAt(store, before, fragment).value, setter) == Some(node)
    requires CanPut(store, c, EntityBlock(node))
    ensures Effect(store[c := EntityBlock(node)], Update(fragment, setter), before,
                   before.(entities := before.entities[fragment := c]))
  {
    assert Grows(store, store[c := EntityBlock(node)]);
    assert NodeAt(store[c := EntityBlock(node)], before, fragment) == NodeAt(store, before, fragment);
  }

  // ----- The state under the writer's mutex, and one call without interference

  datatype WriterError = FetchFailed | EditRefused | NotInManifest | NodeFetchFailed | NodePutFailed | PutFailed

  /** Which of the remote calls of one writer call succeed. */
  datatype Network = Network(fetches: bool, fetchesNode: bool, putsNode: bool, puts: bool)

  /** Ids are made from content: no two blocks share one, and the store keeps to that. */
  ghost predicate ContentAddressed(store: Store, idOf: Block -> Cid) {
    && (forall a, b :: idOf(a) == idOf(b) ==> a == b)
    && (forall b :: CanPut(store, idOf(b), b))
  }

  class ManifestWriter {
    const idOf: Block -> Cid
    var store: Store
    var cid: Cid
    var manifest: Option<RuntimeManifest>
    var rootCid: Option<Cid>

    /** The writer's root is published, and a cached manifest is the one published there. */
    ghost predicate Coherent()
      reads this
    {
      && ContentAddressed(store, idOf) && ManifestAt(store, cid).Some?
      && (manifest.Some? ==> ManifestAt(store, cid) == manifest)
    }

    constructor (idOf: Block -> Cid, store: Store, initialCid: Cid, rootCid: Option<Cid>)
      requires ContentAddressed(store, idOf) && ManifestAt(store, initialCid).Some?
      ensures Coherent() && this.store == store && cid == initialCid && manifest == None && this.rootCid == rootCid
    {
      this.idOf := idOf;
      this.store, this.cid, this.manifest, this.rootCid := store, initialCid, None, rootCid;
    }

    /** `fetch_or_cached`: takes the cached manifest out, or fetches it. */
    method FetchOrCached(fetches: bool) returns (r: Result<RuntimeManifest, WriterError>)
      requires Coherent()
      modifies this`manifest
      ensures Coherent() && manifest == None
      ensures r.Ok? ==> ManifestAt(store, cid) == Some(r.value)
      ensures r.Ok? <==> old(manifest).Some? || fetches
      ensures r.Err? ==> r.error == FetchFailed
    {
      if manifest.Some? {
        var m := manifest.value;
        manifest := None;
        return Ok(m);
      }
      if !fetches {
        return Err(FetchFailed);
      }
      return Ok(store[cid].manifest);
    }

    /** `publish_manifest_update`: the root moves only once the manifest is published. */
    method PublishManifestUpdate(m: RuntimeManifest, puts: bool) returns (r: Result<Cid, WriterError>)
      requires Coherent()
      modifies this
      ensures Coherent() && Grows(old(store), store)
      ensures if puts then r == Ok(cid) && ManifestAt(store, cid) == Some(m) && rootCid == Some(cid)
              else
                && r == Err(PutFailed) && cid == old(cid) && store == old(store)
                && rootCid == old(rootCid) && manifest == old(manifest)
    {
      if !puts {
        return Err(PutFailed);
      }
      var newCid := idOf(ManifestBlock(m));
      store := store[newCid := ManifestBlock(m)];
      cid := newCid;
      manifest := Some(m);
      rootCid := Some(newCid);
      return Ok(newCid);
    }

    /** `mutate`, with the closure as a partial function: it succeeds exactly when the fetch,
        the closure and the put do, and then the edited manifest is published; otherwise
        nothing moves but the cached copy, which is gone. */
    method MutateManifest(edit: RuntimeManifest -> Option<RuntimeManifest>, net: Network)
      returns (r: Result<Cid, WriterError>)
      requires Coherent()
      modifies this
      ensures Coherent() && Grows(old(store), store)
      ensures var base := ManifestAt(old(store), old(cid)).value;
              r.Ok? <==> (old(manifest).Some? || net.fetches) && edit(base).Some? && net.puts
      ensures r.Err? ==> r.error == if old(manifest).None? && !net.fetches then FetchFailed
                                    else if edit(ManifestAt(old(store), old(cid)).value).None? then EditRefused
                                    else PutFailed
      ensures r.Err? ==> cid == old(cid) && store == old(store) && rootCid == old(rootCid) && manifest == None
      ensures r.Ok? ==> r.value == cid && rootCid == Some(cid)
                        && ManifestAt(store, cid) == edit(ManifestAt(old(store), old(cid)).value)
    {
      var fetched := FetchOrCached(net.fetches);
      if fetched.Err? {
        return Err(fetched.error);
      }
      var edited := edit(fetched.value);
      if edited.None? {
        return Err(EditRefused);
      }
      r := PublishManifestUpdate(edited.value, net.puts);
    }

    /** The remote calls and the manifest let an update of `fragment` succeed. */
    ghost predicate UpdateSucceeds(fragment: Fragment, setter: Setter, net: Network)
      requires Coherent()
      reads this
    {
      var node := NodeAt(store, ManifestAt(store, cid).value, fragment);
      && (manifest.Some? || net.fetches) && net.fetchesNode && node.Some?
      && (Set(node.value, setter).None? || (net.putsNode && net.puts))
    }

    /** Why such an update fails, if it does. */
    ghost function UpdateError(fragment: Fragment, net: Network): WriterError
      requires Coherent()
      reads this
    {
      var m := ManifestAt(store, cid).value;
      if manifest.None? && !net.fetches then FetchFailed
      else if fragment !in m.entities then NotInManifest
      else if !net.fetchesNode || NodeAt(store, m, fragment).None? then NodeFetchFailed
      else if !net.putsNode then NodePutFailed
      else PutFailed
    }

    /** `update_entity_node`: on success either there was nothing to change, or the node of
        this fragment, and nothing else, is what the setter makes of it. */
    method UpdateEntityNode(fragment: Fragment, setter: Setter, net: Network) returns (r: Result<Cid, WriterError>)
      requires Coherent()
      modifies this
      ensures Coherent() && Grows(old(store), store)
      ensures r.Ok? <==> old(UpdateSucceeds(fragment, setter, net))
      ensures r.Err? ==> r.error == old(UpdateError(fragment, net))
      ensures r.Err? ==> cid == old(cid) && rootCid == old(rootCid) && manifest == None
      ensures r.Ok? ==> r.value == cid
      ensures r.Ok? ==>
                var before := ManifestAt(old(store), old(cid)).value;
                var node := NodeAt(old(store), before, fragment);
                && node.Some?
                && if Set(node.value, setter).None? then
                     cid == old(cid) && store == old(store) && rootCid == old(rootCid) && manifest == Some(before)
                   else
                     && rootCid == Some(cid)
                     && Effect(store, Update(fragment, setter), before, ManifestAt(store, cid).value)
    {
      var oldCid := cid;
      var fetched := FetchOrCached(net.fetches);
      if fetched.Err? {
        return Err(fetched.error);
      }
      var m := fetched.value;
      if fragment !in m.entities {
        return Err(NotInManifest);
      }
      var link := m.entities[fragment];
      if !net.fetchesNode || link !in store || !store[link].EntityBlock? {
        return Err(NodeFetchFailed);
      }
      var updated := Set(store[link].node, setter);
      if updated.None? {
        manifest := Some(m);
        return Ok(oldCid);
      }
      if !net.putsNode {
        return Err(NodePutFailed);
      }
      var nodeCid := idOf(EntityBlock(updated.value));
      PutNodeHasEffect(store, fragment, setter, m, updated.value, nodeCid);
      store := store[nodeCid := EntityBlock(updated.value)];
      ghost var withNode := store;
      var m' := m.(entities := m.entities[fragment := nodeCid]);
      r := PublishManifestUpdate(m', net.puts);
      if r.Ok? {
        EffectLasts(withNode, store, Update(fragment, setter), m, m');
      }
    }
  }

  // ----- What a sequence of setters makes of a node

  /** The value last written to `state`, if a setter of the sequence wrote one. */
  function LastState(setters: seq<Setter>): Option<Cid> {
    if setters == [] then None
    else
      match setters[|setters| - 1]
      case SetState(cid) => Some(cid)
      case CompleteReload(Some(cid)) => Some(cid)
      case _ => LastState(setters[..|setters| - 1])
  }

  function LastBehaviour(setters: seq<Setter>): Option<Option<Cid>> {
    if setters == [] then None
    else
      match setters[|setters| - 1]
      case SetBehaviour(cid) => Some(cid)
      case _ => LastBehaviour(setters[..|setters| - 1])
  }

  function LastReloadError(setters: seq<Setter>): Option<Option<string>> {
    if setters == [] then None
    else
      match setters[|setters| - 1]
      case SetReloadError(reason) => Some(reason)
      case CompleteReload(_) => Some(None)
      case _ => LastReloadError(setters[..|setters| - 1])
  }

  predicate Initialises(s: Setter) {
    s.CompleteReload? || s.SetBehaviour?
  }

  /** Each field is the one written last by a setter for that very field; no setter undoes
      another one's, `initialised` never goes back, and the other fields stay. */
  lemma {:induction false} SettersKeepEachOthersFields(node: EntityNode, setters: seq<Setter>)
    ensures var r := SetAll(node, setters);
            && r.state == (if LastState(setters).Some? then LastState(setters) else node.state)
            && r.behaviour == (if LastBehaviour(setters).Some? then LastBehaviour(setters).value else node.behaviour)
            && r.reloadError ==
               (if LastReloadError(setters).Some? then LastReloadError(setters).value else node.reloadError)
            && (r.initialised <==> node.initialised || exists i :: 0 <= i < |setters| && Initialises(setters[i]))
            && r == node.(state := r.state, behaviour := r.behaviour,
                          initialised := r.initialised, reloadError := r.reloadError)
  {
    if setters != [] {
      var init := setters[..|setters| - 1];
      SettersKeepEachOthersFields(node, init);
      assert forall i :: 0 <= i < |init| ==> init[i] == setters[i];
    }
  }
}
