/** Overlaying a tree of kinds onto a manifest's own (src/bootstrap.rs). */
module Overlay {
  import opened Basics
  import opened Paths
  import opened KindTree
  import opened KindResolve

  datatype OverlayError =
    | KindNotFetched(protocol: string)
    | ProtocolMismatch(inTree: string, inNode: string)
    | Unresolved(error: ResolveError)

  // ----- The meaning of an overlay

  /** What `q` maps to after the overlay protocols in `done` were inserted into `t`. */
  ghost function OverlaidBy(t: Tree, overlay: Tree, done: set<Path>, q: Path): Option<Link> {
    if q in done then (if Blocked(t, q) then Get(t, q) else Get(overlay, q))
    else if exists p :: p in done && StrictPrefix(p, q) && !Blocked(t, p) then None
    else Get(t, q)
  }

  ghost predicate IsOverlaidBy(t: Tree, overlay: Tree, done: set<Path>, t': Tree) {
    forall q :: Get(t', q) == OverlaidBy(t, overlay, done, q)
  }

  /** What the documentation promises: the overlay's links, and otherwise the old ones. */
  ghost predicate IsOverride(t: Tree, overlay: Tree, t': Tree) {
    forall q :: Get(t', q) == if Get(overlay, q).Some? then Get(overlay, q) else Get(t, q)
  }

  /** No overlay protocol is a strict prefix or a strict extension of a stored one. */
  ghost predicate Compatible(t: Tree, overlay: Tree) {
    forall p :: Get(overlay, p).Some? ==> !Blocked(t, p) && !Shadows(t, p)
  }

  lemma PrefixTransitive(p: Path, q: Path, r: Path)
    requires StrictPrefix(p, q) && StrictPrefix(q, r)
    ensures StrictPrefix(p, r)
  {
    assert r[..|q|][..|p|] == r[..|p|];
  }

  /** Inserting overlay protocols never blocks or unblocks another overlay protocol. */
  lemma BlockedAsBefore(t: Tree, overlay: Tree, done: set<Path>, t': Tree, p: Path)
    requires IsOverlaidBy(t, overlay, done, t') && Get(overlay, p).Some?
    requires forall d :: d in done ==> Get(overlay, d).Some?
    ensures Blocked(t', p) <==> Blocked(t, p)
  {
    forall q | StrictPrefix(q, p) ensures Get(t', q) == Get(t, q) {
      if q in done {
        PrefixFree(overlay, q, p);
      }
      if d :| d in done && StrictPrefix(d, q) {
        PrefixTransitive(d, q, p);
        PrefixFree(overlay, d, p);
      }
    }
  }

  lemma InsertOne(t: Tree, overlay: Tree, done: set<Path>, t': Tree, p: Path)
    requires IsOverlaidBy(t, overlay, done, t') && Get(overlay, p).Some? && p !in done
    requires forall d :: d in done ==> Get(overlay, d).Some?
    ensures IsOverlaidBy(t, overlay, done + {p}, Insert(t', p, Get(overlay, p).value))
  {
    var link := Get(overlay, p).value;
    BlockedAsBefore(t, overlay, done, t', p);
    BlockedMeetsLeaf(t', p);
    forall q ensures Get(Insert(t', p, link), q) == OverlaidBy(t, overlay, done + {p}, q) {
      if Blocked(t', p) {
        BlockedInsertIsDropped(t', p, link);
        BlockedOverlayIsIgnored(t, overlay, done, p, q);
      } else {
        GetAfterInsert(t', p, link, q);
        if StrictPrefix(p, q) && q in done {
          PrefixFree(overlay, p, q);
        }
      }
    }
  }

  lemma BlockedOverlayIsIgnored(t: Tree, overlay: Tree, done: set<Path>, p: Path, q: Path)
    requires Blocked(t, p) && p !in done && Get(overlay, p).Some?
    requires forall d :: d in done ==> Get(overlay, d).Some?
    ensures OverlaidBy(t, overlay, done + {p}, q) == OverlaidBy(t, overlay, done, q)
  {
    if q == p && (exists d :: d in done && StrictPrefix(d, q)) {
      var d :| d in done && StrictPrefix(d, q);
      PrefixFree(overlay, d, p);
    }
    if d :| d in done + {p} && StrictPrefix(d, q) && !Blocked(t, d) {
      assert d in done;
    }
  }

  /** An overlay is map override exactly when it is compatible with the manifest's kinds. */
  lemma OverlayIsOverrideExactly(t: Tree, overlay: Tree, t': Tree)
    requires IsOverlaidBy(t, overlay, StoredPaths(overlay), t')
    ensures IsOverride(t, overlay, t') <==> Compatible(t, overlay)
  {
    forall q ensures q in StoredPaths(overlay) <==> Get(overlay, q).Some? {
      PathsAreDomain(overlay, q);
    }
    if Compatible(t, overlay) {
      forall q ensures Get(t', q) == if Get(overlay, q).Some? then Get(overlay, q) else Get(t, q) {
        if Get(overlay, q).None? && Get(t, q).Some? {
          if d :| d in StoredPaths(overlay) && StrictPrefix(d, q) {
            assert Shadows(t, d);
          }
        }
      }
    } else {
      var p :| Get(overlay, p).Some? && (Blocked(t, p) || Shadows(t, p));
      if Blocked(t, p) {
        var b :| StrictPrefix(b, p) && Get(t, b).Some?;
        PrefixFree(t, b, p);
        assert Get(t', p).None?;
      } else {
        var q :| StrictPrefix(p, q) && Get(t, q).Some?;
        PrefixFree(overlay, p, q);
        assert Get(t', q).None?;
      }
    }
  }

  /** An overlay link that differs from the stored one, and so is listed as changed, takes
      effect exactly when it is not below a stored protocol; below one it is dropped. */
  lemma ChangeTakesEffectExactly(t: Tree, overlay: Tree, t': Tree, p: Path)
    requires IsOverlaidBy(t, overlay, StoredPaths(overlay), t')
    requires Get(overlay, p).Some? && Get(t, p) != Get(overlay, p)
    ensures Get(t', p) == Get(overlay, p) <==> !Blocked(t, p)
    ensures Blocked(t, p) ==> Get(t', p) == None
  {
    PathsAreDomain(overlay, p);
    if Blocked(t, p) {
      var q :| StrictPrefix(q, p) && Get(t, q).Some?;
      PrefixFree(t, q, p);
    }
  }

  // ----- What is checked, and what is listed

  /** The nodes that fetching finds for an overlay kind, given by its id: in the first pass, and
      while its bases are resolved. Each of these fetches may fail by itself. */
  datatype Fetches = Fetches(first: string -> map<Link, KindNode>, bases: string -> map<Link, KindNode>)

  /** The overlay kind at `p` can be fetched and names its own place in the tree. */
  predicate NodeFits(overlay: Tree, net: Fetches, p: Path) {
    Get(overlay, p).Some? ==>
      var found := net.first(Id(p));
      Get(overlay, p).value in found && found[Get(overlay, p).value].protocol == Id(p)
  }

  /** Why the overlay kind at `p` does not fit. */
  ghost predicate MisfitError(overlay: Tree, net: Fetches, p: Path, e: OverlayError) {
    && Get(overlay, p).Some?
    && var found := net.first(Id(p));
       if Get(overlay, p).value !in found then e == KindNotFetched(Id(p))
       else
         var inNode := found[Get(overlay, p).value].protocol;
         inNode != Id(p) && e == ProtocolMismatch(Id(p), inNode)
  }

  /** The overlay kind at `p` does not resolve, and why. */
  ghost predicate ResolveFailure(overlay: Tree, net: Fetches, tree: Tree, p: Path, e: OverlayError) {
    && Get(overlay, p).Some? && Get(overlay, p).value in net.first(Id(p))
    && var r := Resolve(KindsOf(tree, net.bases(Id(p))), net.first(Id(p))[Get(overlay, p).value]);
       r.Err? && e == Unresolved(r.error)
  }

  /** The overlay kind at `p` resolves among the kinds of `tree`. */
  ghost predicate Resolves(overlay: Tree, net: Fetches, tree: Tree, p: Path) {
    Get(overlay, p).Some? && Get(overlay, p).value in net.first(Id(p)) ==>
      Resolve(KindsOf(tree, net.bases(Id(p))), net.first(Id(p))[Get(overlay, p).value]).Ok?
  }

  /** `pairs` is what listing the overlay yields for the leaves at `paths`. */
  ghost predicate Lists(pairs: seq<(string, Link)>, paths: seq<Path>, overlay: Tree) {
    && |pairs| == |paths|
    && forall i :: 0 <= i < |paths| ==> ListsLeaf(pairs[i], paths[i], overlay)
  }

  ghost predicate ListsLeaf(pair: (string, Link), p: Path, overlay: Tree) {
    pair.0 == Id(p) && Segments(pair.0) == p && Get(overlay, p) == Some(pair.1)
  }

  /** The paths behind a listing: every leaf of the overlay, once. */
  lemma PathsBehind(pairs: seq<(string, Link)>, overlay: Tree) returns (paths: seq<Path>)
    requires CanonicalTree(overlay)
    requires forall i, j :: 0 <= i < j < |pairs| ==> pairs[i].0 != pairs[j].0
    requires forall i, j :: 0 <= i < j < |pairs| ==> PathBefore(Segments(pairs[i].0), Segments(pairs[j].0))
    requires forall p :: Get(overlay, p).Some? ==> (Id(p), Get(overlay, p).value) in pairs
    requires forall e :: e in pairs ==> e.0 == CanonicalId(e.0) && Get(overlay, Segments(e.0)) == Some(e.1)
    ensures Lists(pairs, paths, overlay) && Enumerates(paths, StoredPaths(overlay)) && Ascending(paths)
  {
    paths := seq(|pairs|, i requires 0 <= i < |pairs| => Segments(pairs[i].0));
    forall i | 0 <= i < |pairs| ensures ListsLeaf(pairs[i], paths[i], overlay) {
      assert pairs[i] in pairs;
      CanonicalIdIsListed(pairs[i].0);
    }
    forall i, j | 0 <= i < j < |paths| ensures paths[i] != paths[j] {
      assert ListsLeaf(pairs[i], paths[i], overlay) && ListsLeaf(pairs[j], paths[j], overlay);
    }
    forall p ensures p in paths <==> p in StoredPaths(overlay) {
      PathsAreDomain(overlay, p);
      if Get(overlay, p).Some? {
        ReadBackExactly(p);
        var i :| 0 <= i < |pairs| && pairs[i] == (Id(p), Get(overlay, p).value);
        assert paths[i] == p;
      }
      if p in paths {
        var i :| 0 <= i < |paths| && paths[i] == p;
        assert ListsLeaf(pairs[i], paths[i], overlay);
      }
    }
  }

  // ----- Inserting the listed protocols one after the other

  /** The tree after inserting the first `n` overlay protocols. */
  function InsertFirst(t: Tree, overlay: Tree, paths: seq<Path>, n: nat): Tree
    requires n <= |paths| && forall i :: 0 <= i < n ==> Get(overlay, paths[i]).Some?
  {
    if n == 0 then t
    else Insert(InsertFirst(t, overlay, paths, n - 1), paths[n - 1], Get(overlay, paths[n - 1]).value)
  }

  function Members(paths: seq<Path>): set<Path> {
    set i | 0 <= i < |paths| :: paths[i]
  }

  lemma {:induction false} InsertFirstIsOverlaid(t: Tree, overlay: Tree, paths: seq<Path>, n: nat)
    requires n <= |paths| && Distinct(paths) && forall i :: 0 <= i < |paths| ==> Get(overlay, paths[i]).Some?
    ensures IsOverlaidBy(t, overlay, Members(paths[..n]), InsertFirst(t, overlay, paths, n))
  {
    if n > 0 {
      InsertFirstIsOverlaid(t, overlay, paths, n - 1);
      assert Members(paths[..n]) == Members(paths[..n - 1]) + {paths[n - 1]};
      InsertOne(t, overlay, Members(paths[..n - 1]), InsertFirst(t, overlay, paths, n - 1), paths[n - 1]);
    }
  }

  /** Until its own turn comes, an overlay protocol still has its old link. */
  lemma UntouchedSoFar(t: Tree, overlay: Tree, paths: seq<Path>, n: nat)
    requires n < |paths| && Distinct(paths) && forall i :: 0 <= i < |paths| ==> Get(overlay, paths[i]).Some?
    ensures Get(InsertFirst(t, overlay, paths, n), paths[n]) == Get(t, paths[n])
  {
    InsertFirstIsOverlaid(t, overlay, paths, n);
    var p := paths[n];
    if d :| d in Members(paths[..n]) && StrictPrefix(d, p) {
      PrefixFree(overlay, d, p);
    }
  }

  lemma StoredAreSome(overlay: Tree, paths: seq<Path>)
    requires Enumerates(paths, StoredPaths(overlay))
    ensures forall i :: 0 <= i < |paths| ==> Get(overlay, paths[i]).Some?
    ensures forall p :: Get(overlay, p).Some? ==> p in paths
    ensures Members(paths) == StoredPaths(overlay)
  {
    forall i | 0 <= i < |paths| ensures Get(overlay, paths[i]).Some? {
      assert paths[i] in paths;
      PathsAreDomain(overlay, paths[i]);
    }
    forall p | Get(overlay, p).Some? ensures p in paths {
      PathsAreDomain(overlay, p);
    }
    forall p ensures p in Members(paths) <==> p in StoredPaths(overlay) {
      assert p in paths <==> p in StoredPaths(overlay);
    }
  }

  // ----- The overlay itself

  /** The first pass: fetch and check every overlay kind, building the candidate. */
  method BuildCandidate(t: Tree, overlay: Tree, pairs: seq<(string, Link)>, net: Fetches, ghost paths: seq<Path>)
    returns (r: Result<Tree, OverlayError>)
    requires Lists(pairs, paths, overlay)
    ensures r.Ok? <==> forall i :: 0 <= i < |paths| ==> NodeFits(overlay, net, paths[i])
    ensures r.Err? ==> exists i :: 0 <= i < |paths| && MisfitError(overlay, net, paths[i], r.error)
                                   && forall j :: 0 <= j < i ==> NodeFits(overlay, net, paths[j])
    ensures r.Ok? ==> (forall i :: 0 <= i < |paths| ==> ListsLeaf(pairs[i], paths[i], overlay))
                      && r.value == InsertFirst(t, overlay, paths, |paths|)
  {
    var candidate := t;
    for i := 0 to |pairs|
      invariant forall j :: 0 <= j < |paths| ==> ListsLeaf(pairs[j], paths[j], overlay)
      invariant candidate == InsertFirst(t, overlay, paths, i)
      invariant forall j :: 0 <= j < i ==> NodeFits(overlay, net, paths[j])
    {
      var (protocol, link) := pairs[i];
      assert ListsLeaf(pairs[i], paths[i], overlay);
      var found := net.first(protocol);
      if link !in found {
        assert !NodeFits(overlay, net, paths[i]);
        assert MisfitError(overlay, net, paths[i], KindNotFetched(protocol));
        return Err(KindNotFetched(protocol));
      }
      if found[link].protocol != protocol {
        assert !NodeFits(overlay, net, paths[i]);
        assert MisfitError(overlay, net, paths[i], ProtocolMismatch(protocol, found[link].protocol));
        return Err(ProtocolMismatch(protocol, found[link].protocol));
      }
      candidate := Insert(candidate, Segments(protocol), link);
    }
    r := Ok(candidate);
  }

  /** The second pass: every overlay kind that extends another must resolve. */
  method ResolveAll(candidate: Tree, overlay: Tree, pairs: seq<(string, Link)>, net: Fetches, ghost paths: seq<Path>)
    returns (r: Result<(), OverlayError>)
    requires Lists(pairs, paths, overlay) && forall i :: 0 <= i < |paths| ==> NodeFits(overlay, net, paths[i])
    ensures r.Ok? <==> forall i :: 0 <= i < |paths| ==> Resolves(overlay, net, candidate, paths[i])
    ensures r.Err? ==> exists i :: 0 <= i < |paths| && ResolveFailure(overlay, net, candidate, paths[i], r.error)
                                   && forall j :: 0 <= j < i ==> Resolves(overlay, net, candidate, paths[j])
  {
    for i := 0 to |pairs|
      invariant forall j :: 0 <= j < i ==> Resolves(overlay, net, candidate, paths[j])
    {
      assert ListsLeaf(pairs[i], paths[i], overlay) && NodeFits(overlay, net, paths[i]);
      var rawKind := net.first(pairs[i].0)[pairs[i].1];
      var bases := net.bases(pairs[i].0);
      ResolveIsFold(KindsOf(candidate, bases), rawKind);
      if rawKind.baseId.Some? {
        var resolved := ResolveKindExtends(KindsOf(candidate, bases), rawKind);
        if resolved.Err? {
          assert !Resolves(overlay, net, candidate, paths[i]);
          assert ResolveFailure(overlay, net, candidate, paths[i], Unresolved(resolved.error));
          return Err(Unresolved(resolved.error));
        }
      }
    }
    r := Ok(());
  }

  /** `changed` lists, once each and in order, the overlay protocols whose link was absent or
      different. */
  ghost predicate ListsChanges(t: Tree, overlay: Tree, changed: seq<string>) {
    && Distinct(changed) && InOrder(changed)
    && (forall s :: s in changed ==> exists p :: s == Id(p) && Get(overlay, p).Some? && Get(t, p) != Get(overlay, p))
    && (forall p :: Get(overlay, p).Some? && Get(t, p) != Get(overlay, p) ==> Id(p) in changed)
  }

  predicate Differs(t: Tree, overlay: Tree, p: Path) {
    Get(t, p) != Get(overlay, p)
  }

  /** The ids of those among the first `n` protocols whose link differs, in order. */
  function ChangedFirst(t: Tree, overlay: Tree, paths: seq<Path>, n: nat): seq<string>
    requires n <= |paths|
  {
    if n == 0 then []
    else ChangedFirst(t, overlay, paths, n - 1) + if Differs(t, overlay, paths[n - 1]) then [Id(paths[n - 1])] else []
  }

  lemma {:induction false} ChangedMembers(t: Tree, overlay: Tree, paths: seq<Path>, n: nat)
    requires n <= |paths|
    ensures forall k :: 0 <= k < n && Differs(t, overlay, paths[k]) ==>
              Id(paths[k]) in ChangedFirst(t, overlay, paths, n)
    ensures forall s :: s in ChangedFirst(t, overlay, paths, n) ==>
              exists k :: 0 <= k < n && Differs(t, overlay, paths[k]) && s == Id(paths[k])
  {
    if n > 0 {
      ChangedMembers(t, overlay, paths, n - 1);
    }
  }

  lemma {:induction false} ChangedAreInOrder(t: Tree, overlay: Tree, paths: seq<Path>, n: nat)
    requires n <= |paths| && Distinct(paths) && Ascending(paths)
    requires forall i :: 0 <= i < |paths| ==> Segments(Id(paths[i])) == paths[i]
    ensures Distinct(ChangedFirst(t, overlay, paths, n)) && InOrder(ChangedFirst(t, overlay, paths, n))
  {
    if n > 0 {
      ChangedAreInOrder(t, overlay, paths, n - 1);
      ChangedMembers(t, overlay, paths, n - 1);
      var before := ChangedFirst(t, overlay, paths, n - 1);
      forall i | 0 <= i < |before|
        ensures before[i] != Id(paths[n - 1]) && PathBefore(Segments(before[i]), paths[n - 1])
      {
        assert before[i] in before;
        var k :| 0 <= k < n - 1 && before[i] == Id(paths[k]);
        assert Segments(Id(paths[k])) != Segments(Id(paths[n - 1]));
      }
    }
  }

  lemma ChangedIsExact(t: Tree, overlay: Tree, paths: seq<Path>)
    requires Enumerates(paths, StoredPaths(overlay)) && Ascending(paths)
    requires forall i :: 0 <= i < |paths| ==> Segments(Id(paths[i])) == paths[i]
    ensures ListsChanges(t, overlay, ChangedFirst(t, overlay, paths, |paths|))
  {
    StoredAreSome(overlay, paths);
    ChangedAreInOrder(t, overlay, paths, |paths|);
    ChangedMembers(t, overlay, paths, |paths|);
  }

  /** The last pass: insert into the manifest, collecting what differs. */
  method InsertAndCollect(manifest: KindTreeCell, overlay: Tree, pairs: seq<(string, Link)>, ghost paths: seq<Path>)
    returns (changed: seq<string>)
    requires Lists(pairs, paths, overlay) && Distinct(paths)
    modifies manifest
    ensures forall i :: 0 <= i < |paths| ==> ListsLeaf(pairs[i], paths[i], overlay)
    ensures manifest.root == InsertFirst(old(manifest.root), overlay, paths, |paths|)
    ensures changed == ChangedFirst(old(manifest.root), overlay, paths, |paths|)
  {
    changed := [];
    ghost var t := manifest.root;
    for i := 0 to |pairs|
      invariant forall j :: 0 <= j < |paths| ==> ListsLeaf(pairs[j], paths[j], overlay)
      invariant manifest.root == InsertFirst(t, overlay, paths, i)
      invariant changed == ChangedFirst(t, overlay, paths, i)
    {
      var (protocol, link) := pairs[i];
      assert ListsLeaf(pairs[i], paths[i], overlay);
      UntouchedSoFar(t, overlay, paths, i);
      var previous := Get(manifest.root, Segments(protocol));
      if previous.None? || previous.value != link {
        changed := changed + [protocol];
      }
      manifest.root := Insert(manifest.root, Segments(protocol), link);
    }
  }

  /** All overlay kinds can be fetched, name their own protocol, and resolve in `tree`. */
  ghost predicate Acceptable(overlay: Tree, net: Fetches, tree: Tree) {
    forall p :: NodeFits(overlay, net, p) && Resolves(overlay, net, tree, p)
  }

  /** That is: every overlay kind is found, names the very protocol it is stored under, and
      resolves among the kinds of the result. */
  lemma AcceptableExactly(overlay: Tree, net: Fetches, tree: Tree)
    ensures Acceptable(overlay, net, tree) <==>
            forall p :: Get(overlay, p).Some? ==> IsSound(Get(overlay, p).value, Id(p), net, tree)
  {
    forall p ensures (NodeFits(overlay, net, p) && Resolves(overlay, net, tree, p)) <==>
                     (Get(overlay, p).Some? ==> IsSound(Get(overlay, p).value, Id(p), net, tree)) {
    }
  }

  ghost predicate IsSound(link: Link, protocol: string, net: Fetches, tree: Tree) {
    && link in net.first(protocol) && net.first(protocol)[link].protocol == protocol
    && Resolve(KindsOf(tree, net.bases(protocol)), net.first(protocol)[link]).Ok?
  }

  lemma AcceptableByIndex(overlay: Tree, net: Fetches, tree: Tree, paths: seq<Path>)
    requires Enumerates(paths, StoredPaths(overlay))
    ensures Acceptable(overlay, net, tree) <==>
            (forall i :: 0 <= i < |paths| ==> NodeFits(overlay, net, paths[i]))
            && (forall i :: 0 <= i < |paths| ==> Resolves(overlay, net, tree, paths[i]))
  {
    StoredAreSome(overlay, paths);
    if (forall i :: 0 <= i < |paths| ==> NodeFits(overlay, net, paths[i]))
       && (forall i :: 0 <= i < |paths| ==> Resolves(overlay, net, tree, paths[i])) {
      forall p ensures NodeFits(overlay, net, p) && Resolves(overlay, net, tree, p) {
        if Get(overlay, p).Some? {
          var i :| 0 <= i < |paths| && paths[i] == p;
        }
      }
    }
  }

  lemma AllInserted(t: Tree, overlay: Tree, paths: seq<Path>)
    requires Enumerates(paths, StoredPaths(overlay))
    ensures forall i :: 0 <= i < |paths| ==> Get(overlay, paths[i]).Some?
    ensures IsOverlaidBy(t, overlay, StoredPaths(overlay), InsertFirst(t, overlay, paths, |paths|))
  {
    StoredAreSome(overlay, paths);
    assert paths[..|paths|] == paths;
    InsertFirstIsOverlaid(t, overlay, paths, |paths|);
  }

  /** `apply_kinds_tree_overlay`. The candidate is the manifest's tree overlaid as described
      above. The overlay succeeds exactly when the candidate is acceptable; the manifest then
      becomes the candidate, and the answer lists the changed protocols. Otherwise the
      manifest is left alone. */
  method ApplyKindsTreeOverlay(manifest: KindTreeCell, overlay: KindTreeCell, net: Fetches)
    returns (r: Result<seq<string>, OverlayError>, ghost candidate: Tree)
    requires manifest != overlay && CanonicalTree(overlay.root)
    modifies manifest
    ensures IsOverlaidBy(old(manifest.root), overlay.root, StoredPaths(overlay.root), candidate)
    ensures r.Ok? <==> Acceptable(overlay.root, net, candidate)
    ensures r.Err? ==>
              || (exists p :: MisfitError(overlay.root, net, p, r.error))
              || ((forall p :: NodeFits(overlay.root, net, p))
                  && exists p :: ResolveFailure(overlay.root, net, candidate, p, r.error))
    ensures manifest.root == if r.Ok? then candidate else old(manifest.root)
    ensures r.Ok? ==> ListsChanges(old(manifest.root), overlay.root, r.value)
  {
    var pairs := overlay.IterProtocols();
    ghost var paths := PathsBehind(pairs, overlay.root);
    AllInserted(manifest.root, overlay.root, paths);
    candidate := InsertFirst(manifest.root, overlay.root, paths, |paths|);
    AcceptableByIndex(overlay.root, net, candidate, paths);
    var built := BuildCandidate(manifest.root, overlay.root, pairs, net, paths);
    if built.Err? {
      r := Err(built.error);
      return;
    }
    var resolved := ResolveAll(built.value, overlay.root, pairs, net, paths);
    if resolved.Err? {
      r := Err(resolved.error);
      StoredAreSome(overlay.root, paths);
      forall p ensures NodeFits(overlay.root, net, p) {
        if Get(overlay.root, p).Some? {
          var i :| 0 <= i < |paths| && paths[i] == p;
        }
      }
      return;
    }
    ghost var t := manifest.root;
    var changed := InsertAndCollect(manifest, overlay.root, pairs, paths);
    ChangedIsExact(t, overlay.root, paths);
    r := Ok(changed);
  }
}
