/** The nested kinds tree (src/entity.rs): a trie over protocol segments, and the map from
    protocols to links that it stands for. */
module KindTree {
  import opened Basics
  import opened Paths

  type Link = string

  datatype Node = Leaf(link: Link) | Branch(kids: map<string, Node>)

  type Tree = map<string, Node>

  // ----- The three recursive operations

  function Insert(t: Tree, p: Path, link: Link): Tree
    decreases |p|
  {
    if p == [] then t
    else if |p| == 1 then t[p[0] := Leaf(link)]
    else
      var entry := if p[0] in t then t[p[0]] else Branch(map[]);
      if entry.Branch? then t[p[0] := Branch(Insert(entry.kids, p[1..], link))] else t
  }

  function Get(t: Tree, p: Path): Option<Link>
    decreases |p|
  {
    if p == [] || p[0] !in t then None
    else if |p| == 1 then (if t[p[0]].Leaf? then Some(t[p[0]].link) else None)
    else if t[p[0]].Branch? then Get(t[p[0]].kids, p[1..])
    else None
  }

  function Remove(t: Tree, p: Path): (r: (Tree, bool))
    decreases |p|
  {
    if p == [] || p[0] !in t then (t, false)
    else if |p| == 1 then (t - {p[0]}, true)
    else if t[p[0]].Branch? then
      var (inner, removed) := Remove(t[p[0]].kids, p[1..]);
      (if inner == map[] then t - {p[0]} else t[p[0] := Branch(inner)], removed)
    else (t, false)
  }

  // ----- Prefixes

  predicate StrictPrefix(p: Path, q: Path) {
    |p| < |q| && p == q[..|p|]
  }

  /** Some stored protocol is a strict prefix of `p`: inserting below it is dropped. */
  ghost predicate Blocked(t: Tree, p: Path) {
    exists q :: StrictPrefix(q, p) && Get(t, q).Some?
  }

  /** Some stored protocol strictly extends `p`: inserting or removing `p` drops it. */
  ghost predicate Shadows(t: Tree, p: Path) {
    exists q :: StrictPrefix(p, q) && Get(t, q).Some?
  }

  /** The walk along `p` meets a leaf before its last segment. */
  predicate MeetsLeaf(t: Tree, p: Path)
    decreases |p|
  {
    |p| > 1 && p[0] in t && (t[p[0]].Leaf? || MeetsLeaf(t[p[0]].kids, p[1..]))
  }

  lemma PrefixTail(p: Path, q: Path)
    requires |p| > 0
    ensures StrictPrefix(p, q) <==> |p| < |q| && p[0] == q[0] && (p[1..] == q[1..][..|p| - 1])
  {
    if |p| < |q| {
      assert q[..|p|] == [q[0]] + q[1..][..|p| - 1];
      assert p == [p[0]] + p[1..];
    }
  }

  lemma {:induction false} BlockedMeetsLeaf(t: Tree, p: Path)
    ensures Blocked(t, p) <==> MeetsLeaf(t, p)
    decreases |p|
  {
    if |p| > 1 && p[0] in t {
      if t[p[0]].Leaf? {
        assert StrictPrefix([p[0]], p) && Get(t, [p[0]]).Some?;
      } else {
        BlockedMeetsLeaf(t[p[0]].kids, p[1..]);
        if Blocked(t[p[0]].kids, p[1..]) {
          var q :| StrictPrefix(q, p[1..]) && Get(t[p[0]].kids, q).Some?;
          PrefixTail([p[0]] + q, p);
          assert ([p[0]] + q)[1..] == q;
          assert Get(t, [p[0]] + q).Some?;
        }
        if Blocked(t, p) {
          var q :| StrictPrefix(q, p) && Get(t, q).Some?;
          PrefixTail(q, p);
          assert StrictPrefix(q[1..], p[1..]) && Get(t[p[0]].kids, q[1..]).Some?;
        }
      }
    }
  }

  // ----- Lookup after each operation, for every tree and every pair of paths

  /** An insert below a stored protocol changes nothing at all. */
  lemma {:induction false} BlockedInsertIsDropped(t: Tree, p: Path, link: Link)
    requires MeetsLeaf(t, p)
    ensures Insert(t, p, link) == t
    decreases |p|
  {
    if t[p[0]].Branch? {
      BlockedInsertIsDropped(t[p[0]].kids, p[1..], link);
    }
  }

  /** Any other insert maps `p` to the link, drops what was stored below `p`, and keeps
      the rest. */
  lemma {:induction false} GetAfterInsert(t: Tree, p: Path, link: Link, q: Path)
    requires p != [] && !MeetsLeaf(t, p)
    ensures Get(Insert(t, p, link), q) ==
            if q == p then Some(link) else if StrictPrefix(p, q) then None else Get(t, q)
    decreases |p|
  {
    PrefixTail(p, q);
    if q != [] && q[0] == p[0] {
      assert q == p <==> q[1..] == p[1..] by {
        assert q == [q[0]] + q[1..] && p == [p[0]] + p[1..];
      }
      if |p| > 1 {
        var kids := if p[0] in t then t[p[0]].kids else map[];
        GetAfterInsert(kids, p[1..], link, q[1..]);
      }
    }
  }

  /** An insert below a stored protocol is dropped silently; every other one takes effect. */
  lemma InsertedOrDropped(t: Tree, p: Path, link: Link)
    requires p != []
    ensures if Blocked(t, p) then Insert(t, p, link) == t else Get(Insert(t, p, link), p) == Some(link)
  {
    BlockedMeetsLeaf(t, p);
    if Blocked(t, p) {
      BlockedInsertIsDropped(t, p, link);
    } else {
      GetAfterInsert(t, p, link, p);
    }
  }

  /** A removal drops `p` and everything stored below it, and keeps the rest. */
  lemma {:induction false} GetAfterRemove(t: Tree, p: Path, q: Path)
    requires p != []
    ensures Get(Remove(t, p).0, q) == if q == p || StrictPrefix(p, q) then None else Get(t, q)
    decreases |p|
  {
    PrefixTail(p, q);
    if q != [] && q[0] == p[0] && p[0] in t {
      assert q == p <==> q[1..] == p[1..] by {
        assert q == [q[0]] + q[1..] && p == [p[0]] + p[1..];
      }
      if |p| > 1 && t[p[0]].Branch? {
        GetAfterRemove(t[p[0]].kids, p[1..], q[1..]);
      }
    }
  }

  /** No stored protocol is a strict prefix of another one, in any tree. */
  lemma {:induction false} PrefixFree(t: Tree, p: Path, q: Path)
    requires Get(t, p).Some? && StrictPrefix(p, q)
    ensures Get(t, q).None?
    decreases |p|
  {
    PrefixTail(p, q);
    if |p| > 1 {
      PrefixFree(t[p[0]].kids, p[1..], q[1..]);
    }
  }

  // ----- The tree as a map

  /** `t'` differs from `t` by mapping `p` to `v`, and in nothing else. */
  ghost predicate IsUpdate(t: Tree, p: Path, v: Option<Link>, t': Tree) {
    forall q :: Get(t', q) == if q == p then v else Get(t, q)
  }

  /** `insert` is map update exactly when the protocol is neither a strict prefix nor a
      strict extension of a stored one. */
  lemma InsertIsUpdateExactly(t: Tree, p: Path, link: Link)
    requires p != []
    ensures IsUpdate(t, p, Some(link), Insert(t, p, link)) <==> !Blocked(t, p) && !Shadows(t, p)
  {
    BlockedMeetsLeaf(t, p);
    var t' := Insert(t, p, link);
    if Blocked(t, p) {
      BlockedInsertIsDropped(t, p, link);
      var q :| StrictPrefix(q, p) && Get(t, q).Some?;
      PrefixFree(t, q, p);
      assert Get(t', p).None?;
    } else {
      forall q ensures Get(t', q) == if q == p then Some(link) else if StrictPrefix(p, q) then None else Get(t, q) {
        GetAfterInsert(t, p, link, q);
      }
      if Shadows(t, p) {
        var q :| StrictPrefix(p, q) && Get(t, q).Some?;
        assert Get(t', q).None?;
      }
    }
  }

  /** `remove` is map removal exactly when no stored protocol strictly extends it. */
  lemma RemoveIsRemovalExactly(t: Tree, p: Path)
    requires p != []
    ensures IsUpdate(t, p, None, Remove(t, p).0) <==> !Shadows(t, p)
  {
    var t' := Remove(t, p).0;
    forall q ensures Get(t', q) == if q == p || StrictPrefix(p, q) then None else Get(t, q) {
      GetAfterRemove(t, p, q);
    }
    if Shadows(t, p) {
      var q :| StrictPrefix(p, q) && Get(t, q).Some?;
      assert Get(t', q).None?;
    }
  }

  // ----- No empty branch

  predicate Full(n: Node) {
    n.Leaf? || (n.kids != map[] && forall k :: k in n.kids ==> Full(n.kids[k]))
  }

  /** No branch below the root is empty. */
  predicate Tidy(t: Tree) {
    forall k :: k in t ==> Full(t[k])
  }

  lemma {:induction false} InsertKeepsTidy(t: Tree, p: Path, link: Link)
    requires Tidy(t)
    ensures Tidy(Insert(t, p, link))
    ensures p != [] ==> Insert(t, p, link) != map[]
    decreases |p|
  {
    if p != [] {
      assert p[0] in Insert(t, p, link) || Insert(t, p, link) == t;
    }
    if |p| > 1 {
      var entry := if p[0] in t then t[p[0]] else Branch(map[]);
      if entry.Branch? {
        InsertKeepsTidy(entry.kids, p[1..], link);
      } else {
        assert p[0] in t;
      }
    }
  }

  lemma {:induction false} RemoveKeepsTidy(t: Tree, p: Path)
    requires Tidy(t)
    ensures Tidy(Remove(t, p).0)
    decreases |p|
  {
    if |p| > 1 && p[0] in t && t[p[0]].Branch? {
      RemoveKeepsTidy(t[p[0]].kids, p[1..]);
    }
  }

  /** In a tidy tree every node has a stored protocol at or below it. */
  lemma {:induction false} FullHasLeaf(n: Node) returns (q: Path)
    requires Full(n)
    ensures n.Leaf? ==> q == []
    ensures n.Branch? ==> q != [] && Get(n.kids, q).Some?
  {
    if n.Leaf? {
      q := [];
    } else {
      var k :| k in n.kids;
      var rest := FullHasLeaf(n.kids[k]);
      q := [k] + rest;
      assert q[1..] == rest;
    }
  }

  /** `remove` answers true exactly when it dropped a stored protocol at or below `p`. */
  lemma {:induction false} RemoveAnswersExactly(t: Tree, p: Path)
    requires Tidy(t) && p != []
    ensures Remove(t, p).1 <==> Get(t, p).Some? || Shadows(t, p)
    decreases |p|
  {
    if p[0] in t {
      if |p| == 1 {
        var rest := FullHasLeaf(t[p[0]]);
        if rest != [] {
          PrefixTail(p, p + rest);
          assert (p + rest)[1..] == rest;
          assert Get(t, p + rest).Some?;
        }
      } else if t[p[0]].Branch? {
        var kids := t[p[0]].kids;
        RemoveAnswersExactly(kids, p[1..]);
        if Shadows(kids, p[1..]) {
          var q :| StrictPrefix(p[1..], q) && Get(kids, q).Some?;
          assert ([p[0]] + q)[1..] == q;
          PrefixTail(p, [p[0]] + q);
          assert Get(t, [p[0]] + q).Some?;
        }
        if Shadows(t, p) {
          var q :| StrictPrefix(p, q) && Get(t, q).Some?;
          PrefixTail(p, q);
          assert Get(kids, q[1..]).Some? && StrictPrefix(p[1..], q[1..]);
        }
      }
    }
    if Shadows(t, p) {
      var q :| StrictPrefix(p, q) && Get(t, q).Some?;
      PrefixTail(p, q);
    }
  }

  // ----- Runs of inserts and removals from the empty tree

  datatype Op = Put(protocol: string, link: Link) | Delete(protocol: string)

  function Apply(t: Tree, op: Op): Tree {
    match op
    case Put(s, link) => Insert(t, Segments(s), link)
    case Delete(s) => Remove(t, Segments(s)).0
  }

  function Run(ops: seq<Op>): Tree {
    if ops == [] then map[] else Apply(Run(ops[..|ops| - 1]), ops[|ops| - 1])
  }

  /** Every stored protocol has segments that `insert_protocol` can produce. */
  ghost predicate CanonicalTree(t: Tree) {
    forall p :: Get(t, p).Some? ==> Canonical(p)
  }

  lemma ApplyKeeps(t: Tree, op: Op)
    requires Tidy(t) && CanonicalTree(t)
    ensures Tidy(Apply(t, op)) && CanonicalTree(Apply(t, op))
  {
    var p := Segments(op.protocol);
    SegmentsAreCanonical(op.protocol);
    match op
    case Put(_, link) =>
      InsertKeepsTidy(t, p, link);
      if MeetsLeaf(t, p) {
        BlockedInsertIsDropped(t, p, link);
      } else {
        forall q | Get(Apply(t, op), q).Some? ensures Canonical(q) {
          GetAfterInsert(t, p, link, q);
        }
      }
    case Delete(_) =>
      RemoveKeepsTidy(t, p);
      forall q | Get(Apply(t, op), q).Some? ensures Canonical(q) {
        GetAfterRemove(t, p, q);
      }
  }

  /** Whatever is inserted and removed, no branch is empty, no stored protocol is a strict
      prefix of another, and every one of them can be printed and looked up again. */
  lemma {:induction false} RunsStayWellFormed(ops: seq<Op>)
    ensures Tidy(Run(ops)) && CanonicalTree(Run(ops))
    ensures forall p, q :: Get(Run(ops), p).Some? && StrictPrefix(p, q) ==> Get(Run(ops), q).None?
  {
    if ops != [] {
      RunsStayWellFormed(ops[..|ops| - 1]);
      ApplyKeeps(Run(ops[..|ops| - 1]), ops[|ops| - 1]);
    }
    forall p, q | Get(Run(ops), p).Some? && StrictPrefix(p, q) ensures Get(Run(ops), q).None? {
      PrefixFree(Run(ops), p, q);
    }
  }

  // ----- Listing

  /** The stored paths at or below a node, relative to it. */
  function NodePaths(n: Node): set<Path> {
    match n
    case Leaf(_) => {[]}
    case Branch(kids) => set k, q | k in kids && q in NodePaths(kids[k]) :: [k] + q
  }

  function StoredPaths(t: Tree): set<Path> {
    set k, q | k in t && q in NodePaths(t[k]) :: [k] + q
  }

  lemma {:induction false} PathsAreDomain(t: Tree, p: Path)
    ensures p in StoredPaths(t) <==> Get(t, p).Some?
    decreases |p|
  {
    if p != [] {
      assert p == [p[0]] + p[1..];
      if p[0] in t {
        assert p in StoredPaths(t) <==> p[1..] in NodePaths(t[p[0]]) by {
          forall k, q | [k] + q == p ensures k == p[0] && q == p[1..] {
            assert ([k] + q)[0] == k && ([k] + q)[1..] == q;
          }
        }
        if t[p[0]].Branch? {
          assert NodePaths(t[p[0]]) == StoredPaths(t[p[0]].kids);
          PathsAreDomain(t[p[0]].kids, p[1..]);
        }
      }
    }
  }

  predicate Distinct<T(==)>(s: seq<T>) {
    forall i, j :: 0 <= i < j < |s| ==> s[i] != s[j]
  }

  // ----- The order of a sorted map's keys

  /** Strings in the order of their characters. */
  predicate Before(s: string, t: string) {
    t != "" && (s == "" || s[0] < t[0] || (s[0] == t[0] && Before(s[1..], t[1..])))
  }

  lemma {:induction false} BeforeIsTotal(s: string, t: string)
    ensures s == t || Before(s, t) || Before(t, s)
  {
    if s != "" && t != "" && s[0] == t[0] {
      BeforeIsTotal(s[1..], t[1..]);
      assert s == [s[0]] + s[1..] && t == [t[0]] + t[1..];
    }
  }

  /** One string comes before another exactly when it is a proper prefix of it, or has the
      smaller character where the two first differ. */
  lemma {:induction false} BeforeByFirstDifference(s: string, t: string)
    ensures Before(s, t) <==>
            || s < t
            || exists i :: 0 <= i < |s| && i < |t| && s[..i] == t[..i] && s[i] < t[i]
  {
    if s != "" && t != "" {
      assert s == [s[0]] + s[1..] && t == [t[0]] + t[1..];
      if s[0] == t[0] {
        BeforeByFirstDifference(s[1..], t[1..]);
        assert s < t <==> s[1..] < t[1..];
        if i :| 0 <= i < |s[1..]| && i < |t[1..]| && s[1..][..i] == t[1..][..i] && s[1..][i] < t[1..][i] {
          assert s[..i + 1] == [s[0]] + s[1..][..i] && t[..i + 1] == [t[0]] + t[1..][..i];
          assert s[i + 1] < t[i + 1];
        }
        if i :| 0 <= i < |s| && i < |t| && s[..i] == t[..i] && s[i] < t[i] {
          assert i > 0 && s[1..][..i - 1] == s[..i][1..] && t[1..][..i - 1] == t[..i][1..];
          assert s[1..][i - 1] < t[1..][i - 1];
        }
      } else {
        if s[0] < t[0] {
          assert s[..0] == t[..0];
        }
        assert forall i :: 0 < i <= |s| && i <= |t| ==> s[..i][0] == s[0] && t[..i][0] == t[0];
      }
    }
  }

  lemma {:induction false} BeforeIsTransitive(s: string, t: string, u: string)
    requires Before(s, t) && Before(t, u)
    ensures Before(s, u)
  {
    if s != "" && s[0] == t[0] == u[0] {
      BeforeIsTransitive(s[1..], t[1..], u[1..]);
    }
  }

  /** Paths in the order of their first different segments. */
  predicate PathBefore(p: Path, q: Path) {
    q != [] && (p == [] || Before(p[0], q[0]) || (p[0] == q[0] && PathBefore(p[1..], q[1..])))
  }

  /** One path comes before another exactly when it is a proper prefix of it, or has the earlier
      segment where the two first differ. */
  lemma {:induction false} PathBeforeByFirstDifference(p: Path, q: Path)
    ensures PathBefore(p, q) <==>
            || p < q
            || exists i :: 0 <= i < |p| && i < |q| && p[..i] == q[..i] && Before(p[i], q[i])
  {
    if p != [] && q != [] {
      assert p == [p[0]] + p[1..] && q == [q[0]] + q[1..];
      if p[0] == q[0] {
        BeforeIsIrreflexive(p[0]);
        PathBeforeByFirstDifference(p[1..], q[1..]);
        assert p < q <==> p[1..] < q[1..];
        if i :| 0 <= i < |p[1..]| && i < |q[1..]| && p[1..][..i] == q[1..][..i] && Before(p[1..][i], q[1..][i]) {
          assert p[..i + 1] == [p[0]] + p[1..][..i] && q[..i + 1] == [q[0]] + q[1..][..i];
          assert Before(p[i + 1], q[i + 1]);
        }
        if i :| 0 <= i < |p| && i < |q| && p[..i] == q[..i] && Before(p[i], q[i]) {
          assert i > 0 && p[1..][..i - 1] == p[..i][1..] && q[1..][..i - 1] == q[..i][1..];
          assert Before(p[1..][i - 1], q[1..][i - 1]);
        }
      } else {
        if Before(p[0], q[0]) {
          assert p[..0] == q[..0];
        }
        assert forall i :: 0 < i <= |p| && i <= |q| ==> p[..i][0] == p[0] && q[..i][0] == q[0];
      }
    }
  }

  lemma {:induction false} BeforeIsIrreflexive(s: string)
    ensures !Before(s, s)
  {
    if s != "" {
      BeforeIsIrreflexive(s[1..]);
    }
  }

  predicate Ascending(paths: seq<Path>) {
    forall i, j :: 0 <= i < j < |paths| ==> PathBefore(paths[i], paths[j])
  }

  method LeastKey(keys: set<string>) returns (k: string)
    requires keys != {}
    ensures k in keys && forall x :: x in keys ==> x == k || Before(k, x)
  {
    k :| k in keys;
    var todo := keys - {k};
    while todo != {}
      invariant k in keys && todo <= keys
      invariant forall x :: x in keys - todo ==> x == k || Before(k, x)
      decreases todo
    {
      var x :| x in todo;
      BeforeIsTotal(x, k);
      if Before(x, k) {
        forall y | y in keys - todo && y != k ensures Before(x, y) {
          BeforeIsTransitive(x, k, y);
        }
        k := x;
      }
      todo := todo - {x};
    }
  }

  /** The printed ids of paths below a prefix, in order. */
  function PrintAll(prefix: string, paths: seq<Path>): (ids: seq<string>)
    ensures |ids| == |paths| && forall i :: 0 <= i < |ids| ==> ids[i] == prefix + Id(paths[i])
  {
    seq(|paths|, i requires 0 <= i < |paths| => prefix + Id(paths[i]))
  }

  /** `paths` lists exactly the members of `all`, each once. */
  ghost predicate Enumerates(paths: seq<Path>, all: set<Path>) {
    Distinct(paths) && forall p :: p in paths <==> p in all
  }

  /** The stored paths whose first segment is one of `keys`. */
  function PathsUnder(t: Tree, keys: set<string>): set<Path> {
    set k, q | k in t && k in keys && q in NodePaths(t[k]) :: [k] + q
  }

  function Under(k: string, below: seq<Path>): (more: seq<Path>)
    ensures |more| == |below| && forall i :: 0 <= i < |more| ==> more[i] == [k] + below[i]
  {
    seq(|below|, i requires 0 <= i < |below| => [k] + below[i])
  }

  lemma PrintMore(prefix: string, paths: seq<Path>, more: seq<Path>)
    ensures PrintAll(prefix, paths + more) == PrintAll(prefix, paths) + PrintAll(prefix, more)
  {
  }

  lemma ExtendEnumeration(t: Tree, done: set<string>, k: string, paths: seq<Path>, below: seq<Path>)
    requires k in t && k !in done
    requires Enumerates(paths, PathsUnder(t, done)) && Enumerates(below, NodePaths(t[k]))
    ensures Enumerates(paths + Under(k, below), PathsUnder(t, done + {k}))
  {
    var more := Under(k, below);
    assert forall i :: 0 <= i < |more| ==> more[i][0] == k && more[i][1..] == below[i];
    assert forall p :: p in PathsUnder(t, done) ==> p[0] in done;
    assert forall p :: p in paths ==> p[0] in done;
    assert forall i, j :: 0 <= i < j < |more| ==> more[i] != more[j];
    forall p ensures p in paths + more <==> p in PathsUnder(t, done + {k}) {
      if p in more {
        var i :| 0 <= i < |more| && more[i] == p;
        assert below[i] in below;
      }
      if p in PathsUnder(t, done + {k}) && p[0] == k {
        var q :| q in NodePaths(t[k]) && p == [k] + q by {
          assert p[1..] in NodePaths(t[k]) && p == [k] + p[1..] by {
            var k', q' :| k' in t && k' in done + {k} && q' in NodePaths(t[k']) && p == [k'] + q';
            assert p[0] == k' && p[1..] == q';
          }
        }
        var i :| 0 <= i < |below| && below[i] == q;
        assert more[i] == p;
      }
    }
  }

  lemma ExtendAscending(t: Tree, done: set<string>, k: string, paths: seq<Path>, below: seq<Path>)
    requires k in t && forall d :: d in done ==> Before(d, k)
    requires Enumerates(paths, PathsUnder(t, done)) && Ascending(paths) && Ascending(below)
    ensures Ascending(paths + Under(k, below))
  {
    var more := Under(k, below);
    forall i, j | 0 <= i < j < |paths + more| ensures PathBefore((paths + more)[i], (paths + more)[j]) {
      if i < |paths| <= j {
        assert paths[i] in paths && paths[i][0] in done;
      } else if i >= |paths| {
        assert ([k] + below[i - |paths|])[1..] == below[i - |paths|];
        assert ([k] + below[j - |paths|])[1..] == below[j - |paths|];
      }
    }
  }

  lemma OnlyOne(paths: seq<Path>, p: Path)
    requires Distinct(paths) && p in paths && forall q :: q in paths ==> q == p
    ensures paths == [p]
  {
    assert paths[0] in paths && paths[|paths| - 1] in paths;
  }

  lemma PrintBelow(prefix: string, k: string, below: seq<Path>, n: Node)
    requires Enumerates(below, NodePaths(n))
    ensures var more := Under(k, below);
            && (n.Leaf? ==> below == [[]] && PrintAll(prefix, more) == [prefix + "/" + k])
            && (n.Branch? ==> PrintAll(prefix, more) == PrintAll(prefix + "/" + k, below))
  {
    if n.Leaf? {
      assert [] in below;
      OnlyOne(below, []);
      assert below == [[]] && [k] + below[0] == [k];
      assert prefix + Id([k]) == prefix + "/" + k;
    } else {
      forall i | 0 <= i < |below| ensures prefix + Id([k] + below[i]) == prefix + "/" + k + Id(below[i]) {
        assert below[i] in below;
        assert below[i] != [];
        assert ([k] + below[i])[1..] == below[i];
      }
    }
  }

  /** The listing grows by what is stored under one more key. */
  lemma VisitKey(t: Tree, prefix: string, done: set<string>, k: string, start: seq<string>, paths: seq<Path>,
                 ids: seq<string>, below: seq<Path>, ids': seq<string>) returns (paths': seq<Path>)
    requires k in t && k !in done && forall d :: d in done ==> Before(d, k)
    requires Enumerates(paths, PathsUnder(t, done)) && Ascending(paths) && ids == start + PrintAll(prefix, paths)
    requires Enumerates(below, NodePaths(t[k])) && Ascending(below)
    requires ids' == ids + if t[k].Leaf? then [prefix + "/" + k] else PrintAll(prefix + "/" + k, below)
    ensures Enumerates(paths', PathsUnder(t, done + {k})) && Ascending(paths')
    ensures ids' == start + PrintAll(prefix, paths')
  {
    paths' := paths + Under(k, below);
    ExtendEnumeration(t, done, k, paths, below);
    ExtendAscending(t, done, k, paths, below);
    PrintBelow(prefix, k, below, t[k]);
    PrintMore(prefix, paths, Under(k, below));
  }

  /** `kind_tree_collect_ids`: appends the id of every leaf below `prefix`, each once, the
      keys of every branch in order. */
  method CollectIds(t: Tree, prefix: string, ids: seq<string>) returns (ids': seq<string>)
    ensures exists paths ::
              Enumerates(paths, StoredPaths(t)) && Ascending(paths) && ids' == ids + PrintAll(prefix, paths)
    decreases Branch(t)
  {
    ids' := ids;
    ghost var paths: seq<Path> := [];
    var todo := t.Keys;
    ghost var done: set<string> := {};
    while todo != {}
      invariant todo <= t.Keys && done == t.Keys - todo
      invariant ids' == ids + PrintAll(prefix, paths)
      invariant Enumerates(paths, PathsUnder(t, done)) && Ascending(paths)
      invariant forall d, x :: d in done && x in todo ==> Before(d, x)
      decreases todo
    {
      var k := LeastKey(todo);
      var path := prefix + "/" + k;
      ghost var below: seq<Path>;
      ghost var before := ids';
      match t[k] {
        case Leaf(_) =>
          ids' := ids' + [path];
          below := [[]];
        case Branch(inner) =>
          ids' := CollectIds(inner, path, ids');
          below :| Enumerates(below, StoredPaths(inner)) && Ascending(below) && ids' == before + PrintAll(path, below);
      }
      paths := VisitKey(t, prefix, done, k, ids, paths, before, below, ids');
      done := done + {k};
      todo := todo - {k};
    }
    assert PathsUnder(t, done) == StoredPaths(t);
  }

  lemma FoundExactlyWhenListed(t: Tree, protocol: string)
    ensures forall s :: CanonicalId(s) == CanonicalId(protocol) ==> Get(t, Segments(s)) == Get(t, Segments(protocol))
    ensures Get(t, Segments(protocol)).Some? <==>
            exists p :: p in StoredPaths(t) && Id(p) == CanonicalId(protocol) && Canonical(p)
  {
    forall s | CanonicalId(s) == CanonicalId(protocol) ensures Segments(s) == Segments(protocol) {
      SameSegmentsSameId(s, protocol);
    }
    SegmentsAreCanonical(protocol);
    CanonicalIdIsListed(protocol);
    PathsAreDomain(t, Segments(protocol));
    if p :| p in StoredPaths(t) && Id(p) == CanonicalId(protocol) && Canonical(p) {
      IdIsInjective(p, Segments(protocol));
    }
  }

  /** Ids in the order in which the tree lists them. */
  predicate InOrder(ids: seq<string>) {
    forall i, j :: 0 <= i < j < |ids| ==> PathBefore(Segments(ids[i]), Segments(ids[j]))
  }

  // ----- The tree that a manifest owns

  class KindTreeCell {
    var root: Tree

    ghost predicate Valid()
      reads this
    {
      Tidy(root) && CanonicalTree(root)
    }

    constructor ()
      ensures Valid() && root == map[]
    {
      root := map[];
    }

    method InsertProtocol(protocol: string, link: Link)
      requires Valid()
      modifies this
      ensures Valid()
      ensures Blocked(old(root), Segments(protocol)) ==> root == old(root)
      ensures !Blocked(old(root), Segments(protocol)) && !Shadows(old(root), Segments(protocol))
              ==> IsUpdate(old(root), Segments(protocol), Some(link), root)
      ensures var p := Segments(protocol);
              !Blocked(old(root), p) ==>
                forall q :: Get(root, q) ==
                  if q == p then Some(link) else if StrictPrefix(p, q) then None else Get(old(root), q)
    {
      ApplyKeeps(root, Put(protocol, link));
      InsertedOrDropped(root, Segments(protocol), link);
      InsertIsUpdateExactly(root, Segments(protocol), link);
      if !MeetsLeaf(root, Segments(protocol)) {
        forall q {
          GetAfterInsert(root, Segments(protocol), link, q);
        }
      }
      BlockedMeetsLeaf(root, Segments(protocol));
      root := Insert(root, Segments(protocol), link);
    }

    /** Every spelling of a protocol finds the same link, and one is found exactly when the
        tree lists the protocol. */
    method GetProtocol(protocol: string) returns (link: Option<Link>)
      ensures forall s :: CanonicalId(s) == CanonicalId(protocol) ==> link == Get(root, Segments(s))
      ensures link.Some? <==> exists p :: p in StoredPaths(root) && Id(p) == CanonicalId(protocol) && Canonical(p)
    {
      FoundExactlyWhenListed(root, protocol);
      link := Get(root, Segments(protocol));
    }

    method RemoveProtocol(protocol: string) returns (removed: bool)
      requires Valid()
      modifies this
      ensures Valid()
      ensures removed <==> Get(old(root), Segments(protocol)).Some? || Shadows(old(root), Segments(protocol))
      ensures !removed ==> forall q :: Get(root, q) == Get(old(root), q)
      ensures var p := Segments(protocol);
              forall q :: Get(root, q) == if q == p || StrictPrefix(p, q) then None else Get(old(root), q)
      ensures !Shadows(old(root), Segments(protocol)) ==> IsUpdate(old(root), Segments(protocol), None, root)
    {
      ApplyKeeps(root, Delete(protocol));
      var segments := Segments(protocol);
      RemoveAnswersExactly(root, segments);
      RemoveIsRemovalExactly(root, segments);
      forall q {
        GetAfterRemove(root, segments, q);
      }
      var (root', answer) := Remove(root, segments);
      root, removed := root', answer;
    }

    /** The ids of all stored protocols: exactly the domain, without duplicates, in order. */
    method ProtocolIds() returns (ids: seq<string>)
      requires CanonicalTree(root)
      ensures Distinct(ids) && InOrder(ids)
      ensures forall s :: s in ids <==> s == CanonicalId(s) && Get(root, Segments(s)).Some?
    {
      ids := CollectIds(root, "", []);
      ghost var paths :| Enumerates(paths, StoredPaths(root)) && Ascending(paths) && ids == [] + PrintAll("", paths);
      IdsAreDomain(root, paths, ids);
    }

    /** Every stored protocol with its link, in order: listing and looking up loses no leaf. */
    method IterProtocols() returns (pairs: seq<(string, Link)>)
      requires CanonicalTree(root)
      ensures forall i, j :: 0 <= i < j < |pairs| ==> pairs[i].0 != pairs[j].0
      ensures forall i, j :: 0 <= i < j < |pairs| ==> PathBefore(Segments(pairs[i].0), Segments(pairs[j].0))
      ensures forall p :: Get(root, p).Some? ==> (Id(p), Get(root, p).value) in pairs
      ensures forall e :: e in pairs ==> e.0 == CanonicalId(e.0) && Get(root, Segments(e.0)) == Some(e.1)
    {
      var ids := ProtocolIds();
      pairs := [];
      for i := 0 to |ids|
        invariant |pairs| == i
        invariant forall j :: 0 <= j < i ==> pairs[j].0 == ids[j] && Get(root, Segments(ids[j])) == Some(pairs[j].1)
      {
        assert ids[i] in ids;
        var link := Get(root, Segments(ids[i]));
        if link.Some? {
          pairs := pairs + [(ids[i], link.value)];
        }
      }
      forall p | Get(root, p).Some? ensures (Id(p), Get(root, p).value) in pairs {
        ReadBackExactly(p);
        CanonicalIdIsListed(Id(p));
        assert Id(p) in ids;
        var j :| 0 <= j < |ids| && ids[j] == Id(p);
        assert pairs[j] == (Id(p), Get(root, p).value);
      }
      forall e | e in pairs ensures e.0 == CanonicalId(e.0) && Get(root, Segments(e.0)) == Some(e.1) {
        var j :| 0 <= j < |pairs| && pairs[j] == e;
        assert ids[j] in ids;
      }
    }
  }

  lemma IdsAreDistinct(paths: seq<Path>)
    requires Distinct(paths) && forall p :: p in paths ==> Canonical(p)
    ensures Distinct(PrintAll("", paths))
  {
    var ids := PrintAll("", paths);
    forall i, j | 0 <= i < j < |ids| ensures ids[i] != ids[j] {
      assert paths[i] in paths && paths[j] in paths;
      assert ids[i] == Id(paths[i]) && ids[j] == Id(paths[j]);
      if ids[i] == ids[j] {
        IdIsInjective(paths[i], paths[j]);
      }
    }
  }

  lemma IdReadsBack(paths: seq<Path>, i: nat)
    requires i < |paths| && Canonical(paths[i])
    ensures Segments(PrintAll("", paths)[i]) == paths[i]
  {
    ReadBackExactly(paths[i]);
    assert PrintAll("", paths)[i] == "" + Id(paths[i]) == Id(paths[i]);
  }

  lemma IdsAreInOrder(paths: seq<Path>)
    requires Ascending(paths) && forall p :: p in paths ==> Canonical(p)
    ensures InOrder(PrintAll("", paths))
  {
    var ids := PrintAll("", paths);
    forall i: nat, j: nat | i < j < |ids| ensures PathBefore(Segments(ids[i]), Segments(ids[j])) {
      assert paths[i] in paths && paths[j] in paths;
      IdReadsBack(paths, i);
      IdReadsBack(paths, j);
    }
  }

  lemma ListedExactly(t: Tree, paths: seq<Path>, s: string)
    requires CanonicalTree(t) && Enumerates(paths, StoredPaths(t))
    ensures s in PrintAll("", paths) <==> s == CanonicalId(s) && Get(t, Segments(s)).Some?
  {
    var ids := PrintAll("", paths);
    CanonicalIdIsListed(s);
    PathsAreDomain(t, Segments(s));
    if s in ids {
      var i :| 0 <= i < |ids| && ids[i] == s;
      assert paths[i] in paths && s == Id(paths[i]);
      PathsAreDomain(t, paths[i]);
      ReadBackExactly(paths[i]);
    }
    if s == CanonicalId(s) && Get(t, Segments(s)).Some? {
      var i :| 0 <= i < |paths| && paths[i] == Segments(s);
      assert ids[i] == "" + Id(paths[i]) == s;
    }
  }

  lemma IdsAreDomain(t: Tree, paths: seq<Path>, ids: seq<string>)
    requires CanonicalTree(t) && Enumerates(paths, StoredPaths(t)) && Ascending(paths)
    requires ids == [] + PrintAll("", paths)
    ensures Distinct(ids) && InOrder(ids)
    ensures forall s :: s in ids <==> s == CanonicalId(s) && Get(t, Segments(s)).Some?
  {
    assert ids == PrintAll("", paths);
    forall p | p in paths ensures Canonical(p) {
      PathsAreDomain(t, p);
    }
    IdsAreDistinct(paths);
    IdsAreInOrder(paths);
    forall s ensures s in ids <==> s == CanonicalId(s) && Get(t, Segments(s)).Some? {
      ListedExactly(t, paths, s);
    }
  }
}
