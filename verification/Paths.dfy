/** Slash-separated protocol ids and CRUD paths: splitting, joining and the CRUD path
    parser (src/entity.rs, src/crud/helpers.rs, src/crud/kinds.rs). */
module Paths {
  import opened Basics

  /** A protocol id as the list of its segments. */
  type Path = seq<string>

  predicate SlashFree(s: string) {
    '/' !in s
  }

  /** `str::split('/')`: never empty, and the empty string gives one empty segment. */
  function Split(s: string): (p: Path)
    ensures |p| > 0 && forall seg :: seg in p ==> SlashFree(seg)
  {
    if s == "" then [""]
    else
      var rest := Split(s[1..]);
      assert SlashFree(rest[0]);
      if s[0] == '/' then [""] + rest else [[s[0]] + rest[0]] + rest[1..]
  }

  /** `[..].join("/")`. */
  function Join(p: Path): string {
    if p == [] then "" else if |p| == 1 then p[0] else p[0] + "/" + Join(p[1..])
  }

  /** `trim_start_matches('/')`. */
  function TrimSlashes(s: string): string {
    if s != "" && s[0] == '/' then TrimSlashes(s[1..]) else s
  }

  /** The segments under which a protocol id is looked up in a kind tree. */
  function Segments(protocol: string): (p: Path)
    ensures |p| > 0 && forall seg :: seg in p ==> SlashFree(seg)
  {
    Split(TrimSlashes(protocol))
  }

  /** How a kind tree prints the id of one of its leaves. */
  function Id(p: Path): string {
    "/" + Join(p)
  }

  lemma {:induction false} JoinSplit(s: string)
    ensures Join(Split(s)) == s
  {
    if s != "" {
      var rest := Split(s[1..]);
      JoinSplit(s[1..]);
      if s[0] == '/' {
        assert ([""] + rest)[1..] == rest;
      } else {
        var p := [[s[0]] + rest[0]] + rest[1..];
        assert p[1..] == rest[1..];
        assert [s[0]] + s[1..] == s;
      }
    }
  }

  /** Splitting undoes joining with a slash-free segment in front. */
  lemma {:induction false} SplitCons(seg: string, s: string)
    requires SlashFree(seg)
    ensures Split(seg + "/" + s) == [seg] + Split(s)
  {
    var t := seg + "/" + s;
    if seg == "" {
      assert t[1..] == s;
    } else {
      SplitCons(seg[1..], s);
      assert t[1..] == seg[1..] + "/" + s;
      assert Split(t) == [[t[0]] + Split(t[1..])[0]] + Split(t[1..])[1..];
      assert Split(t[1..])[1..] == Split(s);
      assert [t[0]] + seg[1..] == seg;
    }
  }

  lemma {:induction false} SplitOne(seg: string)
    requires SlashFree(seg)
    ensures Split(seg) == [seg]
  {
    if seg != "" {
      assert seg[0] in seg;
      SplitOne(seg[1..]);
      assert [seg[0]] + seg[1..] == seg;
      assert Split(seg) == [[seg[0]] + seg[1..]] + [];
    }
  }

  lemma {:induction false} SplitJoin(p: Path)
    requires |p| > 0 && forall seg :: seg in p ==> SlashFree(seg)
    ensures Split(Join(p)) == p
  {
    if |p| == 1 {
      SplitOne(p[0]);
    } else {
      SplitJoin(p[1..]);
      SplitCons(p[0], Join(p[1..]));
    }
  }

  // ----- Which paths survive being printed and read back

  /** Paths that `Segments` can produce: slash-free, and not starting with an empty
      segment unless that is the whole path. */
  predicate Canonical(p: Path) {
    && |p| > 0
    && (forall seg :: seg in p ==> SlashFree(seg))
    && (|p| > 1 ==> p[0] != "")
  }

  lemma {:induction false} TrimmedStart(s: string)
    ensures TrimSlashes(s) != "" ==> TrimSlashes(s)[0] != '/'
    ensures TrimSlashes("/" + s) == TrimSlashes(s)
    ensures (s == "" || s[0] != '/') ==> TrimSlashes(s) == s
  {
    assert ("/" + s)[1..] == s;
    if s != "" && s[0] == '/' {
      TrimmedStart(s[1..]);
    }
  }

  lemma {:induction false} SplitStart(s: string)
    ensures s != "" && s[0] != '/' ==> Split(s)[0] != ""
    ensures s != "" && s[0] == '/' ==> |Split(s)| > 1 && Split(s)[0] == ""
  {
    if s != "" {
      var rest := Split(s[1..]);
      assert |rest| > 0;
    }
  }

  lemma SegmentsAreCanonical(protocol: string)
    ensures Canonical(Segments(protocol))
  {
    TrimmedStart(protocol);
    SplitStart(TrimSlashes(protocol));
  }

  lemma JoinStart(p: Path)
    requires |p| > 0 && forall seg :: seg in p ==> SlashFree(seg)
    ensures Join(p) != "" && Join(p)[0] == '/' <==> |p| > 1 && p[0] == ""
  {
    assert SlashFree(p[0]);
    if |p| > 1 && p[0] != "" {
      assert Join(p)[0] == p[0][0] && p[0][0] in p[0];
    }
    if |p| == 1 && p[0] != "" {
      assert p[0][0] in p[0];
    }
  }

  /** Printing a leaf's id and reading it back finds the same path exactly for canonical
      paths, so a tree filled through `insert_protocol` loses no leaf when listed. */
  lemma ReadBackExactly(p: Path)
    ensures Segments(Id(p)) == p <==> Canonical(p)
  {
    if Canonical(p) {
      TrimmedStart(Join(p));
      JoinStart(p);
      SplitJoin(p);
    } else {
      SegmentsAreCanonical(Id(p));
    }
  }

  /** Different canonical paths print differently. */
  lemma IdIsInjective(p: Path, q: Path)
    requires Canonical(p) && Canonical(q) && Id(p) == Id(q)
    ensures p == q
  {
    ReadBackExactly(p);
    ReadBackExactly(q);
  }

  // ----- Protocol ids up to leading slashes

  /** The id under which the tree lists what it looks up for `protocol`. */
  function CanonicalId(protocol: string): string {
    "/" + TrimSlashes(protocol)
  }

  lemma CanonicalIdIsListed(protocol: string)
    ensures Id(Segments(protocol)) == CanonicalId(protocol)
    ensures Segments(CanonicalId(protocol)) == Segments(protocol)
    ensures CanonicalId(CanonicalId(protocol)) == CanonicalId(protocol)
  {
    JoinSplit(TrimSlashes(protocol));
    TrimmedStart(protocol);
    TrimmedStart(TrimSlashes(protocol));
  }

  lemma SameSegmentsSameId(s: string, t: string)
    ensures Segments(s) == Segments(t) <==> CanonicalId(s) == CanonicalId(t)
  {
    CanonicalIdIsListed(s);
    CanonicalIdIsListed(t);
  }

  // ----- The CRUD path parser

  datatype PathError = NoLeadingSlash | NoHandler

  function NonEmpty(p: Path): Path {
    if p == [] then [] else (if p[0] == "" then [] else [p[0]]) + NonEmpty(p[1..])
  }

  /** The position of the first slash, or the length. */
  function FirstSlash(s: string): (n: nat)
    ensures n <= |s| && SlashFree(s[..n]) && (n < |s| ==> s[n] == '/')
  {
    if s == "" || s[0] == '/' then 0
    else
      var n := 1 + FirstSlash(s[1..]);
      assert s[..n] == [s[0]] + s[1..][..n - 1];
      n
  }

  /** `parse_path`: the namespace, and the non-empty segments after it. */
  function ParsePath(path: string): Result<(string, Path), PathError> {
    if path == "" || path[0] != '/' then Err(NoLeadingSlash)
    else
      var body := path[1..];
      var n := FirstSlash(body);
      var ns := body[..n];
      var rest := if n < |body| then body[n + 1..] else "";
      if ns == "" then Err(NoHandler) else Ok((ns, NonEmpty(Split(rest))))
  }

  /** Parsing in terms of splitting: what follows the leading slash, which must be there, is
      cut at every slash, the first piece is the namespace and must not be empty, and empty
      pieces are dropped. */
  lemma ParseIsSplit(path: string)
    ensures !("/" <= path) ==> ParsePath(path) == Err(NoLeadingSlash)
    ensures "/" <= path ==>
              var pieces := Split(path[1..]);
              ParsePath(path) == if pieces[0] == "" then Err(NoHandler) else Ok((pieces[0], NonEmpty(pieces[1..])))
  {
    if !("/" <= path) {
      return;
    }
    var body := path[1..];
    var n := FirstSlash(body);
    if n < |body| {
      assert body == body[..n] + "/" + body[n + 1..];
      SplitCons(body[..n], body[n + 1..]);
    } else {
      assert body[..n] == body;
      SplitOne(body);
      assert Split("") == [""] && NonEmpty([""]) == [] by { assert [""][1..] == []; }
    }
  }

  function Slashes(n: nat): string {
    if n == 0 then "" else "/" + Slashes(n - 1)
  }

  lemma {:induction false} NonEmptyOfSlashes(n: nat, s: string)
    ensures NonEmpty(Split(Slashes(n) + s)) == NonEmpty(Split(s))
  {
    if n == 0 {
      assert Slashes(n) + s == s;
    } else {
      NonEmptyOfSlashes(n - 1, s);
      assert Slashes(n) + s == "" + "/" + (Slashes(n - 1) + s);
      SplitCons("", Slashes(n - 1) + s);
    }
  }

  /** Dropping empty pieces keeps the others, all of them, in order. */
  lemma {:induction false} NonEmptyIsFilter(p: Path, q: Path)
    ensures NonEmpty(p + q) == NonEmpty(p) + NonEmpty(q)
    ensures forall seg :: seg in NonEmpty(p) <==> seg in p && seg != ""
    ensures |p| == 1 ==> NonEmpty(p) == if p[0] == "" then [] else p
    decreases |p|
  {
    if p == [] {
      assert p + q == q;
    } else {
      NonEmptyIsFilter(p[1..], q);
      assert (p + q)[1..] == p[1..] + q;
      assert p == [p[0]] + p[1..];
    }
  }

  lemma ParseNamespace(ns: string, rest: string)
    requires ns != "" && SlashFree(ns)
    ensures ParsePath("/" + ns + "/" + rest) == Ok((ns, NonEmpty(Split(rest))))
  {
    var path := "/" + ns + "/" + rest;
    assert path[1..] == ns + "/" + rest;
    SplitCons(ns, rest);
    ParseIsSplit(path);
    assert ([ns] + Split(rest))[1..] == Split(rest);
  }

  lemma PiecesOfSlashed(p: Path)
    requires p != [] && forall seg :: seg in p ==> SlashFree(seg)
    ensures NonEmpty(Split(Join(p))) == NonEmpty(p) == NonEmpty(Split(Join(p) + "/"))
  {
    SplitJoin(p);
    JoinAppend(p);
    SplitJoin(p + [""]);
    NonEmptyIsFilter(p, [""]);
    NonEmptyIsFilter([""], []);
    assert NonEmpty(p) + [] == NonEmpty(p);
  }

  /** A trailing slash changes nothing. */
  lemma TrailingSlashIsIgnored(ns: string, p: Path)
    requires ns != "" && SlashFree(ns) && p != [] && forall seg :: seg in p ==> SlashFree(seg)
    ensures forall rest :: rest == Join(p) || rest == Join(p) + "/" ==>
              ParsePath("/" + ns + "/" + rest) == Ok((ns, NonEmpty(p)))
  {
    PiecesOfSlashed(p);
    forall rest: string | rest == Join(p) || rest == Join(p) + "/"
      ensures ParsePath("/" + ns + "/" + rest) == Ok((ns, NonEmpty(p)))
    {
      ParseNamespace(ns, rest);
    }
  }

  lemma {:induction false} JoinAppend(p: Path)
    requires p != []
    ensures Join(p + [""]) == Join(p) + "/"
  {
    if |p| > 1 {
      JoinAppend(p[1..]);
      assert (p + [""])[1..] == p[1..] + [""];
    }
  }

  lemma {:induction false} NonEmptyKeeps(p: Path)
    ensures |NonEmpty(p)| <= |p|
    ensures NonEmpty(p) == p <==> (forall seg :: seg in p ==> seg != "")
  {
    if p != [] {
      NonEmptyKeeps(p[1..]);
      assert p == [p[0]] + p[1..];
      assert forall seg :: seg in p <==> seg == p[0] || seg in p[1..];
      assert p[0] in p;
      if p[0] != "" {
        assert NonEmpty(p)[1..] == NonEmpty(p[1..]);
      }
    }
  }

  /** The `/kinds` path of a protocol, with any extra slashes after the namespace, is parsed
      to the protocol's own segments (which the handler joins to the protocol again) exactly
      when none of them is empty. */
  lemma KindsPathRoundTripExactly(extra: nat, p: Path)
    requires Canonical(p)
    ensures var parsed := ParsePath("/kinds/" + Slashes(extra) + Join(p));
            && parsed.Ok? && parsed.value.0 == "kinds"
            && (parsed.value.1 == p == Segments(Id(parsed.value.1)) <==> forall seg :: seg in p ==> seg != "")
  {
    var path := "/kinds/" + Slashes(extra) + Join(p);
    var rest := Slashes(extra) + Join(p);
    assert path[1..] == "kinds" + "/" + rest;
    SplitCons("kinds", rest);
    ParseIsSplit(path);
    NonEmptyOfSlashes(extra, Join(p));
    SplitJoin(p);
    NonEmptyKeeps(p);
    assert Split(path[1..])[1..] == Split(rest);
    ReadBackExactly(p);
  }
}
