/** The binary and the source text an entity is loaded with (src/plugin/mod.rs). */
module BehaviourText {
  import opened Basics
  import opened KindResolve
  import opened Manifest

  const NEWLINE: Byte := 10

  // ----- Joining source parts

  predicate EndsWithNewline(b: Bytes) {
    b != [] && b[|b| - 1] == NEWLINE
  }

  function Terminated(b: Bytes): Bytes {
    if EndsWithNewline(b) then b else b + [NEWLINE]
  }

  /** The parts in order, each ended by a newline; an empty part adds nothing unless it comes
      first. */
  function Text(parts: seq<Bytes>): Bytes {
    if parts == [] then []
    else
      var last := parts[|parts| - 1];
      Text(parts[..|parts| - 1]) + if last == [] && |parts| > 1 then [] else Terminated(last)
  }

  lemma TextEndsWithNewline(parts: seq<Bytes>)
    requires parts != []
    ensures EndsWithNewline(Text(parts)) && Text(parts)[|Text(parts)| - 1] == 10
  {
  }

  /** The loop over the fetched parts, pushing into one buffer. */
  method Combine(parts: seq<Bytes>) returns (combined: Bytes)
    ensures combined == Text(parts)
  {
    combined := [];
    for i := 0 to |parts|
      invariant combined == Text(parts[..i])
    {
      var part := parts[i];
      assert parts[..i + 1][..i] == parts[..i];
      if i > 0 {
        TextEndsWithNewline(parts[..i]);
      }
      if combined != [] && !EndsWithNewline(combined) {
        combined := combined + [NEWLINE];
      }
      combined := combined + part;
      if !EndsWithNewline(combined) {
        combined := combined + [NEWLINE];
      }
    }
    assert parts[..|parts|] == parts;
  }

  // ----- Lines

  /** The lines of a text; a final newline ends the last line and starts no other. */
  function Lines(b: Bytes): seq<Bytes> {
    LinesFrom([], b)
  }

  function LinesFrom(line: Bytes, b: Bytes): seq<Bytes>
    decreases |b|
  {
    if b == [] then (if line == [] then [] else [line])
    else if b[0] == NEWLINE then [line] + LinesFrom([], b[1..])
    else LinesFrom(line + [b[0]], b[1..])
  }

  lemma {:induction false} LinesAppend(line: Bytes, a: Bytes, b: Bytes)
    requires a == [] ==> line == []
    requires a != [] ==> EndsWithNewline(a)
    ensures LinesFrom(line, a + b) == LinesFrom(line, a) + Lines(b)
    decreases |a|
  {
    if a == [] {
      assert a + b == b;
    } else {
      assert (a + b)[1..] == a[1..] + b;
      if a[0] == NEWLINE {
        LinesAppend([], a[1..], b);
      } else {
        LinesAppend(line + [a[0]], a[1..], b);
      }
    }
  }

  lemma {:induction false} TerminatedLines(line: Bytes, a: Bytes)
    requires line != [] || a != []
    ensures LinesFrom(line, if EndsWithNewline(a) then a else a + [NEWLINE]) == LinesFrom(line, a)
    decreases |a|
  {
    if a == [] {
      assert LinesFrom(line, [NEWLINE]) == [line] + LinesFrom([], []);
    } else {
      var next := if a[0] == NEWLINE then [] else line + [a[0]];
      if !EndsWithNewline(a) {
        assert (a + [NEWLINE])[1..] == a[1..] + [NEWLINE];
        if next != [] || a[1..] != [] {
          TerminatedLines(next, a[1..]);
        }
      }
    }
  }

  /** The lines of all parts, one part after the other. */
  function LinesOfParts(parts: seq<Bytes>): seq<Bytes> {
    if parts == [] then []
    else LinesOfParts(parts[..|parts| - 1]) + Lines(parts[|parts| - 1])
  }

  function AlignedLines(parts: seq<Bytes>): seq<Bytes> {
    (if parts != [] && parts[0] == [] then [[]] else []) + LinesOfParts(parts)
  }

  lemma EmptyLine()
    ensures Lines([NEWLINE]) == [[]] && Lines([]) == []
  {
    assert [NEWLINE][1..] == [];
    assert LinesFrom([], [NEWLINE]) == [[]] + LinesFrom([], []);
  }

  /** No line of the text straddles two parts: its lines are those of the parts in order, after
      one empty line if the first part is empty. */
  lemma {:induction false} TextIsLineAligned(parts: seq<Bytes>)
    ensures Lines(Text(parts)) == AlignedLines(parts)
    decreases |parts|
  {
    if parts != [] {
      var before, last := parts[..|parts| - 1], parts[|parts| - 1];
      TextIsLineAligned(before);
      if |parts| > 1 {
        assert before[0] == parts[0];
        TextEndsWithNewline(before);
      }
      if last != [] {
        TerminatedLines([], last);
        LinesAppend([], Text(before), Terminated(last));
      } else {
        assert Text(before) + [] == Text(before);
        EmptyLine();
        assert [] + Terminated(last) == [NEWLINE];
      }
    }
  }

  // ----- Loading

  datatype LoadError =
    | NoBinary
    | BinaryUnavailable(cid: Cid)
    | KindSourceUnavailable(cid: Cid)
    | EntitySourceUnavailable(cid: Cid)

  datatype Loaded = Loaded(wasmCid: Cid, wasm: Bytes, behaviourCid: Option<Cid>, text: Option<Bytes>)

  /** The contents that can be fetched. */
  type Contents = map<Cid, Bytes>

  predicate AllFetch(contents: Contents, sources: seq<Cid>) {
    forall i :: 0 <= i < |sources| ==> sources[i] in contents
  }

  function Fetched(contents: Contents, sources: seq<Cid>): seq<Bytes>
    requires AllFetch(contents, sources)
  {
    seq(|sources|, i requires 0 <= i < |sources| => contents[sources[i]])
  }

  /** Where the plugin text comes from: the kind's layers, then the entity's own source. */
  function Sources(kind: KindNode, node: EntityNode): seq<Cid> {
    Layers(kind) + ToSeq(node.behaviour)
  }

  /** The first source that cannot be fetched is the reason of a failed load. */
  ghost predicate FailsAt(contents: Contents, kind: KindNode, node: EntityNode, e: LoadError) {
    exists i :: 0 <= i < |Sources(kind, node)| && AllFetch(contents, Sources(kind, node)[..i])
                && Sources(kind, node)[i] !in contents
                && e == if i < |Layers(kind)| then KindSourceUnavailable(Sources(kind, node)[i])
                        else EntitySourceUnavailable(Sources(kind, node)[i])
  }

  /** The text of sources that can all be fetched. */
  function TextOf(contents: Contents, sources: seq<Cid>): Option<Bytes>
    requires AllFetch(contents, sources)
  {
    if sources == [] then None else Some(Text(Fetched(contents, sources)))
  }

  /** What loading must come to. */
  ghost predicate LoadsAs(contents: Contents, kind: KindNode, node: EntityNode, r: Result<Loaded, LoadError>) {
    match kind.cid
    case None =>
      (match node.behaviour
       case None => r == Err(NoBinary)
       case Some(cid) =>
         r == if cid in contents then Ok(Loaded(cid, contents[cid], None, None)) else Err(BinaryUnavailable(cid)))
    case Some(cid) =>
      if cid !in contents then r == Err(BinaryUnavailable(cid))
      else if AllFetch(contents, Sources(kind, node)) then
        r == Ok(Loaded(cid, contents[cid], node.behaviour, TextOf(contents, Sources(kind, node))))
      else r.Err? && FailsAt(contents, kind, node, r.error)
  }

  /** The part of `resolve_wasm_and_behaviour` that composes the text. */
  method ComposeText(node: EntityNode, kind: KindNode, contents: Contents) returns (r: Result<Option<Bytes>, LoadError>)
    ensures if AllFetch(contents, Sources(kind, node)) then r == Ok(TextOf(contents, Sources(kind, node)))
            else r.Err? && FailsAt(contents, kind, node, r.error)
  {
    var kindBehaviours := if kind.behaviourChain == [] then ToSeq(kind.behaviour) else kind.behaviourChain;
    ghost var sources := Sources(kind, node);
    if kindBehaviours == [] && node.behaviour.None? {
      return Ok(None);
    }
    var parts: seq<Bytes> := [];
    for i := 0 to |kindBehaviours|
      invariant AllFetch(contents, sources[..i]) && parts == Fetched(contents, sources[..i])
    {
      var cid := kindBehaviours[i];
      assert sources[i] == cid && sources[..i + 1] == sources[..i] + [cid];
      if cid !in contents {
        return Err(KindSourceUnavailable(cid));
      }
      parts := parts + [contents[cid]];
    }
    if node.behaviour.Some? {
      var cid := node.behaviour.value;
      var n := |kindBehaviours|;
      assert sources[n] == cid && sources == sources[..n] + [cid];
      if cid !in contents {
        return Err(EntitySourceUnavailable(cid));
      }
      parts := parts + [contents[cid]];
    }
    assert parts == Fetched(contents, sources);
    var combined := Combine(parts);
    return Ok(Some(combined));
  }

  /** `resolve_wasm_and_behaviour`. */
  method ResolveWasmAndBehaviour(node: EntityNode, kind: KindNode, contents: Contents)
    returns (r: Result<Loaded, LoadError>)
    ensures LoadsAs(contents, kind, node, r)
  {
    if kind.cid.None? {
      if node.behaviour.None? {
        return Err(NoBinary);
      }
      var cid := node.behaviour.value;
      if cid !in contents {
        return Err(BinaryUnavailable(cid));
      }
      return Ok(Loaded(cid, contents[cid], None, None));
    }
    var wasmCid := kind.cid.value;
    if wasmCid !in contents {
      return Err(BinaryUnavailable(wasmCid));
    }
    var text := ComposeText(node, kind, contents);
    if text.Err? {
      return Err(text.error);
    }
    return Ok(Loaded(wasmCid, contents[wasmCid], node.behaviour, text.value));
  }

  // ----- From the manifest's kinds to the text

  /** The kind with its bases, nearest first. */
  function Chain(kinds: Kinds, kind: KindNode): seq<KindNode>
    requires Bases(kinds, kind.baseId, MAX_DEPTH).Ok?
  {
    [kind] + Bases(kinds, kind.baseId, MAX_DEPTH).value
  }

  lemma {:induction false} NoLayers(chain: seq<KindNode>)
    ensures AllLayers(chain) == [] <==> forall k :: k in chain ==> Layers(k) == []
    decreases |chain|
  {
    if chain != [] {
      NoLayers(chain[1..]);
      assert chain == [chain[0]] + chain[1..];
    }
  }

  /** The text is absent exactly when no kind of the chain and not the entity has a behaviour;
      otherwise its lines are those of the root's sources down to the kind's, then the
      entity's own. */
  lemma TextOfChain(chain: seq<KindNode>, node: EntityNode, contents: Contents)
    requires AllFetch(contents, AllLayers(chain) + ToSeq(node.behaviour))
    ensures var sources := AllLayers(chain) + ToSeq(node.behaviour);
            var text := TextOf(contents, sources);
            && (text.None? <==> node.behaviour.None? && forall k :: k in chain ==> Layers(k) == [])
            && (text.Some? ==> Lines(text.value) == AlignedLines(Fetched(contents, sources)))
  {
    NoLayers(chain);
    TextIsLineAligned(Fetched(contents, AllLayers(chain) + ToSeq(node.behaviour)));
  }

  /** Source `i` is the first that cannot be fetched; the first `n` are the kinds'. */
  ghost predicate MissingAt(contents: Contents, sources: seq<Cid>, n: nat, i: nat, e: LoadError) {
    && i < |sources| && AllFetch(contents, sources[..i]) && sources[i] !in contents
    && e == if i < n then KindSourceUnavailable(sources[i]) else EntitySourceUnavailable(sources[i])
  }

  lemma FailsWhereMissing(contents: Contents, kind: KindNode, node: EntityNode, e: LoadError)
    requires FailsAt(contents, kind, node, e)
    ensures exists i :: MissingAt(contents, Layers(kind) + ToSeq(node.behaviour), |Layers(kind)|, i, e)
  {
    var sources := Sources(kind, node);
    var i: nat :| i < |sources| && AllFetch(contents, sources[..i]) && sources[i] !in contents
             && e == if i < |Layers(kind)| then KindSourceUnavailable(sources[i])
                     else EntitySourceUnavailable(sources[i]);
    assert MissingAt(contents, sources, |Layers(kind)|, i, e);
  }

  /** What loading comes to in terms of a binary, kind layers and the entity. */
  ghost predicate LoadsFrom(
    contents: Contents, binary: Option<Cid>, layers: seq<Cid>, node: EntityNode, r: Result<Loaded, LoadError>)
  {
    var sources := layers + ToSeq(node.behaviour);
    if binary.None? then
      match node.behaviour
      case None => r == Err(NoBinary)
      case Some(own) =>
        r == if own in contents then Ok(Loaded(own, contents[own], None, None)) else Err(BinaryUnavailable(own))
    else if binary.value !in contents then r == Err(BinaryUnavailable(binary.value))
    else if AllFetch(contents, sources) then
      r == Ok(Loaded(binary.value, contents[binary.value], node.behaviour, TextOf(contents, sources)))
    else r.Err? && exists i :: MissingAt(contents, sources, |layers|, i, r.error)
  }

  /** An entity whose resolved kind has a shared binary, from the nearest layer that has one,
      loads exactly when that binary and all sources can be fetched, and then with the text of
      the layers of the whole chain, root first, and of its own source; otherwise the error
      names what is missing first. Without a shared binary its behaviour is its own binary,
      and there is no text. */
  lemma EndToEndText(kinds: Kinds, kind: KindNode, node: EntityNode, contents: Contents, r: Result<Loaded, LoadError>)
    requires Resolve(kinds, kind).Ok?
    requires LoadsAs(contents, Resolve(kinds, kind).value, node, r)
    ensures Bases(kinds, kind.baseId, MAX_DEPTH).Ok?
    ensures LoadsFrom(contents, Nearest(Cids(Chain(kinds, kind))), AllLayers(Chain(kinds, kind)), node, r)
  {
    ResolvedFields(kinds, kind, "");
    var resolved := Resolve(kinds, kind).value;
    assert Sources(resolved, node) == AllLayers(Chain(kinds, kind)) + ToSeq(node.behaviour);
    if r.Err? && FailsAt(contents, resolved, node, r.error) {
      FailsWhereMissing(contents, resolved, node, r.error);
    }
  }
}
