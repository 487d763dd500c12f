/** The deletions an entity asks for during one dispatch (src/dispatch.rs). */
module Deletion {
  import opened Basics

  type Fragment = string

  /** Each registered entity with the parent it names, if any. */
  type Registry = map<Fragment, Option<Fragment>>

  predicate IsChild(reg: Registry, child: Fragment, parent: Fragment) {
    child in reg && reg[child] == Some(parent)
  }

  predicate IsLeaf(reg: Registry, f: Fragment) {
    forall e :: e in reg ==> reg[e] != Some(f)
  }

  /** One request: the target goes if the caller may delete it and nobody names it as parent. */
  function DeleteOne(reg: Registry, caller: Fragment, target: Fragment): Registry {
    if target in reg && (reg[target] == Some(caller) || target == caller) && IsLeaf(reg, target) then reg - {target}
    else reg
  }

  function DeleteAll(reg: Registry, caller: Fragment, requests: seq<Fragment>): Registry {
    if requests == [] then reg
    else DeleteOne(DeleteAll(reg, caller, requests[..|requests| - 1]), caller, requests[|requests| - 1])
  }

  class EntityRegistry {
    var entities: Registry

    method HasChildren(target: Fragment) returns (r: bool)
      ensures r <==> !IsLeaf(entities, target)
    {
      r := exists e :: e in entities && entities[e] == Some(target);
    }

    /** `process_entity_delete_requests`, one request at a time. */
    method ProcessEntityDeleteRequests(requests: seq<Fragment>, caller: Fragment)
      modifies this
      ensures entities == DeleteAll(old(entities), caller, requests)
    {
      for i := 0 to |requests|
        invariant entities == DeleteAll(old(entities), caller, requests[..i])
      {
        var target := requests[i];
        assert requests[..i + 1][..i] == requests[..i];
        if target !in entities {
          continue;
        }
        var authorised := entities[target] == Some(caller) || target == caller;
        if !authorised {
          continue;
        }
        var hasChildren := HasChildren(target);
        if hasChildren {
          continue;
        }
        entities := entities - {target};
      }
      assert requests[..|requests|] == requests;
    }
  }

  // ----- Which entities go

  /** A leaf child of the caller that is named somewhere. */
  predicate NamedLeafChild(reg: Registry, caller: Fragment, requests: seq<Fragment>, f: Fragment) {
    IsChild(reg, f, caller) && IsLeaf(reg, f) && f in requests
  }

  /** All children of the caller are leaves named in `requests`. */
  ghost predicate AllChildrenGo(reg: Registry, caller: Fragment, requests: seq<Fragment>) {
    forall e :: IsChild(reg, e, caller) ==> NamedLeafChild(reg, caller, requests, e)
  }

  /** The caller names itself after all its children are gone. */
  ghost predicate CallerGoes(reg: Registry, caller: Fragment, requests: seq<Fragment>) {
    && caller in reg
    && exists i :: 0 <= i < |requests| && requests[i] == caller && AllChildrenGo(reg, caller, requests[..i])
  }

  ghost predicate Goes(reg: Registry, caller: Fragment, requests: seq<Fragment>, f: Fragment) {
    NamedLeafChild(reg, caller, requests, f) || (f == caller && CallerGoes(reg, caller, requests))
  }

  /** Nobody that goes is named as parent by an entity that stays. */
  lemma {:induction false} WhoGoesLeavesNoOrphan(
    reg: Registry, caller: Fragment, requests: seq<Fragment>, e: Fragment, f: Fragment)
    requires IsChild(reg, e, f) && Goes(reg, caller, requests, f)
    ensures Goes(reg, caller, requests, e)
  {
    if f == caller && CallerGoes(reg, caller, requests) {
      CallerGoesAfterLeaves(reg, caller, requests, e);
    }
  }

  lemma CallerGoesAfterLeaves(reg: Registry, caller: Fragment, requests: seq<Fragment>, f: Fragment)
    requires CallerGoes(reg, caller, requests) && IsChild(reg, f, caller)
    ensures NamedLeafChild(reg, caller, requests, f)
  {
    var i :| 0 <= i < |requests| && requests[i] == caller && AllChildrenGo(reg, caller, requests[..i]);
    assert NamedLeafChild(reg, caller, requests[..i], f);
  }

  /** Which leaves there are once those have gone. */
  lemma LeavesLater(reg: Registry, caller: Fragment, requests: seq<Fragment>, later: Registry, f: Fragment)
    requires later == map e | e in reg && !Goes(reg, caller, requests, e) :: reg[e]
    requires f in later && (reg[f] == Some(caller) || f == caller)
    ensures f != caller ==> (IsLeaf(later, f) <==> IsLeaf(reg, f))
    ensures f == caller ==> (IsLeaf(later, f) <==> AllChildrenGo(reg, caller, requests))
  {
    if f != caller {
      if CallerGoes(reg, caller, requests) {
        CallerGoesAfterLeaves(reg, caller, requests, f);
      }
      assert forall e :: e in reg && e !in later ==> reg[e] != Some(f);
    } else {
      if IsLeaf(later, f) {
        forall e | IsChild(reg, e, caller) ensures NamedLeafChild(reg, caller, requests, e) {
          assert e !in later;
        }
      }
    }
  }

  lemma GoesLater(reg: Registry, caller: Fragment, before: seq<Fragment>, target: Fragment, f: Fragment)
    ensures Goes(reg, caller, before + [target], f) <==>
              || Goes(reg, caller, before, f)
              || (f == target && f != caller && IsChild(reg, f, caller) && IsLeaf(reg, f))
              || (f == target && f == caller && f in reg && AllChildrenGo(reg, caller, before))
  {
    var all := before + [target];
    if f == caller {
      assert IsChild(reg, f, caller) ==> !IsLeaf(reg, f);
      if CallerGoes(reg, caller, before) {
        var i :| 0 <= i < |before| && before[i] == caller && AllChildrenGo(reg, caller, before[..i]);
        assert all[..i] == before[..i] && all[i] == caller;
      }
      if f == target && AllChildrenGo(reg, caller, before) {
        assert all[..|before|] == before && all[|before|] == caller;
      }
      if CallerGoes(reg, caller, all) {
        var i :| 0 <= i < |all| && all[i] == caller && AllChildrenGo(reg, caller, all[..i]);
        assert i < |before| ==> all[..i] == before[..i] && before[i] == caller;
        assert i == |before| ==> all[..i] == before && f == target;
      }
    }
  }

  /** Exactly the named leaf children of the caller go, and the caller itself exactly when it
      is named after each of its children has gone; everyone else stays as registered. */
  lemma {:induction false} DeletedExactly(reg: Registry, caller: Fragment, requests: seq<Fragment>)
    ensures DeleteAll(reg, caller, requests) == map e | e in reg && !Goes(reg, caller, requests, e) :: reg[e]
    decreases |requests|
  {
    if requests != [] {
      var before, target := requests[..|requests| - 1], requests[|requests| - 1];
      DeletedExactly(reg, caller, before);
      var mid := DeleteAll(reg, caller, before);
      assert requests == before + [target];
      if target in mid && (reg[target] == Some(caller) || target == caller) {
        LeavesLater(reg, caller, before, mid, target);
      }
      forall f | f in reg
        ensures f in DeleteOne(mid, caller, target) <==> !Goes(reg, caller, requests, f)
      {
        GoesLater(reg, caller, before, target, f);
      }
    }
  }

  /** So the forest stays closed: whoever stays keeps its entry, and its parent is still
      registered if it was before. */
  lemma {:induction false} ForestStaysClosed(reg: Registry, caller: Fragment, requests: seq<Fragment>, e: Fragment)
    requires var later := DeleteAll(reg, caller, requests); e in later
    ensures var later := DeleteAll(reg, caller, requests);
            && e in reg && later[e] == reg[e]
            && (reg[e].Some? && reg[e].value in reg ==> reg[e].value in later)
  {
    DeletedExactly(reg, caller, requests);
    if reg[e].Some? && reg[e].value in reg && Goes(reg, caller, requests, reg[e].value) {
      WhoGoesLeavesNoOrphan(reg, caller, requests, e, reg[e].value);
      assert false;
    }
  }

  /** Naming all children before itself is enough to go, if these are leaves and the caller is
      not its own child. */
  lemma ChildrenThenSelf(reg: Registry, caller: Fragment, children: seq<Fragment>)
    requires caller in reg
    requires forall e :: IsChild(reg, e, caller) ==> e in children && IsLeaf(reg, e)
    ensures var later := DeleteAll(reg, caller, children + [caller]);
            caller !in later && forall e :: IsChild(reg, e, caller) ==> e !in later
  {
    var requests := children + [caller];
    DeletedExactly(reg, caller, requests);
    assert requests[..|children|] == children && requests[|children|] == caller;
    assert AllChildrenGo(reg, caller, children);
  }
}
