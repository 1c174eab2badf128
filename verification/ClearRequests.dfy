/** Requests to clear failures whose children leave it to their parent to name the attribute. */
module ClearRequests {
  import opened Common
  import opened Model
  import opened Attributes
  import opened Corosync
  import opened Replica

  /** The attribute that the failure pattern matches first, in the order of traversal. */
  function FirstMatch(names: seq<string>, matching: set<string>): Option<string> {
    if names == [] then None else
      var found := FirstMatch(names[..|names|-1], matching);
      if found.None? && names[|names|-1] in matching then Some(names[|names|-1]) else found
  }

  /** The request with every operation child completed as for that attribute. */
  function Filled(e: Element, name: string): Element {
    e.(children := Absorb(e.children, ClearOf(e, name).attrs))
  }

  lemma MergeTwice(c: Op, p: Op)
    ensures Merge(Merge(c, p), p) == Merge(c, p)
  {
  }

  lemma FilledNames(e: Element, name: string)
    ensures NamedChildren(Filled(e, name).children)
    ensures |Filled(e, name).children| == |e.children|
  {
    AbsorbIs(e.children, ClearOf(e, name).attrs);
  }

  lemma AbsorbTwice(children: seq<Element>, p: Op)
    ensures Absorb(Absorb(children, p), p) == Absorb(children, p)
  {
    hide Merge;
    AbsorbIs(children, p);
    AbsorbIs(Absorb(children, p), p);
    forall i | 0 <= i < |children| ensures Absorb(Absorb(children, p), p)[i] == Absorb(children, p)[i] {
      MergeTwice(children[i].attrs, p);
    }
  }

  lemma {:induction false} AbsorbedActsAlike(n: Node, p: Op, children: seq<Element>, filter: bool, env: Env)
    ensures UpdateChildren(n, p, Absorb(children, p), filter, env) == UpdateChildren(n, p, children, filter, env)
  {
    hide PeerUpdateOne, Merge;
    if children != [] {
      var front, child := children[..|children|-1], children[|children|-1];
      AbsorbedActsAlike(n, p, front, filter, env);
      AbsorbIs(front, p);
      MergeTwice(child.attrs, p);
      assert Absorb(children, p)[..|children|-1] == Absorb(front, p);
    }
  }

  lemma {:induction false} NoMatch(n: Node, e: Element, names: seq<string>, matching: set<string>, env: Env)
    requires FirstMatch(names, matching).None?
    ensures ClearMatching(n, e, names, matching, env) == n && ClearRequest(e, names, matching) == e
  {
    if names != [] {
      NoMatch(n, e, names[..|names|-1], matching, env);
    }
  }

  lemma {:induction false} FillingMatches(n: Node, e: Element, names: seq<string>, matching: set<string>, name: string, env: Env)
    requires FirstMatch(names, matching) == Some(name)
    ensures ClearRequest(Filled(e, name), names, matching) == ClearRequest(e, names, matching)
    ensures ClearMatching(n, Filled(e, name), names, matching, env) == ClearMatching(n, e, names, matching, env)
  {
    hide PeerUpdateOne, Merge, UpdateChildren, Absorb;
    var front, last := names[..|names|-1], names[|names|-1];
    if FirstMatch(front, matching).Some? {
      FillingMatches(n, e, front, matching, name, env);
    } else {
      var p := ClearOf(e, name).attrs;
      NoMatch(n, e, front, matching, env);
      NoMatch(n, Filled(e, name), front, matching, env);
      AbsorbTwice(e.children, p);
      AbsorbedActsAlike(n, p, e.children, false, env);
      FilledNames(e, name);
    }
  }

  /** What a request to clear failures makes of a table whose attributes are traversed in that order. */
  function ClearedIn(t: Table, e: Element, matching: set<string>, names: seq<string>): Table {
    match FirstMatch(names, matching)
    case None => t
    case Some(name) => ClearedTable(t, Filled(e, name), matching)
  }

  /** A request to clear failures acts on the table in the same way on every node, but for one thing: which attribute
      the failure pattern matches first, in the order of traversal. Children that do not name an attribute are about
      that one, once and for all. */
  lemma ClearFailureView(n: Node, e: Element, matching: set<string>, env: Env)
    requires ValidEnv(env) && Folded(TableOf(n))
    ensures Views(n, ClearFailure(n, e, matching, env), ClearedIn(TableOf(n), e, matching, env.order(n.attributes.Keys)))
    ensures Folded(ClearedIn(TableOf(n), e, matching, env.order(n.attributes.Keys)))
  {
    hide Folded, TableOf, ClearedTable, ClearMatching, Filled;
    var names := env.order(n.attributes.Keys);
    var found := FirstMatch(names, matching);
    if found.None? {
      NoMatch(n, e, names, matching, env);
    } else {
      FillingMatches(n, e, names, matching, found.value, env);
      FilledNames(e, found.value);
      NamedClearView(n, Filled(e, found.value), matching, env);
    }
  }

  // ---- Children that name their attributes ----

  lemma {:induction false} NoneMatches(names: seq<string>, matching: set<string>)
    requires FirstMatch(names, matching).None?
    ensures forall name :: name in names ==> name !in matching
  {
    if names != [] {
      NoneMatches(names[..|names|-1], matching);
      assert names == names[..|names|-1] + [names[|names|-1]];
    }
  }

  lemma FilledActsAlike(e: Element, name: string)
    requires NamedChildren(e.children)
    ensures SameOps(Filled(e, name).children, ClearOf(e, "").attrs, e.children, ClearOf(e, "").attrs)
  {
    hide Merge;
    AbsorbIs(e.children, ClearOf(e, name).attrs);
    forall i | 0 <= i < |e.children| && e.children[i].isOp
      ensures Merge(Filled(e, name).children[i].attrs, ClearOf(e, "").attrs) == Merge(e.children[i].attrs, ClearOf(e, "").attrs)
    {
      MergeNamed(e.children[i].attrs, e, name, "");
    }
  }

  lemma {:induction false} FilledTimes(t: Table, e: Element, name: string, k: nat)
    requires NamedChildren(e.children)
    ensures ClearTimes(t, Filled(e, name), k) == ClearTimes(t, e, k)
  {
    hide UpdateEach, SameOps, NamedChildren;
    if k > 0 {
      FilledTimes(t, e, name, k - 1);
      FilledActsAlike(e, name);
      SameOpsUpdate(ClearTimes(t, e, k - 1), Filled(e, name).children, ClearOf(e, "").attrs, e.children, ClearOf(e, "").attrs, None);
    }
  }

  /** If the request has no children, or each of them names its attribute, the order of traversal does not matter. */
  lemma NamedInAnyOrder(t: Table, e: Element, matching: set<string>, names: seq<string>)
    requires NamedChildren(e.children) && Enumerates(names, t.Keys)
    ensures ClearedIn(t, e, matching, names) == ClearedTable(t, e, matching)
  {
    var found := FirstMatch(names, matching);
    if found.None? {
      NoneMatches(names, matching);
      assert t.Keys * matching == {};
      assert ClearTable(t, e.attrs, matching) == t;
    } else {
      FilledNames(e, found.value);
      FilledTimes(t, e, found.value, |t.Keys * matching|);
      hide ClearTimes, ClearTable;
    }
  }

  // ---- Children that name no attribute ----

  predicate Nameless(children: seq<Element>) {
    children != [] && forall i :: 0 <= i < |children| && children[i].isOp ==> children[i].attrs.name.None?
  }

  lemma {:induction false} FirstMatchIsIn(names: seq<string>, matching: set<string>)
    requires FirstMatch(names, matching).Some?
    ensures FirstMatch(names, matching).value in names && FirstMatch(names, matching).value in matching
  {
    if FirstMatch(names[..|names|-1], matching).Some? {
      FirstMatchIsIn(names[..|names|-1], matching);
    }
  }

  lemma InTable(n: Node, name: string)
    requires name in n.attributes
    ensures name in TableOf(n)
  {
  }
}
