/** Setting a resource's meta-attribute, and that of every resource colocated with it, directly or not
    (update_attribute() in tools/crm_resource_runtime.c). */
module ResourceAttributes {
  import opened Common

  datatype Kind = Primitive | Group | Clone | Bundle

  datatype Resource = Resource(id: string, kind: Kind, children: seq<Resource>)

  /** A colocation of some resource `dependent` with the one whose list this stands in. */
  datatype Colocation = Colocation(dependent: string, score: int)

  /** What an update works on: the resources, the clone that a resource is an instance of, the colocations with
      each resource, the resources whose look-up fails, those whose change the CIB refuses, and whether the user
      insists on the resource named. */
  datatype Cluster = Cluster(
    resources: map<string, Resource>,
    cloneOf: map<string, string>,
    withThis: map<string, seq<Colocation>>,
    broken: set<string>,
    refused: set<string>,
    force: bool)

  /** Resources marked to detect loops, the changes made, in order, and the resources that have the attribute in
      the CIB, which is asked afresh every time. */
  datatype State = State(marked: set<string>, changes: seq<string>, has: set<string>)

  function ChildrenWithAttr(has: set<string>, children: seq<Resource>): seq<string> {
    if children == [] then []
    else ChildrenWithAttr(has, children[..|children|-1]) + WithAttr(has, children[|children|-1], false)
  }

  /** Those of the resource and its descendants that have the attribute, children first; the resource the
      search starts from is always included. */
  function WithAttr(has: set<string>, r: Resource, root: bool): seq<string> {
    (if r.kind.Clone? && r.children != [] then WithAttr(has, r.children[0], false) else ChildrenWithAttr(has, r.children))
    + (if root || r.id in has then [r.id] else [])
  }

  /** The resources to change when the given one is to be updated. */
  function Targets(c: Cluster, has: set<string>, id: string): seq<string> {
    if c.force || id !in c.resources then [id]
    else if id in c.cloneOf then [if id in has then id else c.cloneOf[id]]
    else
      var r := c.resources[id];
      if r.kind.Clone? && r.children != [] then
        [if r.children[0].kind.Primitive? && r.children[0].id in has then r.children[0].id else id]
      else WithAttr(has, r, true)
  }

  function Colocated(c: Cluster, id: string): seq<Colocation> {
    if id in c.withThis then c.withThis[id] else []
  }

  /** Change one resource, which then has the attribute, and mark it. */
  function Change(c: Cluster, s: State, id: string): State {
    if id in c.refused then State(s.marked + {id}, s.changes, s.has)
    else State(s.marked + {id}, s.changes + [id], s.has + {id})
  }

  /** Change each target, following its colocations; give up at a target that cannot be looked up. The update
      counts as endless (`None`) if it nests deeper than `depth`. */
  function UpdateTargets(c: Cluster, s: State, targets: seq<string>, depth: nat): Option<State>
    decreases depth, 1, |targets|
  {
    if targets == [] || targets[0] in c.broken then Some(s)
    else match Follow(c, Change(c, s, targets[0]), Colocated(c, targets[0]), depth)
      case None => None
      case Some(s') => UpdateTargets(c, s', targets[1..], depth)
  }

  function Follow(c: Cluster, s: State, colocations: seq<Colocation>, depth: nat): Option<State>
    decreases depth, 0, |colocations|
  {
    if colocations == [] then Some(s)
    else if colocations[0].dependent in s.marked || colocations[0].score <= 0 then Follow(c, s, colocations[1..], depth)
    else if depth == 0 then None
    else match UpdateTargets(c, s, Targets(c, s.has, colocations[0].dependent), depth - 1)
      case None => None
      case Some(s') => Follow(c, s', colocations[1..], depth)
  }

  /** The update a user asks for. One that names the attribute or its set is meant for a single resource. */
  function UpdateAttribute(c: Cluster, s: State, id: string, single: bool, depth: nat): Option<State> {
    var targets := Targets(c, s.has, id);
    UpdateTargets(c, s, if single && targets != [] then [targets[|targets|-1]] else targets, depth)
  }

  // ---- What an update should do ----

  /** A positive colocation asks for `dependent` to be where `id` is. */
  predicate Link(c: Cluster, id: string, dependent: string) {
    exists k :: k in Colocated(c, id) && k.dependent == dependent && k.score > 0
  }

  /** A chain of positive colocations between resources that can all be looked up. */
  ghost predicate Chain(c: Cluster, p: seq<string>) {
    && p != []
    && (forall i :: 0 <= i < |p| ==> p[i] !in c.broken)
    && (forall i :: 0 < i < |p| ==> Link(c, p[i-1], p[i]))
  }

  ghost predicate Reaches(c: Cluster, id: string, x: string) {
    exists p :: Chain(c, p) && p[0] == id && p[|p|-1] == x
  }

  /** Every resource that colocations mention. */
  ghost predicate Covers(c: Cluster, all: set<string>) {
    forall id, k :: id in c.withThis && k in c.withThis[id] ==> k.dependent in all
  }

  /** What may have the attribute while it is being set on resources of `within`. */
  predicate Between(has0: set<string>, within: set<string>, has: set<string>) {
    has0 <= has <= has0 + within
  }

  /** However far the update has come, updating a resource means changing just that one. */
  ghost predicate Stands(c: Cluster, has0: set<string>, within: set<string>, x: string) {
    forall has :: Between(has0, within, has) ==> Targets(c, has, x) == [x]
  }

  /** That holds for the resource to update, and for all that colocations can lead it to. */
  ghost predicate Direct(c: Cluster, has0: set<string>, within: set<string>, id: string) {
    && Stands(c, has0, within, id)
    && forall x, y :: x in within && Link(c, x, y) ==> Stands(c, has0, within, y)
  }

  /** All that is newly marked is followed up, within the marked resources. */
  ghost predicate Closed(c: Cluster, from: set<string>, marked: set<string>) {
    forall x, y :: x in marked && x !in from && Link(c, x, y) && y !in c.broken ==> y in marked
  }

  ghost predicate AllLinked(c: Cluster, colocations: seq<Colocation>, marked: set<string>) {
    forall k :: k in colocations && k.score > 0 && k.dependent !in c.broken ==> k.dependent in marked
  }

  /** Where the colocations lead: within what is covered, to resources that stand for themselves. */
  ghost predicate LeadsOn(c: Cluster, has0: set<string>, colocations: seq<Colocation>, all: set<string>, within: set<string>) {
    forall k :: k in colocations && k.score > 0 ==>
      k.dependent in all && Stands(c, has0, within, k.dependent) && (k.dependent !in c.broken ==> k.dependent in within)
  }

  /** `s'` comes from `s` by changing newly marked resources once each, all within `within`. */
  ghost predicate Grown(c: Cluster, s: State, s': State, within: set<string>) {
    && s.marked <= s'.marked
    && s.changes <= s'.changes
    && (forall x :: x in s'.marked && x !in s.marked ==> x in within)
    && (forall x :: x in s'.changes[|s.changes|..] <==> x in s'.marked && x !in s.marked && x !in c.refused)
    && (forall i, j :: |s.changes| <= i < j < |s'.changes| ==> s'.changes[i] != s'.changes[j])
    && (forall x :: x in s'.has <==> x in s.has || x in s'.changes[|s.changes|..])
  }

  /** A set of resources that contains what its members lead to, which stands for itself. */
  ghost predicate Complete(c: Cluster, has0: set<string>, within: set<string>) {
    forall x, y :: x in within && Link(c, x, y) ==> Stands(c, has0, within, y) && (y !in c.broken ==> y in within)
  }

  lemma GrownTwice(c: Cluster, s: State, s1: State, s2: State, within: set<string>)
    requires Grown(c, s, s1, within) && Grown(c, s1, s2, within)
    ensures Grown(c, s, s2, within)
  {
    var a, b := s1.changes[|s.changes|..], s2.changes[|s1.changes|..];
    assert s1.changes == s.changes + a && s2.changes == s1.changes + b;
    assert s2.changes[|s.changes|..] == a + b;
    forall i, j | |s.changes| <= i < j < |s2.changes|
      ensures s2.changes[i] != s2.changes[j]
    {
      if i < |s1.changes| {
        assert s2.changes[i] == s1.changes[i] == a[i - |s.changes|];
        assert a[i - |s.changes|] in a;
        if j < |s1.changes| {
          assert s2.changes[j] == s1.changes[j];
        } else {
          assert s2.changes[j] == b[j - |s1.changes|];
          assert b[j - |s1.changes|] in b;
        }
      }
    }
  }

  lemma GrownHas(c: Cluster, has0: set<string>, s: State, s': State, within: set<string>)
    requires Grown(c, s, s', within) && Between(has0, within, s.has)
    ensures Between(has0, within, s'.has)
  {
  }

  lemma ChangeGrows(c: Cluster, s: State, id: string, within: set<string>)
    requires id !in s.marked && id in within
    ensures Grown(c, s, Change(c, s, id), within)
  {
    var s' := Change(c, s, id);
    assert s'.changes[|s.changes|..] == if id in c.refused then [] else [id];
  }

  lemma NotGrown(c: Cluster, s: State, within: set<string>)
    ensures Grown(c, s, s, within)
  {
    assert s.changes[|s.changes|..] == [];
  }

  lemma LinkIn(c: Cluster, id: string, y: string, all: set<string>)
    requires Covers(c, all) && Link(c, id, y)
    ensures y in all
  {
  }

  /** Changing one resource and all that depends on it. */
  lemma {:induction false} UpdateReaches(c: Cluster, has0: set<string>, s: State, id: string, depth: nat,
                                         all: set<string>, within: set<string>)
    requires Covers(c, all) && Complete(c, has0, within) && Between(has0, within, s.has)
    requires id in all && id !in s.marked && (id !in c.broken ==> id in within)
    requires depth >= |all - (s.marked + {id})|
    ensures UpdateTargets(c, s, [id], depth).Some?
    ensures var s' := UpdateTargets(c, s, [id], depth).value;
      && Grown(c, s, s', within) && Closed(c, s.marked, s'.marked) && (id !in c.broken ==> id in s'.marked)
    decreases depth, 1, 0
  {
    if id in c.broken {
      NotGrown(c, s, within);
    } else {
      var s1 := Change(c, s, id);
      var ks := Colocated(c, id);
      ChangeGrows(c, s, id, within);
      GrownHas(c, has0, s, s1, within);
      forall k | k in ks && k.score > 0
        ensures k.dependent in all && Stands(c, has0, within, k.dependent) && (k.dependent !in c.broken ==> k.dependent in within)
      {
        assert Link(c, id, k.dependent);
      }
      hide Stands;
      FollowReaches(c, has0, s1, ks, depth, all, within);
      var s2 := Follow(c, s1, ks, depth).value;
      assert [id][1..] == [];
      GrownTwice(c, s, s1, s2, within);
      forall x, y | x in s2.marked && x !in s.marked && Link(c, x, y) && y !in c.broken
        ensures y in s2.marked
      {
        if x == id {
          var k :| k in ks && k.dependent == y && k.score > 0;
        }
      }
    }
  }

  lemma {:induction false} FollowReaches(c: Cluster, has0: set<string>, s: State, ks: seq<Colocation>, depth: nat,
                                         all: set<string>, within: set<string>)
    requires Covers(c, all) && Complete(c, has0, within) && Between(has0, within, s.has)
    requires LeadsOn(c, has0, ks, all, within)
    requires depth >= |all - s.marked|
    ensures Follow(c, s, ks, depth).Some?
    ensures var s' := Follow(c, s, ks, depth).value;
      Grown(c, s, s', within) && Closed(c, s.marked, s'.marked) && AllLinked(c, ks, s'.marked)
    decreases depth, 0, |ks|
  {
    hide Targets, UpdateTargets, Link, Complete;
    if ks == [] {
      NotGrown(c, s, within);
    } else {
      var k, rest := ks[0], ks[1..];
      assert ks == [k] + rest && k in ks;
      assert LeadsOn(c, has0, rest, all, within) by { hide Stands; }
      if k.dependent in s.marked || k.score <= 0 {
        hide Stands, Grown;
        FollowReaches(c, has0, s, rest, depth, all, within);
        var s' := Follow(c, s, rest, depth).value;
        assert s.marked <= s'.marked by { GrownMarks(c, s, s', within); }
        assert AllLinked(c, ks, s'.marked);
      } else {
        Smaller(all, s.marked, k.dependent);
        assert Targets(c, s.has, k.dependent) == [k.dependent];
        hide Stands;
        UpdateReaches(c, has0, s, k.dependent, depth - 1, all, within);
        var s1 := UpdateTargets(c, s, [k.dependent], depth - 1).value;
        Fewer(all, s.marked, s1.marked);
        GrownHas(c, has0, s, s1, within);
        FollowReaches(c, has0, s1, rest, depth, all, within);
        var s2 := Follow(c, s1, rest, depth).value;
        GrownTwice(c, s, s1, s2, within);
        GrownMarks(c, s1, s2, within);
        hide Grown;
        assert AllLinked(c, ks, s2.marked);
        assert Closed(c, s.marked, s2.marked);
      }
    }
  }

  lemma GrownMarks(c: Cluster, s: State, s': State, within: set<string>)
    requires Grown(c, s, s', within)
    ensures s.marked <= s'.marked
  {
  }

  lemma Smaller(all: set<string>, marked: set<string>, id: string)
    requires id in all && id !in marked
    ensures |all - (marked + {id})| == |all - marked| - 1
  {
    assert all - (marked + {id}) == (all - marked) - {id};
  }

  lemma Fewer(all: set<string>, marked: set<string>, marked': set<string>)
    requires marked <= marked'
    ensures |all - marked'| <= |all - marked|
  {
    var more, less := all - marked, all - marked';
    assert less <= more;
    assert more == less + (more - less);
  }

  // ---- Exactly what is reachable ----

  lemma ChainExtends(c: Cluster, id: string, x: string, y: string)
    requires Reaches(c, id, x) && Link(c, x, y) && y !in c.broken
    ensures Reaches(c, id, y)
  {
    var p :| Chain(c, p) && p[0] == id && p[|p|-1] == x;
    var q := p + [y];
    assert Chain(c, q) && q[0] == id && q[|q|-1] == y;
  }

  lemma {:induction false} ChainStays(c: Cluster, p: seq<string>, marked: set<string>)
    requires Chain(c, p) && p[0] in marked && Closed(c, {}, marked)
    ensures p[|p|-1] in marked
  {
    if |p| > 1 {
      var q := p[..|p|-1];
      assert Chain(c, q);
      ChainStays(c, q, marked);
      assert Link(c, p[|p|-2], p[|p|-1]);
    }
  }

  /** The resources of `all` that an update of `id` can get to. */
  ghost function Reached(c: Cluster, all: set<string>, id: string): set<string> {
    set x | x in all && Reaches(c, id, x)
  }

  /** With force, every resource stands for itself, whatever has the attribute. */
  lemma ForceIsDirect(c: Cluster, has0: set<string>, within: set<string>, id: string)
    requires c.force
    ensures Direct(c, has0, within, id)
  {
  }

  /** The update ends, and changes exactly the resources reachable by positive colocations, each of them once
      (other than those whose change is refused). */
  lemma UpdatesTheReachable(c: Cluster, has0: set<string>, id: string, single: bool, all: set<string>, depth: nat)
    requires Covers(c, all) && id in all && depth >= |all| && Direct(c, has0, Reached(c, all, id), id)
    ensures UpdateAttribute(c, State({}, [], has0), id, single, depth).Some?
    ensures var s := UpdateAttribute(c, State({}, [], has0), id, single, depth).value;
      && (forall x :: x in s.marked <==> Reaches(c, id, x))
      && (forall x :: x in s.changes <==> Reaches(c, id, x) && x !in c.refused)
      && (forall i, j :: 0 <= i < j < |s.changes| ==> s.changes[i] != s.changes[j])
      && (forall x :: x in s.has <==> x in has0 || x in s.changes)
  {
    var s0 := State({}, [], has0);
    var within := Reached(c, all, id);
    assert Between(has0, within, has0);
    assert Targets(c, has0, id) == [id];
    hide Stands;
    forall x, y | x in within && Link(c, x, y)
      ensures Stands(c, has0, within, y) && (y !in c.broken ==> y in within)
    {
      LinkIn(c, x, y, all);
      if y !in c.broken { ChainExtends(c, id, x, y); }
    }
    if id !in c.broken {
      assert Chain(c, [id]) && [id][0] == id;
      assert Reaches(c, id, id);
    }
    Fewer(all, {}, {id});
    assert all - {} == all && {} + {id} == {id};
    UpdateReaches(c, has0, s0, id, depth, all, within);
    var s := UpdateTargets(c, s0, [id], depth).value;
    assert s.changes[0..] == s.changes;
    forall x
      ensures x in s.marked <==> Reaches(c, id, x)
    {
      if Reaches(c, id, x) {
        var p :| Chain(c, p) && p[0] == id && p[|p|-1] == x;
        ChainStays(c, p, s.marked);
      }
    }
  }

  /** The same for an update with force, which needs no further condition. */
  lemma ForceUpdatesTheReachable(c: Cluster, has0: set<string>, id: string, single: bool, all: set<string>, depth: nat)
    requires c.force && Covers(c, all) && id in all && depth >= |all|
    ensures UpdateAttribute(c, State({}, [], has0), id, single, depth).Some?
    ensures var s := UpdateAttribute(c, State({}, [], has0), id, single, depth).value;
      && (forall x :: x in s.marked <==> Reaches(c, id, x))
      && (forall x :: x in s.changes <==> Reaches(c, id, x) && x !in c.refused)
      && (forall i, j :: 0 <= i < j < |s.changes| ==> s.changes[i] != s.changes[j])
  {
    ForceIsDirect(c, has0, Reached(c, all, id), id);
    hide Direct;
    UpdatesTheReachable(c, has0, id, single, all, depth);
  }

  /** The search for resources with the attribute puts the one it starts from last. */
  lemma RootIsLast(c: Cluster, has: set<string>, id: string)
    requires id in c.resources && c.resources[id].id == id && id !in c.cloneOf && !c.resources[id].kind.Clone?
    ensures var targets := Targets(c, has, id); targets != [] && targets[|targets|-1] == id
  {
  }

  // ---- Clones ----

  /** The resource that is changed for another. */
  ghost predicate ChangesFirst(c: Cluster, has: set<string>, id: string, single: bool, first: string) {
    forall depth: nat ::
      var r := UpdateAttribute(c, State({}, [], has), id, single, depth);
      r.Some? && first !in c.broken && first !in c.refused ==> r.value.changes != [] && r.value.changes[0] == first
  }

  lemma FirstTarget(c: Cluster, has: set<string>, id: string, single: bool, first: string)
    requires var targets := Targets(c, has, id); targets == [first] || (single && targets != [] && targets[|targets|-1] == first)
    ensures ChangesFirst(c, has, id, single, first)
  {
    forall depth: nat
      ensures var r := UpdateAttribute(c, State({}, [], has), id, single, depth);
        r.Some? && first !in c.broken && first !in c.refused ==> r.value.changes != [] && r.value.changes[0] == first
    {
      if first !in c.broken && first !in c.refused {
        var s1 := Change(c, State({}, [], has), first);
        assert s1.changes == [first];
        FollowKeepsFirst(c, s1, Colocated(c, first), depth);
        var r := Follow(c, s1, Colocated(c, first), depth);
        assert [first][1..] == [] && [first][|[first]|-1] == first;
        assert r.Some? ==> UpdateTargets(c, r.value, [], depth) == r;
        assert UpdateTargets(c, State({}, [], has), [first], depth) == r;
      }
    }
  }

  lemma {:induction false} FollowKeepsFirst(c: Cluster, s: State, ks: seq<Colocation>, depth: nat)
    requires s.changes != []
    ensures var r := Follow(c, s, ks, depth); r.Some? ==> r.value.changes != [] && r.value.changes[0] == s.changes[0]
    decreases depth, 0, |ks|
  {
    hide Targets;
    if ks != [] {
      if ks[0].dependent in s.marked || ks[0].score <= 0 {
        FollowKeepsFirst(c, s, ks[1..], depth);
      } else if depth > 0 {
        var targets := Targets(c, s.has, ks[0].dependent);
        TargetsKeepFirst(c, s, targets, depth - 1);
        var r := UpdateTargets(c, s, targets, depth - 1);
        if r.Some? { FollowKeepsFirst(c, r.value, ks[1..], depth); }
      }
    }
  }

  lemma {:induction false} TargetsKeepFirst(c: Cluster, s: State, targets: seq<string>, depth: nat)
    requires s.changes != []
    ensures var r := UpdateTargets(c, s, targets, depth); r.Some? ==> r.value.changes != [] && r.value.changes[0] == s.changes[0]
    decreases depth, 1, |targets|
  {
    if targets != [] && targets[0] !in c.broken {
      var s1 := Change(c, s, targets[0]);
      FollowKeepsFirst(c, s1, Colocated(c, targets[0]), depth);
      var r := Follow(c, s1, Colocated(c, targets[0]), depth);
      if r.Some? { TargetsKeepFirst(c, r.value, targets[1..], depth); }
    }
  }

  /** An instance of a clone has its attribute changed if it has one; otherwise the clone has. With force, it is the
      instance in any case. */
  lemma InstanceOrClone(c: Cluster, has: set<string>, id: string, single: bool)
    requires id in c.resources && id in c.cloneOf
    ensures ChangesFirst(c, has, id, single, if c.force || id in has then id else c.cloneOf[id])
  {
    hide ChangesFirst;
    FirstTarget(c, has, id, single, if c.force || id in has then id else c.cloneOf[id]);
  }

  /** A clone has the attribute changed on its child, if that is a primitive that has it, and otherwise on itself. With
      force, it is the clone in any case. */
  lemma CloneOrChild(c: Cluster, has: set<string>, id: string, single: bool)
    requires id in c.resources && id !in c.cloneOf && c.resources[id].kind.Clone? && c.resources[id].children != []
    ensures var child := c.resources[id].children[0];
      ChangesFirst(c, has, id, single, if !c.force && child.kind.Primitive? && child.id in has then child.id else id)
  {
    hide ChangesFirst;
    var child := c.resources[id].children[0];
    FirstTarget(c, has, id, single, if !c.force && child.kind.Primitive? && child.id in has then child.id else id);
  }

  /** An update meant for a single resource changes the one named, even if that has children with the attribute. */
  lemma SingleIsTheOneNamed(c: Cluster, has: set<string>, id: string)
    requires id in c.resources && c.resources[id].id == id && id !in c.cloneOf && !c.resources[id].kind.Clone?
    ensures ChangesFirst(c, has, id, true, id)
  {
    hide ChangesFirst;
    RootIsLast(c, has, id);
    FirstTarget(c, has, id, true, id);
  }

  /** Resources are changed in place, one after the other. */
  class Updater {
    const c: Cluster
    var marked: set<string>
    var changes: seq<string>
    var has: set<string>

    function Now(): State
      reads this
    {
      State(marked, changes, has)
    }

    constructor (c: Cluster, has: set<string>)
      ensures this.c == c && Now() == State({}, [], has)
    {
      this.c, this.has, marked, changes := c, has, {}, [];
    }

    /** The recursion on a resource, with or without force, whenever it ends at all, however deep it nests. */
    method Update(id: string, single: bool, ghost depth: nat)
      requires UpdateAttribute(c, Now(), id, single, depth).Some?
      modifies this
      ensures UpdateAttribute(c, old(Now()), id, single, depth) == Some(Now())
      decreases depth, 1
    {
      hide Targets, Colocated, Follow, Change;
      var targets := Targets(c, has, id);
      if single && targets != [] { targets := [targets[|targets|-1]]; }
      var i := 0;
      while i < |targets|
        invariant 0 <= i <= |targets|
        invariant UpdateTargets(c, old(Now()), targets, depth) == UpdateTargets(c, Now(), targets[i..], depth)
      {
        assert targets[i..][1..] == targets[i+1..];
        if targets[i] in c.broken { return; }
        FollowAll(targets[i], depth);
        i := i + 1;
      }
    }

    /** Change one target and follow its colocations. */
    method FollowAll(target: string, ghost depth: nat)
      requires Follow(c, Change(c, Now(), target), Colocated(c, target), depth).Some?
      modifies this
      ensures Follow(c, Change(c, old(Now()), target), Colocated(c, target), depth) == Some(Now())
      decreases depth, 0
    {
      if target !in c.refused {
        changes := changes + [target];
        has := has + {target};
      }
      marked := marked + {target};
      ghost var s := Now();
      assert s == Change(c, old(Now()), target);
      hide Targets, Colocated, Change, UpdateTargets;
      var ks := Colocated(c, target);
      var j := 0;
      while j < |ks|
        invariant 0 <= j <= |ks|
        invariant Follow(c, s, ks, depth) == Follow(c, Now(), ks[j..], depth)
        decreases |ks| - j
      {
        var k := ks[j];
        assert ks[j..][1..] == ks[j+1..];
        j := j + 1;
        if k.dependent !in marked && k.score > 0 {
          Update(k.dependent, false, depth - 1);
        }
      }
    }
  }
}
