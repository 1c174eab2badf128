/** When a recursive update without force changes each resource once: exactly if it comes to no group after one of the
    group's members. */
module AttributeOrder {
  import opened Common
  import opened ResourceAttributes
  import opened AttributeLoops

  /** The members of a group, however deep. */
  function Members(c: Cluster, id: string): set<string> {
    if id in c.resources then FamilyOf(c.resources[id].children) else {}
  }

  /** No group is changed after one of its members. */
  predicate GroupsFirst(c: Cluster, changes: seq<string>) {
    forall i, j :: 0 <= i < j < |changes| ==> changes[i] !in Members(c, changes[j])
  }

  predicate Repeats(changes: seq<string>) {
    exists i, j :: 0 <= i < j < |changes| && changes[i] == changes[j]
  }

  /** The update does not end, or changes a resource more than once. */
  predicate GoesWrong(r: Option<State>) {
    r.None? || Repeats(r.value.changes)
  }

  /** The same update with force, under which every resource stands for itself. */
  function Forced(c: Cluster): Cluster {
    c.(force := true)
  }

  /** No member of a group has the attribute to begin with, and every change is accepted. */
  predicate Fresh(c: Cluster, has0: set<string>, all: set<string>) {
    !c.force && c.refused !! all && forall id :: id in all ==> Members(c, id) !! has0
  }

  /** What has been changed is marked, and has the attribute. */
  ghost predicate Tied(s: State, has0: set<string>) {
    s.marked == (set x | x in s.changes) && s.has == has0 + s.marked
  }

  // ---- What stands for a resource ----

  lemma PlainTargetsAre(c: Cluster, all: set<string>, has: set<string>, id: string)
    requires Plain(c, all) && id in all && !c.force
    ensures id in c.resources ==> NoClones(c.resources[id].children)
    ensures Targets(c, has, id) == if id in c.resources then ChildrenWithAttr(has, c.resources[id].children) + [id] else [id]
  {
    hide ChildrenWithAttr, FamilyOf;
  }

  /** If no member of it has the attribute, a resource stands for itself; otherwise such a member comes first. */
  lemma StandsUnlessMember(c: Cluster, all: set<string>, has: set<string>, id: string)
    requires Plain(c, all) && id in all && !c.force
    ensures Members(c, id) !! has ==> Targets(c, has, id) == [id]
    ensures !(Members(c, id) !! has) ==>
      Targets(c, has, id) != [] && Targets(c, has, id)[0] in Members(c, id) && Targets(c, has, id)[0] in has
  {
    hide Targets, ChildrenWithAttr, FamilyOf, Plain;
    PlainTargetsAre(c, all, has, id);
    if id in c.resources {
      var children := c.resources[id].children;
      var members := ChildrenWithAttr(has, children);
      forall x ensures x in members <==> x in FamilyOf(children) && x in has {
        MembersWithAttr(has, children, x);
      }
      assert Members(c, id) !! has <==> forall x :: x !in members;
      if members == [] {
        assert [] + [id] == [id];
      } else {
        assert members[0] in members && (members + [id])[0] == members[0];
      }
    }
  }

  // ---- Changes are never taken back ----

  ghost predicate Grows(s: State, r: Option<State>) {
    r.Some? ==> s.changes <= r.value.changes
  }

  lemma {:induction false} UpdateGrows(c: Cluster, s: State, targets: seq<string>, depth: nat)
    ensures Grows(s, UpdateTargets(c, s, targets, depth))
    decreases depth, 1, |targets|
  {
    if targets != [] && targets[0] !in c.broken {
      var s1 := Change(c, s, targets[0]);
      FollowGrows(c, s1, Colocated(c, targets[0]), depth);
      var r := Follow(c, s1, Colocated(c, targets[0]), depth);
      if r.Some? { UpdateGrows(c, r.value, targets[1..], depth); }
    }
  }

  lemma {:induction false} FollowGrows(c: Cluster, s: State, ks: seq<Colocation>, depth: nat)
    ensures Grows(s, Follow(c, s, ks, depth))
    decreases depth, 0, |ks|
  {
    if ks != [] {
      if ks[0].dependent in s.marked || ks[0].score <= 0 {
        FollowGrows(c, s, ks[1..], depth);
      } else if depth > 0 {
        hide Targets;
        var r := UpdateTargets(c, s, Targets(c, s.has, ks[0].dependent), depth - 1);
        UpdateGrows(c, s, Targets(c, s.has, ks[0].dependent), depth - 1);
        if r.Some? { FollowGrows(c, r.value, ks[1..], depth); }
      }
    }
  }

  lemma StillRepeats(changes: seq<string>, changes': seq<string>)
    requires Repeats(changes) && changes <= changes'
    ensures Repeats(changes')
  {
    var i, j :| 0 <= i < j < |changes| && changes[i] == changes[j];
    assert changes'[i] == changes'[j];
  }

  lemma RepeatsNow(changes: seq<string>, x: string)
    requires x in changes
    ensures Repeats(changes + [x])
  {
    var i :| 0 <= i < |changes| && changes[i] == x;
    assert (changes + [x])[i] == (changes + [x])[|changes|];
  }

  lemma StillFirst(c: Cluster, changes: seq<string>, changes': seq<string>)
    requires GroupsFirst(c, changes') && changes <= changes'
    ensures GroupsFirst(c, changes)
  {
    hide Members;
    assert forall i :: 0 <= i < |changes| ==> changes[i] == changes'[i];
  }

  lemma FirstWith(c: Cluster, changes: seq<string>, x: string)
    requires GroupsFirst(c, changes)
    ensures GroupsFirst(c, changes + [x]) <==> forall y :: y in changes ==> y !in Members(c, x)
  {
    hide Members;
    var changes' := changes + [x];
    if y :| y in changes && y in Members(c, x) {
      var i :| 0 <= i < |changes| && changes[i] == y;
      assert changes'[i] in Members(c, changes'[|changes|]);
    } else {
      assert forall i :: 0 <= i < |changes| ==> changes'[i] in changes;
    }
  }

  // ---- With and without force ----

  lemma ChangeTied(c: Cluster, s: State, has0: set<string>, x: string)
    requires Tied(s, has0) && x !in c.refused
    ensures Tied(Change(c, s, x), has0) && Change(c, s, x).changes == s.changes + [x]
  {
  }

  /** A single target is changed and its colocations are followed. */
  lemma OneTarget(c: Cluster, s: State, x: string, depth: nat)
    requires x !in c.broken
    ensures UpdateTargets(c, s, [x], depth) == Follow(c, Change(c, s, x), Colocated(c, x), depth)
  {
    hide Follow, Change, Colocated;
    assert [x][1..] == [];
  }

  /** Up to the first group that comes after a member of its own, both do the same; and then the update without force
      changes that member again. */
  ghost predicate InStep(c: Cluster, s': State, r: Option<State>) {
    if GroupsFirst(c, s'.changes) then r == Some(s') else GoesWrong(r)
  }

  lemma EnterGroup(c: Cluster, all: set<string>, has0: set<string>, s: State, y: string, depth: nat)
    requires Plain(c, all) && Fresh(c, has0, all) && Tied(s, has0) && y in all && y !in s.marked
    requires GroupsFirst(c, s.changes)
    ensures GroupsFirst(c, s.changes + [y]) ==> Targets(c, s.has, y) == [y]
    ensures !GroupsFirst(c, s.changes + [y]) ==> GoesWrong(UpdateTargets(c, s, Targets(c, s.has, y), depth))
  {
    hide Targets, Follow, Members, Plain, GroupsFirst, Repeats;
    StandsUnlessMember(c, all, s.has, y);
    FirstWith(c, s.changes, y);
    if !GroupsFirst(c, s.changes + [y]) {
      var targets := Targets(c, s.has, y);
      var m := targets[0];
      assert m in s.changes;
      MemberIsFine(c, all, y, m);
      RepeatsNow(s.changes, m);
      var s1 := Change(c, s, m);
      assert s1.changes == s.changes + [m];
      UpdateGrows(c, s, targets, depth);
      FollowGrows(c, s1, Colocated(c, m), depth);
      var r := Follow(c, s1, Colocated(c, m), depth);
      if r.Some? {
        StillRepeats(s1.changes, r.value.changes);
        UpdateGrows(c, r.value, targets[1..], depth);
        var r' := UpdateTargets(c, r.value, targets[1..], depth);
        if r'.Some? { StillRepeats(r.value.changes, r'.value.changes); }
      }
    }
  }

  lemma MemberIsFine(c: Cluster, all: set<string>, id: string, m: string)
    requires Plain(c, all) && id in all && m in Members(c, id) && c.refused !! all
    ensures m in all && m !in c.broken && m !in c.refused
  {
    hide FamilyOf;
  }

  lemma GoesOnWrong(r: Option<State>, rest: Option<State>)
    requires GoesWrong(r) && (r.None? ==> rest.None?) && (r.Some? ==> Grows(r.value, rest))
    ensures GoesWrong(rest)
  {
    hide Repeats;
    if r.Some? && rest.Some? && Repeats(r.value.changes) { StillRepeats(r.value.changes, rest.value.changes); }
  }

  /** With force, what has been changed stays tied to what is marked. */
  lemma {:induction false} ForcedTied(c: Cluster, all: set<string>, has0: set<string>, s: State, ks: seq<Colocation>, depth: nat)
    requires c.force && Covers(c, all) && c.refused !! all && Tied(s, has0) && forall k :: k in ks ==> k.dependent in all
    ensures Follow(c, s, ks, depth).Some? ==> Tied(Follow(c, s, ks, depth).value, has0)
    decreases depth, |ks|
  {
    hide Covers, Tied, Change;
    if ks != [] {
      var y := ks[0].dependent;
      assert ks[0] in ks && forall k :: k in ks[1..] ==> k in ks;
      if y in s.marked || ks[0].score <= 0 {
        ForcedTied(c, all, has0, s, ks[1..], depth);
      } else if depth > 0 {
        assert Targets(c, s.has, y) == [y];
        var r := UpdateTargets(c, s, [y], depth - 1);
        if y !in c.broken {
          OneTarget(c, s, y, depth - 1);
          ChangeTied(c, s, has0, y);
          LeadIntoAll(c, all, y);
          ForcedTied(c, all, has0, Change(c, s, y), Colocated(c, y), depth - 1);
        }
        if r.Some? { ForcedTied(c, all, has0, r.value, ks[1..], depth); }
      }
    }
  }

  lemma LeadIntoAll(c: Cluster, all: set<string>, id: string)
    requires Covers(c, all)
    ensures forall k :: k in Colocated(c, id) ==> k.dependent in all
  {
  }

  lemma {:induction false} FollowInStep(c: Cluster, all: set<string>, has0: set<string>, s: State, ks: seq<Colocation>, depth: nat)
    requires Plain(c, all) && Covers(c, all) && Fresh(c, has0, all) && Tied(s, has0) && GroupsFirst(c, s.changes)
    requires (forall k :: k in ks ==> k.dependent in all) && Follow(Forced(c), s, ks, depth).Some?
    ensures InStep(c, Follow(Forced(c), s, ks, depth).value, Follow(c, s, ks, depth))
    decreases depth, 0, |ks|
  {
    hide Targets, Plain, Covers, Tied, GroupsFirst, GoesWrong, Members, Fresh, UpdateTargets;
    if ks != [] {
      var y := ks[0].dependent;
      assert ks[0] in ks && forall k :: k in ks[1..] ==> k in ks;
      if y in s.marked || ks[0].score <= 0 {
        FollowInStep(c, all, has0, s, ks[1..], depth);
      } else {
        ForcedTargets(c, s.has, y);
        VisitInStep(c, all, has0, s, y, depth - 1);
        var s1 := UpdateTargets(Forced(c), s, [y], depth - 1).value;
        var r := UpdateTargets(c, s, Targets(c, s.has, y), depth - 1);
        if GroupsFirst(c, s1.changes) {
          FollowInStep(c, all, has0, s1, ks[1..], depth);
        } else {
          FollowGrows(Forced(c), s1, ks[1..], depth);
          var s' := Follow(Forced(c), s1, ks[1..], depth).value;
          if GroupsFirst(c, s'.changes) { StillFirst(c, s1.changes, s'.changes); }
          if r.Some? { FollowGrows(c, r.value, ks[1..], depth); }
          GoesOnWrong(r, Follow(c, s, ks, depth));
        }
      }
    }
  }

  lemma ForcedTargets(c: Cluster, has: set<string>, id: string)
    ensures Targets(Forced(c), has, id) == [id] && Colocated(Forced(c), id) == Colocated(c, id)
    ensures forall s :: Change(Forced(c), s, id) == Change(c, s, id)
  {
  }

  /** One resource that is not marked yet, and all that follows from it. */
  lemma {:induction false} VisitInStep(c: Cluster, all: set<string>, has0: set<string>, s: State, y: string, depth: nat)
    requires Plain(c, all) && Covers(c, all) && Fresh(c, has0, all) && Tied(s, has0) && GroupsFirst(c, s.changes)
    requires y in all && y !in s.marked && UpdateTargets(Forced(c), s, [y], depth).Some?
    ensures var s1 := UpdateTargets(Forced(c), s, [y], depth).value;
      Tied(s1, has0) && InStep(c, s1, UpdateTargets(c, s, Targets(c, s.has, y), depth))
    decreases depth, 1, 0
  {
    InAllIsFine(c, all, has0, y);
    hide Targets, Plain, Tied, GroupsFirst, GoesWrong, Members, Fresh, UpdateTargets, Follow, Covers, Change;
    ForcedTargets(c, s.has, y);
    var s0 := Change(c, s, y);
    ChangeTied(c, s, has0, y);
    OneTarget(Forced(c), s, y, depth);
    LeadIntoAll(c, all, y);
    CoversForced(c, all);
    ForcedTied(Forced(c), all, has0, s0, Colocated(c, y), depth);
    EnterGroup(c, all, has0, s, y, depth);
    if GroupsFirst(c, s0.changes) {
      OneTarget(c, s, y, depth);
      FollowInStep(c, all, has0, s0, Colocated(c, y), depth);
    } else {
      FollowGrows(Forced(c), s0, Colocated(c, y), depth);
      var s1 := UpdateTargets(Forced(c), s, [y], depth).value;
      if GroupsFirst(c, s1.changes) { StillFirst(c, s0.changes, s1.changes); }
    }
  }

  lemma InAllIsFine(c: Cluster, all: set<string>, has0: set<string>, y: string)
    requires Plain(c, all) && Fresh(c, has0, all) && y in all
    ensures y !in c.broken && y !in c.refused && Forced(c).broken == c.broken && Forced(c).refused == c.refused
    ensures c.refused !! all
  {
  }

  lemma CoversForced(c: Cluster, all: set<string>)
    requires Covers(c, all)
    ensures Covers(Forced(c), all)
  {
  }

  /** For groups and primitives no member of which has the attribute yet: an update without force ends and changes each
      resource once if and only if, in the order in which an update with force changes them, no group comes after one
      of its members. Then it does the same as with force. */
  lemma ChangedOnceIff(c: Cluster, has0: set<string>, all: set<string>, id: string, depth: nat)
    requires Plain(c, all) && Covers(c, all) && Fresh(c, has0, all) && id in all && depth >= |all|
    ensures UpdateAttribute(Forced(c), State({}, [], has0), id, false, depth).Some?
    ensures var s := UpdateAttribute(Forced(c), State({}, [], has0), id, false, depth).value;
      var r := UpdateAttribute(c, State({}, [], has0), id, false, depth);
      && (r.Some? && !Repeats(r.value.changes) <==> GroupsFirst(c, s.changes))
      && (GroupsFirst(c, s.changes) ==> r == Some(s))
  {
    hide Targets, Plain, Members, Fresh, UpdateTargets, Covers, Reaches;
    CoversForced(c, all);
    ForceUpdatesTheReachable(Forced(c), has0, id, false, all, depth);
    ForcedTargets(c, has0, id);
    var s0 := State({}, [], has0);
    assert Tied(s0, has0);
    VisitInStep(c, all, has0, s0, id, depth);
  }
}
