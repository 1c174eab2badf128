/** When a recursive attribute update ends: exactly if no resource leads back to itself before it is marked. */
module AttributeLoops {
  import opened Common
  import opened ResourceAttributes

  /** A dependent that is updated on behalf of `id` before `id` itself is marked. */
  ghost predicate LateAt(c: Cluster, targets: seq<string>, id: string, d: string, i: nat) {
    && i < |targets| && Link(c, targets[i], d) && id !in targets[..i+1]
    && forall j :: 0 <= j <= i ==> targets[j] !in c.broken
  }

  ghost predicate Late(c: Cluster, has: set<string>, id: string, d: string) {
    exists i :: LateAt(c, Targets(c, has, id), id, d, i)
  }

  /** However far an update has come, there is no cycle of late dependents: they can be ranked. */
  ghost predicate Ranked(c: Cluster, has0: set<string>, all: set<string>, rank: string -> nat, top: nat) {
    && (forall id :: rank(id) <= top)
    && (forall has, id, d :: Between(has0, all, has) && id in all && Late(c, has, id, d) ==> rank(d) < rank(id))
  }

  ghost predicate TargetsIn(c: Cluster, has0: set<string>, all: set<string>) {
    forall has, id, x :: Between(has0, all, has) && id in all && x in Targets(c, has, id) ==> x in all
  }

  // ---- Without a late cycle an update ends ----

  /** How deep an update of `id` can nest. */
  function Bound(all: set<string>, marked: set<string>, rank: nat, top: nat): nat {
    |all - marked| * (top + 1) + rank
  }

  lemma {:induction false} Spaced(m: nat, m': nat, step: nat)
    requires m' < m
    ensures m' * step + step <= m * step
  {
    if m' + 1 < m {
      Spaced(m - 1, m', step);
    }
    assert m * step == (m - 1) * step + step;
  }

  lemma LessBound(m: nat, m': nat, rank: nat, rank': nat, top: nat)
    requires m' <= m && rank' <= top && (m' < m || rank' < rank)
    ensures m' * (top + 1) + rank' < m * (top + 1) + rank
  {
    if m' < m {
      Spaced(m, m', top + 1);
    }
  }

  lemma Mentioned(c: Cluster, id: string, k: Colocation, all: set<string>)
    requires Covers(c, all) && k in Colocated(c, id)
    ensures k.dependent in all
  {
  }

  lemma ChangeHas(c: Cluster, has0: set<string>, all: set<string>, s: State, id: string)
    requires Between(has0, all, s.has) && id in all
    ensures Between(has0, all, Change(c, s, id).has)
  {
  }

  /** A nested update either has more resources marked before it, or is of a late dependent. */
  lemma Deeper(c: Cluster, has0: set<string>, all: set<string>, rank: string -> nat, top: nat,
               s0: State, id: string, i: nat, marked: set<string>, d: string)
    requires TargetsIn(c, has0, all) && Ranked(c, has0, all, rank, top) && Between(has0, all, s0.has)
    requires id in all && id !in s0.marked && i < |Targets(c, s0.has, id)|
    requires s0.marked <= marked
    requires forall l :: 0 <= l <= i ==> Targets(c, s0.has, id)[l] in marked && Targets(c, s0.has, id)[l] !in c.broken
    requires exists k :: k in Colocated(c, Targets(c, s0.has, id)[i]) && k.dependent == d && k.score > 0
    ensures Bound(all, marked, rank(d), top) < Bound(all, s0.marked, rank(id), top)
  {
    var targets := Targets(c, s0.has, id);
    Fewer(all, s0.marked, marked);
    if x :| x in targets[..i+1] && x !in s0.marked {
      assert x in targets;
      Smaller(all, s0.marked, x);
      Fewer(all, s0.marked + {x}, marked);
    } else {
      assert LateAt(c, targets, id, d, i);
      assert Late(c, s0.has, id, d);
    }
    LessBound(|all - s0.marked|, |all - marked|, rank(id), rank(d), top);
  }

  ghost predicate Past(c: Cluster, targets: seq<string>, i: nat, marked: set<string>) {
    i <= |targets| && forall j :: 0 <= j < i ==> targets[j] in marked && targets[j] !in c.broken
  }

  lemma {:induction false} UpdateEnds(c: Cluster, has0: set<string>, all: set<string>, rank: string -> nat, top: nat,
                                      s0: State, id: string, s: State, i: nat, depth: nat)
    requires Covers(c, all) && TargetsIn(c, has0, all) && Ranked(c, has0, all, rank, top)
    requires Between(has0, all, s0.has) && Between(has0, all, s.has)
    requires id in all && id !in s0.marked && s0.marked <= s.marked && Past(c, Targets(c, s0.has, id), i, s.marked)
    requires depth >= Bound(all, s0.marked, rank(id), top)
    ensures UpdateTargets(c, s, Targets(c, s0.has, id)[i..], depth).Some?
    ensures var s' := UpdateTargets(c, s, Targets(c, s0.has, id)[i..], depth).value;
      s.marked <= s'.marked && Between(has0, all, s'.has)
    decreases depth, 1, |Targets(c, s0.has, id)| - i
  {
    var targets := Targets(c, s0.has, id);
    if i < |targets| && targets[i] !in c.broken {
      var s1 := Change(c, s, targets[i]);
      assert targets[i] in targets;
      ChangeHas(c, has0, all, s, targets[i]);
      hide Between, Targets, Bound, Ranked;
      FollowEnds(c, has0, all, rank, top, s0, id, i, s1, 0, depth);
      var ks := Colocated(c, targets[i]);
      assert ks[0..] == ks;
      var s2 := Follow(c, s1, ks, depth).value;
      assert targets[i..][1..] == targets[i+1..];
      UpdateEnds(c, has0, all, rank, top, s0, id, s2, i + 1, depth);
    }
  }

  lemma {:induction false} FollowEnds(c: Cluster, has0: set<string>, all: set<string>, rank: string -> nat, top: nat,
                                      s0: State, id: string, i: nat, s: State, j: nat, depth: nat)
    requires Covers(c, all) && TargetsIn(c, has0, all) && Ranked(c, has0, all, rank, top)
    requires Between(has0, all, s0.has) && Between(has0, all, s.has)
    requires id in all && id !in s0.marked && s0.marked <= s.marked
    requires i < |Targets(c, s0.has, id)| && Past(c, Targets(c, s0.has, id), i + 1, s.marked)
    requires j <= |Colocated(c, Targets(c, s0.has, id)[i])|
    requires depth >= Bound(all, s0.marked, rank(id), top)
    ensures Follow(c, s, Colocated(c, Targets(c, s0.has, id)[i])[j..], depth).Some?
    ensures var s' := Follow(c, s, Colocated(c, Targets(c, s0.has, id)[i])[j..], depth).value;
      s.marked <= s'.marked && Between(has0, all, s'.has)
    decreases depth, 0, |Colocated(c, Targets(c, s0.has, id)[i])| - j
  {
    hide Targets, Colocated, Bound, Ranked, TargetsIn, UpdateTargets, Between;
    var ks := Colocated(c, Targets(c, s0.has, id)[i]);
    if j < |ks| {
      var k := ks[j];
      assert ks[j..][1..] == ks[j+1..];
      assert k in ks;
      assert k.dependent in all by { Mentioned(c, Targets(c, s0.has, id)[i], k, all); }
      if k.dependent in s.marked || k.score <= 0 {
        FollowEnds(c, has0, all, rank, top, s0, id, i, s, j + 1, depth);
      } else {
        Deeper(c, has0, all, rank, top, s0, id, i, s.marked, k.dependent);
        UpdateEnds(c, has0, all, rank, top, s, k.dependent, s, 0, depth - 1);
        assert Targets(c, s.has, k.dependent)[0..] == Targets(c, s.has, k.dependent);
        var s1 := UpdateTargets(c, s, Targets(c, s.has, k.dependent), depth - 1).value;
        FollowEnds(c, has0, all, rank, top, s0, id, i, s1, j + 1, depth);
      }
    }
  }

  /** Updating the resource, with the attribute set on some resources and nothing marked, comes to an end. */
  ghost predicate Ends(c: Cluster, has: set<string>, id: string) {
    exists depth :: UpdateAttribute(c, State({}, [], has), id, false, depth).Some?
  }

  /** Whether or not with force, updating a resource ends if no late cycle can arise on the way. */
  lemma UpdateTerminates(c: Cluster, has0: set<string>, all: set<string>, rank: string -> nat, top: nat, id: string)
    requires Covers(c, all) && TargetsIn(c, has0, all) && Ranked(c, has0, all, rank, top) && id in all
    ensures Ends(c, has0, id)
  {
    var depth := Bound(all, {}, rank(id), top);
    var s0 := State({}, [], has0);
    UpdateEnds(c, has0, all, rank, top, s0, id, s0, 0, depth);
    assert Targets(c, has0, id)[0..] == Targets(c, has0, id);
    assert UpdateAttribute(c, s0, id, false, depth).Some?;
  }

  /** With force there are no late dependents. */
  lemma ForceIsRanked(c: Cluster, has0: set<string>, all: set<string>)
    requires c.force
    ensures Ranked(c, has0, all, _ => 0, 0)
  {
    assert forall id: string :: [id][..1] == [id];
  }

  // ---- With a late cycle it does not ----

  ghost predicate LeadsInto(c: Cluster, has: set<string>, id: string, loop: set<string>) {
    exists d :: d in loop && Late(c, has, id, d)
  }

  ghost predicate OwnTarget(c: Cluster, has: set<string>, id: string, all: set<string>) {
    forall x :: x in all && id in Targets(c, has, x) ==> x == id
  }

  ghost predicate OnLoop(c: Cluster, has: set<string>, all: set<string>, loop: set<string>, id: string) {
    LeadsInto(c, has, id, loop) && OwnTarget(c, has, id, all)
  }

  /** Resources that lead to each other before they are marked, and that no other resource stands for, however
      far the update has come. */
  ghost predicate LateLoop(c: Cluster, has0: set<string>, all: set<string>, loop: set<string>) {
    && loop <= all && loop != {}
    && forall has, id {:trigger OnLoop(c, has, all, loop, id)} ::
         Between(has0, all, has) && id in loop ==> OnLoop(c, has, all, loop, id)
  }

  /** Either the update is endless, or it has not marked any resource of the loop. */
  ghost predicate StaysOut(has0: set<string>, all: set<string>, loop: set<string>, r: Option<State>) {
    r.Some? ==> r.value.marked !! loop && Between(has0, all, r.value.has)
  }

  /** Changing resources outside the loop. */
  lemma {:induction false} OutsideStays(c: Cluster, has0: set<string>, all: set<string>, loop: set<string>,
                                        s: State, targets: seq<string>, depth: nat)
    requires Covers(c, all) && TargetsIn(c, has0, all) && LateLoop(c, has0, all, loop)
    requires s.marked !! loop && Between(has0, all, s.has)
    requires forall x :: x in targets ==> x in all && x !in loop
    ensures StaysOut(has0, all, loop, UpdateTargets(c, s, targets, depth))
    decreases depth, 1, |targets|
  {
    if targets != [] && targets[0] !in c.broken {
      var s1 := Change(c, s, targets[0]);
      assert targets[0] in targets;
      ChangeHas(c, has0, all, s, targets[0]);
      hide Between, Targets, TargetsIn;
      FollowStays(c, has0, all, loop, s1, targets[0], 0, depth);
      var ks := Colocated(c, targets[0]);
      assert ks[0..] == ks;
      var r := Follow(c, s1, ks, depth);
      if r.Some? {
        OutsideStays(c, has0, all, loop, r.value, targets[1..], depth);
      }
    }
  }

  /** Following a resource's colocations; those that lead into the loop make it endless. */
  lemma {:induction false} FollowStays(c: Cluster, has0: set<string>, all: set<string>, loop: set<string>,
                                       s: State, x: string, j: nat, depth: nat)
    requires Covers(c, all) && TargetsIn(c, has0, all) && LateLoop(c, has0, all, loop)
    requires s.marked !! loop && Between(has0, all, s.has) && j <= |Colocated(c, x)|
    ensures StaysOut(has0, all, loop, Follow(c, s, Colocated(c, x)[j..], depth))
    ensures (exists k :: k in Colocated(c, x)[j..] && k.score > 0 && k.dependent in loop) ==>
      Follow(c, s, Colocated(c, x)[j..], depth).None?
    decreases depth, 0, |Colocated(c, x)| - j
  {
    var ks := Colocated(c, x);
    if j < |ks| {
      var k := ks[j];
      assert ks[j..] == [k] + ks[j+1..];
      assert k in ks;
      assert k.dependent in all by { Mentioned(c, x, k, all); }
      hide Between, Targets, UpdateTargets, Colocated;
      if k.dependent in s.marked || k.score <= 0 {
        FollowStays(c, has0, all, loop, s, x, j + 1, depth);
      } else if depth > 0 {
        if k.dependent in loop {
          LoopIsEndless(c, has0, all, loop, s, k.dependent, depth - 1);
        } else {
          var targets := Targets(c, s.has, k.dependent);
          forall t | t in targets
            ensures t in all && t !in loop
          {
            assert t in loop ==> OnLoop(c, s.has, all, loop, t);
          }
          OutsideStays(c, has0, all, loop, s, targets, depth - 1);
          var r := UpdateTargets(c, s, targets, depth - 1);
          if r.Some? {
            FollowStays(c, has0, all, loop, r.value, x, j + 1, depth);
          }
        }
      }
    }
  }

  /** Updating a resource of the loop while none of the loop is marked. */
  lemma {:induction false} LoopIsEndless(c: Cluster, has0: set<string>, all: set<string>, loop: set<string>,
                                         s: State, id: string, depth: nat)
    requires Covers(c, all) && TargetsIn(c, has0, all) && LateLoop(c, has0, all, loop)
    requires s.marked !! loop && Between(has0, all, s.has) && id in loop
    ensures UpdateTargets(c, s, Targets(c, s.has, id), depth).None?
    decreases depth, 3, 0
  {
    var targets := Targets(c, s.has, id);
    assert OnLoop(c, s.has, all, loop, id);
    var d :| d in loop && Late(c, s.has, id, d);
    var i :| LateAt(c, targets, id, d, i);
    forall j | 0 <= j <= i
      ensures targets[j] in all && targets[j] !in loop && targets[j] !in c.broken
    {
      assert targets[j] in targets[..i+1];
      assert targets[j] in loop ==> OnLoop(c, s.has, all, loop, targets[j]);
    }
    LoopFrom(c, has0, all, loop, s, targets, d, i, depth);
  }

  lemma {:induction false} LoopFrom(c: Cluster, has0: set<string>, all: set<string>, loop: set<string>,
                                    s: State, targets: seq<string>, d: string, i: nat, depth: nat)
    requires Covers(c, all) && TargetsIn(c, has0, all) && LateLoop(c, has0, all, loop)
    requires s.marked !! loop && Between(has0, all, s.has)
    requires i < |targets| && d in loop && Link(c, targets[i], d)
    requires forall j :: 0 <= j <= i ==> targets[j] in all && targets[j] !in loop && targets[j] !in c.broken
    ensures UpdateTargets(c, s, targets, depth).None?
    decreases depth, 2, i
  {
    var s1 := Change(c, s, targets[0]);
    ChangeHas(c, has0, all, s, targets[0]);
    hide Between, Targets, TargetsIn;
    FollowStays(c, has0, all, loop, s1, targets[0], 0, depth);
    var ks := Colocated(c, targets[0]);
    assert ks[0..] == ks;
    var r := Follow(c, s1, ks, depth);
    if i > 0 && r.Some? {
      LoopFrom(c, has0, all, loop, r.value, targets[1..], d, i - 1, depth);
    }
  }

  /** A late cycle makes the update of each resource on it endless. */
  lemma LateLoopNeverEnds(c: Cluster, has0: set<string>, all: set<string>, loop: set<string>, id: string, depth: nat)
    requires Covers(c, all) && TargetsIn(c, has0, all) && LateLoop(c, has0, all, loop) && id in loop
    ensures UpdateAttribute(c, State({}, [], has0), id, false, depth).None?
  {
    LoopIsEndless(c, has0, all, loop, State({}, [], has0), id, depth);
  }

  // ---- Exactly then ----

  ghost predicate Lower(c: Cluster, has: set<string>, rank: map<string, nat>, id: string)
    requires id in rank
  {
    forall d :: Late(c, has, id, d) ==> d in rank && rank[d] < rank[id]
  }

  /** The late dependents of a finite set of resources can be ranked, or some lead back to each other. */
  lemma {:induction false} RankOrLoop(c: Cluster, has: set<string>, all: set<string>, left: set<string>, rank: map<string, nat>)
    returns (rank': map<string, nat>, loop: set<string>)
    requires Covers(c, all) && left <= all && rank.Keys == all - left
    requires forall id :: id in rank ==> rank[id] < |rank| && Lower(c, has, rank, id)
    ensures loop <= all && rank'.Keys == all - loop
    ensures forall id :: id in rank' ==> rank'[id] < |rank'| && Lower(c, has, rank', id)
    ensures forall id {:trigger LeadsInto(c, has, id, loop)} :: id in loop ==> LeadsInto(c, has, id, loop)
    decreases |left|
  {
    if id :| id in left && !LeadsInto(c, has, id, left) {
      var more := rank[id := |rank|];
      assert more.Keys == all - (left - {id});
      assert |more| == |rank| + 1;
      forall x | x in more
        ensures Lower(c, has, more, x)
      {
        forall d | Late(c, has, x, d)
          ensures d in more && more[d] < more[x]
        {
          if x == id {
            LateIn(c, has, x, d, all);
            assert d !in left;
          } else {
            assert Lower(c, has, rank, x);
          }
        }
      }
      rank', loop := RankOrLoop(c, has, all, left - {id}, more);
    } else {
      rank', loop := rank, left;
    }
  }

  lemma LateIn(c: Cluster, has: set<string>, id: string, d: string, all: set<string>)
    requires Covers(c, all) && Late(c, has, id, d)
    ensures d in all
  {
    var i: nat :| LateAt(c, Targets(c, has, id), id, d, i);
    LinkIn(c, Targets(c, has, id)[i], d, all);
  }

  function RankIn(rank: map<string, nat>): string -> nat {
    x => if x in rank then rank[x] else 0
  }

  /** Whatever has late dependents is a target of nothing but itself. */
  ghost predicate OwnTargets(c: Cluster, has: set<string>, all: set<string>) {
    forall id {:trigger OwnTarget(c, has, id, all)} :: id in all && LeadsInto(c, has, id, all) ==> OwnTarget(c, has, id, all)
  }

  lemma LoopIsLate(c: Cluster, has: set<string>, all: set<string>, loop: set<string>)
    requires all <= has && loop <= all && loop != {} && OwnTargets(c, has, all)
    requires forall id {:trigger LeadsInto(c, has, id, loop)} :: id in loop ==> LeadsInto(c, has, id, loop)
    ensures LateLoop(c, has, all, loop)
  {
    forall has', id | Between(has, all, has') && id in loop
      ensures OnLoop(c, has', all, loop, id)
    {
      assert has' == has;
      assert LeadsInto(c, has, id, loop);
      var d :| d in loop && Late(c, has, id, d);
      assert LeadsInto(c, has, id, all);
      assert OwnTarget(c, has, id, all);
    }
  }

  /** All resources concerned have the attribute already, which nothing then changes: all updates end if and only
      if there is no late cycle. */
  lemma EndsIffNoLateLoop(c: Cluster, has: set<string>, all: set<string>)
    requires Covers(c, all) && TargetsIn(c, has, all) && all <= has && OwnTargets(c, has, all)
    ensures (forall id :: id in all ==> Ends(c, has, id)) <==> !exists loop :: LateLoop(c, has, all, loop)
  {
    if loop :| LateLoop(c, has, all, loop) {
      hide LateLoop, TargetsIn, OwnTargets, Ends;
      var id := LoopHasEndless(c, has, all, loop);
    } else {
      var rank := NoLoopRank(c, has, all);
      assert forall has' :: Between(has, all, has') ==> has' == has;
      RankedBy(c, has, has, all, rank);
      hide LateLoop, TargetsIn, OwnTargets, Ends, Ranked, Late;
      forall id | id in all
        ensures Ends(c, has, id)
      {
        UpdateTerminates(c, has, all, RankIn(rank), |rank|, id);
      }
    }
  }

  lemma NoLoopRank(c: Cluster, has: set<string>, all: set<string>) returns (rank: map<string, nat>)
    requires Covers(c, all) && all <= has && OwnTargets(c, has, all) && !exists loop :: LateLoop(c, has, all, loop)
    ensures rank.Keys == all && forall id :: id in rank ==> rank[id] < |rank| && Lower(c, has, rank, id)
  {
    hide LateLoop, Lower, OwnTargets;
    var loop;
    rank, loop := RankOrLoop(c, has, all, all, map[]);
    if loop != {} {
      LoopIsLate(c, has, all, loop);
      assert false;
    }
  }

  lemma LoopHasEndless(c: Cluster, has: set<string>, all: set<string>, loop: set<string>) returns (id: string)
    requires Covers(c, all) && TargetsIn(c, has, all) && LateLoop(c, has, all, loop)
    ensures id in all && !Ends(c, has, id)
  {
    id :| id in loop;
    forall depth
      ensures UpdateAttribute(c, State({}, [], has), id, false, depth).None?
    {
      LateLoopNeverEnds(c, has, all, loop, id, depth);
    }
  }

  /** A rank for one set of resources with the attribute ranks every other that has no more late dependents. */
  lemma RankedBy(c: Cluster, top: set<string>, has0: set<string>, all: set<string>, rank: map<string, nat>)
    requires rank.Keys == all && forall id :: id in rank ==> rank[id] < |rank| && Lower(c, top, rank, id)
    requires forall has, id, d :: Between(has0, all, has) && id in all && Late(c, has, id, d) ==> Late(c, top, id, d)
    ensures Ranked(c, has0, all, RankIn(rank), |rank|)
  {
    forall has, id, d | Between(has0, all, has) && id in all && Late(c, has, id, d)
      ensures RankIn(rank)(d) < RankIn(rank)(id)
    {
      assert Late(c, top, id, d);
      assert Lower(c, top, rank, id);
    }
  }

  // ---- Groups and primitives, whatever the attribute is set on ----

  function FamilyOf(children: seq<Resource>): set<string> {
    if children == [] then {} else FamilyOf(children[..|children|-1]) + Family(children[|children|-1])
  }

  /** The IDs of a resource and its descendants. */
  function Family(r: Resource): set<string> {
    FamilyOf(r.children) + {r.id}
  }

  predicate NoClones(children: seq<Resource>) {
    forall r :: r in children ==> !r.kind.Clone? && NoClones(r.children)
  }

  /** Groups and primitives: the members of a group belong to the set, and have no members themselves. */
  predicate Plain(c: Cluster, all: set<string>) {
    && c.cloneOf == map[] && all !! c.broken
    && forall id :: id in all && id in c.resources ==>
         var r := c.resources[id];
         && r.id == id && !r.kind.Clone? && NoClones(r.children)
         && FamilyOf(r.children) <= all && id !in FamilyOf(r.children)
         && forall m :: m in FamilyOf(r.children) && m in c.resources ==> c.resources[m].children == []
  }

  lemma {:induction false} MembersWithAttr(has: set<string>, children: seq<Resource>, x: string)
    requires NoClones(children)
    ensures x in ChildrenWithAttr(has, children) <==> x in FamilyOf(children) && x in has
    decreases children, 1
  {
    if children != [] {
      var last := children[|children|-1];
      assert last in children;
      MembersWithAttr(has, children[..|children|-1], x);
      MemberWithAttr(has, last, x);
    }
  }

  lemma {:induction false} MemberWithAttr(has: set<string>, r: Resource, x: string)
    requires !r.kind.Clone? && NoClones(r.children)
    ensures x in WithAttr(has, r, false) <==> x in Family(r) && x in has
    decreases r, 0
  {
    MembersWithAttr(has, r.children, x);
  }

  /** In such a cluster, late dependents are those of a group's members that have the attribute. */
  lemma LateIsOfMembers(c: Cluster, all: set<string>, has: set<string>, id: string, d: string)
    requires Plain(c, all) && id in all
    ensures Late(c, has, id, d) <==>
      !c.force && id in c.resources && exists m :: m in FamilyOf(c.resources[id].children) && m in has && Link(c, m, d)
  {
    var targets := Targets(c, has, id);
    if !c.force && id in c.resources {
      var r := c.resources[id];
      var members := ChildrenWithAttr(has, r.children);
      assert targets == members + [id];
      forall m
        ensures m in members <==> m in FamilyOf(r.children) && m in has
      {
        MembersWithAttr(has, r.children, m);
      }
      hide Link, Targets, FamilyOf, ChildrenWithAttr;
      if i: nat :| LateAt(c, targets, id, d, i) {
        assert targets[i] in targets[..i+1];
        assert targets[i] in members;
      }
      if m :| m in FamilyOf(r.children) && m in has && Link(c, m, d) {
        assert m in members;
        var i :| 0 <= i < |members| && members[i] == m;
        forall j | 0 <= j <= i
          ensures targets[j] !in c.broken && targets[j] != id
        {
          assert targets[j] == members[j] && members[j] in members;
        }
        assert LateAt(c, targets, id, d, i);
      }
    } else {
      assert targets == [id];
      assert [id][..1] == [id];
    }
  }

  lemma PlainTargets(c: Cluster, all: set<string>, has: set<string>, id: string, x: string)
    requires Plain(c, all) && id in all && x in Targets(c, has, id)
    ensures x == id || (id in c.resources && x in FamilyOf(c.resources[id].children))
  {
    if !c.force && id in c.resources {
      MembersWithAttr(has, c.resources[id].children, x);
    }
  }

  lemma PlainOwns(c: Cluster, all: set<string>)
    requires Plain(c, all)
    ensures OwnTargets(c, all, all)
    ensures forall has0 :: TargetsIn(c, has0, all)
  {
    forall has, id, x | id in all && x in Targets(c, has, id)
      ensures x in all
    {
      PlainTargets(c, all, has, id, x);
    }
    forall id | id in all && LeadsInto(c, all, id, all)
      ensures OwnTarget(c, all, id, all)
    {
      var d :| d in all && Late(c, all, id, d);
      LateIsOfMembers(c, all, all, id, d);
      assert c.resources[id].children != [];
      forall x | x in all && id in Targets(c, all, x)
        ensures x == id
      {
        PlainTargets(c, all, all, x, id);
      }
    }
  }

  /** For groups and primitives: all updates end, whatever the attribute is set on to begin with, if and only if
      there is no late cycle once it is set on everything. */
  lemma EndsWhateverIsSet(c: Cluster, all: set<string>)
    requires Covers(c, all) && Plain(c, all)
    ensures (forall has, id :: id in all ==> Ends(c, has, id)) <==> !exists loop :: LateLoop(c, all, all, loop)
  {
    PlainOwns(c, all);
    if loop :| LateLoop(c, all, all, loop) {
      assert TargetsIn(c, all, all);
      hide LateLoop, TargetsIn, OwnTargets, Ends, Plain;
      var id := LoopHasEndless(c, all, all, loop);
    } else {
      hide LateLoop, TargetsIn, OwnTargets, Ends, Ranked, Late, Lower;
      var rank := NoLoopRank(c, all, all);
      forall has, id | id in all
        ensures Ends(c, has, id)
      {
        PlainRanked(c, all, has, rank);
        assert TargetsIn(c, has, all);
        UpdateTerminates(c, has, all, RankIn(rank), |rank|, id);
      }
    }
  }

  lemma PlainRanked(c: Cluster, all: set<string>, has0: set<string>, rank: map<string, nat>)
    requires Plain(c, all)
    requires rank.Keys == all && forall id :: id in rank ==> rank[id] < |rank| && Lower(c, all, rank, id)
    ensures Ranked(c, has0, all, RankIn(rank), |rank|)
  {
    forall has, id, d | Between(has0, all, has) && id in all && Late(c, has, id, d)
      ensures Late(c, all, id, d)
    {
      LateIsOfMembers(c, all, has, id, d);
      LateIsOfMembers(c, all, all, id, d);
    }
    hide Late, Lower, Plain;
    RankedBy(c, all, has0, all, rank);
  }

  // ---- Three clusters ----

  function Member(id: string): Resource {
    Resource(id, Primitive, [])
  }

  /** Two groups of one member each, and two primitives. */
  function TwoGroups(withThis: map<string, seq<Colocation>>): Cluster {
    Cluster(map["G1" := Resource("G1", Group, [Member("m1")]), "G2" := Resource("G2", Group, [Member("m2")]),
                "m1" := Member("m1"), "m2" := Member("m2"), "A" := Member("A"), "B" := Member("B")],
            map[], withThis, {}, {}, false)
  }

  const ALL: set<string> := {"G1", "G2", "m1", "m2", "A", "B"}

  lemma GroupTargets(has: set<string>, g: string, m: string, withThis: map<string, seq<Colocation>>)
    requires (g == "G1" && m == "m1") || (g == "G2" && m == "m2")
    ensures Targets(TwoGroups(withThis), has, g) == if m in has then [m, g] else [g]
  {
    assert [Member(m)][..0] == [];
    assert WithAttr(has, Member(m), false) == if m in has then [m] else [];
    assert ChildrenWithAttr(has, [Member(m)]) == if m in has then [m] else [];
  }

  lemma MemberTargets(has: set<string>, id: string, withThis: map<string, seq<Colocation>>)
    requires id in {"m1", "m2", "A", "B"}
    ensures Targets(TwoGroups(withThis), has, id) == [id]
  {
    assert WithAttr(has, Member(id), true) == [id];
  }

  lemma AllTargets(has: set<string>, id: string, x: string, withThis: map<string, seq<Colocation>>)
    requires id in ALL && x in Targets(TwoGroups(withThis), has, id)
    ensures x in ALL && (x == "G1" || x == "G2" ==> x == id)
  {
    if id == "G1" {
      GroupTargets(has, "G1", "m1", withThis);
    } else if id == "G2" {
      GroupTargets(has, "G2", "m2", withThis);
    } else {
      MemberTargets(has, id, withThis);
    }
  }

  /** While the attribute is set nowhere, every resource stands for itself. */
  lemma StandsAlone(withThis: map<string, seq<Colocation>>)
    ensures forall id :: id in ALL ==> Targets(TwoGroups(withThis), {}, id) == [id]
  {
    hide Targets;
    forall id | id in ALL
      ensures Targets(TwoGroups(withThis), {}, id) == [id]
    {
      if id == "G1" {
        GroupTargets({}, "G1", "m1", withThis);
      } else if id == "G2" {
        GroupTargets({}, "G2", "m2", withThis);
      } else {
        MemberTargets({}, id, withThis);
      }
    }
  }

  /** Whenever each group is colocated with the other's member, and the members have the attribute, they form a
      late cycle. */
  lemma CrossedIsLateLoop(c: Cluster, has0: set<string>)
    requires c == TwoGroups(c.withThis) && Covers(c, ALL) && {"m1", "m2"} <= has0
    requires Link(c, "m1", "G2") && Link(c, "m2", "G1")
    ensures TargetsIn(c, has0, ALL) && LateLoop(c, has0, ALL, {"G1", "G2"})
  {
    forall has, id, x | id in ALL && x in Targets(c, has, id)
      ensures x in ALL && (x == "G1" || x == "G2" ==> x == id)
    {
      AllTargets(has, id, x, c.withThis);
    }
    forall has, id | Between(has0, ALL, has) && id in {"G1", "G2"}
      ensures OnLoop(c, has, ALL, {"G1", "G2"}, id)
    {
      var m, other := if id == "G1" then "m1" else "m2", if id == "G1" then "G2" else "G1";
      GroupTargets(has, id, m, c.withThis);
      hide Targets, Link;
      assert [m, id][..1] == [m];
      assert LateAt(c, Targets(c, has, id), id, other, 0);
      assert Late(c, has, id, other);
    }
  }

  /** Without force, updating either of two crossed groups whose members have the attribute never ends. */
  lemma CrossedGroupsNeverEnd(depth: nat)
    ensures var c := TwoGroups(map["m1" := [Colocation("G2", 1)], "m2" := [Colocation("G1", 1)]]);
      && UpdateAttribute(c, State({}, [], {"m1", "m2"}), "G1", false, depth).None?
      && UpdateAttribute(c, State({}, [], {"m1", "m2"}), "G2", false, depth).None?
  {
    var c := TwoGroups(map["m1" := [Colocation("G2", 1)], "m2" := [Colocation("G1", 1)]]);
    assert Colocation("G2", 1) in Colocated(c, "m1") && Colocation("G1", 1) in Colocated(c, "m2");
    CrossedIsLateLoop(c, {"m1", "m2"});
    LateLoopNeverEnds(c, {"m1", "m2"}, ALL, {"G1", "G2"}, "G1", depth);
    LateLoopNeverEnds(c, {"m1", "m2"}, ALL, {"G1", "G2"}, "G2", depth);
  }

  /** An update is endless if that of the first resource it leads to is. */
  lemma FirstIsEndless(c: Cluster, s: State, id: string, k: Colocation)
    requires id !in c.broken && Colocated(c, id) != [] && Colocated(c, id)[0] == k
    requires k.score > 0 && k.dependent !in s.marked && k.dependent != id
    requires var s1 := Change(c, s, id);
      forall depth :: UpdateTargets(c, s1, Targets(c, s1.has, k.dependent), depth).None?
    ensures forall depth :: UpdateTargets(c, s, [id], depth).None?
  {
    hide Targets;
    forall depth
      ensures UpdateTargets(c, s, [id], depth).None?
    {
      var s1 := Change(c, s, id);
      assert Follow(c, s1, Colocated(c, id), depth).None?;
    }
  }

  /** The attribute is set nowhere, so every resource stands for itself; but by the time the update gets to the
      groups, it has set the attribute on their members, and they form a late cycle. It never ends. */
  lemma AcquiredLoopNeverEnds(depth: nat)
    ensures var c := TwoGroups(map["m1" := [Colocation("A", 1), Colocation("G2", 1)], "A" := [Colocation("m2", 1)],
                                   "m2" := [Colocation("B", 1), Colocation("G1", 1)], "B" := [Colocation("G1", 1)]]);
      && (forall id :: id in ALL ==> Targets(c, {}, id) == [id])
      && UpdateAttribute(c, State({}, [], {}), "m1", false, depth).None?
  {
    var c := TwoGroups(map["m1" := [Colocation("A", 1), Colocation("G2", 1)], "A" := [Colocation("m2", 1)],
                           "m2" := [Colocation("B", 1), Colocation("G1", 1)], "B" := [Colocation("G1", 1)]]);
    hide Targets, UpdateTargets, LateLoop, TargetsIn;
    StandsAlone(c.withThis);
    assert Colocated(c, "m1")[1] == Colocation("G2", 1) && Colocated(c, "m2")[1] == Colocation("G1", 1);
    assert Link(c, "m1", "G2") && Link(c, "m2", "G1");
    var s0 := State({}, [], {});
    var s1 := Change(c, s0, "m1");
    var s2 := Change(c, s1, "A");
    var s3 := Change(c, s2, "m2");
    var s4 := Change(c, s3, "B");
    assert s4.has == {"m1", "A", "m2", "B"} && s4.marked == {"m1", "A", "m2", "B"};
    CrossedIsLateLoop(c, s4.has);
    forall d
      ensures UpdateTargets(c, s4, Targets(c, s4.has, "G1"), d).None?
    {
      assert s4.marked !! {"G1", "G2"};
      LoopIsEndless(c, s4.has, ALL, {"G1", "G2"}, s4, "G1", d);
    }
    MemberTargets(s3.has, "B", c.withThis);
    MemberTargets(s2.has, "m2", c.withThis);
    MemberTargets(s1.has, "A", c.withThis);
    FirstIsEndless(c, s3, "B", Colocation("G1", 1));
    FirstIsEndless(c, s2, "m2", Colocation("B", 1));
    FirstIsEndless(c, s1, "A", Colocation("m2", 1));
    FirstIsEndless(c, s0, "m1", Colocation("A", 1));
  }

  /** Likewise a resource can be changed twice: a group's member, and again as part of its group. */
  lemma ChangedTwice()
    ensures var c := TwoGroups(map["m1" := [Colocation("A", 1)], "A" := [Colocation("G1", 1)]]);
      && (forall id :: id in ALL ==> Targets(c, {}, id) == [id])
      && UpdateAttribute(c, State({}, [], {}), "m1", false, 2)
         == Some(State({"m1", "A", "G1"}, ["m1", "A", "m1", "G1"], {"m1", "A", "G1"}))
  {
    var c := TwoGroups(map["m1" := [Colocation("A", 1)], "A" := [Colocation("G1", 1)]]);
    hide Targets;
    StandsAlone(c.withThis);
    var s1 := Change(c, State({}, [], {}), "m1");
    var s2 := Change(c, s1, "A");
    var s3 := Change(c, s2, "m1");
    var s4 := Change(c, s3, "G1");
    MemberTargets(s1.has, "A", c.withThis);
    GroupTargets(s2.has, "G1", "m1", c.withThis);
    assert s2.changes + ["m1"] == ["m1", "A", "m1"];
    assert s4 == State({"m1", "A", "G1"}, ["m1", "A", "m1", "G1"], {"m1", "A", "G1"});
    assert Follow(c, s3, [Colocation("A", 1)], 0) == Some(s3);
    assert ["m1", "G1"][1..] == ["G1"];
    assert UpdateTargets(c, s3, ["G1"], 0) == Some(s4);
    assert UpdateTargets(c, s2, ["m1", "G1"], 0) == Some(s4);
    assert Follow(c, s2, [Colocation("G1", 1)], 1) == Some(s4);
    assert UpdateTargets(c, s1, ["A"], 1) == Some(s4);
    assert Follow(c, s1, [Colocation("A", 1)], 2) == Some(s4);
  }

  // ---- The tool at work ----
}
