/** The target role of a lone primitive, as a restart looks it up, sets it and puts it back: name/value pairs in the
    CIB (find_resource_attr(), update_attribute() and cli_resource_delete_attribute() in
    tools/crm_resource_runtime.c). */
module TargetRole {
  import opened Common

  /** A pair somewhere below the resource: whether its set is one of the resource's meta-attribute sets (rather than
      of its instance attributes, utilization or operations), the ID of that set, and the pair itself. */
  datatype Pair = Pair(meta: bool, setId: string, id: string, name: string, value: string)

  const ROLE := "target-role"
  const STOPPED := "stopped"

  function MetaSetId(rsc: string): string { rsc + "-meta_attributes" }
  function RoleId(rsc: string): string { MetaSetId(rsc) + "-" + ROLE }

  predicate IsRole(p: Pair, metaOnly: bool) {
    p.name == ROLE && (metaOnly ==> p.meta)
  }

  function CountRoles(pairs: seq<Pair>, metaOnly: bool): nat {
    if pairs == [] then 0
    else CountRoles(pairs[..|pairs|-1], metaOnly) + if IsRole(pairs[|pairs|-1], metaOnly) then 1 else 0
  }

  /** The first pair that is a role, if any. */
  function RoleAt(pairs: seq<Pair>, metaOnly: bool): (i: nat)
    ensures i <= |pairs| && (i < |pairs| ==> IsRole(pairs[i], metaOnly))
    ensures forall j :: 0 <= j < i ==> !IsRole(pairs[j], metaOnly)
  {
    if pairs == [] then 0 else if IsRole(pairs[0], metaOnly) then 0 else 1 + RoleAt(pairs[1..], metaOnly)
  }

  function IdAt(pairs: seq<Pair>, id: string): (i: nat)
    ensures i <= |pairs| && (i < |pairs| ==> pairs[i].id == id)
    ensures forall j :: 0 <= j < i ==> pairs[j].id != id
  {
    if pairs == [] then 0 else if pairs[0].id == id then 0 else 1 + IdAt(pairs[1..], id)
  }

  /** What a look-up finds: nothing, one pair, or several, which counts as an error. */
  datatype Look = Absent | One(index: nat) | Several

  function FindRole(pairs: seq<Pair>, metaOnly: bool): (l: Look)
    ensures l.One? ==> l.index < |pairs| && IsRole(pairs[l.index], metaOnly)
  {
    var n := CountRoles(pairs, metaOnly);
    if n == 0 then Absent
    else if n == 1 then (HasOne(pairs, metaOnly); One(RoleAt(pairs, metaOnly)))
    else Several
  }

  lemma {:induction false} HasOne(pairs: seq<Pair>, metaOnly: bool)
    requires CountRoles(pairs, metaOnly) > 0
    ensures RoleAt(pairs, metaOnly) < |pairs|
  {
    NoneCounts(pairs, metaOnly);
  }

  lemma {:induction false} NoneCounts(pairs: seq<Pair>, metaOnly: bool)
    ensures CountRoles(pairs, metaOnly) == 0 <==> forall p :: p in pairs ==> !IsRole(p, metaOnly)
  {
    if pairs != [] {
      NoneCounts(pairs[..|pairs|-1], metaOnly);
      assert pairs == pairs[..|pairs|-1] + [pairs[|pairs|-1]];
    }
  }

  /** Set the meta-attribute. A pair that is there is changed; otherwise one is added, under a fixed ID, to the set
      with a fixed ID. A pair of that ID in that set would be overwritten, and one elsewhere makes the CIB refuse. */
  function SetRole(pairs: seq<Pair>, rsc: string, value: string, refused: bool): (seq<Pair>, bool) {
    var l := FindRole(pairs, true);
    var i := IdAt(pairs, RoleId(rsc));
    if l.Several? || refused then (pairs, false)
    else if l.One? then (pairs[l.index := pairs[l.index].(value := value)], true)
    else if i == |pairs| then (pairs + [Pair(true, MetaSetId(rsc), RoleId(rsc), ROLE, value)], true)
    else if pairs[i].meta && pairs[i].setId == MetaSetId(rsc)
    then (pairs[i := pairs[i].(name := ROLE, value := value)], true)
    else (pairs, false)
  }

  lemma NotSet(pairs: seq<Pair>, rsc: string, value: string, refused: bool)
    requires !SetRole(pairs, rsc, value, refused).1
    ensures SetRole(pairs, rsc, value, refused).0 == pairs
  {
  }

  /** Delete the meta-attribute; if there is not exactly one, that is an error. */
  function DeleteRole(pairs: seq<Pair>, refused: bool): (seq<Pair>, bool) {
    var l := FindRole(pairs, true);
    if l.One? && !refused then (pairs[..l.index] + pairs[l.index+1..], true) else (pairs, false)
  }

  /** The role a restart means to put back: it looks anywhere below the resource. */
  function Original(pairs: seq<Pair>): Option<string> {
    match FindRole(pairs, false)
    case One(i) => Some(pairs[i].value)
    case _ => None
  }

  function Restore(pairs: seq<Pair>, rsc: string, original: Option<string>, refused: bool): (seq<Pair>, bool) {
    if original.Some? then SetRole(pairs, rsc, original.value, refused) else DeleteRole(pairs, refused)
  }

  /** Stop the resource and put its role back, which the CIB may refuse. */
  function StopAndRestore(pairs: seq<Pair>, rsc: string, refuseStop: bool, refuseRestore: bool): (seq<Pair>, bool) {
    var (stopped, ok) := SetRole(pairs, rsc, STOPPED, refuseStop);
    if !ok then (pairs, false) else Restore(stopped, rsc, Original(pairs), refuseRestore)
  }

  // ---- When the role is put back ----

  lemma {:induction false} CountParts(xs: seq<Pair>, ys: seq<Pair>, metaOnly: bool)
    ensures CountRoles(xs + ys, metaOnly) == CountRoles(xs, metaOnly) + CountRoles(ys, metaOnly)
  {
    if ys == [] {
      assert xs + ys == xs;
    } else {
      assert (xs + ys)[..|xs + ys|-1] == xs + ys[..|ys|-1];
      CountParts(xs, ys[..|ys|-1], metaOnly);
    }
  }

  /** The count, one pair further. */
  lemma CountNext(pairs: seq<Pair>, i: nat, metaOnly: bool)
    requires i < |pairs|
    ensures CountRoles(pairs[..i+1], metaOnly) == CountRoles(pairs[..i], metaOnly) + if IsRole(pairs[i], metaOnly) then 1 else 0
  {
    assert pairs[..i+1][..i] == pairs[..i];
  }

  lemma CountOf(p: Pair, metaOnly: bool)
    ensures CountRoles([p], metaOnly) == if IsRole(p, metaOnly) then 1 else 0
  {
    assert [p][..0] == [];
  }

  /** The count, taking out the pair at one place. */
  lemma CountAround(pairs: seq<Pair>, i: nat, metaOnly: bool)
    requires i < |pairs|
    ensures CountRoles(pairs, metaOnly)
         == CountRoles(pairs[..i], metaOnly) + (if IsRole(pairs[i], metaOnly) then 1 else 0) + CountRoles(pairs[i+1..], metaOnly)
  {
    assert pairs == pairs[..i] + [pairs[i]] + pairs[i+1..];
    CountParts(pairs[..i] + [pairs[i]], pairs[i+1..], metaOnly);
    CountParts(pairs[..i], [pairs[i]], metaOnly);
    CountOf(pairs[i], metaOnly);
  }

  /** The only role is where it is. */
  lemma OnlyRole(pairs: seq<Pair>, i: nat, metaOnly: bool)
    requires CountRoles(pairs, metaOnly) == 1 && i < |pairs| && IsRole(pairs[i], metaOnly)
    ensures FindRole(pairs, metaOnly) == One(i)
  {
    CountAround(pairs, i, metaOnly);
    NoneCounts(pairs[..i], metaOnly);
    assert forall j :: 0 <= j < i ==> pairs[j] in pairs[..i];
  }

  /** After the role has been set, it is found where it was put. */
  lemma FoundWhereSet(pairs: seq<Pair>, i: nat, p: Pair)
    requires i < |pairs| && IsRole(p, true) && CountRoles(pairs, true) == if IsRole(pairs[i], true) then 1 else 0
    ensures FindRole(pairs[i := p], true) == One(i)
  {
    var pairs' := pairs[i := p];
    CountAround(pairs, i, true);
    CountAround(pairs', i, true);
    assert pairs'[..i] == pairs[..i] && pairs'[i+1..] == pairs[i+1..];
    OnlyRole(pairs', i, true);
  }

  lemma FoundWhereAdded(pairs: seq<Pair>, p: Pair)
    requires IsRole(p, true) && CountRoles(pairs, true) == 0
    ensures FindRole(pairs + [p], true) == One(|pairs|)
  {
    hide CountRoles, FindRole;
    CountParts(pairs, [p], true);
    CountOf(p, true);
    OnlyRole(pairs + [p], |pairs|, true);
  }

  /** A meta-attribute counts among all. */
  lemma {:induction false} MetaCounts(pairs: seq<Pair>)
    ensures CountRoles(pairs, true) <= CountRoles(pairs, false)
  {
    if pairs != [] {
      MetaCounts(pairs[..|pairs|-1]);
    }
  }

  /** The meta-attribute is there: what the phase leaves when the CIB refuses nothing. */
  lemma AfterwardsOne(pairs: seq<Pair>, rsc: string, i: nat)
    requires FindRole(pairs, true) == One(i)
    ensures var (after, ok) := StopAndRestore(pairs, rsc, false, false);
      && ok && after == if CountRoles(pairs, false) == 1 then pairs else pairs[..i] + pairs[i+1..]
  {
    assert CountRoles(pairs, true) == 1;
    MetaCounts(pairs);
    FoundWhereSet(pairs, i, pairs[i].(value := STOPPED));
    var stopped := pairs[i := pairs[i].(value := STOPPED)];
    if CountRoles(pairs, false) == 1 {
      OnlyRole(pairs, i, false);
      hide CountRoles, FindRole, RoleAt, IdAt;
      assert stopped[i := stopped[i].(value := pairs[i].value)] == pairs;
    } else {
      assert Original(pairs).None?;
      hide CountRoles, FindRole, RoleAt, IdAt;
      assert stopped[..i] + stopped[i+1..] == pairs[..i] + pairs[i+1..];
    }
  }

  /** What putting the role back does when it is there, and the CIB does not refuse. */
  lemma RestoreAt(stopped: seq<Pair>, rsc: string, original: Option<string>, i: nat)
    requires FindRole(stopped, true) == One(i)
    ensures i < |stopped|
    ensures Restore(stopped, rsc, original, false)
         == (if original.Some? then stopped[i := stopped[i].(value := original.value)] else stopped[..i] + stopped[i+1..], true)
  {
    hide FindRole, IdAt, RoleId, MetaSetId;
  }

  lemma SetAdds(pairs: seq<Pair>, rsc: string, value: string)
    requires FindRole(pairs, true).Absent? && IdAt(pairs, RoleId(rsc)) == |pairs|
    ensures var p := Pair(true, MetaSetId(rsc), RoleId(rsc), ROLE, value);
      SetRole(pairs, rsc, value, false) == (pairs + [p], true) && FindRole(pairs + [p], true) == One(|pairs|)
  {
    var p := Pair(true, MetaSetId(rsc), RoleId(rsc), ROLE, value);
    FoundWhereAdded(pairs, p);
    hide CountRoles, FindRole, RoleAt, IdAt, MetaSetId, RoleId;
  }

  /** It is not there, and one can be added. */
  lemma AfterwardsAdded(pairs: seq<Pair>, rsc: string)
    requires FindRole(pairs, true).Absent? && IdAt(pairs, RoleId(rsc)) == |pairs|
    ensures var (after, ok) := StopAndRestore(pairs, rsc, false, false);
      && ok
      && after == if Original(pairs).None? then pairs
                  else pairs + [Pair(true, MetaSetId(rsc), RoleId(rsc), ROLE, Original(pairs).value)]
  {
    hide FindRole, IdAt, Original, MetaSetId, RoleId, SetRole, Restore;
    var p := Pair(true, MetaSetId(rsc), RoleId(rsc), ROLE, STOPPED);
    SetAdds(pairs, rsc, STOPPED);
    RestoreAt(pairs + [p], rsc, Original(pairs), |pairs|);
    assert (pairs + [p])[..|pairs|] + (pairs + [p])[|pairs|+1..] == pairs;
  }

  lemma SetTakes(pairs: seq<Pair>, rsc: string, value: string, i: nat)
    requires FindRole(pairs, true).Absent? && IdAt(pairs, RoleId(rsc)) == i < |pairs|
    requires pairs[i].meta && pairs[i].setId == MetaSetId(rsc)
    ensures var stopped := pairs[i := pairs[i].(name := ROLE, value := value)];
      SetRole(pairs, rsc, value, false) == (stopped, true) && FindRole(stopped, true) == One(i) && pairs[i].name != ROLE
  {
    NoneCounts(pairs, true);
    assert pairs[i] in pairs;
    FoundWhereSet(pairs, i, pairs[i].(name := ROLE, value := value));
    hide CountRoles, FindRole, RoleAt, IdAt, MetaSetId, RoleId;
  }

  /** It is not there, and the ID it would be added under is taken by another meta-attribute. */
  lemma AfterwardsTaken(pairs: seq<Pair>, rsc: string, i: nat)
    requires FindRole(pairs, true).Absent? && IdAt(pairs, RoleId(rsc)) == i < |pairs|
    requires pairs[i].meta && pairs[i].setId == MetaSetId(rsc)
    ensures var (after, ok) := StopAndRestore(pairs, rsc, false, false);
      && ok && (|after| < |pairs| || (|after| == |pairs| && after[i].name != pairs[i].name))
  {
    hide FindRole, IdAt, Original, MetaSetId, RoleId, SetRole, Restore;
    SetTakes(pairs, rsc, STOPPED, i);
    RestoreAt(pairs[i := pairs[i].(name := ROLE, value := STOPPED)], rsc, Original(pairs), i);
  }

  /** The role cannot be set: the CIB refuses, there are several among the meta-attributes, or there is none while
      the ID to add one under is taken outside the set that it would be added to. */
  predicate CannotSet(pairs: seq<Pair>, rsc: string, refused: bool) {
    var meta, i := CountRoles(pairs, true), IdAt(pairs, RoleId(rsc));
    refused || meta > 1 || (meta == 0 && i < |pairs| && !(pairs[i].meta && pairs[i].setId == MetaSetId(rsc)))
  }

  lemma SetsUnlessCannot(pairs: seq<Pair>, rsc: string, value: string, refused: bool)
    ensures SetRole(pairs, rsc, value, refused).1 <==> !CannotSet(pairs, rsc, refused)
  {
    hide CountRoles, RoleAt, IdAt, MetaSetId, RoleId;
  }

  /** The role is put back exactly if it is the only pair of that name below the resource, or none in its
      meta-attributes is while there are none or several elsewhere and the ID to add one under is free. If the CIB
      refuses to put it back, it is as before only if it was `stopped` already. A role that could not be set is
      left alone. */
  lemma RoleIsRestored(pairs: seq<Pair>, rsc: string, refuseStop: bool, refuseRestore: bool)
    ensures var meta, any := CountRoles(pairs, true), CountRoles(pairs, false);
      StopAndRestore(pairs, rsc, refuseStop, refuseRestore).0 == pairs <==>
        || CannotSet(pairs, rsc, refuseStop)
        || (if refuseRestore then meta == 1 && pairs[RoleAt(pairs, true)].value == STOPPED
            else if meta == 1 then any == 1
            else any != 1 && IdAt(pairs, RoleId(rsc)) == |pairs|)
  {
    var l := FindRole(pairs, true);
    var i := IdAt(pairs, RoleId(rsc));
    hide CountRoles, RoleAt, IdAt, MetaSetId, RoleId, Restore;
    SetsUnlessCannot(pairs, rsc, STOPPED, refuseStop);
    if !CannotSet(pairs, rsc, refuseStop) {
      if refuseRestore {
        RefusedRestore(pairs, rsc);
      } else if l.One? {
        AfterwardsOne(pairs, rsc, l.index);
      } else if i == |pairs| {
        AfterwardsAdded(pairs, rsc);
      } else {
        AfterwardsTaken(pairs, rsc, i);
      }
    }
  }

  /** The resource stays stopped, which is as before only if it was meant to be. */
  lemma RefusedRestore(pairs: seq<Pair>, rsc: string)
    requires SetRole(pairs, rsc, STOPPED, false).1
    ensures StopAndRestore(pairs, rsc, false, true).0 == pairs
       <==> CountRoles(pairs, true) == 1 && pairs[RoleAt(pairs, true)].value == STOPPED
  {
    NoneCounts(pairs, true);
    var l := FindRole(pairs, true);
    var i := IdAt(pairs, RoleId(rsc));
    hide CountRoles, RoleAt;
    if l.One? {
      var stopped := pairs[l.index := pairs[l.index].(value := STOPPED)];
      assert stopped[l.index].value == STOPPED;
      assert pairs[l.index].value == STOPPED ==> stopped == pairs;
    } else if i < |pairs| {
      assert pairs[i] in pairs;
      assert pairs[i := pairs[i].(name := ROLE, value := STOPPED)][i].name == ROLE;
    }
  }

  /** An instance attribute named like the target role is taken for it, and becomes a meta-attribute. */
  lemma InstanceRoleBecomesMeta(rsc: string, p: Pair)
    requires p.name == ROLE && !p.meta && p.id != RoleId(rsc)
    ensures StopAndRestore([p], rsc, false, false).0 == [p, Pair(true, MetaSetId(rsc), RoleId(rsc), ROLE, p.value)]
  {
    CountOf(p, true);
    CountOf(p, false);
    assert [p][1..] == [];
    OnlyRole([p], 0, false);
    AfterwardsAdded([p], rsc);
  }

  /** A target role is lost if there is another pair of that name below the resource. */
  lemma RoleIsLost(rsc: string, p: Pair, other: Pair)
    requires p.name == ROLE && p.meta && other.name == ROLE && !other.meta
    ensures StopAndRestore([p, other], rsc, false, false).0 == [other]
  {
    CountParts([p], [other], true);
    CountParts([p], [other], false);
    CountOf(p, true);
    CountOf(p, false);
    CountOf(other, true);
    CountOf(other, false);
    assert [p, other] == [p] + [other];
    OnlyRole([p, other], 0, true);
    AfterwardsOne([p, other], rsc, 0);
  }
}
