/** The same commands as the tool carries them out, editing the CIB step by step. */
module ConstraintEditor {
  import opened Common
  import opened Constraints

  /** The tool at work on the CIB. */
  class Editor {
    var constraints: seq<Location>
    var calls: nat

    function State(): Cib
      reads this
    {
      Cib(constraints, calls)
    }

    constructor (s: Cib)
      ensures State() == s
    {
      constraints, calls := s.constraints, s.calls;
    }

    method Modify(u: Location, refuse: nat -> bool) returns (ok: bool)
      modifies this
      ensures (State(), ok) == Constraints.Modify(old(State()), u, refuse)
    {
      hide ValidLocation, MergeLocation, Find, Put;
      var i := 0;
      while i < |constraints| && constraints[i].id != u.id
        invariant 0 <= i <= |constraints|
        invariant forall j :: 0 <= j < i ==> constraints[j].id != u.id
      {
        i := i + 1;
      }
      var k := u;
      if i < |constraints| { k := MergeLocation(constraints[i], u); }
      FoundAt(constraints, u, k, i);
      var refused := refuse(calls);
      calls := calls + 1;
      if refused || !ValidLocation(k) { return false; }
      if i < |constraints| { constraints := constraints[i := k]; } else { constraints := constraints + [k]; }
      return true;
    }

    method Create(u: Location, refuse: nat -> bool) returns (ok: bool)
      modifies this
      ensures (State(), ok) == Constraints.Create(old(State()), u, refuse)
    {
      hide Constraints.Modify;
      ok := Modify(u, refuse);
      if !ok && u.role == Some(PROMOTED) { ok := Modify(u.(role := Some(PROMOTED_LEGACY)), refuse); }
    }

    method Ban(rsc: string, host: string, life: Lifetime, promotedOnly: bool, refuse: nat -> bool) returns (ok: bool)
      modifies this
      ensures (State(), ok) == Constraints.Ban(old(State()), rsc, host, life, promotedOnly, refuse)
    {
      hide Constraints.Create, BanOf;
      if life.BadLifetime? { return false; }
      ok := Create(BanOf(rsc, host, life, RoleFor(promotedOnly)), refuse);
    }

    method Prefer(rsc: string, host: string, life: Lifetime, promotedOnly: bool, refuse: nat -> bool) returns (ok: bool)
      modifies this
      ensures (State(), ok) == Constraints.Prefer(old(State()), rsc, host, life, promotedOnly, refuse)
    {
      hide Constraints.Create, PreferOf;
      if life.BadLifetime? { return false; }
      ok := Create(PreferOf(rsc, host, life, RoleFor(promotedOnly)), refuse);
    }

    method Remove(p: Pattern)
      modifies `constraints
      ensures constraints == Constraints.Remove(old(constraints), p)
    {
      hide Matches, Constraints.Remove;
      var i := 0;
      while i < |constraints| && !Matches(p, constraints[i])
        invariant 0 <= i <= |constraints| && constraints == old(constraints)
        invariant forall j :: 0 <= j < i ==> !Matches(p, constraints[j])
      {
        i := i + 1;
      }
      RemovesFirst(constraints, p, i);
      if i < |constraints| {
        constraints := constraints[..i] + constraints[i+1..];
      }
    }

    method ClearHost(rsc: string, host: string, bans: bool, force: bool, refuse: nat -> bool) returns (ok: bool)
      modifies this
      ensures (State(), ok) == Constraints.ClearHost(old(State()), rsc, host, bans, force, refuse)
    {
      hide Constraints.Remove;
      calls := calls + 1;
      if refuse(calls - 1) { return false; }
      Remove(ByRule(rsc, host));
      calls := calls + 1;
      if refuse(calls - 1) { return false; }
      if bans { Remove(ByAttrs(BanId(rsc, host), None)); }
      Remove(ByAttrs(PreferId(rsc), if force then None else Some(host)));
      return true;
    }

    method Clear(rsc: string, nodes: seq<string>, bans: bool, force: bool, refuse: nat -> bool) returns (ok: bool)
      modifies this
      ensures (State(), ok) == Constraints.Clear(old(State()), rsc, nodes, bans, force, refuse)
    {
      hide Constraints.ClearHost;
      for i := 0 to |nodes|
        invariant Constraints.Clear(old(State()), rsc, nodes, bans, force, refuse)
               == Constraints.Clear(State(), rsc, nodes[i..], bans, force, refuse)
      {
        assert nodes[i..][1..] == nodes[i+1..];
        ok := ClearHost(rsc, nodes[i], bans, force, refuse);
        if !ok { return; }
      }
      assert nodes[|nodes|..] == [];
      return true;
    }

    method Move(rsc: string, nodes: seq<string>, dest: string, current: Option<string>, life: Lifetime,
                promotedOnly: bool, force: bool, refuse: nat -> bool) returns (ok: bool)
      modifies this
      ensures (State(), ok) == Constraints.Move(old(State()), rsc, nodes, dest, current, life, promotedOnly, force, refuse)
    {
      hide Constraints.Clear, Constraints.ClearHost, Constraints.Prefer, Constraints.Ban;
      if current == Some(dest) && !force { return false; }
      var _ := Clear(rsc, nodes, false, force, refuse);
      var _ := ClearHost(rsc, dest, true, force, refuse);
      ok := Prefer(rsc, dest, life, promotedOnly, refuse);
      if force && current.Some? && current.value != dest {
        var _ := Ban(rsc, current.value, life, promotedOnly, refuse);
      }
    }
  }

  /** Where the search for an ID ends up is where a change goes. */
  lemma {:induction false} FoundAt(cs: seq<Location>, u: Location, k: Location, i: nat)
    requires i <= |cs| && forall j :: 0 <= j < i ==> cs[j].id != u.id
    requires if i < |cs| then cs[i].id == u.id && k == MergeLocation(cs[i], u) else k == u
    ensures Find(cs, u.id) == if i < |cs| then Some(cs[i]) else None
    ensures Put(cs, k) == if i < |cs| then cs[i := k] else cs + [k]
  {
    assert k.id == u.id;
    hide MergeLocation;
    if i > 0 {
      FoundAt(cs[1..], u, k, i - 1);
    }
  }

  /** The first match is deleted. */
  lemma {:induction false} RemovesFirst(cs: seq<Location>, p: Pattern, i: nat)
    requires i <= |cs| && (forall j :: 0 <= j < i ==> !Matches(p, cs[j])) && (i < |cs| ==> Matches(p, cs[i]))
    ensures Constraints.Remove(cs, p) == if i < |cs| then cs[..i] + cs[i+1..] else cs
  {
    hide Matches;
    if i > 0 {
      var rest := cs[1..];
      assert forall j :: 0 <= j < i - 1 ==> rest[j] == cs[j+1];
      RemovesFirst(rest, p, i - 1);
      if i < |cs| {
        assert [cs[0]] + (rest[..i-1] + rest[i..]) == cs[..i] + cs[i+1..];
      }
    } else if cs != [] {
      assert cs[..0] + cs[1..] == cs[1..];
    }
  }
}
