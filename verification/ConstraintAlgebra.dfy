/** What clearing and moving leave behind. */
module ConstraintAlgebra {
  import opened Common
  import opened Constraints
  import opened ConstraintMeaning

  /** No two constraints have the same ID, even apart from case. */
  ghost predicate DistinctIds(cs: seq<Location>) {
    forall i, j :: 0 <= i < j < |cs| ==> Fold(cs[i].id) != Fold(cs[j].id)
  }

  /** Whether clearing a node takes a constraint away. */
  predicate ClearedOn(k: Location, rsc: string, host: string, bans: bool, force: bool) {
    || Matches(ByRule(rsc, host), k)
    || (bans && Matches(ByAttrs(BanId(rsc, host), None), k))
    || Matches(ByAttrs(PreferId(rsc), if force then None else Some(host)), k)
  }

  predicate Cleared(k: Location, rsc: string, nodes: seq<string>, bans: bool, force: bool) {
    exists host :: host in nodes && ClearedOn(k, rsc, host, bans, force)
  }

  /** The constraints that clearing the nodes leaves. */
  function Rest(cs: seq<Location>, rsc: string, nodes: seq<string>, bans: bool, force: bool): seq<Location> {
    if cs == [] then []
    else Rest(cs[..|cs|-1], rsc, nodes, bans, force)
         + (if Cleared(cs[|cs|-1], rsc, nodes, bans, force) then [] else [cs[|cs|-1]])
  }

  function Drop(cs: seq<Location>, p: Pattern): seq<Location> {
    if cs == [] then [] else Drop(cs[..|cs|-1], p) + (if Matches(p, cs[|cs|-1]) then [] else [cs[|cs|-1]])
  }

  // ---- Deleting the first match deletes all matches ----

  lemma {:induction false} DropNone(cs: seq<Location>, p: Pattern)
    requires forall k :: k in cs ==> !Matches(p, k)
    ensures Drop(cs, p) == cs
  {
    hide Matches;
    if cs != [] {
      assert cs[|cs|-1] in cs;
      DropNone(cs[..|cs|-1], p);
    }
  }

  lemma {:induction false} DropFront(k: Location, cs: seq<Location>, p: Pattern)
    ensures Drop([k] + cs, p) == (if Matches(p, k) then [] else [k]) + Drop(cs, p)
  {
    hide Matches;
    if cs != [] {
      assert ([k] + cs)[..|cs|] == [k] + cs[..|cs|-1];
      DropFront(k, cs[..|cs|-1], p);
    } else {
      assert ([k] + cs)[..0] == [];
    }
  }

  lemma SameIdWhenMatched(p: Pattern, k: Location, k': Location)
    requires Matches(p, k) && Matches(p, k')
    ensures Fold(k.id) == Fold(k'.id)
  {
  }

  lemma NoneMatchesAfter(k: Location, rest: seq<Location>, p: Pattern)
    requires DistinctIds([k] + rest) && Matches(p, k)
    ensures forall k' :: k' in rest ==> !Matches(p, k')
  {
    forall k' | k' in rest
      ensures !Matches(p, k')
    {
      var j :| 0 <= j < |rest| && rest[j] == k';
      assert ([k] + rest)[0] == k && ([k] + rest)[j + 1] == k';
      if Matches(p, k') {
        SameIdWhenMatched(p, k, k');
      }
    }
  }

  lemma {:induction false} RemoveIsDrop(cs: seq<Location>, p: Pattern)
    requires DistinctIds(cs)
    ensures Remove(cs, p) == Drop(cs, p)
  {
    hide Matches, Drop;
    if cs == [] {
      assert Drop(cs, p) == [] by { DropNone(cs, p); }
    } else {
      var k, rest := cs[0], cs[1..];
      assert cs == [k] + rest;
      DropFront(k, rest, p);
      if Matches(p, k) {
        NoneMatchesAfter(k, rest, p);
        DropNone(rest, p);
      } else {
        RemoveIsDrop(rest, p);
      }
    }
  }

  lemma {:induction false} DropDistinct(cs: seq<Location>, p: Pattern)
    requires DistinctIds(cs)
    ensures DistinctIds(Drop(cs, p))
    ensures forall k :: k in Drop(cs, p) <==> k in cs && !Matches(p, k)
  {
    hide Matches;
    if cs != [] {
      var front, k := cs[..|cs|-1], cs[|cs|-1];
      DropDistinct(front, p);
      assert cs == front + [k];
      var kept := Drop(front, p);
      forall i | 0 <= i < |kept|
        ensures Fold(kept[i].id) != Fold(k.id)
      {
        assert kept[i] in front;
      }
    }
  }

  // ---- Clearing ----

  lemma {:induction false} RestOne(cs: seq<Location>, rsc: string, host: string, bans: bool, force: bool)
    ensures var p := ByAttrs(PreferId(rsc), if force then None else Some(host));
      var cs1 := Drop(cs, ByRule(rsc, host));
      var cs2 := if bans then Drop(cs1, ByAttrs(BanId(rsc, host), None)) else cs1;
      Drop(cs2, p) == Rest(cs, rsc, [host], bans, force)
  {
    if cs != [] {
      var front, k := cs[..|cs|-1], cs[|cs|-1];
      RestOne(front, rsc, host, bans, force);
      assert Cleared(k, rsc, [host], bans, force) <==> ClearedOn(k, rsc, host, bans, force);
      hide Matches, Cleared, BanId, PreferId;
      DropSplit(Drop(front, ByRule(rsc, host)), k, ByAttrs(BanId(rsc, host), None));
      var cs1 := Drop(front, ByRule(rsc, host));
      var cs2 := if bans then Drop(cs1, ByAttrs(BanId(rsc, host), None)) else cs1;
      DropSplit(cs2, k, ByAttrs(PreferId(rsc), if force then None else Some(host)));
    }
  }

  lemma DropSplit(cs: seq<Location>, k: Location, p: Pattern)
    ensures Drop(cs + [k], p) == Drop(cs, p) + (if Matches(p, k) then [] else [k])
    ensures Drop(cs + [], p) == Drop(cs, p)
  {
    assert (cs + [k])[..|cs|] == cs;
    assert cs + [] == cs;
  }

  lemma {:induction false} RestTwice(cs: seq<Location>, rsc: string, host: string, nodes: seq<string>, bans: bool, force: bool)
    ensures Rest(Rest(cs, rsc, [host], bans, force), rsc, nodes, bans, force) == Rest(cs, rsc, [host] + nodes, bans, force)
  {
    if cs != [] {
      var front, k := cs[..|cs|-1], cs[|cs|-1];
      RestTwice(front, rsc, host, nodes, bans, force);
      assert Cleared(k, rsc, [host] + nodes, bans, force)
          <==> Cleared(k, rsc, [host], bans, force) || Cleared(k, rsc, nodes, bans, force) by { hide ClearedOn; }
      hide Cleared;
      var kept := Rest(front, rsc, [host], bans, force);
      assert (kept + [k])[..|kept|] == kept && kept + [] == kept;
    }
  }

  lemma {:induction false} RestNone(cs: seq<Location>, rsc: string, bans: bool, force: bool)
    ensures Rest(cs, rsc, [], bans, force) == cs
  {
    if cs != [] {
      RestNone(cs[..|cs|-1], rsc, bans, force);
    }
  }

  lemma ClearHostExactly(s: Cib, rsc: string, host: string, bans: bool, force: bool, refuse: nat -> bool)
    requires DistinctIds(s.constraints)
    ensures var (s', ok) := ClearHost(s, rsc, host, bans, force, refuse);
      && DistinctIds(s'.constraints)
      && (ok ==> s'.constraints == Rest(s.constraints, rsc, [host], bans, force))
      && (!ok ==> s'.constraints == s.constraints || s'.constraints == Drop(s.constraints, ByRule(rsc, host)))
  {
    var cs := s.constraints;
    hide Matches, DistinctIds, BanId, PreferId, Drop, Rest, Remove;
    RemoveIsDrop(cs, ByRule(rsc, host));
    DropDistinct(cs, ByRule(rsc, host));
    var cs1 := Drop(cs, ByRule(rsc, host));
    RemoveIsDrop(cs1, ByAttrs(BanId(rsc, host), None));
    DropDistinct(cs1, ByAttrs(BanId(rsc, host), None));
    var cs2 := if bans then Drop(cs1, ByAttrs(BanId(rsc, host), None)) else cs1;
    RemoveIsDrop(cs2, ByAttrs(PreferId(rsc), if force then None else Some(host)));
    DropDistinct(cs2, ByAttrs(PreferId(rsc), if force then None else Some(host)));
    RestOne(cs, rsc, host, bans, force);
  }

  /** Clearing, when it succeeds, leaves exactly the constraints that none of the nodes clears, in their order;
      when it fails, it still has not taken away any other. */
  lemma {:induction false} ClearExactly(s: Cib, rsc: string, nodes: seq<string>, bans: bool, force: bool, refuse: nat -> bool)
    requires DistinctIds(s.constraints)
    ensures var (s', ok) := Clear(s, rsc, nodes, bans, force, refuse);
      && DistinctIds(s'.constraints)
      && (ok ==> s'.constraints == Rest(s.constraints, rsc, nodes, bans, force))
      && (forall k :: k in s'.constraints ==> k in s.constraints)
      && (forall k :: k in s.constraints && !Cleared(k, rsc, nodes, bans, force) ==> k in s'.constraints)
    decreases |nodes|
  {
    if nodes == [] {
      RestNone(s.constraints, rsc, bans, force);
    } else {
      var host, more := nodes[0], nodes[1..];
      assert nodes == [host] + more;
      ClearHostExactly(s, rsc, host, bans, force, refuse);
      var (s1, ok1) := ClearHost(s, rsc, host, bans, force, refuse);
      DropDistinct(s.constraints, ByRule(rsc, host));
      RestHas(s.constraints, rsc, [host], bans, force);
      assert host in nodes;
      forall k | !Cleared(k, rsc, nodes, bans, force)
        ensures !Matches(ByRule(rsc, host), k) && !Cleared(k, rsc, [host], bans, force) && !Cleared(k, rsc, more, bans, force)
      {
        assert !ClearedOn(k, rsc, host, bans, force);
        hide Matches;
      }
      hide Matches, DistinctIds, ClearHost, Cleared;
      if ok1 {
        RestTwice(s.constraints, rsc, host, more, bans, force);
        ClearExactly(s1, rsc, more, bans, force, refuse);
      }
    }
  }

  lemma {:induction false} RestHas(cs: seq<Location>, rsc: string, nodes: seq<string>, bans: bool, force: bool)
    ensures forall k :: k in Rest(cs, rsc, nodes, bans, force) <==> k in cs && !Cleared(k, rsc, nodes, bans, force)
  {
    hide Cleared;
    if cs != [] {
      RestHas(cs[..|cs|-1], rsc, nodes, bans, force);
      assert cs == cs[..|cs|-1] + [cs[|cs|-1]];
    }
  }

  // ---- Constraints that the tool has made ----

  function RuleId(ban: bool, rsc: string, host: string): string {
    if ban then BanId(rsc, host) + "-rule" else PreferRuleId(rsc)
  }

  function ExprId(ban: bool, rsc: string, host: string): string {
    if ban then BanId(rsc, host) + "-expr" else PreferExprId(rsc)
  }

  function EndId(ban: bool, rsc: string, host: string): string {
    if ban then BanId(rsc, host) + "-lifetime" else "cli-prefer-lifetime-end-" + rsc
  }

  /** A constraint as the tool makes them, without or with an end: all its parts have the IDs that the tool gives them. */
  predicate Shaped(k: Location, ban: bool, rsc: string, host: string) {
    && k.rsc == Some(rsc) && k.role.Some?
    && if k.rules == map[] then k.node == Some(host) && k.score == Some(ScoreOf(ban))
       else
         && k.node.None? && k.score.None? && k.rules.Keys == {RuleId(ban, rsc, host)}
         && k.rules[RuleId(ban, rsc, host)].score == Some(ScoreOf(ban))
         && k.rules[RuleId(ban, rsc, host)].unames == map[ExprId(ban, rsc, host) := host]
         && k.rules[RuleId(ban, rsc, host)].until.Keys == {EndId(ban, rsc, host)}
  }

  predicate MadeFor(k: Location, rsc: string, host: string) {
    || (k.id == BanId(rsc, host) && Shaped(k, true, rsc, host))
    || (k.id == PreferId(rsc) && Shaped(k, false, rsc, host))
  }

  ghost predicate Made(k: Location, rscs: set<string>, nodes: seq<string>) {
    exists rsc, host :: rsc in rscs && host in nodes && MadeFor(k, rsc, host)
  }

  /** The constraint IDs in question tell resources and nodes apart, and are not used for anything else. */
  ghost predicate Separate(base: seq<Location>, rscs: set<string>, nodes: seq<string>) {
    && DistinctIds(base)
    && (forall r, r', h, h' ::
          (r in rscs && r' in rscs && h in nodes && h' in nodes && Fold(BanId(r, h)) == Fold(BanId(r', h')))
          ==> r == r' && h == h')
    && (forall r, r' :: r in rscs && r' in rscs && Fold(PreferId(r)) == Fold(PreferId(r')) ==> r == r')
    && (forall k, r, h :: k in base && r in rscs && h in nodes ==> Fold(k.id) != Fold(BanId(r, h)))
    && (forall k, r :: k in base && r in rscs ==> Fold(k.id) != Fold(PreferId(r)))
  }

  /** The constraints there were, and besides them only such as the tool makes. */
  ghost predicate Ours(base: seq<Location>, cs: seq<Location>, rscs: set<string>, nodes: seq<string>) {
    && DistinctIds(cs)
    && (forall k :: k in base ==> k in cs)
    && (forall k :: k in cs ==> k in base || Made(k, rscs, nodes))
  }

  lemma BanIsNotPrefer(r: string, h: string, r': string)
    ensures Fold(BanId(r, h)) != Fold(PreferId(r'))
  {
    assert Fold(BanId(r, h))[4] == 'b' && Fold(PreferId(r'))[4] == 'p';
  }

  /** Constraints the tool has made are for the same resource, and node, whenever their IDs agree. */
  lemma SameMaker(base: seq<Location>, rscs: set<string>, nodes: seq<string>, k: Location, r: string, h: string, id: string)
    requires Separate(base, rscs, nodes) && (k in base || Made(k, rscs, nodes)) && r in rscs && h in nodes
    requires id == BanId(r, h) || id == PreferId(r)
    requires Fold(k.id) == Fold(id)
    ensures k.id == id && k !in base && k.rsc == Some(r)
    ensures id == BanId(r, h) ==> Shaped(k, true, r, h)
    ensures id == PreferId(r) ==> exists h' :: h' in nodes && Shaped(k, false, r, h')
  {
    var r', h' :| r' in rscs && h' in nodes && MadeFor(k, r', h');
    assert k.rsc == Some(r');
    hide Shaped, Fold, BanId, PreferId;
    BanIsNotPrefer(r, h, r');
    BanIsNotPrefer(r', h', r);
  }

  lemma TailDistinct(cs: seq<Location>)
    requires DistinctIds(cs) && cs != []
    ensures DistinctIds(cs[1..]) && forall c :: c in cs[1..] ==> c in cs && Fold(c.id) != Fold(cs[0].id)
  {
    hide Fold;
  }

  lemma HeadDistinct(first: Location, rest: seq<Location>)
    requires DistinctIds(rest) && forall c :: c in rest ==> Fold(c.id) != Fold(first.id)
    ensures DistinctIds([first] + rest)
  {
    hide Fold;
    assert forall j :: 0 <= j < |rest| ==> rest[j] in rest;
  }

  lemma {:induction false} PutHas(cs: seq<Location>, k: Location)
    requires DistinctIds(cs) && forall c :: c in cs && Fold(c.id) == Fold(k.id) ==> c.id == k.id
    ensures forall c :: c in Put(cs, k) <==> c == k || (c in cs && c.id != k.id)
    ensures DistinctIds(Put(cs, k))
  {
    if cs != [] {
      hide DistinctIds, Fold;
      var first, rest := cs[0], cs[1..];
      assert cs == [first] + rest && first in cs;
      TailDistinct(cs);
      if first.id != k.id {
        PutHas(rest, k);
        HeadDistinct(first, Put(rest, k));
      } else {
        HeadDistinct(k, rest);
      }
    }
  }

  /** The constraint a command asks for. */
  function Wish(ban: bool, rsc: string, host: string, life: Lifetime, role: string): Location {
    if ban then BanOf(rsc, host, life, role) else PreferOf(rsc, host, life, role)
  }

  lemma WishMade(ban: bool, rsc: string, host: string, life: Lifetime, role: string)
    requires !life.BadLifetime?
    ensures var u := Wish(ban, rsc, host, life, role);
      && u.id == (if ban then BanId(rsc, host) else PreferId(rsc)) && u.role == Some(role)
      && Shaped(u, ban, rsc, host) && Means(u, ban, rsc, host, role, life)
  {
    if life.Until? {
      var u, rule := Wish(ban, rsc, host, life, role), RuleId(ban, rsc, host);
      assert rule in u.rules && u.rules.Keys == {rule};
      assert ExprId(ban, rsc, host) in u.rules[rule].unames && EndId(ban, rsc, host) in u.rules[rule].until;
    }
  }

  /** Merging a wish into a constraint the tool has made gives what was wished for, or something that the schema
      forbids. */
  lemma MergeMade(k: Location, h: string, ban: bool, rsc: string, host: string, life: Lifetime, role: string)
    requires !life.BadLifetime? && Shaped(k, ban, rsc, h) && (ban ==> h == host)
    requires var u := Wish(ban, rsc, host, life, role); k.id == u.id && ValidLocation(MergeLocation(k, u))
    ensures var m := MergeLocation(k, Wish(ban, rsc, host, life, role));
      m.id == k.id && Shaped(m, ban, rsc, host) && Means(m, ban, rsc, host, role, life)
  {
    hide BanOf, PreferOf, MergeLocation, ValidLocation, Shaped, Means;
    if life.Until? {
      MergeUntil(k, h, ban, rsc, host, life.end, role);
    } else {
      MergeAlways(k, h, ban, rsc, host, role);
    }
  }

  lemma MergeAlways(k: Location, h: string, ban: bool, rsc: string, host: string, role: string)
    requires Shaped(k, ban, rsc, h) && (ban ==> h == host)
    requires var u := Wish(ban, rsc, host, Always, role); k.id == u.id && ValidLocation(MergeLocation(k, u))
    ensures var m := MergeLocation(k, Wish(ban, rsc, host, Always, role));
      m.id == k.id && Shaped(m, ban, rsc, host) && Means(m, ban, rsc, host, role, Always)
  {
    hide BanId, PreferId, PreferRuleId, PreferExprId, RuleId, ExprId, EndId;
    var u := Wish(ban, rsc, host, Always, role);
    assert u.rules == map[] && u.node == Some(host) && u.score == Some(ScoreOf(ban));
    var m := MergeLocation(k, u);
    assert m.node == Some(host) && m.rules == map[];
    assert forall id :: id in k.rules ==> id in m.rules;
  }

  lemma WishUntil(ban: bool, rsc: string, host: string, end: string, role: string)
    ensures var u := Wish(ban, rsc, host, Until(end), role);
      && u.rsc == Some(rsc) && u.role == Some(role) && u.node.None? && u.score.None?
      && u.rules == map[RuleId(ban, rsc, host) :=
                          Rule(Some(ScoreOf(ban)), map[ExprId(ban, rsc, host) := host], map[EndId(ban, rsc, host) := end])]
  {
    hide BanId, PreferId, PreferRuleId, PreferExprId;
  }

  lemma SameIds(ban: bool, rsc: string, h: string, host: string)
    requires ban ==> h == host
    ensures RuleId(ban, rsc, h) == RuleId(ban, rsc, host)
    ensures ExprId(ban, rsc, h) == ExprId(ban, rsc, host)
    ensures EndId(ban, rsc, h) == EndId(ban, rsc, host)
  {
    hide BanId, PreferRuleId, PreferExprId;
  }

  lemma MergeUntil(k: Location, h: string, ban: bool, rsc: string, host: string, date: string, role: string)
    requires Shaped(k, ban, rsc, h) && (ban ==> h == host)
    requires var u := Wish(ban, rsc, host, Until(date), role); k.id == u.id && ValidLocation(MergeLocation(k, u))
    ensures var m := MergeLocation(k, Wish(ban, rsc, host, Until(date), role));
      m.id == k.id && Shaped(m, ban, rsc, host) && Means(m, ban, rsc, host, role, Until(date))
  {
    hide Wish, RuleId, ExprId, EndId, ValidLocation, MergeRules, AppliesTo;
    var rule, expr, end := RuleId(ban, rsc, host), ExprId(ban, rsc, host), EndId(ban, rsc, host);
    SameIds(ban, rsc, h, host);
    WishUntil(ban, rsc, host, date, role);
    var u := Wish(ban, rsc, host, Until(date), role);
    MergedRule(k, u, rule, expr, end, h, host, date);
    OneRule(MergeLocation(k, u), rule, expr, end, host, ScoreOf(ban), date);
  }

  lemma MergedRule(k: Location, u: Location, rule: string, expr: string, end: string, h: string, host: string, date: string)
    requires u.rules.Keys == {rule} && u.rules[rule].unames == map[expr := host] && u.rules[rule].until == map[end := date]
    requires u.rules[rule].score.Some? && u.node.None? && u.score.None? && ValidLocation(MergeLocation(k, u))
    requires k.rules == map[] ==> k.node.Some?
    requires k.rules != map[] ==>
      k.rules.Keys == {rule} && k.rules[rule].unames == map[expr := h] && k.rules[rule].until.Keys == {end}
    ensures var m := MergeLocation(k, u);
      && m.rules.Keys == {rule} && m.node.None? && m.score.None? && m.rules[rule].score == u.rules[rule].score
      && m.rules[rule].unames == map[expr := host] && m.rules[rule].until == map[end := date]
  {
    var m := MergeLocation(k, u);
    assert rule in m.rules;
    assert k.rules != map[];
    assert m.rules.Keys == {rule};
    assert m.rules[rule].unames == map[expr := h] + map[expr := host] == map[expr := host];
    assert m.rules[rule].until == k.rules[rule].until + map[end := date] == map[end := date];
  }

  /** What a constraint with a single rule of that kind says. */
  lemma OneRule(m: Location, rule: string, expr: string, end: string, host: string, score: string, date: string)
    requires m.rules.Keys == {rule} && m.node.None? && m.score.None? && m.rules[rule].score == Some(score)
    requires m.rules[rule].unames == map[expr := host] && m.rules[rule].until == map[end := date]
    ensures AppliesTo(m, host, score, Until(date)) && m.rules != map[]
  {
    assert rule in m.rules && expr in m.rules[rule].unames && end in m.rules[rule].until;
    assert |m.rules.Keys| == 1;
  }

  /** One call made for a command. */
  lemma ModifyKeeps(base: seq<Location>, rscs: set<string>, nodes: seq<string>, s: Cib,
                    ban: bool, rsc: string, host: string, life: Lifetime, role: string, refuse: nat -> bool)
    requires Separate(base, rscs, nodes) && Ours(base, s.constraints, rscs, nodes) && rsc in rscs && host in nodes
    requires !life.BadLifetime?
    ensures var (s', ok) := Modify(s, Wish(ban, rsc, host, life, role), refuse);
      && Ours(base, s'.constraints, rscs, nodes)
      && (if ok then Holds(s.constraints, s'.constraints, ban, rsc, host, role, life) else s'.constraints == s.constraints)
  {
    hide Wish, Means, ValidLocation, Updated, MadeFor, Separate, Ours, Holds, Put, BanId, PreferId;
    var u := Wish(ban, rsc, host, life, role);
    if Modify(s, u, refuse).1 {
      WishMade(ban, rsc, host, life, role);
      UpdatedIsMeant(base, rscs, nodes, s.constraints, ban, rsc, host, life, role);
      PutKeeps(base, rscs, nodes, s.constraints, Updated(s.constraints, u), ban, rsc, host, life, role);
    }
  }

  lemma PutKeeps(base: seq<Location>, rscs: set<string>, nodes: seq<string>, cs: seq<Location>, k: Location,
                 ban: bool, rsc: string, host: string, life: Lifetime, role: string)
    requires Separate(base, rscs, nodes) && Ours(base, cs, rscs, nodes) && rsc in rscs && host in nodes
    requires k.id == if ban then BanId(rsc, host) else PreferId(rsc)
    requires MadeFor(k, rsc, host) && Means(k, ban, rsc, host, role, life)
    ensures Ours(base, Put(cs, k), rscs, nodes) && Holds(cs, Put(cs, k), ban, rsc, host, role, life)
  {
    hide BanId, PreferId, Means, Fold, DistinctIds, MadeFor, Separate, Put;
    forall c | c in cs && Fold(c.id) == Fold(k.id)
      ensures c.id == k.id && c !in base
    {
      SameMaker(base, rscs, nodes, c, rsc, host, k.id);
    }
    PutHas(cs, k);
    assert Made(k, rscs, nodes);
  }

  /** What a call leaves of the constraint, whether it was there before or not. */
  lemma UpdatedIsMeant(base: seq<Location>, rscs: set<string>, nodes: seq<string>, cs: seq<Location>,
                       ban: bool, rsc: string, host: string, life: Lifetime, role: string)
    requires Separate(base, rscs, nodes) && Ours(base, cs, rscs, nodes) && rsc in rscs && host in nodes && !life.BadLifetime?
    requires ValidLocation(Updated(cs, Wish(ban, rsc, host, life, role)))
    ensures var u := Wish(ban, rsc, host, life, role);
      Updated(cs, u).id == u.id && MadeFor(Updated(cs, u), rsc, host) && Means(Updated(cs, u), ban, rsc, host, role, life)
  {
    var u := Wish(ban, rsc, host, life, role);
    WishMade(ban, rsc, host, life, role);
    hide Wish, BanId, PreferId, Shaped, Means, ValidLocation, Fold, DistinctIds, MergeLocation, Separate, Made;
    var found := Find(cs, u.id);
    if found.Some? {
      SameMaker(base, rscs, nodes, found.value, rsc, host, u.id);
      var h :| Shaped(found.value, ban, rsc, h) && (ban ==> h == host);
      MergeMade(found.value, h, ban, rsc, host, life, role);
    }
  }

  /** The command's constraint is there, the only one of its ID, and says what the command is to bring about; all others
      are as before. */
  ghost predicate Holds(cs: seq<Location>, cs': seq<Location>, ban: bool, rsc: string, host: string, role: string, life: Lifetime) {
    var id := if ban then BanId(rsc, host) else PreferId(rsc);
    exists k: Location ::
      && k.id == id && MadeFor(k, rsc, host) && Means(k, ban, rsc, host, role, life)
      && forall c :: c in cs' <==> c == k || (c in cs && c.id != id)
  }

  /** The schema does not care about roles. */
  lemma RoleDoesNotMatter(cs: seq<Location>, u: Location, role: string)
    ensures ValidLocation(Updated(cs, u)) <==> ValidLocation(Updated(cs, u.(role := Some(role))))
  {
  }

  /** The role of a constraint: the promoted one is called by its old name if the CIB refuses the new one. */
  function RoleUsed(promotedOnly: bool, refused: bool): string {
    if !promotedOnly then "Started" else if refused then "Master" else "Promoted"
  }

  lemma CreateKeeps(base: seq<Location>, rscs: set<string>, nodes: seq<string>, s: Cib,
                    ban: bool, rsc: string, host: string, life: Lifetime, promotedOnly: bool, refuse: nat -> bool)
    requires Separate(base, rscs, nodes) && Ours(base, s.constraints, rscs, nodes) && rsc in rscs && host in nodes
    requires !life.BadLifetime?
    ensures var (s', ok) := Create(s, Wish(ban, rsc, host, life, RoleFor(promotedOnly)), refuse);
      && Ours(base, s'.constraints, rscs, nodes)
      && (if ok then Holds(s.constraints, s'.constraints, ban, rsc, host, RoleUsed(promotedOnly, refuse(s.calls)), life)
          else s'.constraints == s.constraints)
  {
    var role := RoleFor(promotedOnly);
    var u := Wish(ban, rsc, host, life, role);
    assert u.role == Some(role) && u.(role := Some(PROMOTED_LEGACY)) == Wish(ban, rsc, host, life, PROMOTED_LEGACY);
    RoleDoesNotMatter(s.constraints, u, PROMOTED_LEGACY);
    ModifyAccepts(s, u, refuse);
    var (s1, ok) := Modify(s, u, refuse);
    if !ok && promotedOnly { ModifyAccepts(s1, u.(role := Some(PROMOTED_LEGACY)), refuse); }
    hide Wish, Modify, Holds, Ours, Separate, ValidLocation, Updated;
    ModifyKeeps(base, rscs, nodes, s, ban, rsc, host, life, role, refuse);
    if !ok && promotedOnly {
      ModifyKeeps(base, rscs, nodes, s1, ban, rsc, host, life, PROMOTED_LEGACY, refuse);
    }
  }

  lemma ModifyAccepts(s: Cib, u: Location, refuse: nat -> bool)
    ensures var (s', ok) := Modify(s, u, refuse);
      && (ok <==> !refuse(s.calls) && ValidLocation(Updated(s.constraints, u))) && s'.calls == s.calls + 1
      && (!ok ==> s'.constraints == s.constraints)
  {
  }

  // ---- Histories ----

  datatype Command = Command(ban: bool, rsc: string, host: string, life: Lifetime, promotedOnly: bool)

  function Do(s: Cib, c: Command, refuse: nat -> bool): (Cib, bool) {
    if c.ban then Ban(s, c.rsc, c.host, c.life, c.promotedOnly, refuse)
    else Prefer(s, c.rsc, c.host, c.life, c.promotedOnly, refuse)
  }

  /** A history of commands, some of which may have failed. */
  function History(s: Cib, commands: seq<Command>, refuse: nat -> bool): Cib {
    if commands == [] then s else Do(History(s, commands[..|commands|-1], refuse), commands[|commands|-1], refuse).0
  }

  ghost predicate Known(commands: seq<Command>, rscs: set<string>, nodes: seq<string>) {
    forall c :: c in commands ==> c.rsc in rscs && c.host in nodes
  }

  lemma CommandKeeps(base: seq<Location>, rscs: set<string>, nodes: seq<string>, s: Cib, c: Command, refuse: nat -> bool)
    requires Separate(base, rscs, nodes) && Ours(base, s.constraints, rscs, nodes) && c.rsc in rscs && c.host in nodes
    ensures var (s', ok) := Do(s, c, refuse);
      && Ours(base, s'.constraints, rscs, nodes)
      && (if ok then Holds(s.constraints, s'.constraints, c.ban, c.rsc, c.host, RoleUsed(c.promotedOnly, refuse(s.calls)), c.life)
          else s'.constraints == s.constraints)
  {
    hide Create, Holds, Ours, Separate;
    if !c.life.BadLifetime? {
      CreateKeeps(base, rscs, nodes, s, c.ban, c.rsc, c.host, c.life, c.promotedOnly, refuse);
    }
  }

  /** The constraint says what one of the commands is to bring about. */
  ghost predicate FromOneOf(k: Location, commands: seq<Command>) {
    exists i, role :: 0 <= i < |commands| && MeansCommand(k, commands[i], role)
  }

  predicate MeansCommand(k: Location, c: Command, role: string) {
    && (role == "Started" || (c.promotedOnly && (role == "Promoted" || role == "Master")))
    && (c.promotedOnly ==> role != "Started")
    && Means(k, c.ban, c.rsc, c.host, role, c.life)
  }

  lemma StillFrom(k: Location, commands: seq<Command>)
    requires commands != [] && FromOneOf(k, commands[..|commands|-1])
    ensures FromOneOf(k, commands)
  {
    hide MeansCommand;
    var front := commands[..|commands|-1];
    var i, role :| 0 <= i < |front| && MeansCommand(k, front[i], role);
    assert MeansCommand(k, commands[i], role);
  }

  lemma {:induction false} HistoryKeeps(base: seq<Location>, rscs: set<string>, nodes: seq<string>, commands: seq<Command>, refuse: nat -> bool)
    requires Separate(base, rscs, nodes) && Known(commands, rscs, nodes)
    ensures var cs := History(Cib(base, 0), commands, refuse).constraints;
      Ours(base, cs, rscs, nodes) && forall k :: k in cs ==> k in base || FromOneOf(k, commands)
  {
    hide Do, Ours, FromOneOf;
    if commands == [] {
      assert Ours(base, base, rscs, nodes) by { OursAtFirst(base, rscs, nodes); }
    } else {
      var front, c := commands[..|commands|-1], commands[|commands|-1];
      assert c in commands;
      HistoryKeeps(base, rscs, nodes, front, refuse);
      var s := History(Cib(base, 0), front, refuse);
      CommandKeeps(base, rscs, nodes, s, c, refuse);
      var (s', ok) := Do(s, c, refuse);
      forall k | k in s'.constraints && k !in base ensures FromOneOf(k, commands) {
        if k in s.constraints {
          StillFrom(k, commands);
        } else {
          NewIsMeant(s.constraints, s'.constraints, commands, refuse(s.calls), k);
        }
      }
    }
  }

  lemma OursAtFirst(base: seq<Location>, rscs: set<string>, nodes: seq<string>)
    requires Separate(base, rscs, nodes)
    ensures Ours(base, base, rscs, nodes)
  {
  }

  lemma NewIsMeant(cs: seq<Location>, cs': seq<Location>, commands: seq<Command>, refused: bool, k: Location)
    requires commands != [] && k in cs' && k !in cs
    requires var c := commands[|commands|-1]; Holds(cs, cs', c.ban, c.rsc, c.host, RoleUsed(c.promotedOnly, refused), c.life)
    ensures FromOneOf(k, commands)
  {
    hide MadeFor, Means, BanId, PreferId;
    var c := commands[|commands|-1];
    assert MeansCommand(k, commands[|commands|-1], RoleUsed(c.promotedOnly, refused));
  }

  /** Of the constraints there can be, clearing a resource takes just those made for it. */
  lemma ClearsOwn(base: seq<Location>, rscs: set<string>, nodes: seq<string>, k: Location, rsc: string, force: bool)
    requires Separate(base, rscs, nodes) && rsc in rscs && (k in base || Made(k, rscs, nodes))
    ensures Cleared(k, rsc, nodes, true, force) <==> k !in base && k.rsc == Some(rsc)
  {
    if Cleared(k, rsc, nodes, true, force) {
      var h :| h in nodes && ClearedOn(k, rsc, h, true, force);
      var id := if Fold(k.id) == Fold(PreferId(rsc)) then PreferId(rsc) else BanId(rsc, h);
      SameMaker(base, rscs, nodes, k, rsc, h, id);
    }
    if k !in base && k.rsc == Some(rsc) {
      var r, h :| r in rscs && h in nodes && MadeFor(k, r, h);
      OwnIsCleared(k, rsc, h, force);
    }
  }

  lemma OwnIsCleared(k: Location, rsc: string, host: string, force: bool)
    requires MadeFor(k, rsc, host)
    ensures ClearedOn(k, rsc, host, true, force)
  {
    hide BanId, PreferId, PreferRuleId, PreferExprId;
    if k.id != BanId(rsc, host) && k.rules != map[] {
      assert PreferRuleId(rsc) in k.rules;
      assert PreferExprId(rsc) in k.rules[PreferRuleId(rsc)].unames;
    }
  }

  /** After any history of bans and preferences on known nodes, every constraint that was not there before says what one
      of the commands is to bring about. Clearing a resource on all nodes, if it succeeds,
      removes every constraint that was made for it, and nothing else. Even if it fails, it removes nothing else. */
  lemma ClearUndoesHistory(base: seq<Location>, rscs: set<string>, nodes: seq<string>, commands: seq<Command>,
                           rsc: string, force: bool, refuse: nat -> bool)
    requires Separate(base, rscs, nodes) && Known(commands, rscs, nodes) && rsc in rscs
    ensures var s := History(Cib(base, 0), commands, refuse);
      var (s', ok) := Clear(s, rsc, nodes, true, force, refuse);
      && (forall k :: k in base ==> k in s.constraints)
      && (forall k :: k in s.constraints ==> k in base || FromOneOf(k, commands))
      && (ok ==> forall k :: k in s'.constraints <==> k in base || (k in s.constraints && k.rsc != Some(rsc)))
      && (forall k :: k in s.constraints && (k in base || k.rsc != Some(rsc)) ==> k in s'.constraints)
      && (forall k :: k in s'.constraints ==> k in s.constraints)
  {
    hide FromOneOf;
    HistoryKeeps(base, rscs, nodes, commands, refuse);
    var s := History(Cib(base, 0), commands, refuse);
    ClearExactly(s, rsc, nodes, true, force, refuse);
    RestHas(s.constraints, rsc, nodes, true, force);
    forall k | k in s.constraints
      ensures Cleared(k, rsc, nodes, true, force) <==> k !in base && k.rsc == Some(rsc)
    {
      ClearsOwn(base, rscs, nodes, k, rsc, force);
    }
    hide Cleared, History, Clear, Separate;
  }

  /** Clearing one node, if it succeeds, takes away the ban from that node, if asked to, and the preference if it is for
      that node or the user insists; all other constraints stay. */
  lemma ClearNodeExactly(base: seq<Location>, rscs: set<string>, nodes: seq<string>, s: Cib, rsc: string, host: string,
                         bans: bool, force: bool, refuse: nat -> bool)
    requires Separate(base, rscs, nodes) && Ours(base, s.constraints, rscs, nodes) && rsc in rscs && host in nodes
    ensures var (s', ok) := ClearHost(s, rsc, host, bans, force, refuse);
      ok ==> forall k :: k in s'.constraints <==>
        && k in s.constraints && !(bans && k.id == BanId(rsc, host))
        && !(k.id == PreferId(rsc) && (force || Shaped(k, false, rsc, host)))
  {
    ClearHostExactly(s, rsc, host, bans, force, refuse);
    RestHas(s.constraints, rsc, [host], bans, force);
    hide ClearHost, Rest, Drop, DistinctIds;
    forall k | k in s.constraints
      ensures Cleared(k, rsc, [host], bans, force) <==>
        (bans && k.id == BanId(rsc, host)) || (k.id == PreferId(rsc) && (force || Shaped(k, false, rsc, host)))
    {
      OneCleared(base, rscs, nodes, k, rsc, host, bans, force);
    }
    hide Cleared, Shaped, BanId, PreferId, Separate, Made;
  }

  lemma OneCleared(base: seq<Location>, rscs: set<string>, nodes: seq<string>, k: Location, rsc: string, host: string, bans: bool, force: bool)
    requires Separate(base, rscs, nodes) && rsc in rscs && host in nodes && (k in base || Made(k, rscs, nodes))
    ensures Cleared(k, rsc, [host], bans, force) <==>
      (bans && k.id == BanId(rsc, host)) || (k.id == PreferId(rsc) && (force || Shaped(k, false, rsc, host)))
  {
    assert Cleared(k, rsc, [host], bans, force) <==> ClearedOn(k, rsc, host, bans, force) by {
      assert host in [host];
    }
    hide Cleared;
    BanIsNotPrefer(rsc, host, rsc);
    if Fold(k.id) == Fold(PreferId(rsc)) {
      SameMaker(base, rscs, nodes, k, rsc, host, PreferId(rsc));
      var h :| h in nodes && Shaped(k, false, rsc, h);
      PreferenceFor(base, rscs, nodes, k, rsc, h, host);
    } else if Fold(k.id) == Fold(BanId(rsc, host)) {
      SameMaker(base, rscs, nodes, k, rsc, host, BanId(rsc, host));
    }
  }

  /** Whom a preference is for, as far as the patterns for deleting it can tell. */
  lemma PreferenceFor(base: seq<Location>, rscs: set<string>, nodes: seq<string>, k: Location, rsc: string, h: string, host: string)
    requires Separate(base, rscs, nodes) && rsc in rscs && h in nodes && host in nodes && Shaped(k, false, rsc, h) && k.id == PreferId(rsc)
    ensures Matches(ByRule(rsc, host), k) || Matches(ByAttrs(PreferId(rsc), Some(host)), k) <==> h == host
    ensures Shaped(k, false, rsc, host) <==> h == host
  {
    if Fold(h) == Fold(host) {
      FoldedBanId(rsc, h);
      FoldedBanId(rsc, host);
      assert h == host;
    }
    hide Separate, Fold, PreferId;
    if k.rules != map[] {
      assert ExprId(false, rsc, h) in k.rules[RuleId(false, rsc, h)].unames;
    }
  }

  // ---- Moving ----

  /** Clearing never spoils what is known of the constraints. */
  lemma SubsetKeeps(base: seq<Location>, rscs: set<string>, nodes: seq<string>, cs: seq<Location>, cs': seq<Location>)
    requires Ours(base, cs, rscs, nodes) && DistinctIds(cs')
    requires (forall k :: k in cs' ==> k in cs) && (forall k :: k in base ==> k in cs')
    ensures Ours(base, cs', rscs, nodes)
  {
    hide Made, DistinctIds;
  }

  /** Clearing preferences only, or one node, keeps what is not a preference, or that node's ban. */
  lemma ClearedIds(k: Location, rsc: string, nodes: seq<string>, bans: bool, force: bool)
    requires Cleared(k, rsc, nodes, bans, force)
    ensures Fold(k.id) == Fold(PreferId(rsc)) || (bans && exists h :: h in nodes && Fold(k.id) == Fold(BanId(rsc, h)))
  {
    var h :| h in nodes && ClearedOn(k, rsc, h, bans, force);
  }

  ghost predicate HasId(cs: seq<Location>, id: string) {
    exists k :: k in cs && k.id == id
  }

  /** What a move has cleared before it states the preference. */
  ghost predicate SoFar(cs: seq<Location>, cs': seq<Location>, rsc: string, dest: string, unbanned: bool) {
    && (forall k :: k in cs' ==> k in cs)
    && (forall k :: k in cs && k.id != PreferId(rsc) && k.id != BanId(rsc, dest) ==> k in cs')
    && (forall k :: k in cs && k.id == BanId(rsc, dest) ==> (k in cs' <==> !unbanned))
  }

  lemma ClearBeforeMove(base: seq<Location>, rscs: set<string>, nodes: seq<string>, s: Cib, rsc: string, dest: string,
                        force: bool, refuse: nat -> bool)
    requires Separate(base, rscs, nodes) && Ours(base, s.constraints, rscs, nodes) && rsc in rscs && dest in nodes
    ensures var s1 := Clear(s, rsc, nodes, false, force, refuse).0;
      var (s2, unbanned) := ClearHost(s1, rsc, dest, true, force, refuse);
      Ours(base, s2.constraints, rscs, nodes) && SoFar(s.constraints, s2.constraints, rsc, dest, unbanned)
  {
    ClearExactly(s, rsc, nodes, false, force, refuse);
    var s1 := Clear(s, rsc, nodes, false, force, refuse).0;
    ClearHostExactly(s1, rsc, dest, true, force, refuse);
    var (s2, unbanned) := ClearHost(s1, rsc, dest, true, force, refuse);
    RestHas(s1.constraints, rsc, [dest], true, force);
    DropDistinct(s1.constraints, ByRule(rsc, dest));
    hide Clear, ClearHost, Rest, Drop, DistinctIds;
    forall k | k in s.constraints
      ensures Cleared(k, rsc, nodes, false, force) ==> k.id == PreferId(rsc) && k !in base
      ensures Cleared(k, rsc, [dest], true, force) ==> (k.id == PreferId(rsc) || k.id == BanId(rsc, dest)) && k !in base
      ensures k.id == BanId(rsc, dest) ==> Cleared(k, rsc, [dest], true, force) && !Matches(ByRule(rsc, dest), k)
      ensures Matches(ByRule(rsc, dest), k) ==> k.id == PreferId(rsc) && k !in base
    {
      ClearingOf(base, rscs, nodes, k, rsc, dest, force);
    }
    hide Cleared, Matches, Made, Separate, BanId, PreferId;
    BanIsNotPrefer(rsc, dest, rsc);
    SubsetKeeps(base, rscs, nodes, s.constraints, s2.constraints);
  }

  lemma ClearingOf(base: seq<Location>, rscs: set<string>, nodes: seq<string>, k: Location, rsc: string, dest: string, force: bool)
    requires Separate(base, rscs, nodes) && rsc in rscs && dest in nodes && (k in base || Made(k, rscs, nodes))
    ensures Cleared(k, rsc, nodes, false, force) ==> k.id == PreferId(rsc) && k !in base
    ensures Cleared(k, rsc, [dest], true, force) ==> (k.id == PreferId(rsc) || k.id == BanId(rsc, dest)) && k !in base
    ensures k.id == BanId(rsc, dest) ==> Cleared(k, rsc, [dest], true, force) && !Matches(ByRule(rsc, dest), k)
    ensures Matches(ByRule(rsc, dest), k) ==> k.id == PreferId(rsc) && k !in base
  {
    BanIsNotPrefer(rsc, dest, rsc);
    if Fold(k.id) == Fold(PreferId(rsc)) { SameMaker(base, rscs, nodes, k, rsc, dest, PreferId(rsc)); }
    if Fold(k.id) == Fold(BanId(rsc, dest)) { SameMaker(base, rscs, nodes, k, rsc, dest, BanId(rsc, dest)); }
    if Cleared(k, rsc, nodes, false, force) { ClearedIds(k, rsc, nodes, false, force); }
    if Cleared(k, rsc, [dest], true, force) { ClearedIds(k, rsc, [dest], true, force); }
    if k.id == BanId(rsc, dest) { assert dest in [dest] && ClearedOn(k, rsc, dest, true, force); }
  }

  /** The CIB accepts a command whose constraint is not there yet: the call made now or, for the promoted role, the next
      one. */
  predicate Accepts(life: Lifetime, promotedOnly: bool, calls: nat, refuse: nat -> bool) {
    !life.BadLifetime? && (!refuse(calls) || (promotedOnly && !refuse(calls + 1)))
  }

  /** Without force, a resource is not moved to where it is. Otherwise, a move that succeeds leaves one preference
      of the resource, which demands it to be at the destination. A ban from there is left exactly if there was one and
      the CIB refused one of the two calls that clear it, which does not make the move fail. With force, a ban from the
      current location is there exactly if it was before or the CIB accepts it. Nothing else changes. */
  lemma MoveLeaves(base: seq<Location>, rscs: set<string>, nodes: seq<string>, s: Cib, rsc: string, dest: string,
                   current: Option<string>, life: Lifetime, promotedOnly: bool, force: bool, refuse: nat -> bool)
    requires Separate(base, rscs, nodes) && Ours(base, s.constraints, rscs, nodes) && rsc in rscs && dest in nodes
    requires current.Some? ==> current.value in nodes
    ensures var s1 := Clear(s, rsc, nodes, false, force, refuse).0;
      var unbanned := !refuse(s1.calls) && !refuse(s1.calls + 1);
      var s2 := ClearHost(s1, rsc, dest, true, force, refuse).0;
      var s3 := Prefer(s2, rsc, dest, life, promotedOnly, refuse).0;
      var (s', ok) := Move(s, rsc, nodes, dest, current, life, promotedOnly, force, refuse);
      && Ours(base, s'.constraints, rscs, nodes)
      && (current == Some(dest) && !force ==> s' == s && !ok)
      && (ok ==> PrefersOnly(s'.constraints, rsc, dest, RoleUsed(promotedOnly, refuse(s2.calls)), life))
      && (force || current != Some(dest) ==> (HasId(s'.constraints, BanId(rsc, dest)) <==> HasId(s.constraints, BanId(rsc, dest)) && !unbanned))
      && (force && current.Some? && current.value != dest ==>
            && (HasId(s'.constraints, BanId(rsc, current.value)) <==>
                  HasId(s.constraints, BanId(rsc, current.value)) || Accepts(life, promotedOnly, s3.calls, refuse))
            && (!HasId(s.constraints, BanId(rsc, current.value)) && Accepts(life, promotedOnly, s3.calls, refuse) ==>
                  BansFrom(s'.constraints, rsc, current.value, RoleUsed(promotedOnly, refuse(s3.calls)), life)))
      && (!force && current.Some? && current.value != dest ==>
            (HasId(s'.constraints, BanId(rsc, current.value)) <==> HasId(s.constraints, BanId(rsc, current.value))))
      && (forall k: Location :: k.id != PreferId(rsc) && k.id != BanId(rsc, dest)
                      && (current.Some? ==> k.id != BanId(rsc, current.value))
                      ==> (k in s'.constraints <==> k in s.constraints))
  {
    hide Clear, ClearHost, Do, Ours, Separate, BanId, PreferId, Fold, Holds, SoFar, HasId, Prefer, Ban, PrefersOnly, BansFrom, Accepts;
    ClearBeforeMove(base, rscs, nodes, s, rsc, dest, force, refuse);
    var s1 := Clear(s, rsc, nodes, false, force, refuse).0;
    var (s2, unbanned) := ClearHost(s1, rsc, dest, true, force, refuse);
    ClearHostSucceeds(s1, rsc, dest, force, refuse);
    var prefer := Command(false, rsc, dest, life, promotedOnly);
    CommandKeeps(base, rscs, nodes, s2, prefer, refuse);
    var (s3, ok) := Do(s2, prefer, refuse);
    var role := RoleUsed(promotedOnly, refuse(s2.calls));
    PreferLeaves(s.constraints, s2.constraints, s3.constraints, rsc, dest, role, life, unbanned, ok);
    assert (s3, ok) == Prefer(s2, rsc, dest, life, promotedOnly, refuse) by { DoIs(s2, prefer, refuse); }
    if current.Some? && current.value != dest {
      BansDiffer(base, rscs, nodes, rsc, dest, current.value);
      OtherBanKept(s.constraints, s3.constraints, rsc, dest, current.value);
      if force {
        ForcedBan(base, rscs, nodes, s3, rsc, dest, current.value, life, promotedOnly, role, refuse);
      }
    }
  }

  lemma BansDiffer(base: seq<Location>, rscs: set<string>, nodes: seq<string>, rsc: string, dest: string, current: string)
    requires Separate(base, rscs, nodes) && rsc in rscs && dest in nodes && current in nodes && current != dest
    ensures BanId(rsc, dest) != BanId(rsc, current)
  {
    hide BanId, PreferId, DistinctIds;
  }

  lemma OtherBanKept(cs: seq<Location>, cs3: seq<Location>, rsc: string, dest: string, current: string)
    requires BanId(rsc, dest) != BanId(rsc, current)
    requires forall k: Location :: k.id != PreferId(rsc) && k.id != BanId(rsc, dest) ==> (k in cs3 <==> k in cs)
    ensures HasId(cs3, BanId(rsc, current)) <==> HasId(cs, BanId(rsc, current))
  {
    BanIsNotPrefer(rsc, current, rsc);
    hide BanId, PreferId, Fold;
  }

  /** What banning the resource from its current location adds to the move. */
  lemma ForcedBan(base: seq<Location>, rscs: set<string>, nodes: seq<string>, s3: Cib, rsc: string, dest: string, current: string,
                  life: Lifetime, promotedOnly: bool, role: string, refuse: nat -> bool)
    requires Separate(base, rscs, nodes) && Ours(base, s3.constraints, rscs, nodes)
    requires rsc in rscs && dest in nodes && current in nodes && current != dest
    ensures var s4 := Ban(s3, rsc, current, life, promotedOnly, refuse).0;
      && Ours(base, s4.constraints, rscs, nodes)
      && (PrefersOnly(s3.constraints, rsc, dest, role, life) ==> PrefersOnly(s4.constraints, rsc, dest, role, life))
      && (HasId(s4.constraints, BanId(rsc, dest)) <==> HasId(s3.constraints, BanId(rsc, dest)))
      && (HasId(s4.constraints, BanId(rsc, current)) <==> HasId(s3.constraints, BanId(rsc, current)) || Accepts(life, promotedOnly, s3.calls, refuse))
      && (!HasId(s3.constraints, BanId(rsc, current)) && Accepts(life, promotedOnly, s3.calls, refuse) ==>
            BansFrom(s4.constraints, rsc, current, RoleUsed(promotedOnly, refuse(s3.calls)), life))
      && (forall k: Location :: k.id != BanId(rsc, current) ==> (k in s4.constraints <==> k in s3.constraints))
  {
    hide Do, Ours, Separate, BanId, PreferId, Fold, Holds, HasId, Ban, PrefersOnly, BansFrom, Accepts;
    var ban := Command(true, rsc, current, life, promotedOnly);
    CommandKeeps(base, rscs, nodes, s3, ban, refuse);
    var (s4, banned) := Do(s3, ban, refuse);
    assert (s4, banned) == Ban(s3, rsc, current, life, promotedOnly, refuse) by { DoIs(s3, ban, refuse); }
    BansDiffer(base, rscs, nodes, rsc, dest, current);
    var role' := RoleUsed(promotedOnly, refuse(s3.calls));
    BanLeaves(s3.constraints, s4.constraints, rsc, dest, current, role', role, life, banned);
    if !HasId(s3.constraints, BanId(rsc, current)) {
      NewBanAccepted(s3, rsc, current, life, promotedOnly, refuse);
    } else {
      StillBanned(s3.constraints, s4.constraints, rsc, current, role', life, banned);
    }
  }

  lemma StillBanned(cs: seq<Location>, cs': seq<Location>, rsc: string, current: string, role: string, life: Lifetime, banned: bool)
    requires HasId(cs, BanId(rsc, current)) && if banned then Holds(cs, cs', true, rsc, current, role, life) else cs' == cs
    ensures HasId(cs', BanId(rsc, current))
  {
    hide BanId, PreferId, MadeFor, Means;
  }

  /** A ban that is not there yet is made exactly if the CIB accepts it. */
  lemma NewBanAccepted(s: Cib, rsc: string, host: string, life: Lifetime, promotedOnly: bool, refuse: nat -> bool)
    requires !HasId(s.constraints, BanId(rsc, host))
    ensures Ban(s, rsc, host, life, promotedOnly, refuse).1 <==> Accepts(life, promotedOnly, s.calls, refuse)
  {
    if !life.BadLifetime? {
      var u := BanOf(rsc, host, life, RoleFor(promotedOnly));
      var v := u.(role := Some(PROMOTED_LEGACY));
      assert u.id == BanId(rsc, host) && ValidLocation(u) && ValidLocation(v) && u.role == Some(RoleFor(promotedOnly)) by {
        if life.Until? { assert u.id + "-rule" in u.rules; }
      }
      hide BanId, BanOf, ValidLocation;
      assert Find(s.constraints, u.id).None?;
      assert Updated(s.constraints, u) == u && Updated(s.constraints, v) == v;
      hide Updated;
      ModifyAccepts(s, u, refuse);
      var s1 := Modify(s, u, refuse).0;
      assert !Modify(s, u, refuse).1 ==> s1.constraints == s.constraints;
      ModifyAccepts(s1, v, refuse);
      hide Modify;
    }
  }

  lemma ClearHostSucceeds(s: Cib, rsc: string, host: string, force: bool, refuse: nat -> bool)
    ensures ClearHost(s, rsc, host, true, force, refuse).1 <==> !refuse(s.calls) && !refuse(s.calls + 1)
  {
    hide Remove, RemoveForHost;
  }

  /** A move that succeeds and leaves the resource banned from where it is to go: the CIB refuses what is to clear
      constraints, and then accepts the preference. */
  lemma MoveCanLeaveBan() returns (s: Cib, refuse: nat -> bool)
    ensures var (s', ok) := Move(s, "r", ["a", "b"], "b", Some("a"), Always, false, false, refuse);
      && s.constraints == [BanOf("r", "b", Always, STARTED)] && ok
      && s'.constraints == s.constraints + [PreferOf("r", "b", Always, STARTED)]
  {
    var ban, prefer := BanOf("r", "b", Always, STARTED), PreferOf("r", "b", Always, STARTED);
    s, refuse := Cib([ban], 0), call => call < 2;
    assert Clear(s, "r", ["a", "b"], false, false, refuse) == (Cib([ban], 1), false);
    assert ClearHost(Cib([ban], 1), "r", "b", true, false, refuse) == (Cib([ban], 2), false);
    BanIsNotPrefer("r", "b", "r");
    hide BanId, PreferId;
    assert ban.id != prefer.id && [ban][1..] == [] && [ban] + [prefer] == [ban, prefer];
    assert Find([ban], prefer.id) == None && Put([ban], prefer) == [ban] + Put([], prefer);
    assert Modify(Cib([ban], 2), prefer, refuse) == (Cib([ban, prefer], 3), true);
  }

  lemma DoIs(s: Cib, c: Command, refuse: nat -> bool)
    ensures Do(s, c, refuse) == if c.ban then Ban(s, c.rsc, c.host, c.life, c.promotedOnly, refuse)
                                else Prefer(s, c.rsc, c.host, c.life, c.promotedOnly, refuse)
  {
  }

  /** One preference of the resource, which demands it to be at the destination. */
  ghost predicate PrefersOnly(cs: seq<Location>, rsc: string, dest: string, role: string, life: Lifetime) {
    exists k :: k in cs && k.id == PreferId(rsc) && Demands(k, rsc, dest, role, life)
                && forall c :: c in cs && c.id == PreferId(rsc) ==> c == k
  }

  /** One ban of the resource from the node, which forbids it there. */
  ghost predicate BansFrom(cs: seq<Location>, rsc: string, host: string, role: string, life: Lifetime) {
    exists k :: k in cs && k.id == BanId(rsc, host) && Forbids(k, rsc, host, role, life)
                && forall c :: c in cs && c.id == BanId(rsc, host) ==> c == k
  }

  /** What a command that succeeds leaves: exactly one constraint of its ID, which forbids or demands what it should. */
  lemma HoldsIs(cs: seq<Location>, cs': seq<Location>, ban: bool, rsc: string, host: string, role: string, life: Lifetime)
    requires Holds(cs, cs', ban, rsc, host, role, life)
    ensures if ban then BansFrom(cs', rsc, host, role, life) else PrefersOnly(cs', rsc, host, role, life)
  {
    hide BanId, PreferId, MadeFor, AppliesTo;
  }

  /** A ban that succeeds forbids the resource on the node, and is the only constraint of its ID, whatever was there
      before; a ban that fails changes nothing. */
  lemma BanForbids(base: seq<Location>, rscs: set<string>, nodes: seq<string>, s: Cib, rsc: string, host: string,
                   life: Lifetime, promotedOnly: bool, refuse: nat -> bool)
    requires Separate(base, rscs, nodes) && Ours(base, s.constraints, rscs, nodes) && rsc in rscs && host in nodes
    ensures var (s', ok) := Ban(s, rsc, host, life, promotedOnly, refuse);
      && (forall k: Location :: k.id != BanId(rsc, host) ==> (k in s'.constraints <==> k in s.constraints))
      && (if ok then BansFrom(s'.constraints, rsc, host, RoleUsed(promotedOnly, refuse(s.calls)), life)
          else s'.constraints == s.constraints)
  {
    hide Ban, Ours, Separate, BansFrom, BanId, PreferId;
    var c := Command(true, rsc, host, life, promotedOnly);
    CommandKeeps(base, rscs, nodes, s, c, refuse);
    DoIs(s, c, refuse);
    var (s', ok) := Ban(s, rsc, host, life, promotedOnly, refuse);
    if ok { HoldsIs(s.constraints, s'.constraints, true, rsc, host, RoleUsed(promotedOnly, refuse(s.calls)), life); }
  }

  /** A preference that succeeds demands the resource to be on the node, likewise. */
  lemma PreferDemands(base: seq<Location>, rscs: set<string>, nodes: seq<string>, s: Cib, rsc: string, host: string,
                      life: Lifetime, promotedOnly: bool, refuse: nat -> bool)
    requires Separate(base, rscs, nodes) && Ours(base, s.constraints, rscs, nodes) && rsc in rscs && host in nodes
    ensures var (s', ok) := Prefer(s, rsc, host, life, promotedOnly, refuse);
      && (forall k: Location :: k.id != PreferId(rsc) ==> (k in s'.constraints <==> k in s.constraints))
      && (if ok then PrefersOnly(s'.constraints, rsc, host, RoleUsed(promotedOnly, refuse(s.calls)), life)
          else s'.constraints == s.constraints)
  {
    hide Prefer, Ours, Separate, PrefersOnly, BanId, PreferId;
    var c := Command(false, rsc, host, life, promotedOnly);
    CommandKeeps(base, rscs, nodes, s, c, refuse);
    DoIs(s, c, refuse);
    var (s', ok) := Prefer(s, rsc, host, life, promotedOnly, refuse);
    if ok { HoldsIs(s.constraints, s'.constraints, false, rsc, host, RoleUsed(promotedOnly, refuse(s.calls)), life); }
  }

  lemma PreferLeaves(cs: seq<Location>, cs2: seq<Location>, cs3: seq<Location>, rsc: string, dest: string, role: string, life: Lifetime,
                     unbanned: bool, ok: bool)
    requires SoFar(cs, cs2, rsc, dest, unbanned) && if ok then Holds(cs2, cs3, false, rsc, dest, role, life) else cs3 == cs2
    ensures ok ==> PrefersOnly(cs3, rsc, dest, role, life)
    ensures HasId(cs3, BanId(rsc, dest)) <==> HasId(cs, BanId(rsc, dest)) && !unbanned
    ensures forall k: Location :: k.id != PreferId(rsc) && k.id != BanId(rsc, dest) ==> (k in cs3 <==> k in cs)
  {
    BanIsNotPrefer(rsc, dest, rsc);
    if ok { HoldsIs(cs2, cs3, false, rsc, dest, role, life); }
    hide BanId, PreferId, MadeFor, Means, PrefersOnly;
  }

  lemma BanLeaves(cs: seq<Location>, cs': seq<Location>, rsc: string, dest: string, current: string,
                  role: string, role0: string, life: Lifetime, banned: bool)
    requires BanId(rsc, dest) != BanId(rsc, current)
    requires if banned then Holds(cs, cs', true, rsc, current, role, life) else cs' == cs
    ensures PrefersOnly(cs, rsc, dest, role0, life) ==> PrefersOnly(cs', rsc, dest, role0, life)
    ensures HasId(cs', BanId(rsc, dest)) <==> HasId(cs, BanId(rsc, dest))
    ensures banned ==> BansFrom(cs', rsc, current, role, life) && HasId(cs', BanId(rsc, current))
    ensures forall k: Location :: k.id != BanId(rsc, current) ==> (k in cs' <==> k in cs)
  {
    BanIsNotPrefer(rsc, current, rsc);
    if banned { HoldsIs(cs, cs', true, rsc, current, role, life); }
    hide BanId, PreferId, MadeFor, Means, Demands;
  }

  // ---- When constraint IDs tell resources apart ----

  lemma FoldAppend(a: string, b: string)
    ensures Fold(a + b) == Fold(a) + Fold(b)
  {
  }

  lemma FoldedBanId(r: string, h: string)
    ensures Fold(BanId(r, h)) == "cli-ban-" + Fold(r) + "-on-" + Fold(h)
  {
    FoldAppend("cli-ban-" + r + "-on-", h);
    FoldAppend("cli-ban-" + r, "-on-");
    FoldAppend("cli-ban-", r);
    assert Fold("cli-ban-") == "cli-ban-" && Fold("-on-") == "-on-";
  }

  /** What the ID of a ban says of the resource, before it says anything of the node. */
  function BanStem(r: string): string {
    Fold(r) + "-on-"
  }

  lemma BanIdEnds(r: string, h: string)
    ensures Fold(BanId(r, h)) == "cli-ban-" + (BanStem(r) + Fold(h)) && Fold(BanId(r, h))[8..] == BanStem(r) + Fold(h)
  {
    FoldedBanId(r, h);
    hide Fold, BanId;
  }

  lemma StemIsFolded(r: string, i: nat)
    requires i <= |BanStem(r)|
    ensures Fold(BanStem(r)[i..]) == BanStem(r)[i..]
  {
    FoldIdempotent(r);
    FoldAppend(Fold(r), "-on-");
    assert Fold("-on-") == "-on-";
    assert Fold(BanStem(r)) == BanStem(r);
  }

  /** Node names for which the ban of one resource has the ID of another's. */
  lemma ClashingNode(r: string, r': string)
    requires BanStem(r) <= BanStem(r')
    ensures Fold(BanId(r, BanStem(r')[|BanStem(r)|..] + "n")) == Fold(BanId(r', "n"))
  {
    var h := BanStem(r')[|BanStem(r)|..];
    StemIsFolded(r', |BanStem(r)|);
    FoldAppend(h, "n");
    BanIdEnds(r, h + "n");
    BanIdEnds(r', "n");
    hide BanStem, BanId, Fold;
    assert BanStem(r) + h == BanStem(r');
    assert BanStem(r) + (h + Fold("n")) == BanStem(r') + Fold("n");
  }

  /** Bans with the same ID: one stem begins with the other, and if it is the same, so is the node. */
  lemma ClashingBans(r: string, r': string, h: string, h': string)
    requires Fold(BanId(r, h)) == Fold(BanId(r', h'))
    ensures BanStem(r) <= BanStem(r') || BanStem(r') <= BanStem(r)
    ensures r == r' ==> Fold(h) == Fold(h')
  {
    BanIdEnds(r, h);
    BanIdEnds(r', h');
    hide BanId, Fold, BanStem;
    SameBeginnings(BanStem(r), Fold(h), BanStem(r'), Fold(h'));
  }

  lemma SameBeginnings(x: string, y: string, x': string, y': string)
    requires x + y == x' + y'
    ensures x <= x' || x' <= x
    ensures x == x' ==> y == y'
  {
    var whole := x + y;
    assert whole[..|x|] == x && whole[..|x'|] == x' && whole[|x|..] == y && whole[|x'|..] == y';
    if |x| <= |x'| {
      assert whole[..|x'|][..|x|] == whole[..|x|];
    } else {
      assert whole[..|x|][..|x'|] == whole[..|x'|];
    }
  }

  /** Bans of two resources have the same ID, for some nodes, if and only if the name of one, with the separator, is
      how the name of the other, with the separator, begins. */
  lemma BanIdsClashIff(r: string, r': string)
    ensures (exists h, h' :: h != "" && h' != "" && Fold(BanId(r, h)) == Fold(BanId(r', h')))
       <==> BanStem(r) <= BanStem(r') || BanStem(r') <= BanStem(r)
  {
    hide BanId, Fold, BanStem;
    if h, h' :| h != "" && h' != "" && Fold(BanId(r, h)) == Fold(BanId(r', h')) {
      ClashingBans(r, r', h, h');
    }
    if BanStem(r) <= BanStem(r') {
      ClashingNode(r, r');
    } else if BanStem(r') <= BanStem(r) {
      ClashingNode(r', r);
    }
  }

  /** No resource's name, with the separator, is how another's begins; nodes differ apart from case; and no other
      constraint has an ID of the tool's: that is enough. */
  lemma SeparateWhenApart(base: seq<Location>, rscs: set<string>, nodes: seq<string>)
    requires DistinctIds(base)
    requires forall r, r' :: r in rscs && r' in rscs && r != r' ==> !(BanStem(r) <= BanStem(r'))
    requires forall h, h' :: h in nodes && h' in nodes && Fold(h) == Fold(h') ==> h == h'
    requires forall k :: k in base ==> !("cli-ban-" <= Fold(k.id)) && !("cli-prefer-" <= Fold(k.id))
    ensures Separate(base, rscs, nodes)
  {
    hide BanId, PreferId, Fold, BanStem;
    forall r, r', h, h' | r in rscs && r' in rscs && h in nodes && h' in nodes && Fold(BanId(r, h)) == Fold(BanId(r', h'))
      ensures r == r' && h == h'
    {
      ClashingBans(r, r', h, h');
    }
    forall r, r' | r in rscs && r' in rscs && Fold(PreferId(r)) == Fold(PreferId(r'))
      ensures r == r'
    {
      PreferIdEnds(r);
      PreferIdEnds(r');
      SameStem(r, r');
    }
    forall k, r, h | k in base && r in rscs && h in nodes
      ensures Fold(k.id) != Fold(BanId(r, h))
    {
      BanIdEnds(r, h);
    }
    forall k, r | k in base && r in rscs
      ensures Fold(k.id) != Fold(PreferId(r))
    {
      PreferIdEnds(r);
    }
  }

  lemma PreferIdEnds(r: string)
    ensures Fold(PreferId(r)) == "cli-prefer-" + Fold(r) && Fold(PreferId(r))[11..] == Fold(r)
  {
    FoldAppend("cli-prefer-", r);
    assert Fold("cli-prefer-") == "cli-prefer-";
  }

  lemma SameStem(r: string, r': string)
    requires Fold(r) == Fold(r')
    ensures BanStem(r) <= BanStem(r')
  {
  }

  /** Otherwise clearing one resource can take away the ban of another. */
  lemma ClearCanTakeAnothersBan()
    ensures BanId("a-on-b", "c") == BanId("a", "b-on-c")
    ensures var s := Ban(Cib([], 0), "a-on-b", "c", Always, false, _ => false).0;
      && |s.constraints| == 1 && s.constraints[0].rsc == Some("a-on-b")
      && Clear(s, "a", ["b-on-c"], true, false, _ => false) == (Cib([], 3), true)
  {
    var refuse: nat -> bool := _ => false;
    assert BanId("a-on-b", "c") == BanId("a", "b-on-c") == "cli-ban-a-on-b-on-c";
    var k := BanOf("a-on-b", "c", Always, STARTED);
    var s := Ban(Cib([], 0), "a-on-b", "c", Always, false, refuse).0;
    assert s == Cib([k], 1);
    BanIsNotPrefer("a", "b-on-c", "a");
    assert !Matches(ByRule("a", "b-on-c"), k);
    assert Remove([k], ByRule("a", "b-on-c")) == [k];
    assert Matches(ByAttrs(BanId("a", "b-on-c"), None), k);
    assert Remove([k], ByAttrs(BanId("a", "b-on-c"), None)) == [];
    assert RemoveForHost([k], "a", "b-on-c", true, false) == [];
    assert ["b-on-c"][1..] == [];
  }
}
