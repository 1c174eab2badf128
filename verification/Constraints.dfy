/** The location constraints that crm_resource creates and clears (tools/crm_resource_ban.c, and the move
    command of tools/crm_resource_runtime.c), on the CIB's list of location constraints. */
module Constraints {
  import opened Common

  /** A rule: its score, and the node names its expressions ask for and the dates at which it ends, by element ID. It
      applies if all of them do. */
  datatype Rule = Rule(score: Option<string>, unames: map<string, string>, until: map<string, string>)

  datatype Location = Location(
    id: string,
    rsc: Option<string>,
    role: Option<string>,
    node: Option<string>,
    score: Option<string>,
    rules: map<string, Rule>)

  /** The constraints, in document order, and the number of CIB calls made. */
  datatype Cib = Cib(constraints: seq<Location>, calls: nat)

  /** How long a constraint is to last: for good, until a date, or not a valid duration. */
  datatype Lifetime = Always | Until(end: string) | BadLifetime

  const STARTED := "Started"
  const PROMOTED := "Promoted"
  const PROMOTED_LEGACY := "Master"
  const INFINITY := "INFINITY"
  const MINUS_INFINITY := "-INFINITY"

  function BanId(rsc: string, host: string): string { "cli-ban-" + rsc + "-on-" + host }
  function PreferId(rsc: string): string { "cli-prefer-" + rsc }
  function PreferRuleId(rsc: string): string { "cli-prefer-rule-" + rsc }
  function PreferExprId(rsc: string): string { "cli-prefer-expr-" + rsc }

  // ---- The CIB's part ----

  function MergeRule(k: Rule, u: Rule): Rule {
    Rule(OrElse(u.score, k.score), k.unames + u.unames, k.until + u.until)
  }

  function MergeRules(ks: map<string, Rule>, us: map<string, Rule>): map<string, Rule> {
    map id | id in ks.Keys + us.Keys ::
      if id in ks && id in us then MergeRule(ks[id], us[id]) else if id in us then us[id] else ks[id]
  }

  /** A change is merged into an existing constraint: what it does not mention stays. */
  function MergeLocation(k: Location, u: Location): Location {
    Location(k.id, OrElse(u.rsc, k.rsc), OrElse(u.role, k.role), OrElse(u.node, k.node), OrElse(u.score, k.score),
             MergeRules(k.rules, u.rules))
  }

  /** The schema allows a node with a score, or rules, but not both. */
  predicate ValidLocation(k: Location) {
    if k.rules == map[] then k.node.Some? && k.score.Some? else k.node.None? && k.score.None?
  }

  function Find(cs: seq<Location>, id: string): (k: Option<Location>)
    ensures k.Some? ==> k.value in cs && k.value.id == id
    ensures k.None? ==> forall c :: c in cs ==> c.id != id
  {
    if cs == [] then None else if cs[0].id == id then Some(cs[0]) else Find(cs[1..], id)
  }

  /** Replace the constraint with the same ID, or add one. */
  function Put(cs: seq<Location>, k: Location): seq<Location> {
    if cs == [] then [k] else if cs[0].id == k.id then [k] + cs[1..] else [cs[0]] + Put(cs[1..], k)
  }

  function Updated(cs: seq<Location>, u: Location): Location {
    match Find(cs, u.id) case None => u case Some(k) => MergeLocation(k, u)
  }

  function Modify(s: Cib, u: Location, refuse: nat -> bool): (Cib, bool) {
    var k := Updated(s.constraints, u);
    var ok := !refuse(s.calls) && ValidLocation(k);
    (Cib(if ok then Put(s.constraints, k) else s.constraints, s.calls + 1), ok)
  }

  /** What to delete: a constraint with given attributes (compared without regard to case), or a resource's
      preference with a rule for a node. */
  datatype Pattern = ByAttrs(id: string, node: Option<string>) | ByRule(rsc: string, host: string)

  predicate Matches(p: Pattern, k: Location) {
    match p
    case ByAttrs(id, node) => Fold(k.id) == Fold(id) && (node.Some? ==> SameText(k.node, node))
    case ByRule(rsc, host) =>
      && k.id == PreferId(rsc) && PreferRuleId(rsc) in k.rules
      && exists e :: e in k.rules[PreferRuleId(rsc)].unames && k.rules[PreferRuleId(rsc)].unames[e] == host
  }

  /** Delete the first match. */
  function Remove(cs: seq<Location>, p: Pattern): seq<Location> {
    if cs == [] then [] else if Matches(p, cs[0]) then cs[1..] else [cs[0]] + Remove(cs[1..], p)
  }

  // ---- The commands ----

  function BanOf(rsc: string, host: string, life: Lifetime, role: string): Location {
    var id := BanId(rsc, host);
    if life.Until?
    then Location(id, Some(rsc), Some(role), None, None,
                  map[id + "-rule" := Rule(Some(MINUS_INFINITY), map[id + "-expr" := host], map[id + "-lifetime" := life.end])])
    else Location(id, Some(rsc), Some(role), Some(host), Some(MINUS_INFINITY), map[])
  }

  function PreferOf(rsc: string, host: string, life: Lifetime, role: string): Location {
    if life.Until?
    then Location(PreferId(rsc), Some(rsc), Some(role), None, None,
                  map[PreferRuleId(rsc) := Rule(Some(INFINITY), map[PreferExprId(rsc) := host],
                                                map["cli-prefer-lifetime-end-" + rsc := life.end])])
    else Location(PreferId(rsc), Some(rsc), Some(role), Some(host), Some(INFINITY), map[])
  }

  /** A constraint for the promoted role is tried again under the role's old name. */
  function Create(s: Cib, u: Location, refuse: nat -> bool): (Cib, bool) {
    var (s', ok) := Modify(s, u, refuse);
    if !ok && u.role == Some(PROMOTED) then Modify(s', u.(role := Some(PROMOTED_LEGACY)), refuse) else (s', ok)
  }

  function RoleFor(promotedOnly: bool): string {
    if promotedOnly then PROMOTED else STARTED
  }

  function Ban(s: Cib, rsc: string, host: string, life: Lifetime, promotedOnly: bool, refuse: nat -> bool): (Cib, bool) {
    if life.BadLifetime? then (s, false) else Create(s, BanOf(rsc, host, life, RoleFor(promotedOnly)), refuse)
  }

  function Prefer(s: Cib, rsc: string, host: string, life: Lifetime, promotedOnly: bool, refuse: nat -> bool): (Cib, bool) {
    if life.BadLifetime? then (s, false) else Create(s, PreferOf(rsc, host, life, RoleFor(promotedOnly)), refuse)
  }

  function RemoveForHost(cs: seq<Location>, rsc: string, host: string, bans: bool, force: bool): seq<Location> {
    var cs' := if bans then Remove(cs, ByAttrs(BanId(rsc, host), None)) else cs;
    Remove(cs', ByAttrs(PreferId(rsc), if force then None else Some(host)))
  }

  function ClearHost(s: Cib, rsc: string, host: string, bans: bool, force: bool, refuse: nat -> bool): (Cib, bool) {
    if refuse(s.calls) then (s.(calls := s.calls + 1), false) else
      var cs := Remove(s.constraints, ByRule(rsc, host));
      if refuse(s.calls + 1) then (Cib(cs, s.calls + 2), false)
      else (Cib(RemoveForHost(cs, rsc, host, bans, force), s.calls + 2), true)
  }

  /** Clear one node after the other, up to the first error. */
  function Clear(s: Cib, rsc: string, nodes: seq<string>, bans: bool, force: bool, refuse: nat -> bool): (Cib, bool)
    decreases |nodes|
  {
    if nodes == [] then (s, true) else
      var (s', ok) := ClearHost(s, rsc, nodes[0], bans, force, refuse);
      if ok then Clear(s', rsc, nodes[1..], bans, force, refuse) else (s', false)
  }

  /** Move a resource to `dest`: clear its preferences and its ban from there, prefer it there, and with force
      ban it from where it is (`current`, unless that is `dest`). Only the preference decides about success.
      Without force there is nothing to do for a resource that is at `dest`, and that counts as an error. */
  function Move(s: Cib, rsc: string, nodes: seq<string>, dest: string, current: Option<string>, life: Lifetime,
                promotedOnly: bool, force: bool, refuse: nat -> bool): (Cib, bool)
  {
    if current == Some(dest) && !force then (s, false) else
      var s1 := Clear(s, rsc, nodes, false, force, refuse).0;
      var s2 := ClearHost(s1, rsc, dest, true, force, refuse).0;
      var (s3, ok) := Prefer(s2, rsc, dest, life, promotedOnly, refuse);
      if force && current.Some? && current.value != dest
      then (Ban(s3, rsc, current.value, life, promotedOnly, refuse).0, ok)
      else (s3, ok)
  }
}
