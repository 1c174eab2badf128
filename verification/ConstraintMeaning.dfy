/** What a location constraint says, whatever it is called. */
module ConstraintMeaning {
  import opened Common
  import opened Constraints

  /** A rule for that node and nothing else, in force until that date. */
  predicate RuleFor(r: Rule, host: string, score: string, end: string) {
    && r.score == Some(score)
    && r.unames != map[] && (forall e :: e in r.unames ==> r.unames[e] == host)
    && r.until != map[] && (forall d :: d in r.until ==> r.until[d] == end)
  }

  /** The constraint gives the node that score: for good, or by a single rule until that date. */
  predicate AppliesTo(k: Location, host: string, score: string, life: Lifetime) {
    match life
    case Always => k.node == Some(host) && k.score == Some(score) && k.rules == map[]
    case Until(end) =>
      k.node.None? && k.score.None? && |k.rules| == 1 && forall id :: id in k.rules ==> RuleFor(k.rules[id], host, score, end)
    case BadLifetime => false
  }

  /** The resource must not be in that role on the node. */
  predicate Forbids(k: Location, rsc: string, host: string, role: string, life: Lifetime) {
    k.rsc == Some(rsc) && k.role == Some(role) && AppliesTo(k, host, "-INFINITY", life)
  }

  /** The resource is to be in that role on the node if at all possible. */
  predicate Demands(k: Location, rsc: string, host: string, role: string, life: Lifetime) {
    k.rsc == Some(rsc) && k.role == Some(role) && AppliesTo(k, host, "INFINITY", life)
  }

  function ScoreOf(ban: bool): string {
    if ban then "-INFINITY" else "INFINITY"
  }

  /** What a ban, or a preference, is to say. */
  predicate Means(k: Location, ban: bool, rsc: string, host: string, role: string, life: Lifetime) {
    if ban then Forbids(k, rsc, host, role, life) else Demands(k, rsc, host, role, life)
  }
}
