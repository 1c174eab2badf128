/** The first half of restarting a resource: stop it by setting its target role, wait until all resources have
    stopped that should, and put the target role back (cli_resource_restart() in tools/crm_resource_runtime.c). */
module Restart {
  import opened Common
  import TargetRole

  /** A resource other than a group counts as a whole. */
  datatype Resource = Whole(id: string, running: bool) | Group(members: seq<Resource>)

  /** The active resources, groups being expanded to their members. */
  function ActiveIn(resources: seq<Resource>): seq<string> {
    if resources == [] then [] else ActiveIn(resources[..|resources|-1]) + Active(resources[|resources|-1])
  }

  function Active(r: Resource): seq<string> {
    match r
    case Whole(id, running) => if running then [id] else []
    case Group(members) => ActiveIn(members)
  }

  function Subtract(items: seq<string>, others: seq<string>): (r: seq<string>)
    ensures forall x :: x in r <==> x in items && x !in others
    ensures |r| <= |items|
  {
    if items == [] then []
    else Subtract(items[..|items|-1], others) + (if items[|items|-1] in others then [] else [items[|items|-1]])
  }

  /** What happens around the tool: the resources each time it looks (unless it cannot find out), those predicted
      to stay active, and how often it may look before some of the others must have stopped, which is estimated
      from what it last saw. */
  datatype World = World(poll: nat -> Option<seq<Resource>>, target: seq<string>, steps: (nat, seq<string>) -> nat)

  /** What is seen active at one look. */
  function Seen(w: World, look: nat): Option<seq<string>> {
    match w.poll(look) case None => None case Some(resources) => Some(ActiveIn(resources))
  }

  datatype Exit = Stopped | TimedOut | Blind

  /** Where the waiting stands: the active resources last seen, and the number of looks so far. */
  datatype Wait = Wait(active: seq<string>, looks: nat)

  function Delta(w: World, active: seq<string>): seq<string> {
    Subtract(active, w.target)
  }

  /** Look until all have stopped, as often as allowed. */
  function Round(w: World, s: Wait, left: nat): (Wait, bool)
    decreases left
  {
    if left == 0 || Delta(w, s.active) == [] then (s, true)
    else match Seen(w, s.looks)
      case None => (Wait(s.active, s.looks + 1), false)
      case Some(active) => Round(w, Wait(active, s.looks + 1), left - 1)
  }

  /** Round after round, as long as the number still to stop changes. The waiting counts as endless (`None`) if it
      takes more than the given number of rounds. */
  function Rounds(w: World, s: Wait, rounds: nat): Option<(Wait, Exit)>
    decreases rounds
  {
    var delta := Delta(w, s.active);
    if delta == [] then Some((s, Stopped))
    else if rounds == 0 then None
    else
      var (s', seen) := Round(w, s, w.steps(s.looks, delta));
      if !seen then Some((s', Blind))
      else if |Delta(w, s'.active)| == |delta| then Some((s', TimedOut))
      else Rounds(w, s', rounds - 1)
  }

  // ---- The tool at work ----

  class Restarter {
    const rsc: string
    var pairs: seq<TargetRole.Pair>   // the name/value pairs below the resource in the CIB
    var active: seq<string>
    var looks: nat

    constructor (rsc: string, pairs: seq<TargetRole.Pair>, active: seq<string>)
      ensures this.rsc == rsc && this.pairs == pairs && this.active == active && looks == 0
    {
      this.rsc, this.pairs, this.active, looks := rsc, pairs, active, 0;
    }

    /** Go through the pairs for those named like the target role. */
    method FindRole(metaOnly: bool) returns (l: TargetRole.Look)
      ensures l == TargetRole.FindRole(pairs, metaOnly)
    {
      var count, first: nat := 0, |pairs|;
      assert pairs[..0] == [];
      for i := 0 to |pairs|
        invariant count == TargetRole.CountRoles(pairs[..i], metaOnly)
        invariant count == 0 ==> first == |pairs| && forall j :: 0 <= j < i ==> !TargetRole.IsRole(pairs[j], metaOnly)
        invariant count > 0 ==> first < i && TargetRole.IsRole(pairs[first], metaOnly)
                                && forall j :: 0 <= j < first ==> !TargetRole.IsRole(pairs[j], metaOnly)
      {
        TargetRole.CountNext(pairs, i, metaOnly);
        if TargetRole.IsRole(pairs[i], metaOnly) {
          if count == 0 { first := i; }
          count := count + 1;
        }
      }
      assert pairs[..|pairs|] == pairs;
      if count == 0 { return TargetRole.Absent; }
      if count > 1 { return TargetRole.Several; }
      return TargetRole.One(first);
    }

    method SetRole(value: string, refused: bool) returns (ok: bool)
      modifies `pairs
      ensures (pairs, ok) == TargetRole.SetRole(old(pairs), rsc, value, refused)
    {
      hide TargetRole.FindRole, TargetRole.RoleId, TargetRole.MetaSetId;
      var l := FindRole(true);
      if l.Several? || refused { return false; }
      if l.One? {
        pairs := pairs[l.index := pairs[l.index].(value := value)];
        return true;
      }
      var i, id := 0, TargetRole.RoleId(rsc);
      while i < |pairs| && pairs[i].id != id
        invariant 0 <= i <= |pairs| && forall j :: 0 <= j < i ==> pairs[j].id != id
      {
        i := i + 1;
      }
      if i == |pairs| {
        pairs := pairs + [TargetRole.Pair(true, TargetRole.MetaSetId(rsc), id, TargetRole.ROLE, value)];
      } else if pairs[i].meta && pairs[i].setId == TargetRole.MetaSetId(rsc) {
        pairs := pairs[i := pairs[i].(name := TargetRole.ROLE, value := value)];
      } else {
        return false;
      }
      return true;
    }

    method DeleteRole(refused: bool) returns (ok: bool)
      modifies `pairs
      ensures (pairs, ok) == TargetRole.DeleteRole(old(pairs), refused)
    {
      hide TargetRole.FindRole;
      var l := FindRole(true);
      if !l.One? || refused { return false; }
      pairs := pairs[..l.index] + pairs[l.index+1..];
      return true;
    }

    method Restore(original: Option<string>, refused: bool) returns (ok: bool)
      modifies `pairs
      ensures (pairs, ok) == TargetRole.Restore(old(pairs), rsc, original, refused)
    {
      hide TargetRole.SetRole, TargetRole.DeleteRole;
      if original.Some? { ok := SetRole(original.value, refused); } else { ok := DeleteRole(refused); }
    }

    /** The inner loop: look again and again, but not more often than allowed. */
    method Poll(w: World, steps: nat) returns (seen: bool)
      modifies `active, `looks
      ensures (Wait(active, looks), seen) == Round(w, Wait(old(active), old(looks)), steps)
    {
      hide Subtract, ActiveIn;
      var i := 0;
      while i < steps && Subtract(active, w.target) != []
        invariant 0 <= i <= steps
        invariant Round(w, Wait(old(active), old(looks)), steps) == Round(w, Wait(active, looks), steps - i)
      {
        var now := w.poll(looks);
        looks := looks + 1;
        if now.None? { return false; }
        active := ActiveIn(now.value);
        i := i + 1;
      }
      return true;
    }

    /** The outer loop, whenever it ends at all. */
    method AwaitStop(w: World, ghost rounds: nat) returns (exit: Exit)
      requires Rounds(w, Wait(active, looks), rounds).Some?
      modifies `active, `looks
      ensures Rounds(w, Wait(old(active), old(looks)), rounds) == Some((Wait(active, looks), exit))
    {
      hide Round;
      ghost var left := rounds;
      var delta := Subtract(active, w.target);
      while delta != []
        invariant delta == Delta(w, active)
        invariant Rounds(w, Wait(old(active), old(looks)), rounds) == Rounds(w, Wait(active, looks), left)
        decreases left
      {
        var before, steps := |delta|, w.steps(looks, delta);
        var seen := Poll(w, steps);
        if !seen { return Blind; }
        delta := Subtract(active, w.target);
        if before == |delta| { return TimedOut; }
        left := left - 1;
      }
      return Stopped;
    }

    /** Stop the resource and put its target role back, which every exit tries. The CIB may refuse to set the role
        or to put it back, and it may not be possible to predict what will stop. The waiting is to end. */
    method StopPhase(w: World, refuseStop: bool, canPredict: bool, refuseRestore: bool, ghost rounds: nat)
      returns (ok: bool, exit: Exit)
      requires !TargetRole.CannotSet(pairs, rsc, refuseStop) && canPredict ==> Rounds(w, Wait(active, looks), rounds).Some?
      modifies this
      ensures pairs == TargetRole.StopAndRestore(old(pairs), rsc, refuseStop, refuseRestore).0
      ensures ok <==> TargetRole.StopAndRestore(old(pairs), rsc, refuseStop, refuseRestore).1 && canPredict && exit.Stopped?
      ensures !TargetRole.CannotSet(old(pairs), rsc, refuseStop) && canPredict ==>
        Rounds(w, Wait(old(active), old(looks)), rounds) == Some((Wait(active, looks), exit))
      ensures ok ==> forall x :: x in active ==> x in w.target
    {
      hide TargetRole.FindRole, TargetRole.SetRole, TargetRole.Restore, TargetRole.CannotSet, Rounds;
      exit := Blind;
      var found := FindRole(false);
      var original := if found.One? then Some(pairs[found.index].value) else None;
      var stopped := SetRole(TargetRole.STOPPED, refuseStop);
      TargetRole.SetsUnlessCannot(old(pairs), rsc, TargetRole.STOPPED, refuseStop);
      if !stopped {
        TargetRole.NotSet(old(pairs), rsc, TargetRole.STOPPED, refuseStop);
        return false, exit;
      }
      if canPredict {
        exit := AwaitStop(w, rounds);
        StoppedMeansTarget(w, Wait(old(active), old(looks)), rounds);
      }
      var restored := Restore(original, refuseRestore);
      ok := canPredict && exit.Stopped? && restored;
    }
  }

  // ---- What is promised ----

  predicate HasRunning(r: Resource, id: string) {
    match r
    case Whole(x, running) => running && x == id
    case Group(members) => exists m :: m in members && HasRunning(m, id)
  }

  /** A resource counts as active exactly if it runs, however deep it sits in groups. */
  lemma {:induction false} ActiveIffRunning(resources: seq<Resource>, id: string)
    ensures id in ActiveIn(resources) <==> exists r :: r in resources && HasRunning(r, id)
    decreases resources, 1
  {
    if resources != [] {
      var front, last := resources[..|resources|-1], resources[|resources|-1];
      ActiveIffRunning(front, id);
      RunningIffActive(last, id);
      assert resources == front + [last];
    }
  }

  lemma {:induction false} RunningIffActive(r: Resource, id: string)
    ensures id in Active(r) <==> HasRunning(r, id)
    decreases r, 0
  {
    if r.Group? {
      ActiveIffRunning(r.members, id);
    }
  }

  ghost predicate NoDuplicates(xs: seq<string>) {
    forall i, j :: 0 <= i < j < |xs| ==> xs[i] != xs[j]
  }

  ghost predicate Within(xs: seq<string>, ys: seq<string>) {
    forall x :: x in xs ==> x in ys
  }

  /** No look shows a resource active that was not active before. */
  ghost predicate NeverGrows(w: World, s: Wait) {
    && NoDuplicates(s.active)
    && (forall k :: k >= s.looks && Seen(w, k).Some? ==> NoDuplicates(Seen(w, k).value) && Within(Seen(w, k).value, s.active))
    && (forall k, l :: s.looks <= k < l && Seen(w, k).Some? && Seen(w, l).Some? ==> Within(Seen(w, l).value, Seen(w, k).value))
  }

  lemma {:induction false} SubtractDistinct(items: seq<string>, others: seq<string>)
    requires NoDuplicates(items)
    ensures NoDuplicates(Subtract(items, others))
  {
    if items != [] {
      SubtractDistinct(items[..|items|-1], others);
      var r, x := Subtract(items[..|items|-1], others), items[|items|-1];
      forall i | 0 <= i < |r|
        ensures r[i] != x
      {
        assert r[i] in r;
      }
    }
  }

  lemma {:induction false} FewerWithin(xs: seq<string>, ys: seq<string>)
    requires NoDuplicates(xs) && Within(xs, ys)
    ensures |xs| <= |ys|
  {
    if xs != [] {
      var x := xs[|xs|-1];
      assert x in xs;
      var j :| 0 <= j < |ys| && ys[j] == x;
      var rest := ys[..j] + ys[j+1..];
      forall y | y in xs[..|xs|-1]
        ensures y in rest
      {
        var i :| 0 <= i < |xs| - 1 && xs[i] == y;
        assert y in ys && y != x;
        var l :| 0 <= l < |ys| && ys[l] == y;
        assert rest[if l < j then l else l - 1] == y;
      }
      FewerWithin(xs[..|xs|-1], rest);
    }
  }

  lemma FewerToStop(w: World, xs: seq<string>, ys: seq<string>)
    requires NoDuplicates(xs) && Within(xs, ys)
    ensures |Delta(w, xs)| <= |Delta(w, ys)|
  {
    SubtractDistinct(xs, w.target);
    FewerWithin(Delta(w, xs), Delta(w, ys));
  }

  /** A round leaves no more to stop than there was. */
  lemma {:induction false} RoundShrinks(w: World, s: Wait, left: nat)
    requires NeverGrows(w, s)
    ensures var (s', seen) := Round(w, s, left);
      seen ==> NeverGrows(w, s') && |Delta(w, s'.active)| <= |Delta(w, s.active)|
    decreases left
  {
    hide Subtract, ActiveIn;
    if left > 0 && Delta(w, s.active) != [] && Seen(w, s.looks).Some? {
      var s1 := Wait(Seen(w, s.looks).value, s.looks + 1);
      FewerToStop(w, s1.active, s.active);
      RoundShrinks(w, s1, left - 1);
    }
  }

  /** Waiting ends, after at most as many rounds as there are resources to stop. */
  lemma {:induction false} RoundsEnd(w: World, s: Wait, rounds: nat)
    requires NeverGrows(w, s) && rounds >= |Delta(w, s.active)|
    ensures Rounds(w, s, rounds).Some?
    decreases rounds
  {
    hide NeverGrows, Round;
    var delta := Delta(w, s.active);
    if delta != [] {
      RoundShrinks(w, s, w.steps(s.looks, delta));
      var (s', seen) := Round(w, s, w.steps(s.looks, delta));
      if seen && |Delta(w, s'.active)| != |delta| {
        RoundsEnd(w, s', rounds - 1);
      }
    }
  }

  /** Whatever is observed, waiting that ends normally leaves nothing active but what was predicted; if it is given
      up, something is still active that should not be. */
  lemma {:induction false} StoppedMeansTarget(w: World, s: Wait, rounds: nat)
    requires Rounds(w, s, rounds).Some?
    ensures var (s', exit) := Rounds(w, s, rounds).value;
      && (exit.Stopped? ==> forall x :: x in s'.active ==> x in w.target)
      && (exit.TimedOut? ==> exists x :: x in s'.active && x !in w.target)
      && s.looks <= s'.looks
    decreases rounds
  {
    var delta := Delta(w, s.active);
    if delta == [] {
      assert forall x :: x in s.active && x !in w.target ==> x in delta;
    } else {
      var (s', seen) := Round(w, s, w.steps(s.looks, delta));
      RoundLooks(w, s, w.steps(s.looks, delta));
      if seen && |Delta(w, s'.active)| != |delta| {
        StoppedMeansTarget(w, s', rounds - 1);
      } else if seen {
        assert Delta(w, s'.active)[0] in Delta(w, s'.active);
      }
    }
  }

  lemma {:induction false} RoundLooks(w: World, s: Wait, left: nat)
    ensures Round(w, s, left).0.looks >= s.looks
    decreases left
  {
    if left > 0 && Delta(w, s.active) != [] && Seen(w, s.looks).Some? {
      RoundLooks(w, Wait(Seen(w, s.looks).value, s.looks + 1), left - 1);
    }
  }

  // ---- How often the tool looks ----

  /** What was last seen active before a look, if none of the looks so far failed. */
  function ActiveBefore(w: World, s: Wait, look: nat): seq<string> {
    if look <= s.looks || Seen(w, look - 1).None? then s.active else Seen(w, look - 1).value
  }

  /** A round looks again as long as something is left to stop, up to the number of times allowed, and not after a look
      that failed. */
  ghost predicate LooksAllowed(w: World, s: Wait, left: nat, s': Wait, seen: bool) {
    && s.looks <= s'.looks <= s.looks + left
    && (forall i :: s.looks <= i < s'.looks ==> Delta(w, ActiveBefore(w, s, i)) != [])
    && (forall i :: s.looks <= i < s'.looks - (if seen then 0 else 1) ==> Seen(w, i).Some?)
    && (seen ==> s'.active == ActiveBefore(w, s, s'.looks) && (s'.looks == s.looks + left || Delta(w, s'.active) == []))
    && (!seen ==> s'.looks > s.looks && Seen(w, s'.looks - 1).None? && s'.active == ActiveBefore(w, s, s'.looks - 1))
  }

  lemma {:induction false} RoundLooksAsAllowed(w: World, s: Wait, left: nat)
    ensures var (s', seen) := Round(w, s, left); LooksAllowed(w, s, left, s', seen)
    decreases left
  {
    hide Seen, Subtract;
    if left > 0 && Delta(w, s.active) != [] && Seen(w, s.looks).Some? {
      var s1 := Wait(Seen(w, s.looks).value, s.looks + 1);
      RoundLooksAsAllowed(w, s1, left - 1);
      var (s', seen) := Round(w, s, left);
      assert forall i :: s1.looks <= i <= s'.looks && (i > s1.looks ==> Seen(w, i - 1).Some?) ==> ActiveBefore(w, s, i) == ActiveBefore(w, s1, i);
    }
  }

  /** Giving up means that the last round had used all the looks allowed it, none of which failed, and that as many
      resources were left to stop as before the round. Being blind means that the last look failed. */
  lemma {:induction false} TimedOutMeansNoProgress(w: World, s: Wait, rounds: nat)
    requires Rounds(w, s, rounds).Some?
    ensures var (s', exit) := Rounds(w, s, rounds).value;
      && (exit.TimedOut? ==> exists s1: Wait ::
            && s.looks <= s1.looks && s'.looks == s1.looks + w.steps(s1.looks, Delta(w, s1.active))
            && LooksAllowed(w, s1, w.steps(s1.looks, Delta(w, s1.active)), s', true)
            && |Delta(w, s'.active)| == |Delta(w, s1.active)| > 0)
      && (exit.Blind? ==> s'.looks > s.looks && Seen(w, s'.looks - 1).None?)
      && (exit.Stopped? ==> Delta(w, s'.active) == [])
    decreases rounds
  {
    hide Seen, Subtract, Round;
    var delta := Delta(w, s.active);
    if delta != [] {
      var left := w.steps(s.looks, delta);
      RoundLooksAsAllowed(w, s, left);
      var (s1, seen) := Round(w, s, left);
      if seen && |Delta(w, s1.active)| != |delta| {
        TimedOutMeansNoProgress(w, s1, rounds - 1);
      }
    }
  }

  function Flap(k: nat): seq<string> {
    if k % 2 == 0 then ["a", "b"] else ["a"]
  }

  lemma Flaps(k: nat)
    ensures |Flap(k)| != |Flap(k + 1)| && Flap(k + 2) == Flap(k) && Flap(k) != []
  {
  }

  lemma RoundOfOne(w: World, s: Wait)
    requires Delta(w, s.active) != [] && Seen(w, s.looks).Some?
    ensures Round(w, s, 1) == (Wait(Seen(w, s.looks).value, s.looks + 1), true)
  {
    assert Round(w, Wait(Seen(w, s.looks).value, s.looks + 1), 0) == (Wait(Seen(w, s.looks).value, s.looks + 1), true);
  }

  ghost predicate IsFlapping(w: World) {
    w.target == [] && (forall k :: Seen(w, k) == Some(Flap(k))) && (forall look, delta :: w.steps(look, delta) == 1)
  }

  /** Such a world: one resource runs, another starts and stops in turn, and the time-out allows one look a round. */
  lemma FlappingExists() returns (w: World)
    ensures IsFlapping(w)
  {
    w := World(k => Some([Whole("a", true), Whole("b", k % 2 == 0)]), [], (_, _) => 1);
    forall k: nat
      ensures Seen(w, k) == Some(Flap(k))
    {
      var a, b := Whole("a", true), Whole("b", k % 2 == 0);
      assert [a, b][..1] == [a] && [a][..0] == [];
      assert ActiveIn([a]) == ["a"];
      assert ActiveIn([a, b]) == Flap(k);
    }
  }

  lemma FlappingAt(w: World, looks: nat)
    requires IsFlapping(w)
    ensures w.target == [] && Seen(w, looks) == Some(Flap(looks)) && w.steps(looks, Flap(looks + 1)) == 1
  {
  }

  lemma FlappingRound(w: World, here: seq<string>, next: seq<string>, looks: nat)
    requires w.target == [] && Seen(w, looks) == Some(next) && w.steps(looks, here) == 1 && here != []
    ensures Delta(w, here) == here && Delta(w, next) == next
    ensures Round(w, Wait(here, looks), w.steps(looks, here)) == (Wait(next, looks + 1), true)
  {
    Kept(here);
    Kept(next);
    RoundOfOne(w, Wait(here, looks));
  }

  lemma {:induction false} FlappingIsEndless(w: World, looks: nat, rounds: nat)
    requires IsFlapping(w)
    ensures Rounds(w, Wait(Flap(looks + 1), looks), rounds).None?
    decreases rounds
  {
    hide IsFlapping, Flap, Round, Delta;
    Flaps(looks);
    Flaps(looks + 1);
    FlappingAt(w, looks);
    FlappingRound(w, Flap(looks + 1), Flap(looks), looks);
    if rounds > 0 {
      FlappingIsEndless(w, looks + 1, rounds - 1);
    }
  }

  /** If resources come and go, waiting need not end: one and two of them left to stop, in turn. */
  lemma WaitingCanBeEndless() returns (w: World, s: Wait)
    ensures forall rounds :: Rounds(w, s, rounds).None?
  {
    hide Rounds, Flap, IsFlapping;
    w := FlappingExists();
    var looks := 0;
    s := Wait(Flap(looks + 1), looks);
    forall rounds
      ensures Rounds(w, s, rounds).None?
    {
      FlappingIsEndless(w, looks, rounds);
    }
  }

  lemma {:induction false} Kept(items: seq<string>)
    ensures Subtract(items, []) == items
  {
    hide Subtract;
    if items == [] {
      assert |Subtract(items, [])| <= 0;
    } else {
      var front, last := items[..|items|-1], items[|items|-1];
      Kept(front);
      KeepsLast(items);
      assert items == front + [last];
    }
  }

  lemma KeepsLast(items: seq<string>)
    requires items != []
    ensures Subtract(items, []) == Subtract(items[..|items|-1], []) + [items[|items|-1]]
  {
  }
}
