/** When the order of traversal shows in what a request to clear failures leaves: if its children name no attribute,
    unless the attributes matched first are already as the request would have them. */
module ClearOrder {
  import opened Common
  import opened Model
  import opened CibWrites
  import opened Attributes
  import opened Corosync
  import opened Replica
  import opened ClearRequests
  import Daemon

  // ---- Operations on one attribute, one after the other ----

  predicate ChangesDelay(op: Op) {
    (Both(op) || op.task == Some(UpdateDelay)) && ValidDelay(op)
  }

  predicate SetsValue(op: Op) {
    if Both(op) then ValidDelay(op) else op.task != Some(UpdateDelay)
  }

  predicate Addresses(op: Op, h: string) {
    SetsValue(op) && (op.host.Some? ==> Fold(op.host.value) == h)
  }

  function RowStep(r: Row, op: Op): Row {
    var r1 := if Both(op) || op.task == Some(UpdateDelay) then Delayed(r, op) else r;
    if !SetsValue(op) then r1
    else if op.host.Some? then UpdateRow(r1, op.host.value, op, None)
    else UpdateAllRow(r1, op, None)
  }

  function RowAfter(r: Row, ops: seq<Op>): Row {
    if ops == [] then r else RowStep(RowAfter(r, ops[..|ops|-1]), ops[|ops|-1])
  }

  function RowTimes(r: Row, ops: seq<Op>, k: nat): Row {
    if k == 0 then r else RowAfter(RowTimes(r, ops, k - 1), ops)
  }

  /** The operations that children stand for, each completed from its parent. */
  function OpsOf(children: seq<Element>, p: Op): seq<Op> {
    if children == [] then [] else
      var child := children[|children|-1];
      OpsOf(children[..|children|-1], p) + if child.isOp then [Merge(child.attrs, p)] else []
  }

  ghost predicate AllNamed(ops: seq<Op>, name: string) {
    forall i :: 0 <= i < |ops| ==> ops[i].name == Some(name)
  }

  lemma UpdateOneIsStep(t: Table, op: Op, name: string)
    requires op.name == Some(name) && name in t
    ensures UpdateOne(t, op, None) == t[name := RowStep(t[name], op)]
  {
    hide UpdateRow, UpdateAllRow, Delayed;
  }

  lemma {:induction false} UpdateEachIsSteps(t: Table, p: Op, children: seq<Element>, name: string)
    requires AllNamed(OpsOf(children, p), name) && name in t
    ensures UpdateEach(t, p, children, None) == t[name := RowAfter(t[name], OpsOf(children, p))]
  {
    hide UpdateOne, RowStep, Merge;
    if children == [] {
      assert t[name := t[name]] == t;
    } else {
      var front, child := children[..|children|-1], children[|children|-1];
      var ops := OpsOf(front, p);
      assert AllNamed(ops, name) by {
        assert forall i :: 0 <= i < |ops| ==> OpsOf(children, p)[i] == ops[i];
      }
      UpdateEachIsSteps(t, p, front, name);
      if child.isOp {
        var op := Merge(child.attrs, p);
        assert OpsOf(children, p)[|ops|] == op && OpsOf(children, p)[..|ops|] == ops;
        UpdateOneIsStep(UpdateEach(t, p, front, None), op, name);
      } else {
        assert OpsOf(children, p) == ops;
      }
    }
  }

  lemma {:induction false} ClearTimesIsSteps(t: Table, e: Element, k: nat, name: string)
    requires AllNamed(OpsOf(e.children, ClearOf(e, "").attrs), name) && name in t
    ensures ClearTimes(t, e, k) == t[name := RowTimes(t[name], OpsOf(e.children, ClearOf(e, "").attrs), k)]
  {
    hide UpdateEach, RowAfter, OpsOf, AllNamed;
    if k == 0 {
      assert t[name := t[name]] == t;
    } else {
      ClearTimesIsSteps(t, e, k - 1, name);
      UpdateEachIsSteps(ClearTimes(t, e, k - 1), ClearOf(e, "").attrs, e.children, name);
    }
  }

  /** What the children of a request amount to for the attribute that is matched first. */
  function Commands(e: Element, name: string): seq<Op> {
    OpsOf(e.children, ClearOf(e, name).attrs)
  }

  lemma MergeAgain(c: Op, e: Element, name: string)
    requires c.name.None?
    ensures Merge(Merge(c, ClearOf(e, name).attrs), ClearOf(e, "").attrs) == Merge(c, ClearOf(e, name).attrs)
    ensures Merge(c, ClearOf(e, name).attrs).name == Some(name)
  {
  }

  lemma {:induction false} OpsOfAbsorbed(children: seq<Element>, e: Element, name: string)
    requires forall i :: 0 <= i < |children| && children[i].isOp ==> children[i].attrs.name.None?
    ensures OpsOf(Absorb(children, ClearOf(e, name).attrs), ClearOf(e, "").attrs) == OpsOf(children, ClearOf(e, name).attrs)
    ensures AllNamed(OpsOf(children, ClearOf(e, name).attrs), name)
  {
    hide Merge;
    if children != [] {
      var front, child := children[..|children|-1], children[|children|-1];
      OpsOfAbsorbed(front, e, name);
      AbsorbIs(front, ClearOf(e, name).attrs);
      assert Absorb(children, ClearOf(e, name).attrs)[..|children|-1] == Absorb(front, ClearOf(e, name).attrs);
      if child.isOp {
        MergeAgain(child.attrs, e, name);
      }
    }
  }

  /** The request carries out its commands on the attribute matched first, once for every match. */
  lemma ClearsTheFirst(n: Node, e: Element, matching: set<string>, env: Env) returns (name: string, k: nat)
    requires ValidEnv(env) && Folded(TableOf(n)) && Nameless(e.children)
    requires FirstMatch(env.order(n.attributes.Keys), matching).Some?
    ensures FirstMatch(env.order(n.attributes.Keys), matching) == Some(name) && name in TableOf(n) && k > 0
    ensures TableOf(ClearFailure(n, e, matching, env)) == TableOf(n)[name := RowTimes(TableOf(n)[name], Commands(e, name), k)]
  {
    hide Folded, TableOf, ClearFailure, ClearTimes, Absorb, RowTimes, OpsOf, AllNamed;
    var names := env.order(n.attributes.Keys);
    name := FirstMatch(names, matching).value;
    FirstMatchIsIn(names, matching);
    ClearFailureView(n, e, matching, env);
    assert Enumerates(names, n.attributes.Keys);
    InTable(n, name);
    FilledNames(e, name);
    OpsOfAbsorbed(e.children, e, name);
    k := |TableOf(n).Keys * matching|;
    assert name in TableOf(n).Keys * matching;
    assert ClearOf(Filled(e, name), "").attrs == ClearOf(e, "").attrs;
    ClearTimesIsSteps(TableOf(n), Filled(e, name), k, name);
  }

  // ---- When operations leave a row as it is ----

  /** The value that is left of a node's, by operations on it. */
  function TextAfter(current: Option<string>, h: string, ops: seq<Op>): Option<string> {
    if ops == [] then current else
      var current', op := TextAfter(current, h, ops[..|ops|-1]), ops[|ops|-1];
      if Addresses(op, h) && !SameText(current', op.value) then op.value else current'
  }

  function DelayAfter(ms: nat, ops: seq<Op>): nat {
    if ops == [] then ms else
      var ms', op := DelayAfter(ms, ops[..|ops|-1]), ops[|ops|-1];
      if ChangesDelay(op) && op.delay.value.ms != ms' then CapMs(op.delay.value.ms) else ms'
  }

  predicate SettledEntry(v: Entry, h: string, ops: seq<Op>) {
    && (forall i :: 0 <= i < |ops| && Addresses(ops[i], h) ==> v.seen && (IsSet(ops[i].isRemote) ==> v.remote))
    && TextAfter(v.current, h, ops) == v.current
  }

  predicate HostsKnown(r: Row, ops: seq<Op>) {
    forall i :: 0 <= i < |ops| && SetsValue(ops[i]) && ops[i].host.Some? ==> Fold(ops[i].host.value) in r.values
  }

  /** The attribute is as the operations would have it: every node they name has an entry, the entries they are about
      are marked as seen, and as remote where they say so, and neither value nor delay is other than what they leave. */
  predicate Settled(r: Row, ops: seq<Op>) {
    && HostsKnown(r, ops) && DelayAfter(r.timeoutMs, ops) == r.timeoutMs
    && forall h :: h in r.values ==> SettledEntry(r.values[h], h, ops)
  }

  function EntryAfter(v: Entry, h: string, ops: seq<Op>): Entry {
    if ops == [] then v else
      var v' := EntryAfter(v, h, ops[..|ops|-1]);
      if Addresses(ops[|ops|-1], h) then UpdateEntry(v', h, ops[|ops|-1], None) else v'
  }

  function Shape(r: Row, ops: seq<Op>): Row {
    r.(timeoutMs := DelayAfter(r.timeoutMs, ops), values := map h | h in r.values :: EntryAfter(r.values[h], h, ops))
  }

  lemma HostsKnownBefore(r: Row, ops: seq<Op>)
    requires HostsKnown(r, ops) && ops != []
    ensures HostsKnown(r, ops[..|ops|-1])
  {
    assert forall i :: 0 <= i < |ops| - 1 ==> ops[..|ops|-1][i] == ops[i];
  }

  lemma {:induction false} RowAfterIsShape(r: Row, ops: seq<Op>)
    requires HostsKnown(r, ops)
    ensures RowAfter(r, ops) == Shape(r, ops)
  {
    if ops == [] {
      assert Shape(r, ops).values == r.values;
    } else {
      var front, op := ops[..|ops|-1], ops[|ops|-1];
      HostsKnownBefore(r, ops);
      RowAfterIsShape(r, front);
      assert SetsValue(op) && op.host.Some? ==> Fold(op.host.value) in r.values;
      StepOfShape(r, front, op, Shape(r, front));
      assert Shape(r, ops).values == RowStep(Shape(r, front), op).values;
    }
  }

  lemma StepOfShape(r: Row, front: seq<Op>, op: Op, s: Row)
    requires s.values.Keys == r.values.Keys && (SetsValue(op) && op.host.Some? ==> Fold(op.host.value) in r.values)
    ensures var r' := RowStep(s, op);
      && r'.values.Keys == r.values.Keys && r' == s.(timeoutMs := r'.timeoutMs, values := r'.values)
      && r'.timeoutMs == (if ChangesDelay(op) && op.delay.value.ms != s.timeoutMs then CapMs(op.delay.value.ms) else s.timeoutMs)
      && forall h :: h in r.values ==>
           r'.values[h] == if Addresses(op, h) then UpdateEntry(s.values[h], h, op, None) else s.values[h]
  {
    hide UpdateEntry, Fold, CapMs;
  }

  lemma {:induction false} EntryAfterIs(v: Entry, h: string, ops: seq<Op>)
    ensures var v' := EntryAfter(v, h, ops);
      && v'.nodename == v.nodename && v'.current == TextAfter(v.current, h, ops)
      && (v'.seen <==> v.seen || exists i :: 0 <= i < |ops| && Addresses(ops[i], h))
      && (v'.remote <==> v.remote || exists i :: 0 <= i < |ops| && Addresses(ops[i], h) && IsSet(ops[i].isRemote))
  {
    if ops != [] {
      var front, op := ops[..|ops|-1], ops[|ops|-1];
      EntryAfterIs(v, h, front);
      assert forall i :: 0 <= i < |front| ==> front[i] == ops[i];
      hide Addresses, SameText;
      assert ops[|front|] == op;
    }
  }

  lemma SettledEntryIff(v: Entry, h: string, ops: seq<Op>)
    ensures EntryAfter(v, h, ops) == v <==> SettledEntry(v, h, ops)
  {
    hide EntryAfter, Addresses, TextAfter;
    EntryAfterIs(v, h, ops);
  }

  lemma SettledIffShape(r: Row, ops: seq<Op>)
    ensures HostsKnown(r, ops) && Shape(r, ops) == r <==> Settled(r, ops)
  {
    hide EntryAfter, DelayAfter, HostsKnown, SettledEntry;
    forall h | h in r.values ensures EntryAfter(r.values[h], h, ops) == r.values[h] <==> SettledEntry(r.values[h], h, ops) {
      SettledEntryIff(r.values[h], h, ops);
    }
    if Settled(r, ops) {
      assert Shape(r, ops).values == r.values;
    }
    if Shape(r, ops) == r {
      assert forall h :: h in r.values ==> Shape(r, ops).values[h] == r.values[h];
    }
  }

  // ---- Doing it again makes no difference ----

  predicate AllSame(current: Option<string>, h: string, ops: seq<Op>) {
    forall i :: 0 <= i < |ops| && Addresses(ops[i], h) ==> SameText(current, ops[i].value)
  }

  lemma AllSameBefore(current: Option<string>, h: string, ops: seq<Op>)
    requires ops != []
    ensures AllSame(current, h, ops)
       <==> AllSame(current, h, ops[..|ops|-1]) && (Addresses(ops[|ops|-1], h) ==> SameText(current, ops[|ops|-1].value))
  {
    hide Addresses, SameText;
    assert forall i :: 0 <= i < |ops| - 1 ==> ops[..|ops|-1][i] == ops[i];
    assert ops[|ops|-1] == ops[..][|ops|-1];
  }

  lemma {:induction false} KeepsSame(current: Option<string>, h: string, ops: seq<Op>)
    requires AllSame(current, h, ops)
    ensures TextAfter(current, h, ops) == current
  {
    hide Addresses, SameText, AllSame;
    if ops != [] {
      AllSameBefore(current, h, ops);
      KeepsSame(current, h, ops[..|ops|-1]);
    }
  }

  /** If every operation agrees with one value and not all of them with another, they leave that text. */
  lemma {:induction false} LeavesText(c: Option<string>, d: Option<string>, h: string, ops: seq<Op>)
    requires AllSame(c, h, ops) && !AllSame(d, h, ops)
    ensures SameText(TextAfter(d, h, ops), c)
  {
    hide Addresses, AllSame;
    if ops != [] {
      var front := ops[..|ops|-1];
      AllSameBefore(c, h, ops);
      AllSameBefore(d, h, ops);
      if AllSame(d, h, front) {
        KeepsSame(d, h, front);
      } else {
        LeavesText(c, d, h, front);
      }
    } else {
      NothingToAgree(d, h);
    }
  }

  lemma NothingToAgree(d: Option<string>, h: string)
    ensures AllSame(d, h, [])
  {
  }

  /** Values that do not agree with all operations are forgotten. */
  lemma {:induction false} Forgotten(c: Option<string>, d: Option<string>, h: string, ops: seq<Op>)
    requires !AllSame(c, h, ops) && !AllSame(d, h, ops)
    ensures TextAfter(c, h, ops) == TextAfter(d, h, ops)
  {
    hide Addresses, AllSame;
    if ops != [] {
      var front := ops[..|ops|-1];
      AllSameBefore(c, h, ops);
      AllSameBefore(d, h, ops);
      if AllSame(c, h, front) && AllSame(d, h, front) {
        KeepsSame(c, h, front);
        KeepsSame(d, h, front);
      } else if AllSame(c, h, front) {
        KeepsSame(c, h, front);
        LeavesText(c, d, h, front);
      } else if AllSame(d, h, front) {
        KeepsSame(d, h, front);
        LeavesText(d, c, h, front);
      } else {
        Forgotten(c, d, h, front);
      }
    } else {
      NothingToAgree(c, h);
    }
  }

  lemma TextTwice(c: Option<string>, h: string, ops: seq<Op>)
    ensures TextAfter(TextAfter(c, h, ops), h, ops) == TextAfter(c, h, ops)
  {
    hide AllSame, TextAfter;
    var d := TextAfter(c, h, ops);
    if AllSame(c, h, ops) {
      KeepsSame(c, h, ops);
    } else if AllSame(d, h, ops) {
      KeepsSame(d, h, ops);
    } else {
      Forgotten(c, d, h, ops);
    }
  }

  lemma {:induction false} DelayForgotten(ms: nat, ms': nat, ops: seq<Op>)
    requires ms <= INT_MAX && DelayAfter(ms', ops) != ms'
    ensures DelayAfter(ms, ops) == DelayAfter(ms', ops) <= INT_MAX
  {
    if ops != [] && DelayAfter(ms', ops[..|ops|-1]) != ms' {
      DelayForgotten(ms, ms', ops[..|ops|-1]);
    } else if ops != [] {
      DelayStaysCapped(ms, ops[..|ops|-1]);
    }
  }

  lemma {:induction false} DelayStaysCapped(ms: nat, ops: seq<Op>)
    requires ms <= INT_MAX
    ensures DelayAfter(ms, ops) <= INT_MAX
  {
    if ops != [] {
      DelayStaysCapped(ms, ops[..|ops|-1]);
    }
  }

  lemma DelayTwice(ms: nat, ops: seq<Op>)
    ensures DelayAfter(DelayAfter(ms, ops), ops) == DelayAfter(ms, ops)
  {
    if DelayAfter(ms, ops) != ms {
      DelayForgotten(0, ms, ops);
      DelayForgotten(DelayAfter(ms, ops), ms, ops);
    }
  }

  lemma EntryTwice(v: Entry, h: string, ops: seq<Op>)
    ensures EntryAfter(EntryAfter(v, h, ops), h, ops) == EntryAfter(v, h, ops)
  {
    hide EntryAfter, TextAfter, Addresses;
    EntryAfterIs(v, h, ops);
    EntryAfterIs(EntryAfter(v, h, ops), h, ops);
    TextTwice(v.current, h, ops);
  }

  lemma ShapeTwice(r: Row, ops: seq<Op>)
    requires HostsKnown(r, ops)
    ensures Shape(Shape(r, ops), ops) == Shape(r, ops) && HostsKnown(Shape(r, ops), ops)
  {
    hide EntryAfter, DelayAfter;
    DelayTwice(r.timeoutMs, ops);
    forall h | h in r.values ensures EntryAfter(EntryAfter(r.values[h], h, ops), h, ops) == EntryAfter(r.values[h], h, ops) {
      EntryTwice(r.values[h], h, ops);
    }
    assert Shape(Shape(r, ops), ops).values == Shape(r, ops).values;
  }

  lemma {:induction false} TimesIsOnce(r: Row, ops: seq<Op>, k: nat)
    requires HostsKnown(r, ops) && k > 0
    ensures RowTimes(r, ops, k) == Shape(r, ops)
  {
    hide Shape, HostsKnown, RowAfter;
    if k == 1 {
      assert RowTimes(r, ops, 0) == r;
      RowAfterIsShape(r, ops);
    } else {
      TimesIsOnce(r, ops, k - 1);
      ShapeTwice(r, ops);
      RowAfterIsShape(Shape(r, ops), ops);
    }
  }

  lemma {:induction false} EntriesGrow(r: Row, ops: seq<Op>)
    ensures r.values.Keys <= RowAfter(r, ops).values.Keys && HostsKnown(RowAfter(r, ops), ops)
  {
    if ops != [] {
      var front, op := ops[..|ops|-1], ops[|ops|-1];
      EntriesGrow(r, front);
      var r1, r' := RowAfter(r, front), RowAfter(r, ops);
      StepGrows(r1, op);
      hide RowStep, RowAfter, SetsValue;
      assert forall i :: 0 <= i < |front| ==> front[i] == ops[i];
    }
  }

  lemma StepGrows(r: Row, op: Op)
    ensures var r' := RowStep(r, op);
      r.values.Keys <= r'.values.Keys && (SetsValue(op) && op.host.Some? ==> Fold(op.host.value) in r'.values)
  {
    hide UpdateEntry, Fold;
  }

  lemma {:induction false} TimesGrow(r: Row, ops: seq<Op>, k: nat)
    ensures r.values.Keys <= RowTimes(r, ops, k).values.Keys && (k > 0 ==> HostsKnown(RowTimes(r, ops, k), ops))
  {
    hide RowAfter, HostsKnown;
    if k > 0 {
      TimesGrow(r, ops, k - 1);
      EntriesGrow(RowTimes(r, ops, k - 1), ops);
    }
  }

  /** Carrying out operations, any number of times, leaves a row as it is exactly if it is settled. */
  lemma SettledIff(r: Row, ops: seq<Op>, k: nat)
    requires k > 0
    ensures RowTimes(r, ops, k) == r <==> Settled(r, ops)
  {
    hide Shape, RowTimes, Settled, HostsKnown;
    SettledIffShape(r, ops);
    TimesGrow(r, ops, k);
    if HostsKnown(r, ops) {
      TimesIsOnce(r, ops, k);
    } else {
      assert !Settled(r, ops);
    }
  }

  // ---- The order of traversal ----

  /** Two orders in which different attributes are matched first lead to the same table if and only if both attributes
      are as the request would have them. */
  lemma OrderMatters(n: Node, e: Element, matching: set<string>, env: Env, env': Env, name: string, name': string)
    requires ValidEnv(env) && ValidEnv(env') && Folded(TableOf(n)) && Nameless(e.children) && name != name'
    requires FirstMatch(env.order(n.attributes.Keys), matching) == Some(name)
    requires FirstMatch(env'.order(n.attributes.Keys), matching) == Some(name')
    ensures name in TableOf(n) && name' in TableOf(n)
    ensures TableOf(ClearFailure(n, e, matching, env)) == TableOf(ClearFailure(n, e, matching, env'))
       <==> Settled(TableOf(n)[name], Commands(e, name)) && Settled(TableOf(n)[name'], Commands(e, name'))
  {
    hide Folded, TableOf, ClearFailure, FirstMatch, Nameless, Settled, Commands, RowTimes;
    var x, k := ClearsTheFirst(n, e, matching, env);
    var x', k' := ClearsTheFirst(n, e, matching, env');
    SettledIff(TableOf(n)[name], Commands(e, name), k);
    SettledIff(TableOf(n)[name'], Commands(e, name'), k');
    EqualPuts(TableOf(n), name, RowTimes(TableOf(n)[name], Commands(e, name), k),
              name', RowTimes(TableOf(n)[name'], Commands(e, name'), k'));
  }

  lemma EqualPuts(t: Table, name: string, r: Row, name': string, r': Row)
    requires name in t && name' in t && name != name'
    ensures t[name := r] == t[name' := r'] <==> r == t[name] && r' == t[name']
  {
    assert t[name := t[name]] == t == t[name' := t[name']];
    assert t[name := r][name] == r && t[name' := r'][name] == t[name];
    assert t[name := r][name'] == t[name'] && t[name' := r'][name'] == r';
  }

  // ---- Requests that only clear ----

  /** The children say neither what to do nor what value to set, so that each of them unsets values. */
  predicate ClearsOnly(children: seq<Element>) {
    forall i :: 0 <= i < |children| && children[i].isOp ==> children[i].attrs.task.None? && children[i].attrs.value.None?
  }

  predicate Unsets(ops: seq<Op>) {
    forall i :: 0 <= i < |ops| ==> ops[i].task == Some(Update) && ops[i].value.None?
  }

  predicate Gone(v: Entry, op: Op) {
    v.current.None? && v.seen && (IsSet(op.isRemote) ==> v.remote)
  }

  /** The value is unset already: on the node named or, if none is, on all nodes. */
  predicate AlreadyCleared(r: Row, op: Op) {
    if op.host.Some? then Fold(op.host.value) in r.values && Gone(r.values[Fold(op.host.value)], op)
    else forall h :: h in r.values ==> Gone(r.values[h], op)
  }

  lemma {:induction false} CommandsUnset(children: seq<Element>, e: Element, name: string)
    requires ClearsOnly(children)
    ensures Unsets(OpsOf(children, ClearOf(e, name).attrs))
  {
    if children != [] {
      var front := children[..|children|-1];
      assert forall i :: 0 <= i < |front| ==> front[i] == children[i];
      CommandsUnset(front, e, name);
    }
  }

  lemma {:induction false} UnsetsKeepsDelay(ms: nat, ops: seq<Op>)
    requires Unsets(ops)
    ensures DelayAfter(ms, ops) == ms
  {
    if ops != [] {
      UnsetsKeepsDelay(ms, ops[..|ops|-1]);
    }
  }

  lemma UnsetsLeavesNone(c: Option<string>, h: string, ops: seq<Op>)
    requires Unsets(ops)
    ensures TextAfter(c, h, ops) == c <==> c.None? || forall i :: 0 <= i < |ops| ==> !Addresses(ops[i], h)
  {
    hide Addresses, TextAfter;
    if AllSame(c, h, ops) {
      KeepsSame(c, h, ops);
    } else {
      LeavesText(None, c, h, ops);
    }
  }

  lemma SettledIffCleared(r: Row, ops: seq<Op>)
    requires Unsets(ops)
    ensures Settled(r, ops) <==> forall i :: 0 <= i < |ops| ==> AlreadyCleared(r, ops[i])
  {
    hide TextAfter, DelayAfter, Fold;
    UnsetsKeepsDelay(r.timeoutMs, ops);
    forall h | h in r.values
      ensures SettledEntry(r.values[h], h, ops) <==> forall i :: 0 <= i < |ops| && Addresses(ops[i], h) ==> Gone(r.values[h], ops[i])
    {
      UnsetsLeavesNone(r.values[h].current, h, ops);
    }
    hide SettledEntry;
    if Settled(r, ops) {
      forall i | 0 <= i < |ops| ensures AlreadyCleared(r, ops[i]) {
      }
    }
  }

  /** For such a request, two orders in which different attributes are matched first lead to the same table if and
      only if both attributes are unset already wherever the request would unset them. */
  lemma ClearingOrderMatters(n: Node, e: Element, matching: set<string>, env: Env, env': Env, name: string, name': string)
    requires ValidEnv(env) && ValidEnv(env') && Folded(TableOf(n)) && Nameless(e.children) && name != name'
    requires FirstMatch(env.order(n.attributes.Keys), matching) == Some(name)
    requires FirstMatch(env'.order(n.attributes.Keys), matching) == Some(name') && ClearsOnly(e.children)
    ensures name in TableOf(n) && name' in TableOf(n)
    ensures TableOf(ClearFailure(n, e, matching, env)) == TableOf(ClearFailure(n, e, matching, env'))
       <==> && (forall i :: 0 <= i < |Commands(e, name)| ==> AlreadyCleared(TableOf(n)[name], Commands(e, name)[i]))
            && (forall i :: 0 <= i < |Commands(e, name')| ==> AlreadyCleared(TableOf(n)[name'], Commands(e, name')[i]))
  {
    hide Folded, TableOf, ClearFailure, FirstMatch, Nameless, Settled, OpsOf, AlreadyCleared, ClearsOnly;
    OrderMatters(n, e, matching, env, env', name, name');
    CommandsUnset(e.children, e, name);
    CommandsUnset(e.children, e, name');
    SettledIffCleared(TableOf(n)[name], Commands(e, name));
    SettledIffCleared(TableOf(n)[name'], Commands(e, name'));
  }

  // ---- Two orders that disagree ----

  /** An order of two keys can be any. */
  lemma OrderOfTwo(a: string, b: string) returns (env: Env)
    requires a != b
    ensures ValidEnv(env) && env.order({a, b}) == [a, b]
  {
    env := Env(keys => if keys == {a, b} then [a, b] else AnyOrder(keys), _ => false, true);
    forall keys ensures Enumerates(env.order(keys), keys) {
    }
  }

  /** The attribute has a value on that node, and on no other. */
  predicate HeldBy(a: Attr, h: string) {
    a.values.Keys == {h} && a.values[h].nodename == h && a.values[h].current.Some?
  }

  lemma HeldRow(a: Attr, h: string)
    requires HeldBy(a, h)
    ensures var values := RowOf(a).values; values.Keys == {h} && values[h].nodename == h && values[h].current.Some?
  {
  }

  lemma HeldTable(n: Node, h: string)
    requires Fold(h) == h && forall name :: name in n.attributes ==> HeldBy(n.attributes[name], h)
    ensures Folded(TableOf(n)) && TableOf(n).Keys == n.attributes.Keys
    ensures forall name :: name in n.attributes ==>
      h in TableOf(n)[name].values && TableOf(n)[name].values[h].current.Some?
  {
    hide Fold, RowOf, HeldBy;
    forall name | name in n.attributes
      ensures var values := RowOf(n.attributes[name]).values;
        values.Keys == {h} && values[h].nodename == h && values[h].current.Some?
    {
      HeldRow(n.attributes[name], h);
    }
  }

  const CLEAR_ALL: Element := Element(true, NoAttrs, [Element(true, NoAttrs, [])])

  /** Two attributes with values, both of them matched, and two orders in which to match them. */
  lemma OrdersDisagreeOn(n: Node, a: string, b: string, h: string, env: Env, env': Env)
    requires a != b && n.attributes.Keys == {a, b} && Fold(h) == h
    requires forall name :: name in n.attributes ==> HeldBy(n.attributes[name], h)
    requires ValidEnv(env) && ValidEnv(env') && env.order({a, b}) == [a, b] && env'.order({a, b}) == [b, a]
    ensures TableOf(ClearFailure(n, CLEAR_ALL, {a, b}, env)) != TableOf(ClearFailure(n, CLEAR_ALL, {a, b}, env'))
  {
    hide ClearFailure, TableOf, Folded, FirstMatch, OpsOf, AlreadyCleared, Fold, HeldBy;
    HeldTable(n, h);
    FirstOfTwo(a, b, {a, b});
    FirstOfTwo(b, a, {a, b});
    OneCommand(CLEAR_ALL, a);
    ClearingOrderMatters(n, CLEAR_ALL, {a, b}, env, env', a, b);
    assert a in TableOf(n);
    NotCleared(TableOf(n)[a], Commands(CLEAR_ALL, a)[0], h);
  }

  /** A node with two failures, and a request to clear both: one order of traversal leads to another table than the
      other. */
  lemma OrdersDisagree() returns (n: Node, env: Env, env': Env)
    ensures ValidEnv(env) && ValidEnv(env') && n.attributes.Keys == {"a", "b"}
    ensures TableOf(ClearFailure(n, CLEAR_ALL, {"a", "b"}, env)) != TableOf(ClearFailure(n, CLEAR_ALL, {"a", "b"}, env'))
  {
    assert Fold("h") == "h";
    hide ClearFailure, TableOf, Fold, AnyOrder;
    var held := Attr(INSTANCE_ATTRIBUTES, None, None, false, 0, NoTimer, 0, false, false, false,
                     map["h" := Value("h", Some("1"), None, false, true, false)]);
    assert HeldBy(held, "h");
    n := Daemon.Initial("n", false, map[]).node.(attributes := map["a" := held, "b" := held]);
    env := OrderOfTwo("a", "b");
    env' := OrderOfTwo("b", "a");
    assert {"b", "a"} == {"a", "b"};
    OrdersDisagreeOn(n, "a", "b", "h", env, env');
  }

  lemma NotCleared(r: Row, op: Op, h: string)
    requires op.host.None? && h in r.values && r.values[h].current.Some?
    ensures !AlreadyCleared(r, op)
  {
  }

  lemma FirstOfTwo(a: string, b: string, matching: set<string>)
    requires a in matching
    ensures FirstMatch([a, b], matching) == Some(a)
  {
    assert [a, b][..1] == [a] && [a][..0] == [];
    assert FirstMatch([a], matching) == Some(a);
  }

  lemma OneCommand(e: Element, name: string)
    requires e == Element(true, NoAttrs, [Element(true, NoAttrs, [])])
    ensures Commands(e, name) == [ClearOf(e, name).attrs] && ClearOf(e, name).attrs.host.None?
  {
    assert e.children[..0] == [];
    assert OpsOf([], ClearOf(e, name).attrs) == [];
  }
}
