/** What holds between the attribute table, the calls in flight and the CIB in every reachable state. */
module CibAgreement {
  import opened Common
  import opened Model
  import opened Elections
  import opened CibWrites
  import opened Attributes
  import opened Corosync
  import opened Daemon

  /** The CIB's side of the system. The last two say how recent transactions must be: those of all attributes but
      some are later than the first `since` calls. */
  datatype Side = Side(cib: Cib, results: seq<bool>, told: nat, since: nat, except: set<string>)

  predicate Touches(r: Request, name: string, h: string) {
    match r
    case Refused => false
    case Erase(host) => host == h
    case Commit(attr, ops) => attr == name && h in ops
  }

  predicate Clean(a: Attr) {
    !a.changed && !a.nodeUnknown
  }

  /** The call carries this value, and no later call overrides it; if it has succeeded, the CIB has it. */
  ghost predicate Carried(log: seq<Request>, c: Side, name: string, h: string, v: Value, call: int)
    requires 1 <= call <= |log| && log[call-1].Commit?
  {
    && h in log[call-1].ops && log[call-1].ops[h] == v.current
    && (forall j :: call <= j < |log| ==> !Touches(log[j], name, h))
    && (call <= |c.results| && c.results[call-1] ==> Lookup(c.cib, (name, h)) == v.current)
  }

  /** A call has put this value into the CIB, and no later call touches it. */
  ghost predicate StoredBy(log: seq<Request>, c: Side, name: string, h: string, v: Value, call: int) {
    && 1 <= call <= |c.results| <= |log| && c.results[call-1] && log[call-1].Commit? && log[call-1].attr == name
    && Carried(log, c, name, h, v, call)
    && (name !in c.except ==> call > c.since)
  }

  ghost predicate Stored(log: seq<Request>, c: Side, name: string, h: string, v: Value) {
    exists call :: StoredBy(log, c, name, h, v, call)
  }

  ghost predicate InFlightOk(n: Node, c: Side, name: string, a: Attr) {
    && c.told < a.update <= |n.log|
    && n.log[a.update-1].Commit? && n.log[a.update-1].attr == name
    && a.update in n.callbacks && n.callbacks[a.update] == name
    && (Clean(a) && name !in c.except ==> a.update > c.since || (a.update <= |c.results| && !c.results[a.update-1]))
    && (Clean(a) ==> forall h :: h in a.values ==>
          && a.values[h].requested == a.values[h].current
          && (!a.values[h].blank ==> Carried(n.log, c, name, h, a.values[h], a.update)))
  }

  /** Holds at every node, writer or not. */
  ghost predicate Sound(n: Node, c: Side, name: string, a: Attr) {
    && (!Writable(n, a) ==> a.update == 0)
    && (a.timeoutMs != 0 ==> a.timer != NoTimer)
    && (Writable(n, a) && a.timer.Running? ==> a.changed)
    && (a.update != 0 ==> InFlightOk(n, c, name, a))
    && (forall h :: h in a.values && a.values[h].blank ==> a.values[h].current.None?)
    && (forall h :: h in a.values ==> h !in n.removed)
  }

  /** No lost wake-up: a pending change has a write in flight or a running timer to bring it about. */
  predicate Pending(a: Attr) {
    a.changed ==> a.update != 0 || a.timer.Running?
  }

  /** Holds in addition at the writer. */
  ghost predicate Settled(n: Node, c: Side, name: string, a: Attr) {
    && Pending(a)
    && (Writable(n, a) && a.update == 0 && Clean(a) ==>
          forall h :: h in a.values && !a.values[h].blank ==> Stored(n.log, c, name, h, a.values[h]))
  }

  ghost predicate CallsOk(n: Node, c: Side) {
    && c.told <= |c.results| <= |n.log| && c.since <= |c.results|
    && n.lastDone <= c.told
    && (forall call :: call in n.callbacks ==>
          && c.told < call <= |n.log|
          && n.callbacks[call] in n.attributes
          && n.attributes[n.callbacks[call]].update == call)
    && (forall i :: 0 <= i < |n.log| && n.log[i].Commit? ==>
          n.log[i].attr in n.attributes && Writable(n, n.attributes[n.log[i].attr]))
  }

  ghost predicate Base(n: Node, c: Side) {
    && CallsOk(n, c)
    && forall name :: name in n.attributes ==> Sound(n, c, name, n.attributes[name])
  }

  ghost predicate Inv(n: Node, c: Side) {
    && Base(n, c)
    && (IsWriter(n) ==> forall name :: name in n.attributes ==> Settled(n, c, name, n.attributes[name]))
  }

  /** The invariant, but for what the writer knows of one attribute. */
  ghost predicate InvExcept(n: Node, c: Side, name: string) {
    && Base(n, c)
    && (IsWriter(n) ==> forall b :: b in n.attributes && b != name ==> Settled(n, c, b, n.attributes[b]))
  }

  // ---- Steps that leave all but one attribute alone ----

  /** Nothing but `name` changed, and what was added to the log concerns only `name`. */
  ghost predicate OnlyAttr(n: Node, n': Node, name: string) {
    && n'.attributes.Keys == n.attributes.Keys + {name}
    && (forall b :: b in n.attributes && b != name ==> n'.attributes[b] == n.attributes[b])
    && |n.log| <= |n'.log| && n'.log[..|n.log|] == n.log
    && (forall j :: |n.log| <= j < |n'.log| && n'.log[j].Commit? ==> n'.log[j].attr == name)
    && (forall j :: |n.log| <= j < |n'.log| ==> !n'.log[j].Erase?)
    && (forall call :: call in n.callbacks && n.callbacks[call] != name ==> call in n'.callbacks && n'.callbacks[call] == n.callbacks[call])
    && (forall call :: call in n'.callbacks && n'.callbacks[call] != name ==> call in n.callbacks && n'.callbacks[call] == n.callbacks[call])
    && (name in n.attributes ==> n'.attributes[name].isPrivate == n.attributes[name].isPrivate)
    && n'.removed <= n.removed && n'.standAlone == n.standAlone && n'.election == n.election
  }

  /** A stored value stays so while calls are added that do not touch it. */
  lemma StoredKept(log: seq<Request>, log': seq<Request>, c: Side, c': Side, name: string, h: string, v: Value, v': Value)
    requires Stored(log, c, name, h, v) && v'.current == v.current && c' == c.(told := c'.told)
    requires |log| <= |log'| && log'[..|log|] == log && forall j :: |log| <= j < |log'| ==> !Touches(log'[j], name, h)
    ensures Stored(log', c', name, h, v')
  {
    var call :| StoredBy(log, c, name, h, v, call);
    assert forall j :: 0 <= j < |log| ==> log'[j] == log'[..|log|][j];
    assert StoredBy(log', c', name, h, v', call);
  }

  lemma OthersKept(n: Node, n': Node, c: Side, name: string, b: string)
    requires OnlyAttr(n, n', name) && b in n.attributes && b != name
    requires |c.results| <= |n.log|
    ensures Sound(n, c, b, n.attributes[b]) ==> Sound(n', c, b, n'.attributes[b])
    ensures Settled(n, c, b, n.attributes[b]) ==> Settled(n', c, b, n'.attributes[b])
  {
    assert forall j :: 0 <= j < |n.log| ==> n'.log[j] == n'.log[..|n.log|][j];
    var a := n.attributes[b];
    forall h | h in a.values && Stored(n.log, c, b, h, a.values[h])
      ensures Stored(n'.log, c, b, h, a.values[h])
    {
      StoredKept(n.log, n'.log, c, c, b, h, a.values[h], a.values[h]);
    }
    hide Stored;
  }

  /** Enough to look at the one attribute that changed. */
  lemma AttrStep(n: Node, n': Node, c: Side, name: string)
    requires Base(n, c) && OnlyAttr(n, n', name) && CallsOk(n', c)
    requires Sound(n', c, name, n'.attributes[name])
    ensures Base(n', c)
    ensures InvExcept(n, c, name) && (IsWriter(n) ==> Settled(n', c, name, n'.attributes[name])) ==> Inv(n', c)
  {
    forall b | b in n'.attributes && b != name
      ensures Sound(n', c, b, n'.attributes[b])
      ensures Settled(n, c, b, n.attributes[b]) ==> Settled(n', c, b, n'.attributes[b])
    {
      OthersKept(n, n', c, name, b);
    }
  }

  // ---- Writing ----

  /** The registered callbacks stay in order if those of the one attribute do. */
  lemma CallsKept(n: Node, n': Node, c: Side, name: string)
    requires CallsOk(n, c) && OnlyAttr(n, n', name) && n'.lastDone <= c.told
    requires forall call :: call in n'.callbacks && n'.callbacks[call] == name ==>
               c.told < call <= |n'.log| && n'.attributes[name].update == call
    requires |n'.log| == |n.log| || Writable(n', n'.attributes[name])
    ensures CallsOk(n', c)
  {
    forall i | 0 <= i < |n'.log| && n'.log[i].Commit?
      ensures n'.log[i].attr in n'.attributes && Writable(n', n'.attributes[n'.log[i].attr])
    {
      if i < |n.log| { assert n.log[i] == n'.log[..|n.log|][i]; }
    }
  }

  /** What writing one attribute guarantees, whatever the other attributes do. */
  ghost predicate WroteOk(n: Node, n': Node, c: Side, name: string) {
    && name in n'.attributes
    && OnlyAttr(n, n', name) && CallsOk(n', c)
    && Sound(n', c, name, n'.attributes[name])
    && (IsWriter(n) ==> Settled(n', c, name, n'.attributes[name]))
  }

  lemma NoCallbackWhenIdle(n: Node, c: Side, name: string)
    requires CallsOk(n, c) && name in n.attributes && n.attributes[name].update == 0
    ensures forall call :: call in n.callbacks ==> n.callbacks[call] != name
  {
  }

  ghost predicate CanSend(n: Node, c: Side, name: string) {
    && CallsOk(n, c) && name in n.attributes && Sound(n, c, name, n.attributes[name])
    && Writable(n, n.attributes[name]) && n.attributes[name].update == 0
  }

  /** The node after an edit of one attribute that issues at most one call. */
  ghost predicate Edit(n: Node, n': Node, name: string, a: Attr, calls: seq<Request>, callbacks: map<int, string>) {
    && n'.attributes == n.attributes[name := a]
    && n'.log == n.log + calls && n'.callbacks == callbacks
    && n'.removed == n.removed && n'.standAlone == n.standAlone && n'.election == n.election && n'.lastDone == n.lastDone
  }

  lemma EditIsLocal(n: Node, n': Node, name: string, a: Attr, calls: seq<Request>, callbacks: map<int, string>)
    requires Edit(n, n', name, a, calls, callbacks)
    requires name in n.attributes ==> n.attributes[name].isPrivate == a.isPrivate
    requires forall j :: 0 <= j < |calls| ==> !calls[j].Erase? && (calls[j].Commit? ==> calls[j].attr == name)
    requires forall call :: call in n.callbacks && n.callbacks[call] != name ==> call in callbacks && callbacks[call] == n.callbacks[call]
    requires forall call :: call in callbacks && callbacks[call] != name ==> call in n.callbacks && callbacks[call] == n.callbacks[call]
    ensures OnlyAttr(n, n', name)
  {
  }

  lemma SentNothing(n: Node, n': Node, name: string, c: Side)
    requires CanSend(n, c, name) && Snapshot(n, n.attributes[name]) == map[]
    requires Edit(n, n', name, Prepared(n, n.attributes[name]), [], n.callbacks)
    ensures WroteOk(n, n', c, name)
  {
    var a, a' := n.attributes[name], n'.attributes[name];
    NoCallbackWhenIdle(n, c, name);
    EditIsLocal(n, n', name, a', [], n.callbacks);
    CallsKept(n, n', c, name);
    assert forall h :: h in a.values ==> h !in Snapshot(n, a);
    assert forall h :: h in a.values ==> a'.nodeUnknown;
  }

  lemma SentRefused(n: Node, n': Node, name: string, c: Side)
    requires CanSend(n, c, name) && Snapshot(n, n.attributes[name]) != map[]
    requires Edit(n, n', name, AfterFailure(Prepared(n, n.attributes[name]), IsWriter(n)), [Refused], n.callbacks)
    ensures WroteOk(n, n', c, name)
  {
    var a, a' := n.attributes[name], n'.attributes[name];
    NoCallbackWhenIdle(n, c, name);
    EditIsLocal(n, n', name, a', [Refused], n.callbacks);
    CallsKept(n, n', c, name);
    assert a'.changed by { assert Snapshot(n, a).Keys <= a'.values.Keys; }
  }

  lemma SentCommit(n: Node, n': Node, name: string, c: Side)
    requires CanSend(n, c, name) && Snapshot(n, n.attributes[name]) != map[]
    requires Edit(n, n', name, Prepared(n, n.attributes[name]).(update := |n.log| + 1),
                  [Commit(name, Snapshot(n, n.attributes[name]))], n.callbacks[|n.log| + 1 := name])
    ensures WroteOk(n, n', c, name)
  {
    var a, a' := n.attributes[name], n'.attributes[name];
    var r := Commit(name, Snapshot(n, a));
    NoCallbackWhenIdle(n, c, name);
    EditIsLocal(n, n', name, a', [r], n'.callbacks);
    CallsKept(n, n', c, name);
    assert n'.log[|n.log|] == r;
  }

  lemma SendKeeps(n: Node, name: string, env: Env, c: Side)
    requires CanSend(n, c, name)
    ensures WroteOk(n, SendTransaction(n, name, env), c, name)
  {
    var n' := SendTransaction(n, name, env);
    if Snapshot(n, n.attributes[name]) == map[] {
      SentNothing(n, n', name, c);
    } else if env.refuses(|n.log| + 1) {
      SentRefused(n, n', name, c);
    } else {
      SentCommit(n, n', name, c);
    }
  }

  lemma WriteAttributeKeeps(n: Node, name: string, ignoreDelay: bool, env: Env, c: Side)
    requires CallsOk(n, c) && name in n.attributes && Sound(n, c, name, n.attributes[name])
    ensures WroteOk(n, WriteAttribute(n, name, ignoreDelay, env), c, name)
  {
    var a := n.attributes[name];
    if !Writable(n, a) {
      NoCallbackWhenIdle(n, c, name);
      CallsKept(n, WriteAttribute(n, name, ignoreDelay, env), c, name);
    } else if !MustWait(n, a, ignoreDelay) {
      SendKeeps(n, name, env, c);
    }
  }

  lemma WroteKeepsInv(n: Node, n': Node, c: Side, name: string)
    requires Base(n, c) && WroteOk(n, n', c, name)
    ensures Base(n', c) && (InvExcept(n, c, name) ==> Inv(n', c))
  {
    AttrStep(n, n', c, name);
  }

  // ---- Writing several attributes ----

  lemma FlagThenWrite(n: Node, name: string, ignoreDelay: bool, env: Env, c: Side)
    requires CallsOk(n, c) && name in n.attributes && Sound(n, c, name, n.attributes[name])
    ensures WroteOk(n, WriteAttribute(SetAttr(n, name, n.attributes[name].(changed := true)), name, ignoreDelay, env), c, name)
  {
    var a := n.attributes[name].(changed := true);
    var n1 := SetAttr(n, name, a);
    EditIsLocal(n, n1, name, a, [], n.callbacks);
    CallsKept(n, n1, c, name);
    assert Sound(n1, c, name, a);
    WriteAttributeKeeps(n1, name, ignoreDelay, env, c);
    OnlyAttrTransitive(n, n1, WriteAttribute(n1, name, ignoreDelay, env), name);
  }

  lemma OnlyAttrTransitive(n: Node, n1: Node, n2: Node, name: string)
    requires OnlyAttr(n, n1, name) && OnlyAttr(n1, n2, name)
    ensures OnlyAttr(n, n2, name)
  {
    assert n2.log[..|n.log|] == n2.log[..|n1.log|][..|n.log|];
    forall j | |n.log| <= j < |n2.log|
      ensures !n2.log[j].Erase? && (n2.log[j].Commit? ==> n2.log[j].attr == name)
    {
      if j < |n1.log| { assert n2.log[j] == n2.log[..|n1.log|][j]; }
    }
  }

  lemma WriteIfAskedKeeps(n: Node, name: string, all: bool, noDelay: bool, env: Env, c: Side)
    requires Base(n, c) && name in n.attributes
    ensures var n' := WriteIfAsked(n, name, all, noDelay, env);
      && Base(n', c) && OnlyAttr(n, n', name)
      && (Inv(n, c) ==> Inv(n', c))
      && (all && IsWriter(n) ==> Settled(n', c, name, n'.attributes[name]))
  {
    var a := n.attributes[name];
    var n' := WriteIfAsked(n, name, all, noDelay, env);
    if (!all && a.nodeUnknown) || a.forceWrite {
      FlagThenWrite(n, name, noDelay || a.forceWrite, env, c);
      WroteKeepsInv(n, n', c, name);
    } else if all || a.changed {
      WriteAttributeKeeps(n, name, noDelay || a.forceWrite, env, c);
      WroteKeepsInv(n, n', c, name);
    }
  }

  lemma {:induction false} WriteEachKeeps(n: Node, names: seq<string>, all: bool, noDelay: bool, env: Env, c: Side)
    requires Base(n, c)
    requires forall i :: 0 <= i < |names| ==> names[i] in n.attributes
    ensures var n' := WriteEach(n, names, all, noDelay, env);
      && Base(n', c) && n'.attributes.Keys == n.attributes.Keys
      && n'.election == n.election && n'.standAlone == n.standAlone && n'.removed <= n.removed
      && (Inv(n, c) ==> Inv(n', c))
  {
    hide WriteIfAsked, Base, Inv, OnlyAttr;
    if names != [] {
      WriteEachKeeps(n, names[..|names|-1], all, noDelay, env, c);
      WriteIfAskedKeeps(WriteEach(n, names[..|names|-1], all, noDelay, env), names[|names|-1], all, noDelay, env, c);
    }
  }

  /** Writing all attributes settles each of them, whatever state it was in. */
  lemma {:induction false} WriteAllSettles(n: Node, names: seq<string>, noDelay: bool, env: Env, c: Side, name: string)
    requires Base(n, c) && IsWriter(n) && name in names
    requires forall i :: 0 <= i < |names| ==> names[i] in n.attributes
    ensures var n' := WriteEach(n, names, true, noDelay, env);
      name in n'.attributes && Settled(n', c, name, n'.attributes[name])
  {
    hide WriteIfAsked, Sound, Settled, OnlyAttr;
    var front, last := names[..|names|-1], names[|names|-1];
    var n1 := WriteEach(n, front, true, noDelay, env);
    WriteEachKeeps(n, front, true, noDelay, env, c);
    WriteIfAskedKeeps(n1, last, true, noDelay, env, c);
    if name != last {
      assert name in front;
      WriteAllSettles(n, front, noDelay, env, c, name);
      OthersKept(n1, WriteEach(n, names, true, noDelay, env), c, last, name);
    }
  }

  lemma WriteAttributesKeeps(n: Node, all: bool, noDelay: bool, env: Env, c: Side)
    requires Base(n, c) && ValidEnv(env)
    ensures var n' := WriteAttributes(n, all, noDelay, env);
      && Base(n', c) && n'.attributes.Keys == n.attributes.Keys
      && n'.election == n.election && n'.removed <= n.removed
      && (Inv(n, c) || (all && IsWriter(n)) ==> Inv(n', c))
  {
    var names := env.order(n.attributes.Keys);
    assert forall i :: 0 <= i < |names| ==> names[i] in names;
    WriteEachKeeps(n, names, all, noDelay, env, c);
    if all && IsWriter(n) {
      forall name | name in n.attributes
        ensures var n' := WriteEach(n, names, true, noDelay, env);
          name in n'.attributes && Settled(n', c, name, n'.attributes[name])
      {
        WriteAllSettles(n, names, noDelay, env, c, name);
      }
    }
  }

  // ---- Steps that do not concern the table ----

  ghost predicate Quiet(n: Node, n': Node) {
    && n'.attributes == n.attributes && n'.log == n.log && n'.callbacks == n.callbacks
    && n'.removed == n.removed && n'.standAlone == n.standAlone && n'.lastDone == n.lastDone
    && (IsWriter(n') ==> IsWriter(n))
  }

  lemma QuietKeeps(n: Node, n': Node, c: Side)
    requires Quiet(n, n')
    ensures Base(n, c) ==> Base(n', c)
    ensures Inv(n, c) ==> Inv(n', c)
  {
  }

  lemma WriteOrElectKeeps(n: Node, name: string, env: Env, c: Side)
    requires CallsOk(n, c) && name in n.attributes && Sound(n, c, name, n.attributes[name])
    ensures var n' := WriteOrElect(n, name, env);
      if IsWriter(n) then WroteOk(n, n', c, name) else Quiet(n, n') && !IsWriter(n')
  {
    if IsWriter(n) {
      WriteAttributeKeeps(n, name, false, env, c);
    }
  }

  /** What `Sound` and `Settled` say of an attribute depends on little of the node. */
  lemma SameSurroundings(n: Node, n1: Node, c: Side, name: string, a: Attr)
    requires n1.log == n.log && n1.callbacks == n.callbacks && n1.removed <= n.removed && n1.standAlone == n.standAlone
    ensures Sound(n, c, name, a) ==> Sound(n1, c, name, a)
    ensures Settled(n, c, name, a) ==> Settled(n1, c, name, a)
  {
  }

  /** An edit that leaves the transaction in flight alone, followed by an attempt to write. */
  lemma EditThenWrite(n: Node, name: string, a: Attr, env: Env, c: Side)
    requires Inv(n, c) && name in n.attributes
    requires a.update == n.attributes[name].update && a.isPrivate == n.attributes[name].isPrivate
    requires Sound(n, c, name, a)
    ensures Inv(WriteOrElect(SetAttr(n, name, a), name, env), c)
  {
    hide WriteOrElect;
    var n1 := SetAttr(n, name, a);
    EditIsLocal(n, n1, name, a, [], n.callbacks);
    CallsKept(n, n1, c, name);
    SameSurroundings(n, n1, c, name, a);
    var n2 := WriteOrElect(n1, name, env);
    WriteOrElectKeeps(n1, name, env, c);
    if IsWriter(n) {
      OnlyAttrTransitive(n, n1, n2, name);
      WroteKeepsInv(n, n2, c, name);
    } else {
      AttrStep(n, n1, c, name);
      QuietKeeps(n1, n2, c);
    }
  }

  /** An edit that leaves the transaction in flight alone. */
  lemma EditKeeps(n: Node, name: string, a: Attr, c: Side)
    requires Inv(n, c) && name in n.attributes
    requires a.update == n.attributes[name].update && a.isPrivate == n.attributes[name].isPrivate
    requires Sound(n, c, name, a) && (IsWriter(n) ==> Settled(n, c, name, a))
    ensures Inv(SetAttr(n, name, a), c)
  {
    var n1 := SetAttr(n, name, a);
    EditIsLocal(n, n1, name, a, [], n.callbacks);
    CallsKept(n, n1, c, name);
    SameSurroundings(n, n1, c, name, a);
    AttrStep(n, n1, c, name);
  }

  // ---- Updates from peers ----

  lemma NotRemovedKeeps(n: Node, h: string, c: Side)
    requires Inv(n, c)
    ensures Inv(n.(removed := n.removed - {h}), c)
  {
    hide Carried, Stored;
    var n1 := n.(removed := n.removed - {h});
    forall b | b in n.attributes
      ensures Sound(n1, c, b, n.attributes[b]) && (IsWriter(n) ==> Settled(n1, c, b, n.attributes[b]))
    {
      SameSurroundings(n, n1, c, b, n.attributes[b]);
    }
  }

  /** What adding an entry comes to: a removed peer less, and a value whose contents are as before, or blank. */
  lemma WithEntryIs(n: Node, name: string, op: Op, host: string) returns (v: Value)
    requires name in n.attributes
    ensures WithEntry(n, name, op, host) == SetAttr(n.(removed := n.removed - {Fold(host)}), name, SetValue(n.attributes[name], Fold(host), v))
    ensures var a := n.attributes[name];
      if Fold(host) in a.values
      then v.current == a.values[Fold(host)].current && v.requested == a.values[Fold(host)].requested && v.blank == a.values[Fold(host)].blank
      else v.blank && v.current.None? && v.requested.None?
  {
    v := EntryFor(n.attributes[name], host);
    v := v.(remote := v.remote || IsSet(op.isRemote));
  }

  lemma WithEntryKeeps(n: Node, name: string, op: Op, host: string, c: Side)
    requires Inv(n, c) && name in n.attributes
    ensures var n' := WithEntry(n, name, op, host);
      Inv(n', c) && name in n'.attributes && Fold(host) in n'.attributes[name].values
  {
    hide WithEntry, Sound, Settled, CallsOk;
    var v := WithEntryIs(n, name, op, host);
    NotRemovedKeeps(n, Fold(host), c);
    var n1 := n.(removed := n.removed - {Fold(host)});
    EntryKept(n1, c, name, n.attributes[name], Fold(host), v);
    EditKeeps(n1, name, SetValue(n.attributes[name], Fold(host), v), c);
  }

  /** Neither a new blank entry nor a change of a value's marks disturbs anything. */
  lemma EntryKept(n: Node, c: Side, name: string, a: Attr, h: string, v: Value)
    requires Sound(n, c, name, a) && h !in n.removed
    requires h in a.values ==>
               v.current == a.values[h].current && v.requested == a.values[h].requested && v.blank == a.values[h].blank
    requires h !in a.values ==> v.blank && v.current.None? && v.requested.None?
    ensures Sound(n, c, name, SetValue(a, h, v))
    ensures Settled(n, c, name, a) ==> Settled(n, c, name, SetValue(a, h, v))
  {
    if h in a.values && Stored(n.log, c, name, h, a.values[h]) {
      StoredKept(n.log, n.log, c, c, name, h, a.values[h], v);
    }
    hide Stored;
  }

  lemma ChangeKept(n: Node, c: Side, name: string, a: Attr, h: string, value: Option<string>)
    requires Sound(n, c, name, a) && h in a.values
    ensures Sound(n, c, name, SetValue(a, h, a.values[h].(current := value, blank := false)).(changed := true))
    ensures Sound(n, c, name, SetValue(a, h, a.values[h].(current := value, blank := false)).(changed := true, timer := Running))
  {
  }

  lemma ChangeValueKeeps(n: Node, name: string, h: string, value: Option<string>, env: Env, c: Side)
    requires Inv(n, c) && name in n.attributes && h in n.attributes[name].values
    ensures Inv(ChangeValue(n, name, h, value, env), c)
  {
    hide WriteOrElect, InFlightOk, Stored;
    var a := n.attributes[name];
    var a' := SetValue(a, h, a.values[h].(current := value, blank := false)).(changed := true);
    ChangeKept(n, c, name, a, h, value);
    if a.timeoutMs != 0 && a.timer != NoTimer {
      EditKeeps(n, name, a'.(timer := Running), c);
    } else {
      EditThenWrite(n, name, a', env, c);
    }
  }

  lemma MarkFromPeerKeeps(n: Node, name: string, h: string, c: Side)
    requires Inv(n, c)
    ensures Inv(MarkFromPeer(n, name, h), c)
  {
    hide Carried, Stored;
    if name in n.attributes && h in n.attributes[name].values {
      var a := n.attributes[name];
      var v := a.values[h].(fromPeer := true);
      EntryKept(n, c, name, a, h, v);
      EditKeeps(n, name, SetValue(a, h, v), c);
    }
  }

  lemma LearnXmlIdKeeps(n: Node, h: string, id: Option<string>, previous: Option<string>, env: Env, c: Side)
    requires Inv(n, c) && ValidEnv(env)
    ensures Inv(LearnXmlId(n, h, id, previous, env), c)
  {
    if id.Some? {
      var n' := n.(xmlIds := n.xmlIds[h := id.value]);
      QuietKeeps(n, n', c);
      WriteAttributesKeeps(n', false, false, env, c);
    }
  }

  lemma ForceKept(n: Node, c: Side, name: string, a: Attr)
    ensures Sound(n, c, name, a) ==> Sound(n, c, name, a.(forceWrite := true))
    ensures Settled(n, c, name, a) ==> Settled(n, c, name, a.(forceWrite := true))
  {
  }

  lemma TakeValueKeeps(n: Node, name: string, op: Op, host: string, filter: bool, env: Env, c: Side)
    requires Inv(n, c) && name in n.attributes && Fold(host) in n.attributes[name].values
    ensures Inv(TakeValue(n, name, op, host, filter, env), c)
  {
    hide ChangeValue, InFlightOk, Stored;
    var a := n.attributes[name];
    var n' := TakeValue(n, name, op, host, filter, env);
    if SameText(a.values[Fold(host)].current, op.value) {
      ForceKept(n, c, name, a);
      EditKeeps(n, name, a.(forceWrite := true), c);
    } else if filter && Fold(host) == Fold(n.self) {
      QuietKeeps(n, n', c);
    } else {
      ChangeValueKeeps(n, name, Fold(host), op.value, env, c);
    }
  }

  lemma UpdateOnHostKeeps(n: Node, name: string, op: Op, host: string, filter: bool, env: Env, c: Side)
    requires Inv(n, c) && ValidEnv(env)
    ensures Inv(UpdateOnHost(n, name, op, host, filter, env), c)
  {
    hide WithEntry, TakeValue, MarkFromPeer, LearnXmlId, Inv;
    if name in n.attributes {
      var previous := Lookup(n.xmlIds, Fold(host));
      var n1 := WithEntry(n, name, op, host);
      WithEntryKeeps(n, name, op, host, c);
      TakeValueKeeps(n1, name, op, host, filter, env, c);
      var n2 := TakeValue(n1, name, op, host, filter, env);
      MarkFromPeerKeeps(n2, name, Fold(host), c);
      LearnXmlIdKeeps(MarkFromPeer(n2, name, Fold(host)), Fold(host), OrElse(op.hostId, previous), previous, env, c);
    }
  }

  lemma {:induction false} UpdateOnHostsKeeps(n: Node, name: string, op: Op, hosts: seq<string>, filter: bool, env: Env, c: Side)
    requires Inv(n, c) && ValidEnv(env)
    ensures Inv(UpdateOnHosts(n, name, op, hosts, filter, env), c)
  {
    hide UpdateOnHost, Inv;
    if hosts != [] {
      UpdateOnHostsKeeps(n, name, op, hosts[..|hosts|-1], filter, env, c);
      UpdateOnHostKeeps(UpdateOnHosts(n, name, op, hosts[..|hosts|-1], filter, env), name, op, hosts[|hosts|-1], filter, env, c);
    }
  }

  lemma CreateKeeps(n: Node, op: Op, name: string, c: Side)
    requires Inv(n, c) && name !in n.attributes
    ensures var r := CreateAttribute(n, op, name); r.Some? ==> Inv(r.value, c) && name in r.value.attributes
  {
    var r := CreateAttribute(n, op, name);
    if r.Some? {
      var n', a' := r.value, r.value.attributes[name];
      assert forall call :: call in n.callbacks ==> n.callbacks[call] != name;
      EditIsLocal(n, n', name, a', [], n.callbacks);
      CallsKept(n, n', c, name);
      AttrStep(n, n', c, name);
    }
  }

  lemma DelayKept(n: Node, c: Side, name: string, a: Attr, ms: nat)
    requires Sound(n, c, name, a)
    ensures Sound(n, c, name, a.(timeoutMs := CapMs(ms), timer := if ms > 0 then Idle else NoTimer))
  {
  }

  lemma UpdateDampeningKeeps(n: Node, op: Op, name: string, env: Env, c: Side)
    requires Inv(n, c) && name in n.attributes
    ensures Inv(UpdateDampening(n, op, name, env).0, c)
  {
    hide WriteOrElect, InFlightOk, Stored;
    match op.delay
    case Some(DelayMs(ms)) =>
      if ms >= 0 && n.attributes[name].timeoutMs != ms {
        var a := n.attributes[name];
        DelayKept(n, c, name, a, ms);
        EditThenWrite(n, name, a.(timeoutMs := CapMs(ms), timer := if ms > 0 then Idle else NoTimer), env, c);
      }
    case _ =>
  }

  lemma PopulateKeeps(n: Node, op: Op, name: string, env: Env, c: Side)
    requires Inv(n, c)
    ensures Inv(Populate(n, op, name, env).0, c)
  {
    hide Inv, UpdateDampening, CreateAttribute;
    if name !in n.attributes {
      CreateKeeps(n, op, name, c);
      var r := CreateAttribute(n, op, name);
      if r.Some? { UpdateDampeningKeeps(r.value, op, name, env, c); }
    } else {
      UpdateDampeningKeeps(n, op, name, env, c);
    }
  }

  lemma PeerUpdateOneKeeps(n: Node, op: Op, filter: bool, env: Env, c: Side)
    requires Inv(n, c) && ValidEnv(env)
    ensures Inv(PeerUpdateOne(n, op, filter, env), c)
  {
    hide Inv, Populate, UpdateOnHost, UpdateOnHosts;
    if op.name.Some? {
      var name := op.name.value;
      PopulateKeeps(n, op, name, env, c);
      var (n', ok) := Populate(n, op, name, env);
      if ok && name in n'.attributes {
        if op.host.Some? {
          UpdateOnHostKeeps(n', name, op, op.host.value, filter, env, c);
        } else {
          UpdateOnHostsKeeps(n', name, op.(hostId := None), env.order(n'.attributes[name].values.Keys), filter, env, c);
        }
      }
    }
  }

  lemma {:induction false} UpdateChildrenKeeps(n: Node, parent: Op, children: seq<Element>, filter: bool, env: Env, c: Side)
    requires Inv(n, c) && ValidEnv(env)
    ensures Inv(UpdateChildren(n, parent, children, filter, env), c)
  {
    hide Inv, PeerUpdateOne;
    if children != [] {
      UpdateChildrenKeeps(n, parent, children[..|children|-1], filter, env, c);
      PeerUpdateOneKeeps(UpdateChildren(n, parent, children[..|children|-1], filter, env),
                         Merge(children[|children|-1].attrs, parent), filter, env, c);
    }
  }

  lemma PeerUpdateKeeps(n: Node, e: Element, filter: bool, env: Env, c: Side)
    requires Inv(n, c) && ValidEnv(env)
    ensures Inv(PeerUpdate(n, e, filter, env), c)
  {
    hide Inv, PeerUpdateOne, UpdateChildren;
    UpdateChildrenKeeps(n, e.attrs, e.children, filter, env, c);
    PeerUpdateOneKeeps(n, e.attrs, filter, env, c);
  }

  lemma {:induction false} ClearMatchingKeeps(n: Node, e: Element, names: seq<string>, matching: set<string>, env: Env, c: Side)
    requires Inv(n, c) && ValidEnv(env)
    ensures Inv(ClearMatching(n, e, names, matching, env), c)
  {
    hide Inv, PeerUpdate;
    if names != [] {
      var front, name := names[..|names|-1], names[|names|-1];
      ClearMatchingKeeps(n, e, front, matching, env, c);
      PeerUpdateKeeps(ClearMatching(n, e, front, matching, env), ClearOf(ClearRequest(e, front, matching), name), false, env, c);
    }
  }

  lemma {:induction false} LoadChildrenKeeps(n: Node, children: seq<Element>, env: Env, c: Side)
    requires Inv(n, c) && ValidEnv(env)
    ensures Inv(LoadChildren(n, children, env), c)
  {
    hide Inv, PeerUpdate;
    if children != [] {
      LoadChildrenKeeps(n, children[..|children|-1], env, c);
      PeerUpdateKeeps(LoadChildren(n, children[..|children|-1], env), children[|children|-1], true, env, c);
    }
  }

  // ---- Sync responses ----

  lemma UnseenKept(n: Node, c: Side, name: string, a: Attr)
    ensures Sound(n, c, name, a) ==> Sound(n, c, name, Unseen(a))
    ensures Settled(n, c, name, a) ==> Settled(n, c, name, Unseen(a))
  {
    forall h | h in a.values && Stored(n.log, c, name, h, a.values[h])
      ensures Stored(n.log, c, name, h, a.values[h].(fromPeer := false))
    {
      StoredKept(n.log, n.log, c, c, name, h, a.values[h], a.values[h].(fromPeer := false));
    }
    hide Stored;
  }

  lemma ClearValueSeenKeeps(n: Node, c: Side)
    requires Inv(n, c)
    ensures Inv(ClearValueSeen(n), c)
  {
    hide InFlightOk, Stored;
    var n' := ClearValueSeen(n);
    forall b | b in n.attributes
      ensures Sound(n', c, b, n'.attributes[b]) && (IsWriter(n) ==> Settled(n', c, b, n'.attributes[b]))
    {
      UnseenKept(n, c, b, n.attributes[b]);
      SameSurroundings(n, n', c, b, n'.attributes[b]);
    }
  }

  lemma SyncResponseKeeps(n: Node, peer: string, peerWon: bool, e: Element, env: Env, c: Side)
    requires Inv(n, c) && ValidEnv(env)
    ensures Inv(HandleSyncResponse(n, peer, peerWon, e, env), c)
  {
    hide Inv, LoadChildren, ClearValueSeen, CheckForNewWriter;
    var n1 := CheckForNewWriter(n, peer, peerWon, env);
    assert Quiet(n, n1) by { CheckIsQuiet(n, peer, peerWon, env); }
    QuietKeeps(n, n1, c);
    ClearValueSeenKeeps(n1, c);
    var n2 := if peerWon then ClearValueSeen(n1) else n1;
    LoadChildrenKeeps(n2, e.children, env, c);
    var n3 := LoadChildren(n2, e.children, env);
    QuietKeeps(n3, BroadcastUnseen(n3, env), c);
  }

  lemma CheckIsQuiet(n: Node, peer: string, peerWon: bool, env: Env)
    ensures Quiet(n, CheckForNewWriter(n, peer, peerWon, env))
  {
  }

  // ---- Removal and erasure ----

  /** Erasing a host nobody holds a value for touches nothing that matters. */
  lemma EraseKept(n: Node, n': Node, c: Side, name: string, a: Attr, h: string)
    requires |c.results| <= |n.log|
    requires n'.log == n.log + [Erase(h)] && n'.callbacks == n.callbacks && n'.standAlone == n.standAlone
    requires n'.removed <= n.removed && h !in a.values
    ensures Sound(n, c, name, a) ==> Sound(n', c, name, a)
    ensures Settled(n, c, name, a) ==> Settled(n', c, name, a)
  {
    forall k | k in a.values && Stored(n.log, c, name, k, a.values[k])
      ensures Stored(n'.log, c, name, k, a.values[k])
    {
      StoredKept(n.log, n'.log, c, c, name, k, a.values[k], a.values[k]);
    }
    hide Stored;
  }

  lemma EraseKeeps(n: Node, n': Node, c: Side, h: string)
    requires forall name :: name in n.attributes ==> h !in n.attributes[name].values
    requires n'.attributes == n.attributes && n'.log == n.log + [Erase(h)] && n'.callbacks == n.callbacks
    requires n'.removed <= n.removed && n'.standAlone == n.standAlone && n'.lastDone == n.lastDone && n'.election == n.election
    ensures Base(n, c) ==> Base(n', c)
    ensures Inv(n, c) ==> Inv(n', c)
  {
    hide Sound, Settled;
    if Base(n, c) {
      forall b | b in n.attributes
        ensures Sound(n', c, b, n'.attributes[b])
        ensures Settled(n, c, b, n.attributes[b]) ==> Settled(n', c, b, n'.attributes[b])
      {
        EraseKept(n, n', c, b, n.attributes[b], h);
      }
    }
  }

  lemma DropKept(n: Node, n': Node, c: Side, name: string, a: Attr, h: string)
    requires n'.log == n.log && n'.callbacks == n.callbacks && n'.standAlone == n.standAlone
    requires n'.removed <= n.removed + {h}
    ensures Sound(n, c, name, a) ==> Sound(n', c, name, a.(values := a.values - {h}))
    ensures Settled(n, c, name, a) ==> Settled(n', c, name, a.(values := a.values - {h}))
  {
  }

  lemma DropKeeps(n: Node, n': Node, c: Side, h: string)
    requires Inv(n, c) && n'.attributes == DropHost(n.attributes, h) && n'.removed <= n.removed + {h}
    requires n'.log == n.log && n'.callbacks == n.callbacks && n'.standAlone == n.standAlone
    requires n'.lastDone == n.lastDone && n'.election == n.election
    ensures Inv(n', c)
  {
    hide Sound, Settled;
    forall b | b in n.attributes
      ensures Sound(n', c, b, n'.attributes[b])
      ensures Settled(n, c, b, n.attributes[b]) ==> Settled(n', c, b, n'.attributes[b])
    {
      DropKept(n, n', c, b, n.attributes[b], h);
    }
  }

  lemma PeerRemoveKeeps(n: Node, host: string, uncache: bool, env: Env, c: Side)
    requires Inv(n, c)
    ensures Inv(PeerRemove(n, host, uncache, env), c)
  {
    hide Inv;
    if IsWriter(n) {
      WriterRemoveKeeps(n, host, uncache, env, c);
    } else {
      var n2 := n.(attributes := DropHost(n.attributes, Fold(host)), removed := n.removed + {Fold(host)});
      DropKeeps(n, n2, c, Fold(host));
      QuietKeeps(n2, PeerRemove(n, host, uncache, env), c);
    }
  }

  lemma WriterRemoveKeeps(n: Node, host: string, uncache: bool, env: Env, c: Side)
    requires Inv(n, c) && IsWriter(n)
    ensures Inv(PeerRemove(n, host, uncache, env), c)
  {
    hide Inv;
    var n1 := n.(attributes := DropHost(n.attributes, Fold(host)));
    DropKeeps(n, n1, c, Fold(host));
    EraseKeeps(n1, PeerRemove(n, host, uncache, env), c, Fold(host));
  }

  /** Erasing removed peers never touches a host that has a value. */
  lemma {:induction false} EraseEachKeeps(n: Node, hosts: seq<string>, c: Side)
    requires Base(n, c) && forall i :: 0 <= i < |hosts| ==> hosts[i] in n.removed
    ensures var n' := EraseEach(n, hosts);
      && Base(n', c) && n'.attributes == n.attributes && n'.election == n.election
      && n'.removed == n.removed - (set h | h in hosts)
  {
    if hosts != [] {
      hide Sound;
      var front, h := hosts[..|hosts|-1], hosts[|hosts|-1];
      EraseEachKeeps(n, front, c);
      assert hosts == front + [h];
      assert h in n.removed;
      assert forall b :: b in n.attributes ==> Sound(n, c, b, n.attributes[b]);
      EraseKeeps(EraseEach(n, front), EraseEach(n, hosts), c, h);
    }
  }

  // ---- Winning ----

  lemma WinKeeps(n: Node, env: Env, c: Side)
    requires Inv(n, c) && ValidEnv(env)
    ensures var n' := WinElection(n, env); Inv(n', c) && IsWriter(n') && n'.removed == {}
  {
    hide Base, Inv, WriteAttributes, EraseEach, SyncMessage;
    var n1 := PeerSync(n.(election := Won, writer := Some(n.self)), None, env);
    BaseIgnoresElection(n, n1, c);
    var hosts := env.order(n1.removed);
    assert Enumerates(hosts, n1.removed);
    assert forall i :: 0 <= i < |hosts| ==> hosts[i] in hosts;
    EraseEachKeeps(n1, hosts, c);
    WriteAttributesKeeps(EraseEach(n1, hosts), true, false, env, c);
  }

  lemma BaseIgnoresElection(n: Node, n': Node, c: Side)
    requires Inv(n, c) && n'.attributes == n.attributes && n'.log == n.log && n'.callbacks == n.callbacks
    requires n'.removed == n.removed && n'.standAlone == n.standAlone && n'.lastDone == n.lastDone
    ensures Base(n', c)
  {
    forall b | b in n.attributes ensures Sound(n', c, b, n'.attributes[b]) {
      SameSurroundings(n, n', c, b, n.attributes[b]);
    }
  }

  lemma CompleteIsWin(n: Node, peer: string, outcome: VoteOutcome, env: Env)
    requires outcome.Counted? && n.election.InProgress? && outcome.complete
    ensures HandleElectionOp(n, peer, outcome, env) == WinElection(n, env)
  {
    hide WinElection;
  }

  lemma VoteIsQuiet(n: Node, peer: string, outcome: VoteOutcome, env: Env)
    requires !(outcome.Counted? && n.election.InProgress? && outcome.complete)
    ensures Quiet(n, HandleElectionOp(n, peer, outcome, env))
  {
    hide WinElection;
  }

  lemma ElectionOpKeeps(n: Node, peer: string, outcome: VoteOutcome, env: Env, c: Side)
    requires Inv(n, c) && ValidEnv(env)
    ensures Inv(HandleElectionOp(n, peer, outcome, env), c)
  {
    hide Inv, Base, WinElection, HandleElectionOp;
    if outcome.Counted? && n.election.InProgress? && outcome.complete {
      WinKeeps(n, env, c);
      CompleteIsWin(n, peer, outcome, env);
    } else {
      VoteIsQuiet(n, peer, outcome, env);
      QuietKeeps(n, HandleElectionOp(n, peer, outcome, env), c);
    }
  }

  lemma RemoveVoterKeeps(n: Node, peer: string, complete: bool, env: Env, c: Side)
    requires Inv(n, c) && ValidEnv(env)
    ensures Inv(RemoveVoter(n, peer, complete, env), c)
  {
    hide Inv, WinElection;
    if n.writer.Some? && Fold(peer) == Fold(n.writer.value) {
      QuietKeeps(n, RemoveVoter(n, peer, complete, env), c);
    } else {
      WinKeeps(n, env, c);
    }
  }

  // ---- Replies, time-outs and timers ----

  /** A call's callback fires and is dropped: in order (`c'` has heard one more reply) or by time-out. */
  ghost predicate Answer(n: Node, c: Side, call: int, n': Node, c': Side, a: Attr) {
    && call in n.callbacks && n.callbacks[call] in n.attributes
    && n'.attributes == n.attributes[n.callbacks[call] := a]
    && n'.callbacks == n.callbacks - {call}
    && n'.log == n.log && n'.removed == n.removed && n'.standAlone == n.standAlone && n'.election == n.election
    && a.update == 0 && a.isPrivate == n.attributes[n.callbacks[call]].isPrivate
    && ((c' == c && n'.lastDone == n.lastDone)
        || (call == c.told + 1 <= |c.results| && c' == c.(told := call) && n'.lastDone <= call))
  }

  lemma AnswerOther(n: Node, c: Side, call: int, n': Node, c': Side, a: Attr, b: string)
    requires CallsOk(n, c) && Answer(n, c, call, n', c', a) && b in n.attributes && b != n.callbacks[call]
    requires Sound(n, c, b, n.attributes[b])
    ensures Sound(n', c', b, n'.attributes[b])
    ensures Settled(n, c, b, n.attributes[b]) ==> Settled(n', c', b, n'.attributes[b])
  {
    var a := n.attributes[b];
    forall h | h in a.values && Stored(n.log, c, b, h, a.values[h])
      ensures Stored(n'.log, c', b, h, a.values[h])
    {
      StoredKept(n.log, n'.log, c, c', b, h, a.values[h], a.values[h]);
    }
    hide Stored;
  }

  lemma AnswerKeeps(n: Node, c: Side, call: int, n': Node, c': Side, a: Attr)
    requires Inv(n, c) && Answer(n, c, call, n', c', a)
    requires Sound(n', c', n.callbacks[call], a)
    ensures InvExcept(n', c', n.callbacks[call])
  {
    hide Sound, Settled;
    forall b | b in n.attributes && b != n.callbacks[call]
      ensures Sound(n', c', b, n'.attributes[b])
      ensures Settled(n, c, b, n.attributes[b]) ==> Settled(n', c', b, n'.attributes[b])
    {
      AnswerOther(n, c, call, n', c', a, b);
    }
  }

  lemma FailureKeeps(n: Node, c: Side, call: int, c': Side, env: Env)
    requires Inv(n, c) && call in n.callbacks
    requires c' == c || (call == c.told + 1 <= |c.results| && c' == c.(told := call))
    ensures Inv(CibCallback(n, call, false, env), c')
  {
    hide Settled;
    var name := n.callbacks[call];
    var n' := CibCallback(n, call, false, env);
    var a' := n'.attributes[name];
    AnswerKeeps(n, c, call, n', c', a');
    assert IsWriter(n) ==> Settled(n', c', name, a') by { FailedIsSettled(n', c', name, n.attributes[name]); }
  }

  lemma FailedIsSettled(n: Node, c: Side, name: string, a: Attr)
    ensures IsWriter(n) ==> Settled(n, c, name, AfterFailure(a, true))
  {
  }

  lemma ConfirmedIsSound(n: Node, c: Side, n': Node, c': Side, name: string, a: Attr)
    requires Sound(n, c, name, a) && a.update == c.told + 1 <= |c.results| <= |n.log| && c.results[c.told]
    requires n'.log == n.log && n'.removed == n.removed && n'.standAlone == n.standAlone && c' == c.(told := a.update)
    ensures Sound(n', c', name, Confirmed(a))
    ensures !a.changed ==> Settled(n', c', name, Confirmed(a))
  {
    if Clean(a) {
      forall h | h in a.values && !a.values[h].blank
        ensures Stored(n'.log, c', name, h, Confirmed(a).values[h])
      {
        assert StoredBy(n'.log, c', name, h, Confirmed(a).values[h], a.update);
      }
    }
    hide Stored;
  }

  lemma SuccessKeeps(n: Node, c: Side, env: Env)
    requires Inv(n, c) && c.told < |c.results| && c.results[c.told] && c.told + 1 in n.callbacks
    ensures Inv(CibCallback(n, c.told + 1, true, env), c.(told := c.told + 1))
  {
    hide Settled, Sound, WriteAttribute;
    var call, c' := c.told + 1, c.(told := c.told + 1);
    var name := n.callbacks[call];
    var a := n.attributes[name];
    var n' := SetAttr(n.(callbacks := n.callbacks - {call}), name, Confirmed(a)).(lastDone := call);
    ConfirmedIsSound(n, c, n', c', name, a);
    AnswerKeeps(n, c, call, n', c', Confirmed(a));
    assert CibCallback(n, call, true, env)
        == if a.changed && IsWriter(n) then WriteAttribute(n', name, false, env) else n';
    if a.changed && IsWriter(n) {
      WriteAttributeKeeps(n', name, false, env, c');
      WroteKeepsInv(n', WriteAttribute(n', name, false, env), c', name);
    }
  }

  /** The next reply arrives; if its callback is gone, only the count of replies moves. */
  lemma ReplyKeeps(n: Node, c: Side, env: Env)
    requires Inv(n, c) && c.told < |c.results|
    ensures Inv(CibCallback(n, c.told + 1, c.results[c.told], env), c.(told := c.told + 1))
  {
    if c.told + 1 in n.callbacks {
      if c.results[c.told] {
        SuccessKeeps(n, c, env);
      } else {
        FailureKeeps(n, c, c.told + 1, c.(told := c.told + 1), env);
      }
    } else {
      LateReply(n, c);
    }
  }

  lemma LateReply(n: Node, c: Side)
    requires Inv(n, c) && c.told < |c.results| && c.told + 1 !in n.callbacks
    ensures Inv(n, c.(told := c.told + 1))
  {
    var c' := c.(told := c.told + 1);
    forall name, h | name in n.attributes && h in n.attributes[name].values && Stored(n.log, c, name, h, n.attributes[name].values[h])
      ensures Stored(n.log, c', name, h, n.attributes[name].values[h])
    {
      StoredKept(n.log, n.log, c, c', name, h, n.attributes[name].values[h], n.attributes[name].values[h]);
    }
    hide Stored;
  }

  lemma TimerKept(n: Node, c: Side, name: string, a: Attr)
    ensures Sound(n, c, name, a) ==> Sound(n, c, name, a.(timer := Idle))
  {
  }

  lemma TimerExpiredKeeps(n: Node, name: string, env: Env, c: Side)
    requires Inv(n, c)
    ensures Inv(TimerExpired(n, name, env), c)
  {
    hide WriteOrElect;
    if name in n.attributes {
      TimerKept(n, c, name, n.attributes[name]);
      EditThenWrite(n, name, n.attributes[name].(timer := Idle), env, c);
    }
  }
}
