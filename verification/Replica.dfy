/** What peers share: the attribute table without the bookkeeping of writes, and how messages change it,
    independently of elections, timers, the CIB and the order in which tables are traversed. */
module Replica {
  import opened Common
  import opened Model
  import opened Elections
  import opened CibWrites
  import opened Attributes
  import opened Corosync

  datatype Entry = Entry(nodename: string, current: Option<string>, remote: bool, seen: bool)
  datatype Row = Row(setType: string, setId: Option<string>, user: Option<string>, isPrivate: bool, timeoutMs: nat,
                     values: map<string, Entry>)
  type Table = map<string, Row>

  function EntryOf(v: Value): Entry {
    Entry(v.nodename, v.current, v.remote, v.fromPeer)
  }

  function RowOf(a: Attr): Row {
    Row(a.setType, a.setId, a.user, a.isPrivate, a.timeoutMs, map h | h in a.values :: EntryOf(a.values[h]))
  }

  function TableOf(n: Node): Table {
    map name | name in n.attributes :: RowOf(n.attributes[name])
  }

  // ---- The effect of messages on the table ----

  /** A value update; `own` is the folded local node name when local values take priority. */
  function UpdateEntry(v: Entry, h: string, op: Op, own: Option<string>): Entry {
    v.(remote := v.remote || IsSet(op.isRemote),
       current := if SameText(v.current, op.value) || own == Some(h) then v.current else op.value,
       seen := true)
  }

  function UpdateRow(r: Row, host: string, op: Op, own: Option<string>): Row {
    var h := Fold(host);
    var v := if h in r.values then r.values[h] else Entry(host, None, false, false);
    r.(values := r.values[h := UpdateEntry(v, h, op, own)])
  }

  function UpdateAllRow(r: Row, op: Op, own: Option<string>): Row {
    r.(values := map h | h in r.values :: UpdateEntry(r.values[h], h, op, own))
  }

  function NewRow(op: Op): Option<Row> {
    var setType := if op.setType.Some? then op.setType.value else INSTANCE_ATTRIBUTES;
    if !IsSet(op.isPrivate) && !ValidSetType(setType) then None
    else
      var ms := match op.delay case Some(DelayMs(ms)) => (if ms > 0 then ms else 0) case _ => 0;
      Some(Row(setType, op.setId, op.user, IsSet(op.isPrivate), CapMs(ms), map[]))
  }

  predicate ValidDelay(op: Op) {
    op.delay.Some? && op.delay.value.DelayMs? && op.delay.value.ms >= 0
  }

  function Delayed(r: Row, op: Op): Row {
    if ValidDelay(op) && r.timeoutMs != op.delay.value.ms then r.(timeoutMs := CapMs(op.delay.value.ms)) else r
  }

  /** Whether a message may create an attribute, change its delay, and set a value. */
  predicate Both(op: Op) {
    op.task.None? || op.task == Some(UpdateBoth)
  }

  /** The row an update works on, or none if it is ignored; the flag tells whether a value is set. */
  function FindRow(t: Table, op: Op, name: string): (Option<Row>, bool) {
    var r := if name in t then Some(t[name]) else if Both(op) || op.task == Some(Update) then NewRow(op) else None;
    if r.None? then (None, false)
    else if Both(op) then (Some(Delayed(r.value, op)), ValidDelay(op))
    else if op.task == Some(UpdateDelay) then (Some(Delayed(r.value, op)), false)
    else (r, true)
  }

  function UpdateOne(t: Table, op: Op, own: Option<string>): Table {
    if op.name.None? then t else
      var (r, sets) := FindRow(t, op, op.name.value);
      if r.None? then t
      else t[op.name.value :=
               if !sets then r.value
               else if op.host.Some? then UpdateRow(r.value, op.host.value, op, own)
               else UpdateAllRow(r.value, op, own)]
  }

  function UpdateEach(t: Table, parent: Op, children: seq<Element>, own: Option<string>): Table {
    if children == [] then t else
      var t' := UpdateEach(t, parent, children[..|children|-1], own);
      var child := children[|children|-1];
      if child.isOp then UpdateOne(t', Merge(child.attrs, parent), own) else t'
  }

  function UpdateTable(t: Table, e: Element, own: Option<string>): Table {
    if e.children != [] then UpdateEach(t, e.attrs, e.children, own) else UpdateOne(t, e.attrs, own)
  }

  function LoadTable(t: Table, children: seq<Element>, own: string): Table {
    if children == [] then t
    else UpdateTable(LoadTable(t, children[..|children|-1], own), children[|children|-1], Some(own))
  }

  /** Unset the rows that match, one host or all of them. */
  function ClearTable(t: Table, op: Op, matching: set<string>): Table {
    map name | name in t ::
      if name in matching then
        (if op.host.Some? then UpdateRow(t[name], op.host.value, op.(value := None), None)
         else UpdateAllRow(t[name], op.(value := None), None))
      else t[name]
  }

  function RemoveFrom(t: Table, h: string): Table {
    map name | name in t :: t[name].(values := t[name].values - {h})
  }

  // ---- Writing leaves the table alone ----

  ghost predicate SameView(n: Node, n': Node) {
    && TableOf(n') == TableOf(n)
    && n'.self == n.self && n'.shuttingDown == n.shuttingDown
  }

  /** Only one row of the table changes. */
  ghost predicate RowSet(n: Node, n': Node, name: string, r: Row) {
    && TableOf(n') == TableOf(n)[name := r]
    && n'.self == n.self && n'.shuttingDown == n.shuttingDown
  }

  lemma SetAttrView(n: Node, name: string, a: Attr)
    ensures RowSet(n, SetAttr(n, name, a), name, RowOf(a))
  {
  }

  lemma RowSetThenSame(n: Node, n1: Node, n2: Node, name: string, r: Row)
    requires RowSet(n, n1, name, r) && SameView(n1, n2)
    ensures RowSet(n, n2, name, r)
  {
  }

  lemma SameIsRowSet(n: Node, n': Node, name: string)
    requires SameView(n, n') && name in n.attributes
    ensures RowSet(n, n', name, RowOf(n.attributes[name]))
  {
  }

  lemma SameRow(n: Node, n': Node, name: string, a: Attr)
    requires name in n.attributes && n'.attributes == n.attributes[name := a] && RowOf(a) == RowOf(n.attributes[name])
    ensures TableOf(n') == TableOf(n)
  {
  }

  lemma RequestedView(a: Attr, ops: map<string, Option<string>>)
    ensures (map h | h in Requested(a.values, ops) :: EntryOf(Requested(a.values, ops)[h]))
         == (map h | h in a.values :: EntryOf(a.values[h]))
  {
  }

  lemma PreparedView(n: Node, a: Attr)
    ensures RowOf(Prepared(n, a)) == RowOf(a)
  {
    RequestedView(a, Snapshot(n, a));
  }

  lemma WriteView(n: Node, name: string, ignoreDelay: bool, env: Env)
    ensures SameView(n, WriteAttribute(n, name, ignoreDelay, env))
  {
    if name in n.attributes {
      var a := n.attributes[name];
      var n' := WriteAttribute(n, name, ignoreDelay, env);
      if !Writable(n, a) {
        SameRow(n, n', name, ClearFlags(a));
      } else if !MustWait(n, a, ignoreDelay) {
        SendView(n, name, env);
      }
    }
  }

  lemma SendView(n: Node, name: string, env: Env)
    requires name in n.attributes
    ensures SameView(n, SendTransaction(n, name, env))
  {
    var a := n.attributes[name];
    var n' := SendTransaction(n, name, env);
    PreparedView(n, a);
    hide Snapshot, Prepared, LearnedIds, RowOf;
    if Snapshot(n, a) == map[] {
      SameRow(n, n', name, Prepared(n, a));
    } else if env.refuses(|n.log| + 1) {
      assert RowOf(AfterFailure(Prepared(n, a), IsWriter(n))) == RowOf(Prepared(n, a)) by {
        FailureView(Prepared(n, a), IsWriter(n));
      }
      SameRow(n, n', name, AfterFailure(Prepared(n, a), IsWriter(n)));
    } else {
      UpdateView(Prepared(n, a), |n.log| + 1);
      SameRow(n, n', name, Prepared(n, a).(update := |n.log| + 1));
    }
  }

  lemma FailureView(a: Attr, isWriter: bool)
    ensures RowOf(AfterFailure(a, isWriter)) == RowOf(a)
  {
  }

  lemma UpdateView(a: Attr, call: int)
    ensures RowOf(a.(update := call)) == RowOf(a)
  {
  }

  lemma WriteOrElectView(n: Node, name: string, env: Env)
    ensures SameView(n, WriteOrElect(n, name, env))
  {
    WriteView(n, name, false, env);
  }

  lemma WriteIfAskedView(n: Node, name: string, all: bool, noDelay: bool, env: Env)
    ensures SameView(n, WriteIfAsked(n, name, all, noDelay, env))
  {
    hide WriteAttribute;
    if name in n.attributes {
      var a := n.attributes[name];
      var n1 := SetAttr(n, name, a.(changed := true));
      SameRow(n, n1, name, a.(changed := true));
      WriteView(n1, name, noDelay || a.forceWrite, env);
      WriteView(n, name, noDelay || a.forceWrite, env);
    }
  }

  lemma {:induction false} WriteEachView(n: Node, names: seq<string>, all: bool, noDelay: bool, env: Env)
    ensures SameView(n, WriteEach(n, names, all, noDelay, env))
  {
    hide WriteIfAsked;
    if names != [] {
      WriteEachView(n, names[..|names|-1], all, noDelay, env);
      WriteIfAskedView(WriteEach(n, names[..|names|-1], all, noDelay, env), names[|names|-1], all, noDelay, env);
    }
  }

  lemma ConfirmedView(a: Attr)
    ensures RowOf(Confirmed(a)) == RowOf(a)
  {
    assert RowOf(Confirmed(a)).values == RowOf(a).values;
  }

  lemma CallbackOkView(n: Node, name: string, call: int, env: Env)
    ensures SameView(n, CallbackOk(n, name, call, env))
  {
    if name in n.attributes {
      ConfirmedView(n.attributes[name]);
      hide WriteAttribute, Confirmed;
      var n' := SetAttr(n, name, Confirmed(n.attributes[name])).(lastDone := call);
      SameRow(n, n', name, Confirmed(n.attributes[name]));
      WriteView(n', name, false, env);
    }
  }

  lemma CallbackView(n: Node, call: int, ok: bool, env: Env)
    ensures SameView(n, CibCallback(n, call, ok, env))
  {
    if call in n.callbacks {
      var n' := n.(callbacks := n.callbacks - {call});
      var name := n.callbacks[call];
      CallbackOkView(n', name, call, env);
      if name in n.attributes {
        FailureView(n.attributes[name], IsWriter(n));
        hide RowOf, CallbackOk, AfterFailure;
        SameRow(n', CallbackFailed(n', name), name, AfterFailure(n.attributes[name], IsWriter(n)));
      }
    }
  }

  lemma TimerView(n: Node, name: string, env: Env)
    ensures SameView(n, TimerExpired(n, name, env))
  {
    hide WriteOrElect;
    if name in n.attributes {
      var n1 := SetAttr(n, name, n.attributes[name].(timer := Idle));
      SameRow(n, n1, name, n.attributes[name].(timer := Idle));
      WriteOrElectView(n1, name, env);
    }
  }

  // ---- Updates act on the table alone ----

  function Own(n: Node, filter: bool): Option<string> {
    if filter then Some(Fold(n.self)) else None
  }

  /** One host's value changes, once its entry exists and before it is marked as seen. */
  function Taken(r: Row, h: string, op: Op, own: Option<string>): Row
    requires h in r.values
  {
    var v := r.values[h];
    r.(values := r.values[h := v.(current := if SameText(v.current, op.value) || own == Some(h) then v.current else op.value)])
  }

  lemma ChangedRow(a: Attr, h: string, value: Option<string>, timer: Timer)
    requires h in a.values
    ensures RowOf(SetValue(a, h, a.values[h].(current := value, blank := false)).(changed := true, timer := timer))
         == RowOf(a).(values := RowOf(a).values[h := EntryOf(a.values[h]).(current := value)])
  {
  }

  lemma ChangeView(n: Node, name: string, h: string, value: Option<string>, env: Env)
    requires name in n.attributes && h in n.attributes[name].values
    ensures var r := RowOf(n.attributes[name]);
      RowSet(n, ChangeValue(n, name, h, value, env), name, r.(values := r.values[h := r.values[h].(current := value)]))
  {
    var a := n.attributes[name];
    var a' := SetValue(a, h, a.values[h].(current := value, blank := false)).(changed := true);
    ChangedRow(a, h, value, a.timer);
    ChangedRow(a, h, value, Running);
    RowEntry(a, h);
    SetAttrView(n, name, a');
    SetAttrView(n, name, a'.(timer := Running));
    WriteOrElectView(SetAttr(n, name, a'), name, env);
    hide WriteOrElect, RowOf, RowSet, SameView;
    assert a' == a'.(timer := a.timer);
    RowSetThenSame(n, SetAttr(n, name, a'), WriteOrElect(SetAttr(n, name, a'), name, env), name, RowOf(a'));
  }

  lemma RowEntry(a: Attr, h: string)
    requires h in a.values
    ensures h in RowOf(a).values && RowOf(a).values[h] == EntryOf(a.values[h])
  {
  }

  lemma NothingTaken(r: Row, h: string, op: Op, own: Option<string>)
    requires h in r.values && (SameText(r.values[h].current, op.value) || own == Some(h))
    ensures Taken(r, h, op, own) == r
  {
    assert r.values[h := r.values[h]] == r.values;
  }

  lemma TakeView(n: Node, name: string, op: Op, host: string, filter: bool, env: Env)
    requires name in n.attributes && Fold(host) in n.attributes[name].values
    ensures RowSet(n, TakeValue(n, name, op, host, filter, env), name,
                   Taken(RowOf(n.attributes[name]), Fold(host), op, Own(n, filter)))
  {
    var h, a := Fold(host), n.attributes[name];
    RowEntry(a, h);
    assert RowOf(a.(forceWrite := true)) == RowOf(a);
    SetAttrView(n, name, a.(forceWrite := true));
    SameIsRowSet(n, n, name);
    SameIsRowSet(n, BroadcastValue(n, name, a, a.values[h]), name);
    ChangeView(n, name, h, op.value, env);
    hide ChangeValue, RowOf, RowSet, BroadcastValue;
    if SameText(a.values[h].current, op.value) || Own(n, filter) == Some(h) {
      NothingTaken(RowOf(a), h, op, Own(n, filter));
    }
  }

  lemma EntryView(n: Node, name: string, op: Op, host: string)
    requires name in n.attributes
    ensures var n' := WithEntry(n, name, op, host);
      var r, h := RowOf(n.attributes[name]), Fold(host);
      var v := if h in r.values then r.values[h] else Entry(host, None, false, false);
      && name in n'.attributes && h in n'.attributes[name].values
      && RowOf(n'.attributes[name]) == r.(values := r.values[h := v.(remote := v.remote || IsSet(op.isRemote))])
      && RowSet(n, n', name, RowOf(n'.attributes[name]))
  {
    var n' := WithEntry(n, name, op, host);
    var a' := n'.attributes[name];
    SetAttrView(n, name, a');
    assert TableOf(SetAttr(n, name, a')) == TableOf(n');
  }

  lemma MarkView(n: Node, name: string, h: string)
    requires name in TableOf(n) && h in TableOf(n)[name].values
    ensures var r := TableOf(n)[name];
      RowSet(n, MarkFromPeer(n, name, h), name, r.(values := r.values[h := r.values[h].(seen := true)]))
  {
    var a := n.attributes[name];
    var a' := SetValue(a, h, a.values[h].(fromPeer := true));
    assert RowOf(a').values == RowOf(a).values[h := EntryOf(a.values[h]).(seen := true)];
    SetAttrView(n, name, a');
  }

  lemma LearnView(n: Node, h: string, id: Option<string>, previous: Option<string>, env: Env)
    ensures SameView(n, LearnXmlId(n, h, id, previous, env))
  {
    if id.Some? {
      var n' := n.(xmlIds := n.xmlIds[h := id.value]);
      WriteEachView(n', env.order(n'.attributes.Keys), false, false, env);
    }
  }

  function WithEntryRow(r: Row, op: Op, host: string): Row {
    var v := if Fold(host) in r.values then r.values[Fold(host)] else Entry(host, None, false, false);
    r.(values := r.values[Fold(host) := v.(remote := v.remote || IsSet(op.isRemote))])
  }

  function SeenRow(r: Row, h: string): Row
    requires h in r.values
  {
    r.(values := r.values[h := r.values[h].(seen := true)])
  }

  lemma UpdateRowInSteps(r: Row, op: Op, host: string, own: Option<string>)
    ensures SeenRow(Taken(WithEntryRow(r, op, host), Fold(host), op, own), Fold(host)) == UpdateRow(r, host, op, own)
  {
  }

  lemma RowSetTwice(n: Node, n1: Node, n2: Node, name: string, r1: Row, r2: Row)
    requires RowSet(n, n1, name, r1) && RowSet(n1, n2, name, r2)
    ensures RowSet(n, n2, name, r2)
  {
  }

  /** Updating a value on one host is the table operation on that row, whatever else happens on the way. */
  lemma UpdateOnHostView(n: Node, name: string, op: Op, host: string, filter: bool, env: Env)
    requires name in n.attributes
    ensures RowSet(n, UpdateOnHost(n, name, op, host, filter, env), name,
                   UpdateRow(RowOf(n.attributes[name]), host, op, Own(n, filter)))
  {
    hide WithEntry, TakeValue, MarkFromPeer, LearnXmlId, TableOf, RowOf, UpdateRow, Taken;
    var h, previous := Fold(host), Lookup(n.xmlIds, Fold(host));
    var r1 := WithEntryRow(RowOf(n.attributes[name]), op, host);
    var n1 := WithEntry(n, name, op, host);
    EntryView(n, name, op, host);
    var r2 := Taken(r1, h, op, Own(n, filter));
    var n2 := TakeValue(n1, name, op, host, filter, env);
    TakeView(n1, name, op, host, filter, env);
    RowSetTwice(n, n1, n2, name, r1, r2);
    TakenKeepsKeys(r1, h, op, Own(n, filter));
    var r3 := SeenRow(r2, h);
    var n3 := MarkFromPeer(n2, name, h);
    assert name in TableOf(n2) && TableOf(n2)[name] == r2;
    MarkView(n2, name, h);
    RowSetTwice(n, n2, n3, name, r2, r3);
    LearnView(n3, h, OrElse(op.hostId, previous), previous, env);
    RowSetThenSame(n, n3, UpdateOnHost(n, name, op, host, filter, env), name, r3);
    UpdateRowInSteps(RowOf(n.attributes[name]), op, host, Own(n, filter));
  }

  lemma TakenKeepsKeys(r: Row, h: string, op: Op, own: Option<string>)
    requires h in r.values
    ensures h in Taken(r, h, op, own).values
  {
  }

  /** Node names are filed under their folded form. */
  ghost predicate Folded(t: Table) {
    forall name, h :: name in t && h in t[name].values ==> Fold(h) == h && Fold(t[name].values[h].nodename) == h
  }

  ghost predicate Views(n: Node, n': Node, t: Table) {
    TableOf(n') == t && n'.self == n.self && n'.shuttingDown == n.shuttingDown
  }

  function UpdateSome(r: Row, hosts: seq<string>, op: Op, own: Option<string>): Row {
    r.(values := map h | h in r.values :: if h in hosts then UpdateEntry(r.values[h], h, op, own) else r.values[h])
  }

  lemma UpdateSomeNone(r: Row, op: Op, own: Option<string>)
    ensures UpdateSome(r, [], op, own) == r
  {
    assert UpdateSome(r, [], op, own).values == r.values;
  }

  lemma UpdateSomeMore(r: Row, hosts: seq<string>, h: string, op: Op, own: Option<string>)
    requires h in r.values && h !in hosts && Fold(h) == h
    ensures UpdateRow(UpdateSome(r, hosts, op, own), h, op, own) == UpdateSome(r, hosts + [h], op, own)
  {
    assert UpdateRow(UpdateSome(r, hosts, op, own), h, op, own).values == UpdateSome(r, hosts + [h], op, own).values;
  }

  lemma {:induction false} UpdateOnHostsView(n: Node, name: string, op: Op, hosts: seq<string>, filter: bool, env: Env)
    requires name in n.attributes
    requires forall i :: 0 <= i < |hosts| ==> hosts[i] in RowOf(n.attributes[name]).values && Fold(hosts[i]) == hosts[i]
    requires forall i, j :: 0 <= i < j < |hosts| ==> hosts[i] != hosts[j]
    ensures RowSet(n, UpdateOnHosts(n, name, op, hosts, filter, env), name,
                   UpdateSome(RowOf(n.attributes[name]), hosts, op, Own(n, filter)))
  {
    hide UpdateOnHost, UpdateSome, UpdateRow, RowOf;
    var r, own := RowOf(n.attributes[name]), Own(n, filter);
    if hosts == [] {
      UpdateSomeNone(r, op, own);
      SameIsRowSet(n, n, name);
    } else {
      var front, h := hosts[..|hosts|-1], hosts[|hosts|-1];
      UpdateOnHostsView(n, name, op, front, filter, env);
      var n1 := UpdateOnHosts(n, name, op, front, filter, env);
      assert name in TableOf(n1) && RowOf(n1.attributes[name]) == TableOf(n1)[name];
      UpdateOnHostView(n1, name, op, h, filter, env);
      UpdateSomeMore(r, front, h, op, own);
      assert hosts == front + [h];
      RowSetTwice(n, n1, UpdateOnHosts(n, name, op, hosts, filter, env), name,
                  UpdateSome(r, front, op, own), UpdateSome(r, hosts, op, own));
    }
  }

  lemma HostsFolded(n: Node, name: string)
    requires name in n.attributes && Folded(TableOf(n))
    ensures forall h :: h in n.attributes[name].values ==> h in RowOf(n.attributes[name]).values && Fold(h) == h
    ensures RowOf(n.attributes[name]).values.Keys == n.attributes[name].values.Keys
  {
    hide Fold;
    assert TableOf(n)[name] == RowOf(n.attributes[name]);
  }

  lemma UpdateAllView(n: Node, name: string, op: Op, filter: bool, env: Env)
    requires name in n.attributes && ValidEnv(env) && Folded(TableOf(n))
    ensures RowSet(n, UpdateOnHosts(n, name, op, env.order(n.attributes[name].values.Keys), filter, env), name,
                   UpdateAllRow(RowOf(n.attributes[name]), op, Own(n, filter)))
  {
    hide Folded, UpdateOnHosts, RowSet, UpdateEntry, Fold, TableOf, RowOf;
    var a, r, own := n.attributes[name], RowOf(n.attributes[name]), Own(n, filter);
    var hosts := env.order(a.values.Keys);
    assert Enumerates(hosts, a.values.Keys);
    HostsFolded(n, name);
    assert forall i :: 0 <= i < |hosts| ==> hosts[i] in hosts;
    UpdateOnHostsView(n, name, op, hosts, filter, env);
    assert UpdateSome(r, hosts, op, own).values == UpdateAllRow(r, op, own).values;
  }

  lemma DampeningView(n: Node, op: Op, name: string, env: Env)
    requires name in n.attributes
    ensures var (n', ok) := UpdateDampening(n, op, name, env);
      RowSet(n, n', name, Delayed(RowOf(n.attributes[name]), op)) && ok == ValidDelay(op)
  {
    var a := n.attributes[name];
    SameIsRowSet(n, n, name);
    if ValidDelay(op) && a.timeoutMs != op.delay.value.ms {
      var ms: nat := op.delay.value.ms;
      var a' := a.(timeoutMs := CapMs(ms), timer := if ms > 0 then Idle else NoTimer);
      assert RowOf(a') == Delayed(RowOf(a), op);
      SetAttrView(n, name, a');
      WriteOrElectView(SetAttr(n, name, a'), name, env);
      hide WriteOrElect, RowSet, SameView, RowOf;
      RowSetThenSame(n, SetAttr(n, name, a'), WriteOrElect(SetAttr(n, name, a'), name, env), name, RowOf(a'));
    }
  }

  lemma CreateView(n: Node, op: Op, name: string)
    requires name !in n.attributes
    ensures var r := CreateAttribute(n, op, name);
      && r.Some? == NewRow(op).Some?
      && (r.Some? ==> name in r.value.attributes && RowOf(r.value.attributes[name]) == NewRow(op).value
                      && RowSet(n, r.value, name, NewRow(op).value))
  {
    var r := CreateAttribute(n, op, name);
    if r.Some? {
      var a := r.value.attributes[name];
      SetAttrView(n, name, a);
      assert RowOf(a) == NewRow(op).value;
    }
  }

  lemma PopulateView(n: Node, op: Op, name: string, env: Env)
    ensures var (n', ok) := Populate(n, op, name, env);
      var (r, sets) := FindRow(TableOf(n), op, name);
      && ok == sets
      && (r.None? ==> SameView(n, n'))
      && (r.Some? ==> RowSet(n, n', name, r.value))
  {
    hide UpdateDampening, CreateAttribute, NewRow, Delayed, ValidDelay, RowOf;
    if name !in n.attributes {
      CreateView(n, op, name);
      var c := CreateAttribute(n, op, name);
      if c.Some? {
        DampeningView(c.value, op, name, env);
        var n2 := UpdateDampening(c.value, op, name, env).0;
        RowSetTwice(n, c.value, n2, name, NewRow(op).value, Delayed(NewRow(op).value, op));
      }
    } else {
      SameIsRowSet(n, n, name);
      DampeningView(n, op, name, env);
    }
  }

  lemma FindRowFolded(t: Table, op: Op, name: string)
    requires Folded(t)
    ensures var (r, sets) := FindRow(t, op, name);
      && (r.Some? ==> forall h :: h in r.value.values ==> Fold(h) == h && Fold(r.value.values[h].nodename) == h)
      && (r.Some? ==> Folded(t[name := r.value]))
  {
  }

  /** Applying one update is the table operation, whatever the node is, and however tables are traversed. */
  lemma PeerUpdateOneView(n: Node, op: Op, filter: bool, env: Env)
    requires ValidEnv(env) && Folded(TableOf(n))
    ensures Views(n, PeerUpdateOne(n, op, filter, env), UpdateOne(TableOf(n), op, Own(n, filter)))
  {
    if op.name.Some? {
      var name := op.name.value;
      PopulateView(n, op, name, env);
      FindRowFolded(TableOf(n), op, name);
      hide Populate, UpdateOnHost, UpdateOnHosts, UpdateRow, UpdateAllRow, FindRow, Folded;
      var (n1, ok) := Populate(n, op, name, env);
      var (r, sets) := FindRow(TableOf(n), op, name);
      if r.Some? {
        assert name in TableOf(n1) && RowOf(n1.attributes[name]) == TableOf(n1)[name] == r.value;
        if sets {
          UpdateOneHosts(n, n1, op, name, r.value, filter, env);
        }
      }
    }
  }

  /** Without a host, an update does not look at the host's XML ID. */
  lemma SameForAll(r: Row, op: Op, own: Option<string>)
    ensures UpdateAllRow(r, op.(hostId := None), own) == UpdateAllRow(r, op, own)
  {
  }

  lemma UpdateOneHosts(n: Node, n1: Node, op: Op, name: string, r: Row, filter: bool, env: Env)
    requires ValidEnv(env) && RowSet(n, n1, name, r) && name in n1.attributes && RowOf(n1.attributes[name]) == r
    requires Folded(TableOf(n)[name := r])
    ensures op.host.Some? ==>
      RowSet(n, UpdateOnHost(n1, name, op, op.host.value, filter, env), name, UpdateRow(r, op.host.value, op, Own(n, filter)))
    ensures op.host.None? ==>
      RowSet(n, UpdateOnHosts(n1, name, op.(hostId := None), env.order(n1.attributes[name].values.Keys), filter, env), name,
             UpdateAllRow(r, op, Own(n, filter)))
  {
    hide UpdateOnHost, UpdateOnHosts, UpdateRow, TableOf, RowOf, Folded, UpdateAllRow;
    if op.host.Some? {
      UpdateOnHostView(n1, name, op, op.host.value, filter, env);
      RowSetTwice(n, n1, UpdateOnHost(n1, name, op, op.host.value, filter, env), name, r, UpdateRow(r, op.host.value, op, Own(n, filter)));
    } else {
      var n2 := UpdateOnHosts(n1, name, op.(hostId := None), env.order(n1.attributes[name].values.Keys), filter, env);
      UpdateAllView(n1, name, op.(hostId := None), filter, env);
      SameForAll(r, op, Own(n, filter));
      RowSetTwice(n, n1, n2, name, r, UpdateAllRow(r, op, Own(n, filter)));
    }
  }

  lemma UpdateOneFolded(t: Table, op: Op, own: Option<string>)
    requires Folded(t)
    ensures Folded(UpdateOne(t, op, own))
  {
    if op.name.Some? {
      FindRowFolded(t, op, op.name.value);
      if op.host.Some? { FoldIdempotent(op.host.value); }
    }
  }

  lemma {:induction false} UpdateChildrenView(n: Node, parent: Op, children: seq<Element>, filter: bool, env: Env)
    requires ValidEnv(env) && Folded(TableOf(n))
    ensures Views(n, UpdateChildren(n, parent, children, filter, env), UpdateEach(TableOf(n), parent, children, Own(n, filter)))
    ensures Folded(UpdateEach(TableOf(n), parent, children, Own(n, filter)))
  {
    hide PeerUpdateOne, UpdateOne, Folded, TableOf;
    if children != [] {
      var front, child := children[..|children|-1], children[|children|-1];
      UpdateChildrenView(n, parent, front, filter, env);
      var n1 := UpdateChildren(n, parent, front, filter, env);
      PeerUpdateOneView(n1, Merge(child.attrs, parent), filter, env);
      UpdateOneFolded(TableOf(n1), Merge(child.attrs, parent), Own(n, filter));
    }
  }

  lemma PeerUpdateView(n: Node, e: Element, filter: bool, env: Env)
    requires ValidEnv(env) && Folded(TableOf(n))
    ensures Views(n, PeerUpdate(n, e, filter, env), UpdateTable(TableOf(n), e, Own(n, filter)))
    ensures Folded(UpdateTable(TableOf(n), e, Own(n, filter)))
  {
    hide PeerUpdateOne, UpdateChildren, UpdateOne, UpdateEach, Folded, TableOf;
    UpdateChildrenView(n, e.attrs, e.children, filter, env);
    PeerUpdateOneView(n, e.attrs, filter, env);
    UpdateOneFolded(TableOf(n), e.attrs, Own(n, filter));
  }

  lemma {:induction false} LoadView(n: Node, children: seq<Element>, env: Env)
    requires ValidEnv(env) && Folded(TableOf(n))
    ensures Views(n, LoadChildren(n, children, env), LoadTable(TableOf(n), children, Fold(n.self)))
    ensures Folded(LoadTable(TableOf(n), children, Fold(n.self)))
  {
    hide PeerUpdate, UpdateTable, Folded, TableOf;
    if children != [] {
      LoadView(n, children[..|children|-1], env);
      PeerUpdateView(LoadChildren(n, children[..|children|-1], env), children[|children|-1], true, env);
    }
  }

  function ClearedRow(r: Row, op: Op): Row {
    if op.host.Some? then UpdateRow(r, op.host.value, op.(value := None), None)
    else UpdateAllRow(r, op.(value := None), None)
  }

  function ClearSome(t: Table, op: Op, names: seq<string>, matching: set<string>): Table {
    map name | name in t :: if name in names && name in matching then ClearedRow(t[name], op) else t[name]
  }

  lemma ClearSomeMore(t: Table, op: Op, names: seq<string>, name: string, matching: set<string>)
    requires name in t && name !in names && name in matching
    ensures UpdateOne(ClearSome(t, op, names, matching), op.(task := Some(Update), value := None, name := Some(name)), None)
         == ClearSome(t, op, names + [name], matching)
  {
    var op' := op.(task := Some(Update), value := None, name := Some(name));
    assert ClearSome(t, op, names, matching)[name] == t[name];
    assert UpdateAllRow(t[name], op', None) == UpdateAllRow(t[name], op.(value := None), None);
    assert op.host.Some? ==> UpdateRow(t[name], op.host.value, op', None) == UpdateRow(t[name], op.host.value, op.(value := None), None);
  }

  /** A request without children stays as it is, but for the attribute it names. */
  lemma {:induction false} ChildlessRequest(e: Element, names: seq<string>, matching: set<string>, name: string)
    requires e.children == []
    ensures ClearOf(ClearRequest(e, names, matching), name) == ClearOf(e, name)
  {
    if names != [] {
      ChildlessRequest(e, names[..|names|-1], matching, name);
    }
  }

  lemma {:induction false} ClearMatchingView(n: Node, e: Element, names: seq<string>, matching: set<string>, env: Env)
    requires ValidEnv(env) && Folded(TableOf(n)) && e.children == []
    requires forall i :: 0 <= i < |names| ==> names[i] in TableOf(n)
    requires forall i, j :: 0 <= i < j < |names| ==> names[i] != names[j]
    ensures Views(n, ClearMatching(n, e, names, matching, env), ClearSome(TableOf(n), e.attrs, names, matching))
    ensures Folded(ClearSome(TableOf(n), e.attrs, names, matching))
  {
    hide PeerUpdate, UpdateOne, ClearedRow, Folded, TableOf, ClearRequest;
    var t := TableOf(n);
    if names == [] {
      assert ClearSome(t, e.attrs, names, matching) == t;
    } else {
      var front, name := names[..|names|-1], names[|names|-1];
      ClearMatchingView(n, e, front, matching, env);
      var n1 := ClearMatching(n, e, front, matching, env);
      assert names == front + [name];
      if name in matching {
        ChildlessRequest(e, front, matching, name);
        PeerUpdateView(n1, ClearOf(e, name), false, env);
        ClearSomeMore(t, e.attrs, front, name, matching);
      } else {
        assert ClearSome(t, e.attrs, names, matching) == ClearSome(t, e.attrs, front, matching);
      }
    }
  }

  // ---- Requests to clear failures that have children ----

  /** Every operation child says itself which attribute it is about. */
  predicate NamedChildren(children: seq<Element>) {
    forall i :: 0 <= i < |children| && children[i].isOp ==> children[i].attrs.name.Some?
  }

  /** The same operations, each completed from its own parent. */
  ghost predicate SameOps(xs: seq<Element>, p: Op, ys: seq<Element>, q: Op) {
    && |xs| == |ys|
    && forall i :: 0 <= i < |xs| ==> xs[i].isOp == ys[i].isOp && (xs[i].isOp ==> Merge(xs[i].attrs, p) == Merge(ys[i].attrs, q))
  }

  lemma {:induction false} SameOpsUpdate(t: Table, xs: seq<Element>, p: Op, ys: seq<Element>, q: Op, own: Option<string>)
    requires SameOps(xs, p, ys, q)
    ensures UpdateEach(t, p, xs, own) == UpdateEach(t, q, ys, own)
  {
    hide UpdateOne, Merge;
    if xs != [] {
      SameOpsUpdate(t, xs[..|xs|-1], p, ys[..|ys|-1], q, own);
    }
  }

  lemma {:induction false} AbsorbIs(children: seq<Element>, p: Op)
    ensures |Absorb(children, p)| == |children|
    ensures forall i :: 0 <= i < |children| ==>
      Absorb(children, p)[i] == if children[i].isOp then children[i].(attrs := Merge(children[i].attrs, p)) else children[i]
  {
    hide Merge;
    if children != [] {
      AbsorbIs(children[..|children|-1], p);
    }
  }

  /** What a named child gets from its parent does not depend on the attribute the parent names. */
  lemma MergeNamed(c: Op, e: Element, name: string, name': string)
    requires c.name.Some?
    ensures Merge(c, ClearOf(e, name).attrs) == Merge(c, ClearOf(e, name').attrs)
    ensures Merge(Merge(c, ClearOf(e, name).attrs), ClearOf(e, name').attrs) == Merge(c, ClearOf(e, name).attrs)
    ensures Merge(c, ClearOf(e, name).attrs).name.Some?
  {
  }

  lemma {:induction false} NamedRequest(e: Element, names: seq<string>, matching: set<string>, name: string)
    requires NamedChildren(e.children)
    ensures var r := ClearRequest(e, names, matching);
      && NamedChildren(r.children) && ClearOf(r, name).attrs == ClearOf(e, name).attrs
      && SameOps(r.children, ClearOf(r, name).attrs, e.children, ClearOf(e, "").attrs)
  {
    if names == [] {
      forall i | 0 <= i < |e.children| && e.children[i].isOp
        ensures Merge(e.children[i].attrs, ClearOf(e, name).attrs) == Merge(e.children[i].attrs, ClearOf(e, "").attrs)
      {
        MergeNamed(e.children[i].attrs, e, name, "");
      }
    } else {
      var front, last := names[..|names|-1], names[|names|-1];
      NamedRequest(e, front, matching, name);
      if last in matching {
        NamedRequest(e, front, matching, last);
        var r0 := ClearRequest(e, front, matching);
        var p := ClearOf(r0, last).attrs;
        AbsorbIs(r0.children, p);
        var r := Absorbed(ClearOf(r0, last));
        forall i | 0 <= i < |r.children| && r.children[i].isOp
          ensures r.children[i].attrs.name.Some?
          ensures Merge(r.children[i].attrs, ClearOf(r, name).attrs) == Merge(e.children[i].attrs, ClearOf(e, "").attrs)
        {
          MergeNamed(r0.children[i].attrs, r0, last, name);
        }
      }
    }
  }

  function CountIn(names: seq<string>, matching: set<string>): nat {
    if names == [] then 0 else CountIn(names[..|names|-1], matching) + if names[|names|-1] in matching then 1 else 0
  }

  lemma {:induction false} CountIsSize(names: seq<string>, keys: set<string>, matching: set<string>)
    requires Enumerates(names, keys)
    ensures CountIn(names, matching) == |keys * matching|
  {
    if names == [] {
      assert keys * matching == {};
    } else {
      var front, last := names[..|names|-1], names[|names|-1];
      assert last in names;
      assert forall x :: x in front <==> x in keys && x != last;
      CountIsSize(front, keys - {last}, matching);
      assert (keys - {last}) * matching == (keys * matching) - {last};
    }
  }

  /** The children of the request, applied once for every attribute that matches. */
  function ClearTimes(t: Table, e: Element, k: nat): Table {
    if k == 0 then t else UpdateEach(ClearTimes(t, e, k - 1), ClearOf(e, "").attrs, e.children, None)
  }

  lemma {:induction false} ClearChildrenView(n: Node, e: Element, names: seq<string>, matching: set<string>, env: Env)
    requires ValidEnv(env) && Folded(TableOf(n)) && e.children != [] && NamedChildren(e.children)
    ensures Views(n, ClearMatching(n, e, names, matching, env), ClearTimes(TableOf(n), e, CountIn(names, matching)))
    ensures Folded(ClearTimes(TableOf(n), e, CountIn(names, matching)))
  {
    hide PeerUpdate, UpdateEach, Folded, TableOf, ClearRequest;
    if names != [] {
      var front, name := names[..|names|-1], names[|names|-1];
      ClearChildrenView(n, e, front, matching, env);
      if name in matching {
        var n1 := ClearMatching(n, e, front, matching, env);
        var r := ClearOf(ClearRequest(e, front, matching), name);
        NamedRequest(e, front, matching, name);
        PeerUpdateView(n1, r, false, env);
        SameOpsUpdate(TableOf(n1), r.children, r.attrs, e.children, ClearOf(e, "").attrs, None);
      }
    }
  }

  /** Clearing failures, whether the request has children or not. */
  function ClearedTable(t: Table, e: Element, matching: set<string>): Table {
    if e.children == [] then ClearTable(t, e.attrs, matching) else ClearTimes(t, e, |t.Keys * matching|)
  }

  lemma ClearChildlessView(n: Node, e: Element, matching: set<string>, env: Env)
    requires ValidEnv(env) && Folded(TableOf(n)) && e.children == []
    ensures Views(n, ClearFailure(n, e, matching, env), ClearTable(TableOf(n), e.attrs, matching))
    ensures Folded(ClearTable(TableOf(n), e.attrs, matching))
  {
    hide ClearMatching, Folded, UpdateRow, UpdateAllRow;
    var names := env.order(n.attributes.Keys);
    assert Enumerates(names, n.attributes.Keys);
    assert forall i :: 0 <= i < |names| ==> names[i] in names;
    ClearMatchingView(n, e, names, matching, env);
    assert ClearSome(TableOf(n), e.attrs, names, matching) == ClearTable(TableOf(n), e.attrs, matching);
  }

  /** A request without children, or whose children name their attributes, acts on the table in the same way in any
      traversal order. */
  lemma NamedClearView(n: Node, e: Element, matching: set<string>, env: Env)
    requires ValidEnv(env) && Folded(TableOf(n)) && NamedChildren(e.children)
    ensures Views(n, ClearFailure(n, e, matching, env), ClearedTable(TableOf(n), e, matching))
    ensures Folded(ClearedTable(TableOf(n), e, matching))
  {
    if e.children == [] {
      hide Folded, ClearFailure, ClearTable;
      ClearChildlessView(n, e, matching, env);
    } else {
      hide ClearMatching, Folded, ClearTimes;
      var names := env.order(n.attributes.Keys);
      assert Enumerates(names, n.attributes.Keys);
      ClearChildrenView(n, e, names, matching, env);
      CountIsSize(names, n.attributes.Keys, matching);
      assert TableOf(n).Keys == n.attributes.Keys;
    }
  }

  lemma DropRow(a: Attr, h: string)
    ensures RowOf(a.(values := a.values - {h})) == RowOf(a).(values := RowOf(a).values - {h})
  {
    assert RowOf(a.(values := a.values - {h})).values == RowOf(a).values - {h};
  }

  lemma DropView(n: Node, n': Node, h: string)
    requires Folded(TableOf(n)) && n'.attributes == DropHost(n.attributes, h)
    ensures TableOf(n') == RemoveFrom(TableOf(n), h) && Folded(RemoveFrom(TableOf(n), h))
  {
    DropFolded(TableOf(n), h);
    hide RowOf, Folded;
    forall name | name in n.attributes ensures TableOf(n')[name] == RemoveFrom(TableOf(n), h)[name] {
      DropRow(n.attributes[name], h);
    }
  }

  lemma DropFolded(t: Table, h: string)
    requires Folded(t)
    ensures Folded(RemoveFrom(t, h))
  {
  }

  lemma RemoveFields(n: Node, host: string, uncache: bool, env: Env)
    ensures var n' := PeerRemove(n, host, uncache, env);
      && n'.attributes == DropHost(n.attributes, Fold(host))
      && n'.self == n.self && n'.shuttingDown == n.shuttingDown
  {
    hide DropHost;
  }

  lemma PeerRemoveView(n: Node, host: string, uncache: bool, env: Env)
    requires Folded(TableOf(n))
    ensures Views(n, PeerRemove(n, host, uncache, env), RemoveFrom(TableOf(n), Fold(host)))
    ensures Folded(RemoveFrom(TableOf(n), Fold(host)))
  {
    hide TableOf, Folded, RemoveFrom, DropHost, PeerRemove;
    RemoveFields(n, host, uncache, env);
    DropView(n, PeerRemove(n, host, uncache, env), Fold(host));
  }

  // ---- Equality of tables, but for the marks that a value was seen and for the values of some hosts ----

  ghost predicate AlikeEntry(v: Entry, w: Entry, values: bool) {
    v.nodename == w.nodename && v.remote == w.remote && (values ==> v.current == w.current)
  }

  ghost predicate AlikeRow(r: Row, q: Row, apart: set<string>) {
    && r.(values := map[]) == q.(values := map[]) && r.values.Keys == q.values.Keys
    && forall h :: h in r.values ==> AlikeEntry(r.values[h], q.values[h], h !in apart)
  }

  /** The same attributes, with the same settings and the same values on the same hosts, but for some hosts. */
  ghost predicate Alike(t: Table, u: Table, apart: set<string>) {
    && t.Keys == u.Keys
    && forall name :: name in t ==> AlikeRow(t[name], u[name], apart)
  }

  /** Local values take priority, if at all, on those hosts only. */
  predicate OwnApart(own: Option<string>, own': Option<string>, apart: set<string>) {
    (own.Some? ==> own.value in apart) && (own'.Some? ==> own'.value in apart)
  }

  lemma AlikeUpdateRow(r: Row, q: Row, host: string, op: Op, own: Option<string>, own': Option<string>, apart: set<string>)
    requires AlikeRow(r, q, apart) && OwnApart(own, own', apart)
    ensures AlikeRow(UpdateRow(r, host, op, own), UpdateRow(q, host, op, own'), apart)
  {
  }

  lemma AlikeUpdateAll(r: Row, q: Row, op: Op, own: Option<string>, own': Option<string>, apart: set<string>)
    requires AlikeRow(r, q, apart) && OwnApart(own, own', apart)
    ensures AlikeRow(UpdateAllRow(r, op, own), UpdateAllRow(q, op, own'), apart)
  {
  }

  lemma AlikeFindRow(t: Table, u: Table, op: Op, name: string, apart: set<string>)
    requires Alike(t, u, apart)
    ensures var (r, sets) := FindRow(t, op, name);
      var (q, sets') := FindRow(u, op, name);
      sets == sets' && r.Some? == q.Some? && (r.Some? ==> AlikeRow(r.value, q.value, apart))
  {
  }

  lemma AlikePut(t: Table, u: Table, name: string, r: Row, q: Row, apart: set<string>)
    requires Alike(t, u, apart) && AlikeRow(r, q, apart)
    ensures Alike(t[name := r], u[name := q], apart)
  {
    hide AlikeRow;
  }

  /** Neither which values were seen before nor what other hosts' values are has any influence on an update. */
  lemma AlikeUpdateOne(t: Table, u: Table, op: Op, own: Option<string>, own': Option<string>, apart: set<string>)
    requires Alike(t, u, apart) && OwnApart(own, own', apart)
    ensures Alike(UpdateOne(t, op, own), UpdateOne(u, op, own'), apart)
  {
    if op.name.Some? {
      AlikeFindRow(t, u, op, op.name.value, apart);
      hide FindRow, UpdateRow, UpdateAllRow, AlikeRow, OwnApart, Alike;
      var (r, sets) := FindRow(t, op, op.name.value);
      var q := FindRow(u, op, op.name.value).0;
      if r.Some? {
        if !sets {
          AlikePut(t, u, op.name.value, r.value, q.value, apart);
        } else if op.host.Some? {
          AlikeUpdateRow(r.value, q.value, op.host.value, op, own, own', apart);
          AlikePut(t, u, op.name.value, UpdateRow(r.value, op.host.value, op, own),
                   UpdateRow(q.value, op.host.value, op, own'), apart);
        } else {
          AlikeUpdateAll(r.value, q.value, op, own, own', apart);
          AlikePut(t, u, op.name.value, UpdateAllRow(r.value, op, own), UpdateAllRow(q.value, op, own'), apart);
        }
      }
    }
  }

  lemma {:induction false} AlikeUpdateEach(t: Table, u: Table, parent: Op, children: seq<Element>,
                                           own: Option<string>, own': Option<string>, apart: set<string>)
    requires Alike(t, u, apart) && OwnApart(own, own', apart)
    ensures Alike(UpdateEach(t, parent, children, own), UpdateEach(u, parent, children, own'), apart)
  {
    hide UpdateOne, Alike, OwnApart;
    if children != [] {
      var front, child := children[..|children|-1], children[|children|-1];
      AlikeUpdateEach(t, u, parent, front, own, own', apart);
      AlikeUpdateOne(UpdateEach(t, parent, front, own), UpdateEach(u, parent, front, own'), Merge(child.attrs, parent), own, own', apart);
    }
  }

  lemma AlikeUpdateTable(t: Table, u: Table, e: Element, own: Option<string>, own': Option<string>, apart: set<string>)
    requires Alike(t, u, apart) && OwnApart(own, own', apart)
    ensures Alike(UpdateTable(t, e, own), UpdateTable(u, e, own'), apart)
  {
    hide UpdateOne, UpdateEach, Alike, OwnApart;
    AlikeUpdateEach(t, u, e.attrs, e.children, own, own', apart);
    AlikeUpdateOne(t, u, e.attrs, own, own', apart);
  }

  lemma {:induction false} AlikeLoad(t: Table, u: Table, children: seq<Element>, own: string, own': string, apart: set<string>)
    requires Alike(t, u, apart) && own in apart && own' in apart
    ensures Alike(LoadTable(t, children, own), LoadTable(u, children, own'), apart)
  {
    hide UpdateTable, Alike;
    if children != [] {
      AlikeLoad(t, u, children[..|children|-1], own, own', apart);
      AlikeUpdateTable(LoadTable(t, children[..|children|-1], own), LoadTable(u, children[..|children|-1], own'),
                       children[|children|-1], Some(own), Some(own'), apart);
    }
  }

  lemma AlikeClear(t: Table, u: Table, op: Op, matching: set<string>, apart: set<string>)
    requires Alike(t, u, apart)
    ensures Alike(ClearTable(t, op, matching), ClearTable(u, op, matching), apart)
  {
    hide UpdateRow, UpdateAllRow, AlikeRow;
    forall name | name in t ensures AlikeRow(ClearTable(t, op, matching)[name], ClearTable(u, op, matching)[name], apart) {
      if op.host.Some? {
        AlikeUpdateRow(t[name], u[name], op.host.value, op.(value := None), None, None, apart);
      } else {
        AlikeUpdateAll(t[name], u[name], op.(value := None), None, None, apart);
      }
    }
  }

  lemma {:induction false} AlikeTimes(t: Table, u: Table, e: Element, k: nat, apart: set<string>)
    requires Alike(t, u, apart)
    ensures Alike(ClearTimes(t, e, k), ClearTimes(u, e, k), apart)
  {
    hide UpdateEach, Alike;
    if k > 0 {
      AlikeTimes(t, u, e, k - 1, apart);
      AlikeUpdateEach(ClearTimes(t, e, k - 1), ClearTimes(u, e, k - 1), ClearOf(e, "").attrs, e.children, None, None, apart);
    }
  }

  lemma AlikeCleared(t: Table, u: Table, e: Element, matching: set<string>, apart: set<string>)
    requires Alike(t, u, apart)
    ensures Alike(ClearedTable(t, e, matching), ClearedTable(u, e, matching), apart)
  {
    AlikeClear(t, u, e.attrs, matching, apart);
    AlikeTimes(t, u, e, |t.Keys * matching|, apart);
    hide ClearTable, ClearTimes;
  }
}
