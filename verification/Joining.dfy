/** How a node comes by the table: what the writer sends a node that joins, and everyone when it has won. */
module Joining {
  import opened Common
  import opened Model
  import opened Elections
  import opened CibWrites
  import opened Attributes
  import opened Corosync
  import opened Daemon
  import opened Replica
  import opened SyncTransfer
  import opened Corrections
  import KnownWriter

  /** A message that, handled by a node without attributes, gives it the sender's table (as far as that goes, see
      `SyncTransfer.LoadedTable`), and makes it take the sender for the writer. */
  ghost predicate BringsTable(w: Node, out: Outgoing, joining: Node, outcome: VoteOutcome, env: Env) {
    var n' := Hears(joining, w.self, out, outcome, env);
    && TableOf(n') == LoadedTable(TableOf(w), Fold(joining.self))
    && n'.writer.Some? && Fold(n'.writer.value) == Fold(w.self)
  }

  /** A node that has just started. */
  predicate JustJoined(n: Node, w: Node) {
    n.attributes == map[] && !n.shuttingDown && !IsWriter(n) && Fold(n.self) != Fold(w.self)
  }

  ghost predicate WellFormed(w: Node) {
    Folded(TableOf(w)) && Typed(TableOf(w))
  }

  lemma SyncBringsTable(w: Node, to: Option<string>, env: Env, joining: Node, outcome: VoteOutcome, env': Env)
    requires WellFormed(w) && JustJoined(joining, w) && ValidEnv(env) && ValidEnv(env')
    ensures BringsTable(w, Send(to, SyncMessage(w, env), true), joining, outcome, env')
  {
    hide HandleSyncResponse, LoadedTable, TableOf, TableInOrder, Folded, Typed, Fold;
    var m := SyncMessage(w, env);
    JoiningNodeRebuildsTable(w, joining, w.self, env, env');
    KnownWriter.DeclarationIsBelieved(System(joining, map[], [], 0), w.self, m, true, env');
  }

  /** A writer sends a node that joins its table; a node that is not writer sends it none. */
  lemma JoinSendsTable(s: System, p: string, env: Env, joining: Node, outcome: VoteOutcome, env': Env)
    requires WellFormed(s.node) && JustJoined(joining, s.node) && ValidEnv(env) && ValidEnv(env')
    ensures var out := Next(s, NodeJoined(p), env).node.outbox;
      && |out| == |s.node.outbox| + 1 && out[..|s.node.outbox|] == s.node.outbox
      && (IsWriter(s.node) ==> out[|s.node.outbox|].Send? && out[|s.node.outbox|].to == Some(p)
                               && BringsTable(s.node, out[|s.node.outbox|], joining, outcome, env'))
      && (!IsWriter(s.node) ==> out[|s.node.outbox|] == Protocol(p))
  {
    hide BringsTable, SyncMessage;
    SyncBringsTable(s.node, Some(p), env, joining, outcome, env');
  }

  /** A node that wins sends everyone its table, once. */
  lemma WinSendsTable(s: System, env: Env, joining: Node, outcome: VoteOutcome, env': Env)
    requires WellFormed(s.node) && JustJoined(joining, s.node) && ValidEnv(env) && ValidEnv(env')
    ensures var out := Next(s, ElectionTimesOut, env).node.outbox;
      && |out| == |s.node.outbox| + 1 && out[..|s.node.outbox|] == s.node.outbox
      && out[|s.node.outbox|].Send? && out[|s.node.outbox|].to == None
      && BringsTable(s.node, out[|s.node.outbox|], joining, outcome, env')
  {
    hide BringsTable, SyncMessage, EraseEach, WriteEach, WellFormed, TableInOrder;
    var n := s.node;
    var n0 := n.(election := Won, writer := Some(n.self));
    assert SyncMessage(n0, env) == SyncMessage(n, env) by { SameMessage(n, n0, env); }
    var n1 := PeerSync(n0, None, env);
    EraseSends(n1, env.order(n1.removed));
    var n2 := EraseRemoved(n1, env);
    WriteEachSends(n2, env.order(n2.attributes.Keys), true, false, env);
    SyncBringsTable(n, None, env, joining, outcome, env');
  }

  lemma {:induction false} EraseSends(n: Node, hosts: seq<string>)
    ensures EraseEach(n, hosts).outbox == n.outbox
  {
    if hosts != [] {
      EraseSends(n, hosts[..|hosts|-1]);
    }
  }

  lemma SameMessage(n: Node, n': Node, env: Env)
    requires n'.attributes == n.attributes && n'.xmlIds == n.xmlIds
    ensures SyncMessage(n', env) == SyncMessage(n, env)
  {
    SameTableMessage(n, n', env.order(n.attributes.Keys), env);
  }

  lemma {:induction false} SameTableMessage(n: Node, n': Node, names: seq<string>, env: Env)
    requires n'.attributes == n.attributes && n'.xmlIds == n.xmlIds
    ensures TableInOrder(n', names, env) == TableInOrder(n, names, env)
  {
    hide ValuesInOrder;
    if names != [] {
      SameTableMessage(n, n', names[..|names|-1], env);
      var name := names[|names|-1];
      if name in n.attributes {
        SameValuesMessage(n, n', name, n.attributes[name], env.order(n.attributes[name].values.Keys));
      }
    }
  }

  lemma {:induction false} SameValuesMessage(n: Node, n': Node, name: string, a: Attr, hosts: seq<string>)
    requires n'.xmlIds == n.xmlIds
    ensures ValuesInOrder(n', name, a, hosts) == ValuesInOrder(n, name, a, hosts)
  {
    if hosts != [] {
      SameValuesMessage(n, n', name, a, hosts[..|hosts|-1]);
    }
  }

  // ---- The XML IDs travel with the table ----

  /** The message says of which XML ID the node is. */
  predicate TellsId(e: Element, h: string, id: string) {
    e.attrs.host.Some? && Fold(e.attrs.host.value) == h && e.attrs.hostId == Some(id)
  }

  /** The XML IDs and the attributes there are stay the same, and the node does not become writer. */
  ghost predicate SameIds(n: Node, n': Node) {
    n'.xmlIds == n.xmlIds && n'.attributes.Keys == n.attributes.Keys && !IsWriter(n')
  }

  lemma WriteOrElectIds(n: Node, name: string, env: Env)
    requires !IsWriter(n)
    ensures SameIds(n, WriteOrElect(n, name, env))
  {
    hide WriteAttribute;
  }

  lemma DampeningIds(n: Node, op: Op, name: string, env: Env)
    requires !IsWriter(n) && name in n.attributes
    ensures SameIds(n, UpdateDampening(n, op, name, env).0) && UpdateDampening(n, op, name, env).1 == ValidDelay(op)
  {
    hide WriteOrElect, CapMs;
    if ValidDelay(op) {
      var ms := op.delay.value.ms;
      WriteOrElectIds(SetAttr(n, name, n.attributes[name].(timeoutMs := CapMs(ms), timer := if ms > 0 then Idle else NoTimer)), name, env);
    }
  }

  lemma CreateIds(n: Node, op: Op, name: string)
    requires !IsWriter(n) && Acceptable(op)
    ensures var made := CreateAttribute(n, op, name);
      made.Some? && made.value.xmlIds == n.xmlIds && name in made.value.attributes && !IsWriter(made.value)
  {
    hide CapMs, ValidSetType;
  }

  /** What any node accepts, a node that is not writer finds or makes an attribute for. */
  lemma PopulateIds(n: Node, op: Op, env: Env)
    requires !IsWriter(n) && Acceptable(op)
    ensures var (n1, ok) := Populate(n, op, op.name.value, env);
      ok && op.name.value in n1.attributes && n1.xmlIds == n.xmlIds && !IsWriter(n1)
  {
    hide UpdateDampening, CreateAttribute;
    var name := op.name.value;
    if name in n.attributes {
      DampeningIds(n, op, name, env);
    } else {
      CreateIds(n, op, name);
      DampeningIds(CreateAttribute(n, op, name).value, op, name, env);
    }
  }

  lemma ChangeIds(n: Node, name: string, h: string, value: Option<string>, env: Env)
    requires !IsWriter(n) && name in n.attributes && h in n.attributes[name].values
    ensures SameIds(n, ChangeValue(n, name, h, value, env))
  {
    hide WriteOrElect;
    var a := n.attributes[name];
    WriteOrElectIds(SetAttr(n, name, SetValue(a, h, a.values[h].(current := value, blank := false)).(changed := true)), name, env);
  }

  lemma TakeIds(n: Node, name: string, op: Op, host: string, filter: bool, env: Env)
    requires !IsWriter(n) && name in n.attributes && Fold(host) in n.attributes[name].values
    ensures SameIds(n, TakeValue(n, name, op, host, filter, env))
  {
    hide ChangeValue, Fold, ValueElement, SameText;
    ChangeIds(n, name, Fold(host), op.value, env);
  }

  lemma LearnIds(n: Node, h: string, id: Option<string>, env: Env)
    requires !IsWriter(n)
    ensures var previous := Lookup(n.xmlIds, h);
      var n' := LearnXmlId(n, h, OrElse(id, previous), previous, env);
      !IsWriter(n') && n'.xmlIds == if id.Some? then n.xmlIds[h := id.value] else n.xmlIds
  {
    hide WriteEach;
    if id.Some? && id == Lookup(n.xmlIds, h) { assert n.xmlIds[h := id.value] == n.xmlIds; }
  }

  /** A node that is not writer notes the XML ID that comes with an update it accepts. */
  lemma UpdateTeachesId(n: Node, name: string, op: Op, host: string, filter: bool, env: Env)
    requires !IsWriter(n) && name in n.attributes
    ensures var n' := UpdateOnHost(n, name, op, host, filter, env);
      && !IsWriter(n')
      && n'.xmlIds == if op.hostId.Some? then n.xmlIds[Fold(host) := op.hostId.value] else n.xmlIds
  {
    hide TakeValue, Fold, LearnXmlId;
    var n1 := WithEntry(n, name, op, host);
    TakeIds(n1, name, op, host, filter, env);
    var n2 := TakeValue(n1, name, op, host, filter, env);
    var n3 := MarkFromPeer(n2, name, Fold(host));
    assert n3.xmlIds == n.xmlIds && !IsWriter(n3);
    hide MarkFromPeer, WithEntry;
    LearnIds(n3, Fold(host), op.hostId, env);
  }

  lemma ElementTeachesId(n: Node, e: Element, env: Env)
    requires !IsWriter(n) && e.children == [] && Acceptable(e.attrs)
    ensures var n' := PeerUpdate(n, e, true, env);
      && !IsWriter(n')
      && n'.xmlIds == if e.attrs.hostId.Some? then n.xmlIds[Fold(e.attrs.host.value) := e.attrs.hostId.value] else n.xmlIds
  {
    hide UpdateOnHost, Fold, Populate;
    var op := e.attrs;
    PopulateIds(n, op, env);
    var n1 := Populate(n, op, op.name.value, env).0;
    UpdateTeachesId(n1, op.name.value, op, op.host.value, true, env);
  }

  lemma {:induction false} LoadTeachesId(n: Node, es: seq<Element>, env: Env, h: string, id: string)
    requires !IsWriter(n) && forall i :: 0 <= i < |es| ==> es[i].children == [] && Acceptable(es[i].attrs)
    requires forall i :: 0 <= i < |es| && es[i].attrs.host.Some? && Fold(es[i].attrs.host.value) == h ==> TellsId(es[i], h, id)
    ensures var n' := LoadChildren(n, es, env);
      && !IsWriter(n')
      && ((exists i :: 0 <= i < |es| && TellsId(es[i], h, id)) || (h in n.xmlIds && n.xmlIds[h] == id) ==>
            h in n'.xmlIds && n'.xmlIds[h] == id)
  {
    hide PeerUpdate, Fold;
    if es != [] {
      var front, last := es[..|es|-1], es[|es|-1];
      assert forall i :: 0 <= i < |front| ==> front[i] == es[i];
      LoadTeachesId(n, front, env, h, id);
      ElementTeachesId(LoadChildren(n, front, env), last, env);
      if Fold(last.attrs.host.value) == h { assert TellsId(es[|front|], h, id); }
      if i :| 0 <= i < |es| && TellsId(es[i], h, id) {
        if i < |front| { assert TellsId(front[i], h, id); }
      }
    }
  }

  /** Every value in the message is one that any node accepts, and comes with the XML ID that the sender knows. */
  ghost predicate ToldBy(w: Node, e: Element) {
    && e.children == [] && Acceptable(e.attrs) && !IsSet(e.attrs.forceWrite)
    && e.attrs.hostId == Lookup(w.xmlIds, Fold(e.attrs.host.value))
  }

  ghost predicate AllToldBy(w: Node, es: seq<Element>) {
    forall i :: 0 <= i < |es| ==> ToldBy(w, es[i])
  }

  lemma {:induction false} ValuesToldBy(w: Node, name: string, hosts: seq<string>)
    requires name in w.attributes && (w.attributes[name].isPrivate || ValidSetType(w.attributes[name].setType))
    ensures AllToldBy(w, ValuesInOrder(w, name, w.attributes[name], hosts))
  {
    hide Fold, Ms2S;
    if hosts != [] {
      ValuesToldBy(w, name, hosts[..|hosts|-1]);
    }
  }

  lemma {:induction false} TableToldBy(w: Node, names: seq<string>, env: Env)
    requires Typed(TableOf(w))
    ensures AllToldBy(w, TableInOrder(w, names, env))
  {
    hide ValuesInOrder, ToldBy;
    if names != [] {
      TableToldBy(w, names[..|names|-1], env);
      var name := names[|names|-1];
      if name in w.attributes {
        assert TableOf(w)[name] == RowOf(w.attributes[name]);
        ValuesToldBy(w, name, env.order(w.attributes[name].values.Keys));
      }
    }
  }

  /** With the table, a joining node gets the XML IDs of all nodes that have a value in it, as far as the writer knows
      them. */
  lemma TableBringsIds(w: Node, env: Env, joining: Node, env': Env, name: string, h: string)
    requires WellFormed(w) && JustJoined(joining, w) && ValidEnv(env) && ValidEnv(env')
    requires HeldIn(TableOf(w), name, h) && h in w.xmlIds
    ensures var n' := HandleSyncResponse(joining, w.self, true, SyncMessage(w, env), env');
      h in n'.xmlIds && n'.xmlIds[h] == w.xmlIds[h]
  {
    hide LoadChildren, Fold, UnseenInOrder, TableInOrder, Folded, Typed, SameText, ToldBy, HeldIn, TableOf;
    var names := env.order(w.attributes.Keys);
    assert Enumerates(names, w.attributes.Keys);
    var es := SyncMessage(w, env).children;
    TableToldBy(w, names, env);
    TableTells(w, names, env, name, h);
    HeldIs(w, name, h);
    var id := w.xmlIds[h];
    forall i | 0 <= i < |es|
      ensures es[i].children == [] && Acceptable(es[i].attrs)
      ensures Fold(es[i].attrs.host.value) == h ==> TellsId(es[i], h, id)
    {
      ToldIs(w, es[i], h);
    }
    assert SomeTells(es, name, h);
    var i :| 0 <= i < |es| && Tells(es[i], name, h);
    assert TellsId(es[i], h, id);
    var n1 := ClearValueSeen(CheckForNewWriter(joining, w.self, true, env'));
    assert !IsWriter(n1);
    LoadTeachesId(n1, es, env', h, id);
  }

  lemma ToldIs(w: Node, e: Element, h: string)
    requires ToldBy(w, e)
    ensures e.children == [] && Acceptable(e.attrs)
    ensures Fold(e.attrs.host.value) == h && h in w.xmlIds ==> TellsId(e, h, w.xmlIds[h])
  {
    hide Fold;
  }

  // ---- Updates for all nodes ----

  /** An update that names no node, and so may concern many, teaches no XML ID. */
  lemma NamelessTeachesNoId(n: Node, op: Op, filter: bool, env: Env)
    requires !IsWriter(n) && op.host.None?
    ensures PeerUpdate(n, Element(true, op, []), filter, env).xmlIds == n.xmlIds
  {
    hide UpdateOnHosts, Populate;
    if op.name.Some? {
      var name := op.name.value;
      FindingKeepsIds(n, op, name, env);
      var n1 := Populate(n, op, name, env).0;
      if name in n1.attributes {
        HostsTeachNoId(n1, name, op.(hostId := None), env.order(n1.attributes[name].values.Keys), filter, env);
      }
    }
  }

  lemma FindingKeepsIds(n: Node, op: Op, name: string, env: Env)
    requires !IsWriter(n)
    ensures var n' := Populate(n, op, name, env).0; n'.xmlIds == n.xmlIds && !IsWriter(n')
  {
    hide UpdateDampening, CapMs, ValidSetType;
    if name in n.attributes {
      DampeningIds(n, op, name, env);
    } else if CreateAttribute(n, op, name).Some? {
      DampeningIds(CreateAttribute(n, op, name).value, op, name, env);
    }
  }

  lemma {:induction false} HostsTeachNoId(n: Node, name: string, op: Op, hosts: seq<string>, filter: bool, env: Env)
    requires !IsWriter(n) && op.hostId.None?
    ensures var n' := UpdateOnHosts(n, name, op, hosts, filter, env); n'.xmlIds == n.xmlIds && !IsWriter(n')
  {
    if hosts != [] {
      HostsTeachNoId(n, name, op, hosts[..|hosts|-1], filter, env);
      var n1 := UpdateOnHosts(n, name, op, hosts[..|hosts|-1], filter, env);
      hide UpdateOnHost;
      if name in n1.attributes {
        UpdateTeachesId(n1, name, op, hosts[|hosts|-1], filter, env);
      } else {
        NothingToUpdate(n1, name, op, hosts[|hosts|-1], filter, env);
      }
    }
  }

  lemma NothingToUpdate(n: Node, name: string, op: Op, host: string, filter: bool, env: Env)
    requires name !in n.attributes
    ensures UpdateOnHost(n, name, op, host, filter, env) == n
  {
  }

  // ---- Forgetting XML IDs ----

  /** The removal of a peer makes the node forget its XML ID if the request says so, and no other. */
  lemma ReapForgets(s: System, from: string, host: string, reap: bool, env: Env)
    requires !s.node.shuttingDown
    ensures var n, n' := s.node, Next(s, Deliver(from, RemoveMessage(Some(host), reap)), env).node;
      && n'.cache == (if reap then n.cache - {Fold(host)} else n.cache)
      && n'.xmlIds == (if reap then n.xmlIds - {Fold(host)} else n.xmlIds)
  {
    hide Fold, PeerRemove;
    RemovalForgets(s.node, host, reap, env);
  }

  lemma RemovalForgets(n: Node, host: string, uncache: bool, env: Env)
    ensures var n' := PeerRemove(n, host, uncache, env);
      && n'.cache == (if uncache then n.cache - {Fold(host)} else n.cache)
      && n'.xmlIds == (if uncache then n.xmlIds - {Fold(host)} else n.xmlIds)
  {
    hide Fold, DropHost, StartElectionIfNeeded;
    StartKeepsIds(n.(attributes := DropHost(n.attributes, Fold(host)), removed := n.removed + {Fold(host)}), env);
  }

  lemma StartKeepsIds(n: Node, env: Env)
    ensures var n' := StartElectionIfNeeded(n, env); n'.cache == n.cache && n'.xmlIds == n.xmlIds
  {
  }

  // ---- Delays in sync messages ----

  /** The delay told to peers is the nearest number of whole seconds, but at least one if there is a delay at all. */
  lemma DelayIsRounded(ms: nat)
    ensures var told := 1000 * Ms2S(ms);
      && told % 1000 == 0 && (ms == 0 ==> told == 0) && (0 < ms < 1000 ==> told == 1000)
      && (ms >= 1000 ==> told - 500 <= ms < told + 500)
  {
  }
}
