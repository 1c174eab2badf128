/** What steps may do beyond the table: issue CIB calls, forget removed peers, change the writer. */
module Lifecycle {
  import opened Common
  import opened Model
  import opened Elections
  import opened CibWrites
  import opened Attributes
  import opened Corosync
  import opened Daemon

  ghost predicate Held(n: Node, h: string) {
    exists name :: name in n.attributes && h in n.attributes[name].values
  }

  ghost predicate Extends(log: seq<Request>, log': seq<Request>) {
    |log| <= |log'| && log'[..|log|] == log
  }

  /** The effect of processing updates: calls are only added, and only by the writer, and none of them
      erases; no value entry disappears; a removed peer is forgotten only when it has a value; and the
      node votes at most because no writer is known. */
  ghost predicate Grows(n: Node, n': Node) {
    && Extends(n.log, n'.log)
    && (forall j :: |n.log| <= j < |n'.log| ==> !n'.log[j].Erase?)
    && (!IsWriter(n) ==> n'.log == n.log)
    && (forall h :: Held(n, h) ==> Held(n', h))
    && (forall h :: h in n.removed ==> h in n'.removed || Held(n', h))
    && n'.removed <= n.removed
    && n'.self == n.self && n'.writer == n.writer && n'.shuttingDown == n.shuttingDown
    && (n'.election == n.election || (n.writer.None? && n'.election.InProgress? && !IsWriter(n)))
    && Announces(n, n')
  }

  /** Messages are only added, and an election is not called without a vote being sent. */
  ghost predicate Announces(n: Node, n': Node) {
    && |n.outbox| <= |n'.outbox| && n'.outbox[..|n.outbox|] == n.outbox
    && (n'.election.InProgress? && !n.election.InProgress? ==> exists j :: |n.outbox| <= j < |n'.outbox| && n'.outbox[j].Vote?)
  }

  lemma AnnouncesTransitive(n: Node, n1: Node, n2: Node)
    requires Announces(n, n1) && Announces(n1, n2)
    ensures Announces(n, n2)
  {
    assert n2.outbox[..|n.outbox|] == n2.outbox[..|n1.outbox|][..|n.outbox|];
    if n1.election.InProgress? && !n.election.InProgress? {
      var j :| |n.outbox| <= j < |n1.outbox| && n1.outbox[j].Vote?;
      assert n2.outbox[j] == n2.outbox[..|n1.outbox|][j];
    }
  }

  lemma GrowsTransitive(n: Node, n1: Node, n2: Node)
    requires Grows(n, n1) && Grows(n1, n2)
    ensures Grows(n, n2)
  {
    hide Held, Announces;
    AnnouncesTransitive(n, n1, n2);
    assert n2.log[..|n.log|] == n2.log[..|n1.log|][..|n.log|];
    forall j | |n.log| <= j < |n2.log| ensures !n2.log[j].Erase? {
      if j < |n1.log| { assert n2.log[j] == n2.log[..|n1.log|][j]; }
    }
  }

  lemma GrowsReflexive(n: Node)
    ensures Grows(n, n)
  {
  }

  /** An edit of one attribute that keeps its entries. */
  lemma EditGrows(n: Node, n': Node, name: string, a: Attr, calls: seq<Request>)
    requires n'.attributes == n.attributes[name := a]
    requires name in n.attributes ==> n.attributes[name].values.Keys <= a.values.Keys
    requires n'.log == n.log + calls && (forall j :: 0 <= j < |calls| ==> !calls[j].Erase?)
    requires calls == [] || IsWriter(n)
    requires n'.removed == n.removed && n'.self == n.self && n'.writer == n.writer
    requires n'.shuttingDown == n.shuttingDown && n'.election == n.election && n'.outbox == n.outbox
    ensures Grows(n, n')
  {
    forall h | Held(n, h) ensures Held(n', h) {
      var b :| b in n.attributes && h in n.attributes[b].values;
      assert b in n'.attributes && h in n'.attributes[b].values;
    }
  }

  lemma SendGrows(n: Node, name: string, env: Env)
    requires name in n.attributes && IsWriter(n)
    ensures Grows(n, SendTransaction(n, name, env))
  {
    var a, n' := n.attributes[name], SendTransaction(n, name, env);
    assert Prepared(n, a).values.Keys == a.values.Keys;
    hide Prepared, LearnedIds;
    if Snapshot(n, a) == map[] {
      EditGrows(n, n', name, n'.attributes[name], []);
    } else if env.refuses(|n.log| + 1) {
      EditGrows(n, n', name, n'.attributes[name], [Refused]);
    } else {
      EditGrows(n, n', name, n'.attributes[name], [Commit(name, Snapshot(n, a))]);
    }
  }

  lemma WriteGrows(n: Node, name: string, ignoreDelay: bool, env: Env)
    requires IsWriter(n)
    ensures Grows(n, WriteAttribute(n, name, ignoreDelay, env))
  {
    hide SendTransaction, Grows;
    GrowsReflexive(n);
    if name in n.attributes {
      SendGrows(n, name, env);
      EditGrows(n, SetAttr(n, name, ClearFlags(n.attributes[name])), name, ClearFlags(n.attributes[name]), []);
    }
  }

  lemma WriteOrElectGrows(n: Node, name: string, env: Env)
    ensures Grows(n, WriteOrElect(n, name, env))
  {
    if IsWriter(n) {
      WriteGrows(n, name, false, env);
    } else {
      VoteGrows(n, env);
    }
  }

  lemma VoteGrows(n: Node, env: Env)
    requires !IsWriter(n)
    ensures Grows(n, StartElectionIfNeeded(n, env))
  {
    var n' := StartElectionIfNeeded(n, env);
    if n'.outbox != n.outbox { assert n'.outbox[|n.outbox|] == Vote; }
  }

  lemma WriteIfAskedGrows(n: Node, name: string, all: bool, noDelay: bool, env: Env)
    requires IsWriter(n)
    ensures Grows(n, WriteIfAsked(n, name, all, noDelay, env))
  {
    hide WriteAttribute, Held;
    GrowsReflexive(n);
    if name in n.attributes {
      var a := n.attributes[name];
      var n1 := SetAttr(n, name, a.(changed := true));
      EditGrows(n, n1, name, a.(changed := true), []);
      WriteGrows(n1, name, noDelay || a.forceWrite, env);
      WriteGrows(n, name, noDelay || a.forceWrite, env);
      hide Grows;
      GrowsTransitive(n, n1, WriteAttribute(n1, name, noDelay || a.forceWrite, env));
    }
  }

  lemma {:induction false} WriteEachGrows(n: Node, names: seq<string>, all: bool, noDelay: bool, env: Env)
    requires IsWriter(n)
    ensures Grows(n, WriteEach(n, names, all, noDelay, env))
  {
    hide WriteIfAsked, Held;
    GrowsReflexive(n);
    if names != [] {
      var n1 := WriteEach(n, names[..|names|-1], all, noDelay, env);
      WriteEachGrows(n, names[..|names|-1], all, noDelay, env);
      WriteIfAskedGrows(n1, names[|names|-1], all, noDelay, env);
      GrowsTransitive(n, n1, WriteEach(n, names, all, noDelay, env));
    }
  }

  // ---- Updates ----

  lemma WithEntryGrows(n: Node, name: string, op: Op, host: string)
    requires name in n.attributes
    ensures Grows(n, WithEntry(n, name, op, host))
  {
    var n' := WithEntry(n, name, op, host);
    var n1 := n'.(removed := n.removed);
    EditGrows(n, n1, name, n'.attributes[name], []);
    assert Held(n', Fold(host)) by { assert Fold(host) in n'.attributes[name].values; }
    forall h | Held(n1, h) ensures Held(n', h) {
      var b :| b in n1.attributes && h in n1.attributes[b].values;
      assert b in n'.attributes && h in n'.attributes[b].values;
    }
  }

  lemma ChangeGrows(n: Node, name: string, h: string, value: Option<string>, env: Env)
    requires name in n.attributes && h in n.attributes[name].values
    ensures Grows(n, ChangeValue(n, name, h, value, env))
  {
    hide WriteOrElect, Grows;
    var a := n.attributes[name];
    var a' := SetValue(a, h, a.values[h].(current := value, blank := false)).(changed := true);
    EditGrows(n, SetAttr(n, name, a'), name, a', []);
    EditGrows(n, SetAttr(n, name, a'.(timer := Running)), name, a'.(timer := Running), []);
    WriteOrElectGrows(SetAttr(n, name, a'), name, env);
    GrowsTransitive(n, SetAttr(n, name, a'), WriteOrElect(SetAttr(n, name, a'), name, env));
  }

  lemma TakeGrows(n: Node, name: string, op: Op, host: string, filter: bool, env: Env)
    requires name in n.attributes && Fold(host) in n.attributes[name].values
    ensures Grows(n, TakeValue(n, name, op, host, filter, env))
  {
    var a := n.attributes[name];
    GrowsReflexive(n);
    OutboxGrows(n, BroadcastValue(n, name, a, a.values[Fold(host)]));
    EditGrows(n, SetAttr(n, name, a.(forceWrite := true)), name, a.(forceWrite := true), []);
    ChangeGrows(n, name, Fold(host), op.value, env);
    hide Grows, ChangeValue, BroadcastValue;
  }

  lemma OutboxGrows(n: Node, n': Node)
    requires n' == n.(outbox := n'.outbox) && |n.outbox| <= |n'.outbox| && n'.outbox[..|n.outbox|] == n.outbox
    ensures Grows(n, n')
  {
    forall h | Held(n, h) ensures Held(n', h) {
      var b :| b in n.attributes && h in n.attributes[b].values;
      assert b in n'.attributes && h in n'.attributes[b].values;
    }
  }

  lemma MarkGrows(n: Node, name: string, h: string)
    ensures Grows(n, MarkFromPeer(n, name, h))
  {
    GrowsReflexive(n);
    hide Grows;
    var n' := MarkFromPeer(n, name, h);
    if name in n.attributes && h in n.attributes[name].values {
      EditGrows(n, n', name, n'.attributes[name], []);
    }
  }

  lemma LearnGrows(n: Node, h: string, id: Option<string>, previous: Option<string>, env: Env)
    ensures Grows(n, LearnXmlId(n, h, id, previous, env))
  {
    GrowsReflexive(n);
    if id.Some? {
      var n1 := n.(xmlIds := n.xmlIds[h := id.value]);
      IdsGrow(n, n1);
      hide Grows, WriteEach;
      if IsWriter(n) {
        WriteEachGrows(n1, env.order(n1.attributes.Keys), false, false, env);
        GrowsTransitive(n, n1, WriteAttributes(n1, false, false, env));
      }
    }
  }

  lemma IdsGrow(n: Node, n': Node)
    requires n' == n.(xmlIds := n'.xmlIds)
    ensures Grows(n, n')
  {
    forall h | Held(n, h) ensures Held(n', h) {
      var b :| b in n.attributes && h in n.attributes[b].values;
      assert b in n'.attributes && h in n'.attributes[b].values;
    }
  }

  lemma UpdateOnHostGrows(n: Node, name: string, op: Op, host: string, filter: bool, env: Env)
    ensures Grows(n, UpdateOnHost(n, name, op, host, filter, env))
  {
    GrowsReflexive(n);
    if name in n.attributes {
      WithEntryGrows(n, name, op, host);
      var n1 := WithEntry(n, name, op, host);
      assert name in n1.attributes && Fold(host) in n1.attributes[name].values;
      hide Grows, WithEntry, TakeValue, MarkFromPeer, LearnXmlId;
      var previous := Lookup(n.xmlIds, Fold(host));
      TakeGrows(n1, name, op, host, filter, env);
      var n2 := TakeValue(n1, name, op, host, filter, env);
      MarkGrows(n2, name, Fold(host));
      var n3 := MarkFromPeer(n2, name, Fold(host));
      LearnGrows(n3, Fold(host), OrElse(op.hostId, previous), previous, env);
      GrowsTransitive(n, n1, n2);
      GrowsTransitive(n, n2, n3);
      GrowsTransitive(n, n3, UpdateOnHost(n, name, op, host, filter, env));
    }
  }

  lemma {:induction false} UpdateOnHostsGrows(n: Node, name: string, op: Op, hosts: seq<string>, filter: bool, env: Env)
    ensures Grows(n, UpdateOnHosts(n, name, op, hosts, filter, env))
  {
    GrowsReflexive(n);
    hide Grows, UpdateOnHost;
    if hosts != [] {
      var n1 := UpdateOnHosts(n, name, op, hosts[..|hosts|-1], filter, env);
      UpdateOnHostsGrows(n, name, op, hosts[..|hosts|-1], filter, env);
      UpdateOnHostGrows(n1, name, op, hosts[|hosts|-1], filter, env);
      GrowsTransitive(n, n1, UpdateOnHosts(n, name, op, hosts, filter, env));
    }
  }

  lemma DampeningGrows(n: Node, op: Op, name: string, env: Env)
    requires name in n.attributes
    ensures Grows(n, UpdateDampening(n, op, name, env).0)
  {
    GrowsReflexive(n);
    hide Grows, WriteOrElect;
    match op.delay
    case Some(DelayMs(ms)) =>
      if ms >= 0 {
        var a := n.attributes[name].(timeoutMs := CapMs(ms), timer := if ms > 0 then Idle else NoTimer);
        EditGrows(n, SetAttr(n, name, a), name, a, []);
        WriteOrElectGrows(SetAttr(n, name, a), name, env);
        GrowsTransitive(n, SetAttr(n, name, a), WriteOrElect(SetAttr(n, name, a), name, env));
      }
    case _ =>
  }

  lemma PopulateGrows(n: Node, op: Op, name: string, env: Env)
    ensures Grows(n, Populate(n, op, name, env).0)
  {
    GrowsReflexive(n);
    hide Grows, UpdateDampening;
    if name !in n.attributes {
      var c := CreateAttribute(n, op, name);
      if c.Some? {
        EditGrows(n, c.value, name, c.value.attributes[name], []);
        DampeningGrows(c.value, op, name, env);
        GrowsTransitive(n, c.value, UpdateDampening(c.value, op, name, env).0);
      }
    } else {
      DampeningGrows(n, op, name, env);
    }
  }

  lemma PeerUpdateOneGrows(n: Node, op: Op, filter: bool, env: Env)
    ensures Grows(n, PeerUpdateOne(n, op, filter, env))
  {
    GrowsReflexive(n);
    hide Grows, Populate, UpdateOnHost, UpdateOnHosts;
    if op.name.Some? {
      var name := op.name.value;
      PopulateGrows(n, op, name, env);
      var (n1, ok) := Populate(n, op, name, env);
      if ok && name in n1.attributes {
        if op.host.Some? {
          UpdateOnHostGrows(n1, name, op, op.host.value, filter, env);
        } else {
          UpdateOnHostsGrows(n1, name, op.(hostId := None), env.order(n1.attributes[name].values.Keys), filter, env);
        }
        GrowsTransitive(n, n1, PeerUpdateOne(n, op, filter, env));
      }
    }
  }

  lemma {:induction false} UpdateChildrenGrows(n: Node, parent: Op, children: seq<Element>, filter: bool, env: Env)
    ensures Grows(n, UpdateChildren(n, parent, children, filter, env))
  {
    GrowsReflexive(n);
    hide Grows, PeerUpdateOne;
    if children != [] {
      var n1 := UpdateChildren(n, parent, children[..|children|-1], filter, env);
      UpdateChildrenGrows(n, parent, children[..|children|-1], filter, env);
      PeerUpdateOneGrows(n1, Merge(children[|children|-1].attrs, parent), filter, env);
      GrowsTransitive(n, n1, PeerUpdateOne(n1, Merge(children[|children|-1].attrs, parent), filter, env));
    }
  }

  lemma PeerUpdateGrows(n: Node, e: Element, filter: bool, env: Env)
    ensures Grows(n, PeerUpdate(n, e, filter, env))
  {
    hide Grows, PeerUpdateOne, UpdateChildren;
    UpdateChildrenGrows(n, e.attrs, e.children, filter, env);
    PeerUpdateOneGrows(n, e.attrs, filter, env);
  }

  lemma {:induction false} ClearMatchingGrows(n: Node, e: Element, names: seq<string>, matching: set<string>, env: Env)
    ensures Grows(n, ClearMatching(n, e, names, matching, env))
  {
    GrowsReflexive(n);
    hide Grows, PeerUpdate;
    if names != [] {
      var n1 := ClearMatching(n, e, names[..|names|-1], matching, env);
      var e' := ClearOf(ClearRequest(e, names[..|names|-1], matching), names[|names|-1]);
      ClearMatchingGrows(n, e, names[..|names|-1], matching, env);
      PeerUpdateGrows(n1, e', false, env);
      GrowsTransitive(n, n1, PeerUpdate(n1, e', false, env));
    }
  }

  lemma {:induction false} LoadChildrenGrows(n: Node, children: seq<Element>, env: Env)
    ensures Grows(n, LoadChildren(n, children, env))
  {
    GrowsReflexive(n);
    hide Grows, PeerUpdate;
    if children != [] {
      var n1 := LoadChildren(n, children[..|children|-1], env);
      LoadChildrenGrows(n, children[..|children|-1], env);
      PeerUpdateGrows(n1, children[|children|-1], true, env);
      GrowsTransitive(n, n1, LoadChildren(n, children, env));
    }
  }

  lemma ClearSeenGrows(n: Node)
    ensures Grows(n, ClearValueSeen(n))
  {
    var n' := ClearValueSeen(n);
    forall h | Held(n, h) ensures Held(n', h) {
      var b :| b in n.attributes && h in n.attributes[b].values;
      assert b in n'.attributes && h in n'.attributes[b].values;
    }
  }

  /** Loading a sync response, once the writer it names has been looked at. */
  lemma SyncResponseGrows(n: Node, peerWon: bool, e: Element, env: Env)
    ensures Grows(n, PeerSyncResponse(n, peerWon, e, env))
  {
    hide Grows, LoadChildren, ClearValueSeen, UnseenInOrder;
    GrowsReflexive(n);
    ClearSeenGrows(n);
    var n1 := if peerWon then ClearValueSeen(n) else n;
    LoadChildrenGrows(n1, e.children, env);
    var n2 := LoadChildren(n1, e.children, env);
    GrowsTransitive(n, n1, n2);
    OutboxGrows(n2, BroadcastUnseen(n2, env));
    GrowsTransitive(n, n2, BroadcastUnseen(n2, env));
  }
}
