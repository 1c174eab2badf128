/** Entries that no transaction has covered: where memory says `unset` and the CIB is not consulted. */
module BlankEntries {
  import opened Common
  import opened Model
  import opened Elections
  import opened CibWrites
  import opened Attributes
  import opened Corosync
  import opened Daemon
  import opened Succession

  predicate BlankAt(n: Node, name: string, h: string) {
    name in n.attributes && h in n.attributes[name].values && n.attributes[name].values[h].blank
  }

  /** A transaction changes one attribute, and of its values only what is noted about requests. */
  lemma SendShape(n: Node, name: string, env: Env)
    requires name in n.attributes
    ensures var n' := SendTransaction(n, name, env);
      && n'.attributes.Keys == n.attributes.Keys
      && n'.attributes[name].values == Requested(n.attributes[name].values, Snapshot(n, n.attributes[name]))
      && forall b :: b in n.attributes && b != name ==> n'.attributes[b] == n.attributes[b]
  {
    var a, n' := n.attributes[name], SendTransaction(n, name, env);
    hide Snapshot, LearnedIds, Requested;
    if Snapshot(n, a) == map[] {
      assert n'.attributes == n.attributes[name := Prepared(n, a)];
    } else if env.refuses(|n.log| + 1) {
      assert n'.attributes == n.attributes[name := AfterFailure(Prepared(n, a), IsWriter(n))];
    } else {
      assert n'.attributes == n.attributes[name := Prepared(n, a).(update := |n.log| + 1)];
    }
  }

  lemma SendKeepsWritten(n: Node, name: string, env: Env, h: string)
    requires name in n.attributes
    ensures BlankAt(SendTransaction(n, name, env), name, h) ==> BlankAt(n, name, h)
  {
    hide SendTransaction, Snapshot;
    SendShape(n, name, env);
  }

  lemma WriteKeepsWritten(n: Node, name: string, env: Env, h: string)
    ensures BlankAt(WriteOrElect(n, name, env), name, h) ==> BlankAt(n, name, h)
  {
    hide SendTransaction;
    if name in n.attributes { SendKeepsWritten(n, name, env, h); }
  }

  lemma ChangeIsNotBlank(n: Node, name: string, h: string, value: Option<string>, env: Env)
    requires name in n.attributes && h in n.attributes[name].values
    ensures !BlankAt(ChangeValue(n, name, h, value, env), name, h)
  {
    hide WriteOrElect;
    var a := n.attributes[name];
    var n1 := SetAttr(n, name, SetValue(a, h, a.values[h].(current := value, blank := false)).(changed := true));
    WriteKeepsWritten(n1, name, env, h);
  }

  // ---- Writing the attributes that wait for a node ----

  /** Whether going through all attributes that are flagged, or wait for a node, writes this one. */
  predicate WritesFlagged(n: Node, a: Attr) {
    Writable(n, a) && (a.changed || a.nodeUnknown || a.forceWrite) && !MustWait(n, a, a.forceWrite)
  }

  /** What writing one attribute leaves of the rest of the node. */
  ghost predicate Aside(n: Node, n': Node, name: string) {
    && n'.attributes.Keys == n.attributes.Keys
    && (forall b :: b in n.attributes && b != name ==> n'.attributes[b] == n.attributes[b])
    && n'.standAlone == n.standAlone && n'.lastDone == n.lastDone && n'.cache == n.cache && n.xmlIds.Keys <= n'.xmlIds.Keys
  }

  lemma SendAside(n: Node, name: string, env: Env)
    requires name in n.attributes
    ensures Aside(n, SendTransaction(n, name, env), name)
  {
    SendShape(n, name, env);
    hide Snapshot, LearnedIds, Requested, SentAttr, SentCalls;
  }

  lemma SetAside(n: Node, name: string, a: Attr)
    requires name in n.attributes
    ensures Aside(n, SetAttr(n, name, a), name)
  {
  }

  lemma AsideTwice(n: Node, n1: Node, n2: Node, name: string)
    requires Aside(n, n1, name) && Aside(n1, n2, name)
    ensures Aside(n, n2, name)
  {
  }

  lemma WriteAside(n: Node, name: string, ignoreDelay: bool, env: Env)
    requires name in n.attributes
    ensures var n' := WriteAttribute(n, name, ignoreDelay, env);
      Aside(n, n', name) && n'.attributes[name].values.Keys == n.attributes[name].values.Keys
  {
    SendAside(n, name, env);
    SetAside(n, name, ClearFlags(n.attributes[name]));
    SendShape(n, name, env);
    assert Requested(n.attributes[name].values, Snapshot(n, n.attributes[name])).Keys == n.attributes[name].values.Keys;
    hide SendTransaction, Aside, Snapshot, Requested;
    assert Aside(n, n, name) by { AsideSelf(n, name); }
  }

  lemma AsideSelf(n: Node, name: string)
    ensures Aside(n, n, name)
  {
  }

  lemma WriteIfAskedAside(n: Node, name: string, env: Env)
    requires name in n.attributes
    ensures Aside(n, WriteIfAsked(n, name, false, false, env), name)
  {
    hide WriteAttribute, Aside;
    var a := n.attributes[name];
    var n1 := SetAttr(n, name, a.(changed := true));
    AsideSelf(n, name);
    SetAside(n, name, a.(changed := true));
    WriteAside(n, name, a.forceWrite, env);
    WriteAside(n1, name, a.forceWrite, env);
    AsideTwice(n, n1, WriteAttribute(n1, name, a.forceWrite, env), name);
  }

  lemma SendBlank(n: Node, name: string, env: Env, h: string)
    requires name in n.attributes
    ensures BlankAt(SendTransaction(n, name, env), name, h) <==> BlankAt(n, name, h) && !KnowsHost(n, n.attributes[name], h)
  {
    SendShape(n, name, env);
    assert h in Snapshot(n, n.attributes[name]) <==> KnowsHost(n, n.attributes[name], h);
    hide SendTransaction, Snapshot;
  }

  lemma WriteBlank(n: Node, name: string, ignoreDelay: bool, env: Env, h: string)
    requires name in n.attributes
    ensures var a := n.attributes[name];
      BlankAt(WriteAttribute(n, name, ignoreDelay, env), name, h)
      <==> BlankAt(n, name, h) && !(Writable(n, a) && !MustWait(n, a, ignoreDelay) && KnowsHost(n, a, h))
  {
    SendBlank(n, name, env, h);
    hide SendTransaction, MustWait, XmlIdFor;
  }

  lemma WriteIfAskedBlank(n: Node, name: string, env: Env, h: string)
    requires name in n.attributes
    ensures BlankAt(WriteIfAsked(n, name, false, false, env), name, h)
       <==> BlankAt(n, name, h) && !(WritesFlagged(n, n.attributes[name]) && KnowsHost(n, n.attributes[name], h))
  {
    hide WriteAttribute, XmlIdFor;
    var a := n.attributes[name];
    var n1 := SetAttr(n, name, a.(changed := true));
    WriteBlank(n, name, a.forceWrite, env, h);
    WriteBlank(n1, name, a.forceWrite, env, h);
    assert KnowsHost(n1, a.(changed := true), h) == KnowsHost(n, a, h) by { SameIds(n, n1, h); }
  }

  lemma SameIds(n: Node, n': Node, h: string)
    requires n'.cache == n.cache && n'.xmlIds == n.xmlIds
    ensures forall v :: XmlIdFor(n', h, v) == XmlIdFor(n, h, v)
  {
  }

  lemma MoreIds(n: Node, n': Node, name: string, h: string)
    requires Aside(n, n', name) && h in n.xmlIds.Keys + n.cache.Keys
    ensures forall v :: XmlIdFor(n, h, v).Some? && XmlIdFor(n', h, v).Some?
  {
  }

  lemma {:induction false} WriteEachBlank(n: Node, names: seq<string>, env: Env, name: string, h: string)
    requires name in n.attributes && h in n.attributes[name].values && h in n.xmlIds.Keys + n.cache.Keys
    requires forall i :: 0 <= i < |names| ==> names[i] in n.attributes
    requires forall i, j :: 0 <= i < j < |names| ==> names[i] != names[j]
    ensures var n' := WriteEach(n, names, false, false, env);
      && n'.attributes.Keys == n.attributes.Keys && n'.standAlone == n.standAlone && n'.lastDone == n.lastDone
      && n'.cache == n.cache && n.xmlIds.Keys <= n'.xmlIds.Keys
      && (name !in names ==> n'.attributes[name] == n.attributes[name])
      && (name in names ==> (BlankAt(n', name, h) <==> BlankAt(n, name, h) && !WritesFlagged(n, n.attributes[name])))
  {
    hide WriteIfAsked, BlankAt, WritesFlagged, XmlIdFor;
    if names != [] {
      var front, last := names[..|names|-1], names[|names|-1];
      assert names == front + [last];
      WriteEachBlank(n, front, env, name, h);
      var n1 := WriteEach(n, front, false, false, env);
      WriteIfAskedAside(n1, last, env);
      if last == name {
        assert name !in front;
        WriteIfAskedBlank(n1, name, env, h);
        assert KnowsHost(n1, n1.attributes[name], h) by { MoreIds(n1, n1, name, h); }
        assert WritesFlagged(n1, n1.attributes[name]) == WritesFlagged(n, n.attributes[name]) by { SameFlags(n, n1, n.attributes[name]); }
        assert BlankAt(n1, name, h) == BlankAt(n, name, h) by { SameBlank(n, n1, name, h); }
      } else {
        var n2 := WriteIfAsked(n1, last, false, false, env);
        assert BlankAt(n2, name, h) == BlankAt(n1, name, h) by { SameBlank(n1, n2, name, h); }
      }
    }
  }

  lemma SameFlags(n: Node, n': Node, a: Attr)
    requires n'.standAlone == n.standAlone && n'.lastDone == n.lastDone
    ensures WritesFlagged(n', a) == WritesFlagged(n, a)
  {
  }

  lemma SameBlank(n: Node, n': Node, name: string, h: string)
    requires name in n.attributes && name in n'.attributes && n'.attributes[name] == n.attributes[name]
    ensures BlankAt(n', name, h) == BlankAt(n, name, h)
  {
  }

  // ---- What an update leaves ----

  /** The attribute after an update that does not change a value, but may ask for it to be written. */
  function Asked(a: Attr, op: Op): Attr {
    if op.value.None? && IsSet(op.forceWrite) && a.timeoutMs != 0 && a.timer != NoTimer then a.(forceWrite := true) else a
  }

  /** The update tells the node's XML ID, which the writer did not know, and the attribute gets written for that. */
  predicate WrittenOnLearning(n: Node, name: string, op: Op, host: string)
    requires name in n.attributes
  {
    && IsWriter(n) && op.hostId.Some? && op.hostId != Lookup(n.xmlIds, Fold(host))
    && WritesFlagged(n, Asked(n.attributes[name], op))
  }

  /** There is no entry yet, or one that no transaction has covered. */
  predicate Uncovered(n: Node, name: string, h: string)
    requires name in n.attributes
  {
    h !in n.attributes[name].values || n.attributes[name].values[h].blank
  }

  /** The value is not taken over: there is none, or it is for the local node in a sync response. */
  predicate NotTaken(n: Node, op: Op, host: string, filter: bool) {
    op.value.None? || (filter && Fold(host) == Fold(n.self))
  }

  /** Adding the entry. */
  lemma BlankAfterEntry(n: Node, name: string, op: Op, host: string)
    requires name in n.attributes && (BlankAt(n, name, Fold(host)) ==> n.attributes[name].values[Fold(host)].current.None?)
    ensures var n1 := WithEntry(n, name, op, host);
      && name in n1.attributes && Fold(host) in n1.attributes[name].values
      && n1.attributes[name].values[Fold(host)].blank == Uncovered(n, name, Fold(host))
      && (Uncovered(n, name, Fold(host)) ==> n1.attributes[name].values[Fold(host)].current.None?)
      && n1.election == n.election && n1.standAlone == n.standAlone && n1.lastDone == n.lastDone && n1.self == n.self
      && n1.attributes.Keys == n.attributes.Keys && n1.cache == n.cache && n1.xmlIds == n.xmlIds
      && n1.attributes[name] == n.attributes[name].(values := n1.attributes[name].values)
  {
    hide Fold;
  }

  /** The value was taken over, or it was not, and then only a write may have been asked for. */
  ghost predicate TakenOrAsked(n: Node, n2: Node, name: string, op: Op, h: string, notTaken: bool)
    requires name in n.attributes && h in n.attributes[name].values
  {
    var blank := n.attributes[name].values[h].blank;
    && name in n2.attributes && h in n2.attributes[name].values
    && (BlankAt(n2, name, h) <==> blank && notTaken)
    && (blank && notTaken ==>
          && n2.attributes[name] == Asked(n.attributes[name], op)
          && n2.election == n.election && n2.standAlone == n.standAlone && n2.lastDone == n.lastDone)
  }

  lemma AskedOnly(n: Node, name: string, op: Op, h: string, notTaken: bool)
    requires name in n.attributes && h in n.attributes[name].values
    requires n.attributes[name].values[h].blank ==> op.value.None? && notTaken
    ensures IsSet(op.forceWrite) && n.attributes[name].timeoutMs != 0 && n.attributes[name].timer != NoTimer ==>
      TakenOrAsked(n, SetAttr(n, name, n.attributes[name].(forceWrite := true)), name, op, h, notTaken)
    ensures !(IsSet(op.forceWrite) && n.attributes[name].timeoutMs != 0 && n.attributes[name].timer != NoTimer) ==>
      TakenOrAsked(n, n, name, op, h, notTaken)
  {
  }

  lemma BroadcastKeeps(n: Node, name: string, op: Op, h: string)
    requires name in n.attributes && h in n.attributes[name].values && (n.attributes[name].values[h].blank ==> op.value.Some?)
    ensures TakenOrAsked(n, BroadcastValue(n, name, n.attributes[name], n.attributes[name].values[h]), name, op, h, true)
  {
  }

  /** Taking the value, or not. */
  lemma BlankAfterTake(n: Node, name: string, op: Op, host: string, filter: bool, env: Env)
    requires name in n.attributes && Fold(host) in n.attributes[name].values
    requires n.attributes[name].values[Fold(host)].blank ==> n.attributes[name].values[Fold(host)].current.None?
    ensures TakenOrAsked(n, TakeValue(n, name, op, host, filter, env), name, op, Fold(host), NotTaken(n, op, host, filter))
  {
    var a, h := n.attributes[name], Fold(host);
    if SameText(a.values[h].current, op.value) {
      AskedOnly(n, name, op, h, NotTaken(n, op, host, filter));
      hide TakenOrAsked, Fold;
    } else if filter && Fold(host) == Fold(n.self) {
      BroadcastKeeps(n, name, op, h);
      hide TakenOrAsked, Fold, BroadcastValue;
    } else {
      ChangeIsNotBlank(n, name, h, op.value, env);
      ChangeKeepsEntry(n, name, h, op.value, env);
      hide ChangeValue, Fold;
    }
  }

  lemma ChangeKeepsEntry(n: Node, name: string, h: string, value: Option<string>, env: Env)
    requires name in n.attributes && h in n.attributes[name].values
    ensures var n' := ChangeValue(n, name, h, value, env); name in n'.attributes && h in n'.attributes[name].values
  {
    hide WriteAttribute;
    var a := n.attributes[name];
    var n1 := SetAttr(n, name, SetValue(a, h, a.values[h].(current := value, blank := false)).(changed := true));
    WriteAside(n1, name, false, env);
  }

  /** After an update for a host, of any node's value and from any message, its entry is one that no transaction
      covers if and only if it was so before (or was not there), the value is not taken over, and the update does
      not, by telling the host's XML ID, make the writer write the attribute. */
  lemma BlankIffNotTaken(n: Node, name: string, op: Op, host: string, filter: bool, env: Env)
    requires ValidEnv(env) && name in n.attributes
    requires BlankAt(n, name, Fold(host)) ==> n.attributes[name].values[Fold(host)].current.None?
    ensures BlankAt(UpdateOnHost(n, name, op, host, filter, env), name, Fold(host)) <==>
      && Uncovered(n, name, Fold(host)) && NotTaken(n, op, host, filter)
      && !WrittenOnLearning(n, name, op, host)
  {
    var h := Fold(host);
    var n1 := WithEntry(n, name, op, host);
    BlankAfterEntry(n, name, op, host);
    BlankAfterTake(n1, name, op, host, filter, env);
    hide TakeValue, Fold, WithEntry, WritesFlagged, LearnXmlId, Asked, MarkFromPeer;
    var n2 := TakeValue(n1, name, op, host, filter, env);
    var n3 := MarkFromPeer(n2, name, h);
    MarkKeepsFlags(n2, name, h);
    var previous := Lookup(n.xmlIds, h);
    LearnBlank(n3, name, h, OrElse(op.hostId, previous), previous, env);
    if BlankAt(n2, name, h) {
      FlagsSurvive(n, n1, n3, name, op);
    }
  }

  lemma MarkKeepsFlags(n: Node, name: string, h: string)
    requires name in n.attributes && h in n.attributes[name].values
    ensures var n' := MarkFromPeer(n, name, h);
      && name in n'.attributes && h in n'.attributes[name].values && BlankAt(n', name, h) == BlankAt(n, name, h)
      && n'.attributes[name] == n.attributes[name].(values := n'.attributes[name].values)
      && n'.election == n.election && n'.standAlone == n.standAlone && n'.lastDone == n.lastDone
  {
  }

  /** Learning a node's XML ID covers the node's value exactly if it makes the writer write the attribute. */
  lemma LearnBlank(n: Node, name: string, h: string, id: Option<string>, previous: Option<string>, env: Env)
    requires ValidEnv(env) && name in n.attributes && h in n.attributes[name].values
    ensures BlankAt(LearnXmlId(n, h, id, previous, env), name, h) <==>
      BlankAt(n, name, h) && !(IsWriter(n) && id.Some? && id != previous && WritesFlagged(n, n.attributes[name]))
  {
    hide WriteEach, WritesFlagged;
    if id.Some? && id != previous && IsWriter(n) {
      var n1 := n.(xmlIds := n.xmlIds[h := id.value]);
      var names := env.order(n1.attributes.Keys);
      assert Enumerates(names, n1.attributes.Keys);
      assert forall i :: 0 <= i < |names| ==> names[i] in names;
      assert name in names;
      assert WritesFlagged(n1, n.attributes[name]) == WritesFlagged(n, n.attributes[name]) by { SameFlags(n, n1, n.attributes[name]); }
      WriteEachBlank(n1, names, env, name, h);
    }
  }

  /** Marking a value and adding its entry do not change what decides about writing. */
  lemma FlagsSurvive(n: Node, n1: Node, n3: Node, name: string, op: Op)
    requires name in n.attributes && name in n1.attributes && name in n3.attributes
    requires n3.standAlone == n.standAlone && n3.lastDone == n.lastDone
    requires n1.attributes[name] == n.attributes[name].(values := n1.attributes[name].values)
    requires n3.attributes[name] == Asked(n1.attributes[name], op).(values := n3.attributes[name].values)
    ensures WritesFlagged(n3, n3.attributes[name]) == WritesFlagged(n, Asked(n.attributes[name], op))
  {
  }

  // ---- Two runs that end in disagreement ----

  const UNSET_A: Op := NoAttrs.(task := Some(Update), name := Some("a"), host := Some("h"))

  /** And the CIB may well say otherwise: a run at whose end the writer is quiescent, holds `unset` for an
      attribute, and the CIB has a value. */
  lemma UnsetOfUnknownDisagrees() returns (run: seq<Event>)
    ensures var s0 := Initial("n", false, map[("a", "h") := "1"]);
      && ValidRun(s0, run)
      && var s := Exec(s0, run);
      && IsWriter(s.node) && "a" in s.node.attributes && "h" in s.node.attributes["a"].values
      && var a := s.node.attributes["a"];
      && Writable(s.node, a) && a.update == 0 && !a.changed && !a.nodeUnknown && a.timer.NoTimer?
      && a.values["h"].current.None? && Lookup(s.cib, ("a", "h")) == Some("1")
  {
    hide WinElection, PeerUpdate;
    var env := EnvExists(_ => false, true);
    var s0 := Initial("n", false, map[("a", "h") := "1"]);
    var e1 := Event(Deliver("m", ElectionMessage(LocalBetter)), env);
    var e2 := Event(ElectionTimesOut, env);
    var e3 := Event(Deliver("m", UpdateMessage(Element(true, UNSET_A, []))), env);
    run := [e1, e2, e3];
    assert run[..2] == [e1, e2] && [e1, e2][..1] == [e1] && [e1][..0] == [];
    assert ValidRun(s0, [e1]);
    var s1 := Exec(s0, [e1]);
    assert s1.node.election.InProgress? && s1.node.attributes == map[];
    assert ValidRun(s0, [e1, e2]);
    var s2 := Exec(s0, [e1, e2]);
    assert s2.node == WinElection(s1.node, env);
    WinOfEmpty(s1.node, env);
    var s3 := Exec(s0, run);
    assert s3.node == PeerUpdate(s2.node, Element(true, UNSET_A, []), false, env);
    UnsetCreatesBlank(s2.node, env);
  }

  lemma WinOfEmpty(n: Node, env: Env)
    requires ValidEnv(env) && n.attributes == map[]
    ensures var n' := WinElection(n, env);
      && IsWriter(n') && n'.attributes == map[] && n'.standAlone == n.standAlone && n'.shuttingDown == n.shuttingDown
      && (n.removed == {} ==> n'.log == n.log && n'.callbacks == n.callbacks && n'.cache == n.cache && n'.xmlIds == n.xmlIds
                              && n'.lastDone == n.lastDone && n'.self == n.self && n'.removed == {})
  {
    hide EraseEach, SyncMessage;
    var n1 := PeerSync(n.(election := Won, writer := Some(n.self)), None, env);
    EraseEachShape(n1, env.order(n1.removed));
    EraseKeepsIds(n1, env.order(n1.removed));
    var n2 := EraseRemoved(n1, env);
    assert n2.attributes.Keys == {};
    assert Enumerates(env.order(n2.attributes.Keys), n2.attributes.Keys);
    EnumeratesNone(env.order(n2.attributes.Keys));
    if n.removed == {} {
      assert Enumerates(env.order(n1.removed), n1.removed);
      EnumeratesNone(env.order(n1.removed));
      assert EraseEach(n1, []) == n1 by { ErasesNothing(n1); }
    }
  }

  lemma ErasesNothing(n: Node)
    ensures EraseEach(n, []) == n
  {
  }

  lemma UnsetCreatesBlank(n: Node, env: Env)
    requires n.attributes == map[] && !n.standAlone && !n.shuttingDown && IsWriter(n)
    ensures var n' := PeerUpdate(n, Element(true, UNSET_A, []), false, env);
      && IsWriter(n') && !n'.standAlone && "a" in n'.attributes && "h" in n'.attributes["a"].values
      && var a := n'.attributes["a"];
      && !a.isPrivate && a.update == 0 && !a.changed && !a.nodeUnknown && a.timer.NoTimer? && a.values["h"].current.None?
  {
    assert Fold("h") == "h";
    var n1 := CreateAttribute(n, UNSET_A, "a").value;
    assert Populate(n, UNSET_A, "a", env) == (n1, true);
    var n2 := WithEntry(n1, "a", UNSET_A, "h");
    assert TakeValue(n2, "a", UNSET_A, "h", false, env) == n2;
  }

  const OWN_A: Op := NoAttrs.(name := Some("a"), value := Some("1"), host := Some("n"), delay := Some(DelayMs(0)))
  const OWN_SYNC: Element := Element(false, NoAttrs.(task := Some(SyncResponse)), [Element(false, OWN_A, [])])

  /** The same for a value that is set: another writer has put the node's own value into the CIB and tells the node
      so, which the node, being writer itself, does not take over. */
  lemma OwnValueFromSyncDisagrees() returns (run: seq<Event>)
    ensures var s0 := Initial("n", false, map[]);
      && ValidRun(s0, run)
      && var s := Exec(s0, run);
      && IsWriter(s.node) && "a" in s.node.attributes && "n" in s.node.attributes["a"].values
      && var a := s.node.attributes["a"];
      && Writable(s.node, a) && a.update == 0 && !a.changed && !a.nodeUnknown && a.timer.NoTimer?
      && a.values["n"].current.None? && Lookup(s.cib, ("a", "n")) == Some("1")
  {
    hide WinElection, HandleSyncResponse, Exec, ValidRun;
    var env := EnvExists(_ => false, true);
    var env' := EnvExists(_ => false, false);
    var s0 := Initial("n", false, map[]);
    StartsEmpty(s0);
    var s1 := Continue(s0, [], s0, Event(CibProcesses(true), env));
    assert s1.node == s0.node;
    run := [Event(CibProcesses(true), env)];
    var e := Event(OtherWriterEdits(map[("a", "n") := "1"]), env);
    var s2 := Continue(s0, run, s1, e);
    assert s2.node == s0.node && Lookup(s2.cib, ("a", "n")) == Some("1");
    run := run + [e];
    e := Event(Deliver("m", ElectionMessage(LocalBetter)), env);
    var s3 := Continue(s0, run, s2, e);
    assert s3.node.election.InProgress? && s3.node.attributes == map[] && !s3.node.standAlone && s3.node.self == "n";
    run := run + [e];
    e := Event(ElectionTimesOut, env);
    var s4 := Continue(s0, run, s3, e);
    assert s4.node == WinElection(s3.node, env);
    run := run + [e];
    WinOfEmpty(s3.node, env);
    WinShape(s3.node, env);
    e := Event(Deliver("m", SyncResponseMessage(OWN_SYNC, true)), env');
    var s5 := Continue(s0, run, s4, e);
    assert s5.node == HandleSyncResponse(s4.node, "m", true, OWN_SYNC, env');
    run := run + [e];
    OwnSyncCreatesBlank(s4.node, env');
  }

  lemma StartsEmpty(s: System)
    ensures ValidRun(s, []) && Exec(s, []) == s
  {
  }

  /** One more event of a run. */
  lemma Continue(s0: System, run: seq<Event>, s: System, e: Event) returns (s': System)
    requires ValidRun(s0, run) && Exec(s0, run) == s && ValidEnv(e.env) && Enabled(s, e.step, e.env)
    ensures s' == Next(s, e.step, e.env) && ValidRun(s0, run + [e]) && Exec(s0, run + [e]) == s'
    ensures [] + [e] == [e]
  {
    hide Next, Enabled;
    s' := Next(s, e.step, e.env);
    assert (run + [e])[..|run|] == run;
  }

  lemma OwnUpdateCreatesBlank(n: Node, env: Env)
    requires n.self == "n" && n.attributes == map[] && !n.standAlone && IsWriter(n)
    ensures var n' := PeerUpdateOne(n, OWN_A, true, env);
      && IsWriter(n') && !n'.standAlone && "a" in n'.attributes && "n" in n'.attributes["a"].values
      && var a := n'.attributes["a"];
      && !a.isPrivate && a.update == 0 && !a.changed && !a.nodeUnknown && a.timer.NoTimer? && a.values["n"].current.None?
  {
    assert Fold("n") == "n";
    var n1 := CreateAttribute(n, OWN_A, "a").value;
    assert Populate(n, OWN_A, "a", env) == (n1, true);
    var n2 := WithEntry(n1, "a", OWN_A, "n");
    var n3 := TakeValue(n2, "a", OWN_A, "n", true, env);
    assert n3.attributes == n2.attributes && n3.election == n.election;
    assert PeerUpdateOne(n, OWN_A, true, env) == MarkFromPeer(n3, "a", "n");
  }

  lemma OwnSyncCreatesBlank(n: Node, env: Env)
    requires n.self == "n" && n.attributes == map[] && !n.standAlone && IsWriter(n) && !env.active
    ensures var n' := HandleSyncResponse(n, "m", true, OWN_SYNC, env);
      && IsWriter(n') && !n'.standAlone && "a" in n'.attributes && "n" in n'.attributes["a"].values
      && var a := n'.attributes["a"];
      && !a.isPrivate && a.update == 0 && !a.changed && !a.nodeUnknown && a.timer.NoTimer? && a.values["n"].current.None?
  {
    assert Fold("n") == "n" && Fold("m") == "m";
    hide UnseenInOrder, PeerUpdateOne, Fold;
    var n0 := ClearValueSeen(n);
    assert n0.attributes == map[];
    OwnUpdateCreatesBlank(n0, env);
    var child := Element(false, OWN_A, []);
    assert [child][..0] == [];
    assert LoadChildren(n0, [child], env) == PeerUpdate(n0, child, true, env);
  }
}
