/** What becomes of a node's own values when the writer hands over its table: which of them the others learn from all
    that the node sends in answer. */
module Corrections {
  import opened Common
  import opened Model
  import opened Elections
  import opened CibWrites
  import opened Attributes
  import opened Corosync
  import opened Daemon
  import opened Replica
  import opened SyncTransfer
  import Convergence

  // ---- What a node sends while it loads a table ----

  /** A vote, or an update none of whose children is an operation. */
  predicate Empty(out: Outgoing) {
    match out
    case Vote => true
    case Send(_, m, _) => m.attrs.task == Some(Update) && m.children != [] && forall i :: 0 <= i < |m.children| ==> !m.children[i].isOp
    case Protocol(_) => false
  }

  /** The node has sent nothing else. */
  ghost predicate SentEmpty(n: Node, n': Node) {
    && |n.outbox| <= |n'.outbox| && n'.outbox[..|n.outbox|] == n.outbox
    && forall i :: |n.outbox| <= i < |n'.outbox| ==> Empty(n'.outbox[i])
  }

  lemma SentEmptyTwice(n: Node, n1: Node, n2: Node)
    requires SentEmpty(n, n1) && SentEmpty(n1, n2)
    ensures SentEmpty(n, n2)
  {
    hide Empty;
    assert n2.outbox[..|n.outbox|] == n2.outbox[..|n1.outbox|][..|n.outbox|];
    forall i | |n.outbox| <= i < |n2.outbox| ensures Empty(n2.outbox[i]) {
      if i < |n1.outbox| { assert n2.outbox[i] == n2.outbox[..|n1.outbox|][i]; }
    }
  }

  lemma NothingSent(n: Node, n': Node)
    requires n'.outbox == n.outbox
    ensures SentEmpty(n, n')
  {
  }

  lemma WriteSends(n: Node, name: string, ignoreDelay: bool, env: Env)
    ensures WriteAttribute(n, name, ignoreDelay, env).outbox == n.outbox
  {
    hide Snapshot, LearnedIds, SentAttr, SentCalls, MustWait;
  }

  lemma WriteOrElectSends(n: Node, name: string, env: Env)
    ensures SentEmpty(n, WriteOrElect(n, name, env))
  {
    hide WriteAttribute;
    WriteSends(n, name, false, env);
  }

  lemma {:induction false} WriteEachSends(n: Node, names: seq<string>, all: bool, noDelay: bool, env: Env)
    ensures WriteEach(n, names, all, noDelay, env).outbox == n.outbox
  {
    hide WriteAttribute;
    if names != [] {
      var n1, name := WriteEach(n, names[..|names|-1], all, noDelay, env), names[|names|-1];
      WriteEachSends(n, names[..|names|-1], all, noDelay, env);
      if name in n1.attributes {
        var a := n1.attributes[name];
        WriteSends(n1, name, noDelay || a.forceWrite, env);
        WriteSends(SetAttr(n1, name, a.(changed := true)), name, noDelay || a.forceWrite, env);
      }
    }
  }

  lemma DampeningSends(n: Node, op: Op, name: string, env: Env)
    requires name in n.attributes
    ensures SentEmpty(n, UpdateDampening(n, op, name, env).0)
  {
    hide WriteOrElect, SentEmpty;
    NothingSent(n, n);
    match op.delay
    case Some(DelayMs(ms)) =>
      if ms >= 0 {
        var a := n.attributes[name].(timeoutMs := CapMs(ms), timer := if ms > 0 then Idle else NoTimer);
        var n1 := SetAttr(n, name, a);
        NothingSent(n, n1);
        WriteOrElectSends(n1, name, env);
        SentEmptyTwice(n, n1, WriteOrElect(n1, name, env));
      }
    case _ =>
  }

  lemma PopulateSends(n: Node, op: Op, name: string, env: Env)
    ensures SentEmpty(n, Populate(n, op, name, env).0)
  {
    hide UpdateDampening, SentEmpty;
    NothingSent(n, n);
    if name in n.attributes {
      DampeningSends(n, op, name, env);
    } else {
      var made := CreateAttribute(n, op, name);
      if made.Some? {
        NothingSent(n, made.value);
        DampeningSends(made.value, op, name, env);
        SentEmptyTwice(n, made.value, UpdateDampening(made.value, op, name, env).0);
      }
    }
  }

  lemma TakeSends(n: Node, name: string, op: Op, host: string, filter: bool, env: Env)
    requires name in n.attributes && Fold(host) in n.attributes[name].values
    ensures SentEmpty(n, TakeValue(n, name, op, host, filter, env))
  {
    hide WriteOrElect, SentEmpty, Fold, ValueElement;
    var a, h := n.attributes[name], Fold(host);
    NothingSent(n, n);
    NothingSent(n, SetAttr(n, name, a.(forceWrite := true)));
    CorrectionIsEmpty(n, name, a, a.values[h]);
    var a' := SetValue(a, h, a.values[h].(current := op.value, blank := false)).(changed := true);
    NothingSent(n, SetAttr(n, name, a'.(timer := Running)));
    NothingSent(n, SetAttr(n, name, a'));
    WriteOrElectSends(SetAttr(n, name, a'), name, env);
    SentEmptyTwice(n, SetAttr(n, name, a'), WriteOrElect(SetAttr(n, name, a'), name, env));
  }

  lemma CorrectionIsEmpty(n: Node, name: string, a: Attr, v: Value)
    ensures SentEmpty(n, BroadcastValue(n, name, a, v))
  {
    ValueIsNoOp(n, name, a, v);
    hide ValueElement;
  }

  lemma UpdateOnHostSends(n: Node, name: string, op: Op, host: string, filter: bool, env: Env)
    ensures SentEmpty(n, UpdateOnHost(n, name, op, host, filter, env))
  {
    hide TakeValue, Fold, WriteEach, SentEmpty;
    NothingSent(n, n);
    if name in n.attributes {
      var n1 := WithEntry(n, name, op, host);
      NothingSent(n, n1);
      TakeSends(n1, name, op, host, filter, env);
      var n2 := TakeValue(n1, name, op, host, filter, env);
      SentEmptyTwice(n, n1, n2);
      var n3 := MarkFromPeer(n2, name, Fold(host));
      NothingSent(n2, n3);
      SentEmptyTwice(n, n2, n3);
      var previous := Lookup(n.xmlIds, Fold(host));
      LearnSends(n3, Fold(host), OrElse(op.hostId, previous), previous, env);
      NothingSent(n3, LearnXmlId(n3, Fold(host), OrElse(op.hostId, previous), previous, env));
      hide LearnXmlId;
      SentEmptyTwice(n, n3, LearnXmlId(n3, Fold(host), OrElse(op.hostId, previous), previous, env));
    }
  }

  lemma LearnSends(n: Node, h: string, id: Option<string>, previous: Option<string>, env: Env)
    ensures LearnXmlId(n, h, id, previous, env).outbox == n.outbox
  {
    hide WriteEach;
    if id.Some? {
      var n1 := n.(xmlIds := n.xmlIds[h := id.value]);
      WriteEachSends(n1, env.order(n1.attributes.Keys), false, false, env);
    }
  }

  lemma {:induction false} UpdateOnHostsSends(n: Node, name: string, op: Op, hosts: seq<string>, filter: bool, env: Env)
    ensures SentEmpty(n, UpdateOnHosts(n, name, op, hosts, filter, env))
  {
    hide UpdateOnHost, SentEmpty;
    NothingSent(n, n);
    if hosts != [] {
      var n1 := UpdateOnHosts(n, name, op, hosts[..|hosts|-1], filter, env);
      UpdateOnHostsSends(n, name, op, hosts[..|hosts|-1], filter, env);
      UpdateOnHostSends(n1, name, op, hosts[|hosts|-1], filter, env);
      SentEmptyTwice(n, n1, UpdateOnHosts(n, name, op, hosts, filter, env));
    }
  }

  lemma PeerUpdateOneSends(n: Node, op: Op, filter: bool, env: Env)
    ensures SentEmpty(n, PeerUpdateOne(n, op, filter, env))
  {
    hide Populate, UpdateOnHost, UpdateOnHosts, SentEmpty;
    NothingSent(n, n);
    if op.name.Some? {
      var name := op.name.value;
      PopulateSends(n, op, name, env);
      var n1 := Populate(n, op, name, env).0;
      if name in n1.attributes {
        if op.host.Some? {
          UpdateOnHostSends(n1, name, op, op.host.value, filter, env);
          SentEmptyTwice(n, n1, UpdateOnHost(n1, name, op, op.host.value, filter, env));
        } else {
          var hosts := env.order(n1.attributes[name].values.Keys);
          UpdateOnHostsSends(n1, name, op.(hostId := None), hosts, filter, env);
          SentEmptyTwice(n, n1, UpdateOnHosts(n1, name, op.(hostId := None), hosts, filter, env));
        }
      }
    }
  }

  lemma {:induction false} UpdateChildrenSends(n: Node, p: Op, children: seq<Element>, filter: bool, env: Env)
    ensures SentEmpty(n, UpdateChildren(n, p, children, filter, env))
  {
    hide PeerUpdateOne, SentEmpty, Merge;
    NothingSent(n, n);
    if children != [] {
      var front, child := children[..|children|-1], children[|children|-1];
      var n1 := UpdateChildren(n, p, front, filter, env);
      UpdateChildrenSends(n, p, front, filter, env);
      PeerUpdateOneSends(n1, Merge(child.attrs, p), filter, env);
      SentEmptyTwice(n, n1, PeerUpdateOne(n1, Merge(child.attrs, p), filter, env));
    }
  }

  lemma {:induction false} LoadSends(n: Node, children: seq<Element>, env: Env)
    ensures SentEmpty(n, LoadChildren(n, children, env))
  {
    hide PeerUpdateOne, UpdateChildren, SentEmpty;
    NothingSent(n, n);
    if children != [] {
      var n1, e := LoadChildren(n, children[..|children|-1], env), children[|children|-1];
      LoadSends(n, children[..|children|-1], env);
      UpdateChildrenSends(n1, e.attrs, e.children, true, env);
      PeerUpdateOneSends(n1, e.attrs, true, env);
      SentEmptyTwice(n, n1, PeerUpdate(n1, e, true, env));
    }
  }

  // ---- How a peer takes it ----

  /** What a peer does with a message it is sent; how a vote turns out is up to the election. */
  function Hears(q: Node, from: string, out: Outgoing, outcome: VoteOutcome, env: Env): Node {
    match out
    case Vote => Receive(q, from, ElectionMessage(outcome), env)
    case Protocol(_) => q
    case Send(_, m, fromWriter) =>
      if m.attrs.task == Some(SyncResponse) then Receive(q, from, SyncResponseMessage(m, fromWriter), env)
      else Receive(q, from, UpdateMessage(m), env)
  }

  function HearsAll(q: Node, from: string, outs: seq<Outgoing>, outcome: nat -> VoteOutcome, env: nat -> Env): Node {
    if outs == [] then q
    else
      var k := |outs| - 1;
      Hears(HearsAll(q, from, outs[..k], outcome, env), from, outs[k], outcome(k), env(k))
  }

  lemma {:induction false} NoOperations(q: Node, p: Op, children: seq<Element>, filter: bool, env: Env)
    requires forall i :: 0 <= i < |children| ==> !children[i].isOp
    ensures UpdateChildren(q, p, children, filter, env) == q
  {
    if children != [] {
      NoOperations(q, p, children[..|children|-1], filter, env);
    }
  }

  lemma EmptyIsIgnored(q: Node, from: string, out: Outgoing, outcome: VoteOutcome, env: Env)
    requires Empty(out)
    ensures SameView(q, Hears(q, from, out, outcome, env))
  {
    hide HandleElectionOp, TableOf, UpdateChildren;
    match out
    case Vote => Convergence.ElectionOpView(q, from, outcome, env);
    case Send(_, m, _) => NoOperations(q, m.attrs, m.children, false, env);
  }

  lemma {:induction false} EmptyAreIgnored(q: Node, from: string, outs: seq<Outgoing>, outcome: nat -> VoteOutcome, env: nat -> Env)
    requires forall i :: 0 <= i < |outs| ==> Empty(outs[i])
    ensures SameView(q, HearsAll(q, from, outs, outcome, env))
  {
    hide Empty, Hears, TableOf;
    if outs != [] {
      var k := |outs| - 1;
      EmptyAreIgnored(q, from, outs[..k], outcome, env);
      EmptyIsIgnored(HearsAll(q, from, outs[..k], outcome, env), from, outs[k], outcome(k), env(k));
    }
  }

  /** All that a node sends when it handles the writer's table: what no peer takes notice of and, last, what it has of
      its own that the writer's table lacks. */
  lemma AnswerIs(n: Node, peer: string, e: Element, env: Env, told: seq<Element>) returns (before: seq<Outgoing>, won: bool)
    requires var n1 := LoadChildren(ClearValueSeen(CheckForNewWriter(n, peer, true, env)), e.children, env);
      HandleSyncResponse(n, peer, true, e, env).outbox
      == n1.outbox + if told == [] then []
                     else [Send(None, Element(false, NoAttrs.(task := Some(SyncResponse)), told), IsWriter(n1))]
    ensures forall i :: 0 <= i < |before| ==> Empty(before[i])
    ensures |n.outbox| <= |HandleSyncResponse(n, peer, true, e, env).outbox|
    ensures HandleSyncResponse(n, peer, true, e, env).outbox[|n.outbox|..]
         == before + if told == [] then [] else [Send(None, Element(false, NoAttrs.(task := Some(SyncResponse)), told), won)]
  {
    hide LoadChildren, HandleSyncResponse, Empty, ClearValueSeen, CheckForNewWriter;
    var n0 := ClearValueSeen(CheckForNewWriter(n, peer, true, env));
    var n1 := LoadChildren(n0, e.children, env);
    CheckSends(n, peer, env);
    LoadSends(n0, e.children, env);
    SentEmptyTwice(n, n0, n1);
    before := n1.outbox[|n.outbox|..];
    won := IsWriter(n1);
    assert forall i :: 0 <= i < |before| ==> before[i] == n1.outbox[|n.outbox| + i];
    assert HandleSyncResponse(n, peer, true, e, env).outbox[|n.outbox|..]
        == n1.outbox[|n.outbox|..] + HandleSyncResponse(n, peer, true, e, env).outbox[|n1.outbox|..];
  }

  lemma CheckSends(n: Node, peer: string, env: Env)
    ensures SentEmpty(n, ClearValueSeen(CheckForNewWriter(n, peer, true, env)))
  {
    hide Unseen, Fold, SameText;
  }

  lemma {:induction false} NotToldIsKept(t: Table, told: seq<Element>, own: string, name: string, h: string)
    requires forall k :: 0 <= k < |told| ==>
      told[k].children == [] && Acceptable(told[k].attrs) && told[k].attrs.name != Some(name)
    ensures CurrentIn(LoadTable(t, told, own), name, h) == CurrentIn(t, name, h)
  {
    hide UpdateOne, CurrentIn, HeldIn;
    if told != [] {
      var front, last := told[..|told|-1], told[|told|-1];
      NotToldIsKept(t, front, own, name, h);
      ElsewhereKept(LoadTable(t, front, own), last.attrs, own, name, h);
    }
  }

  /** What a peer makes of the message that ends the answer. */
  lemma HearsTold(q: Node, from: string, told: seq<Element>, won: bool, outcome: VoteOutcome, env: Env, name: string)
    requires ValidEnv(env) && Folded(TableOf(q)) && !q.shuttingDown && Fold(q.self) != Fold(from)
    requires forall k :: 0 <= k < |told| ==>
      told[k].children == [] && Acceptable(told[k].attrs) && Fold(told[k].attrs.host.value) == Fold(from)
    requires forall j, k :: 0 <= j < k < |told| ==> told[j].attrs.name != told[k].attrs.name
    ensures var m := Send(None, Element(false, NoAttrs.(task := Some(SyncResponse)), told), won);
      var t, t' := TableOf(q), TableOf(Hears(q, from, m, outcome, env));
      && (forall i :: 0 <= i < |told| && told[i].attrs.name == Some(name) ==>
            SameText(CurrentIn(t', name, Fold(from)), told[i].attrs.value))
      && ((forall i :: 0 <= i < |told| ==> told[i].attrs.name != Some(name)) ==>
            CurrentIn(t', name, Fold(from)) == CurrentIn(t, name, Fold(from)))
  {
    hide HandleSyncResponse, TableOf, CurrentIn, HeldIn, LoadTable, UnseenTable, Folded, Fold;
    var e := Element(false, NoAttrs.(task := Some(SyncResponse)), told);
    SyncResponseView(q, from, won, e, env);
    var t := Receiving(TableOf(q), won);
    UnseenKeepsCurrent(TableOf(q), name, Fold(from));
    forall i | 0 <= i < |told| && told[i].attrs.name == Some(name)
      ensures SameText(CurrentIn(LoadTable(t, told, Fold(q.self)), name, Fold(from)), told[i].attrs.value)
    {
      PeersHoldWhatIsTold(t, told, Fold(q.self), i);
    }
    if forall i :: 0 <= i < |told| ==> told[i].attrs.name != Some(name) {
      NotToldIsKept(t, told, Fold(q.self), name, Fold(from));
    }
  }

  /** End to end: after a node has handled the writer's table, and a peer all that the node has sent in answer, the
      peer has the node's own value of an attribute if and only if the writer's table had no entry for it that the
      node accepts, or the peer had the value before. An entry that differs is not put right. */
  lemma OwnValueIsLearned(n: Node, peer: string, e: Element, env: Env, name: string,
                          q: Node, outcome: nat -> VoteOutcome, env': nat -> Env)
    requires ValidEnv(env) && Folded(TableOf(n)) && Typed(TableOf(n)) && Fold(peer) != Fold(n.self)
    requires HeldIn(TableOf(n), name, Fold(n.self))
    requires (forall k :: ValidEnv(env'(k))) && Folded(TableOf(q)) && !q.shuttingDown && Fold(q.self) != Fold(n.self)
    ensures |n.outbox| <= |HandleSyncResponse(n, peer, true, e, env).outbox|
    ensures var sent := HandleSyncResponse(n, peer, true, e, env).outbox[|n.outbox|..];
      var q' := HearsAll(q, n.self, sent, outcome, env');
      var value := CurrentIn(TableOf(n), name, Fold(n.self));
      SameText(CurrentIn(TableOf(q'), name, Fold(n.self)), value) <==>
        || !Accepted(UnseenTable(TableOf(n)), e.children, Fold(n.self), name, Fold(n.self))
        || SameText(CurrentIn(TableOf(q), name, Fold(n.self)), value)
  {
    hide HandleSyncResponse, LoadTable, LoadChildren, Folded, Typed, Accepted, UnseenTable, TableOf, CurrentIn, HeldIn,
      Hears, Fold, Empty;
    var unseen, told := HandOff(n, peer, e, env);
    var before, won := AnswerIs(n, peer, e, env, told);
    EmptyAreIgnored(q, n.self, before, outcome, env');
    var q1 := HearsAll(q, n.self, before, outcome, env');
    if told == [] {
      assert before + [] == before;
      assert name !in unseen;
    } else {
      var last := Send(None, Element(false, NoAttrs.(task := Some(SyncResponse)), told), won);
      assert (before + [last])[..|before|] == before;
      HearsTold(q1, n.self, told, won, outcome(|before|), env'(|before|), name);
      if name in unseen {
        var i :| 0 <= i < |unseen| && unseen[i] == name;
        assert told[i].attrs.name == Some(name);
      } else {
        assert forall i :: 0 <= i < |told| ==> told[i].attrs.name == Some(unseen[i]) && unseen[i] in unseen;
      }
    }
  }

  // ---- The writer itself ----

  predicate Tells(e: Element, name: string, h: string) {
    e.attrs.name == Some(name) && e.attrs.host.Some? && Fold(e.attrs.host.value) == h
  }

  /** A childless description of a value, with an acceptable delay. */
  predicate Plain(e: Element) {
    e.children == [] && Both(e.attrs) && ValidDelay(e.attrs) && e.attrs.host.Some?
  }

  ghost predicate SomeTells(es: seq<Element>, name: string, h: string) {
    exists i :: 0 <= i < |es| && Tells(es[i], name, h)
  }

  ghost predicate AllPlain(es: seq<Element>) {
    forall i :: 0 <= i < |es| ==> Plain(es[i])
  }

  lemma Join(es: seq<Element>, vs: seq<Element>, name: string, h: string)
    ensures SomeTells(es + vs, name, h) <==> SomeTells(es, name, h) || SomeTells(vs, name, h)
    ensures AllPlain(es) && AllPlain(vs) ==> AllPlain(es + vs)
  {
    hide Tells, Plain;
    if i :| 0 <= i < |es| && Tells(es[i], name, h) { assert Tells((es + vs)[i], name, h); }
    if i :| 0 <= i < |vs| && Tells(vs[i], name, h) { assert Tells((es + vs)[|es| + i], name, h); }
  }

  lemma OneTells(w: Node, name: string, a: Attr, v: Value, other: string, h: string)
    ensures SomeTells([ValueElement(w, name, a, v, false)], other, h) <==> other == name && Fold(v.nodename) == h
    ensures AllPlain([ValueElement(w, name, a, v, false)])
  {
    hide Fold;
    var e := ValueElement(w, name, a, v, false);
    assert Plain(e) && (Tells(e, other, h) <==> other == name && Fold(v.nodename) == h);
    hide ValueElement, Tells, Plain;
    assert [e][0] == e;
  }

  lemma {:induction false} ValuesTell(w: Node, name: string, hosts: seq<string>, other: string, h: string)
    requires name in w.attributes
    requires forall g :: g in w.attributes[name].values ==> Fold(w.attributes[name].values[g].nodename) == g
    ensures var es := ValuesInOrder(w, name, w.attributes[name], hosts);
      && (SomeTells(es, other, h) <==> other == name && h in hosts && h in w.attributes[name].values)
      && AllPlain(es)
  {
    hide Fold, ValueElement, Tells, Plain;
    if hosts != [] {
      var front, g := hosts[..|hosts|-1], hosts[|hosts|-1];
      ValuesTell(w, name, front, other, h);
      assert hosts == front + [g];
      var a := w.attributes[name];
      var es := ValuesInOrder(w, name, a, front);
      if g in a.values {
        OneTells(w, name, a, a.values[g], other, h);
        Join(es, [ValueElement(w, name, a, a.values[g], false)], other, h);
      } else {
        assert es + [] == es;
      }
      hide SomeTells, AllPlain;
    }
  }

  lemma {:induction false} TableTells(w: Node, names: seq<string>, env: Env, name: string, h: string)
    requires ValidEnv(env) && Folded(TableOf(w))
    ensures var es := TableInOrder(w, names, env);
      && (SomeTells(es, name, h) <==> name in names && name in w.attributes && h in w.attributes[name].values)
      && AllPlain(es)
  {
    if names == [] {
      assert TableInOrder(w, names, env) == [];
    } else {
      hide ValuesInOrder, SomeTells, AllPlain, Folded;
      var front, last := names[..|names|-1], names[|names|-1];
      TableTells(w, front, env, name, h);
      assert names == front + [last];
      var es := TableInOrder(w, front, env);
      if last in w.attributes {
        NodenamesFolded(w, last);
        var hosts := env.order(w.attributes[last].values.Keys);
        assert Enumerates(hosts, w.attributes[last].values.Keys);
        ValuesTell(w, last, hosts, name, h);
        Join(es, ValuesInOrder(w, last, w.attributes[last], hosts), name, h);
      } else {
        assert es + [] == es;
      }
    }
  }

  /** What a node holds for itself, it accepts to be told. */
  lemma AcceptedIffTold(t: Table, children: seq<Element>, own: string, name: string)
    requires HeldIn(t, name, own) && AllPlain(children)
    ensures Accepted(t, children, own, name, own) <==> SomeTells(children, name, own)
  {
    hide LoadTable, Fold, ElementMarks, Tells, HeldIn, Plain;
    forall i | 0 <= i < |children|
      ensures ElementMarks(LoadTable(t, children[..i], own), children[i], Some(own), name, own) <==> Tells(children[i], name, own)
    {
      OwnKeptByLoad(t, children[..i], own, name);
      MarksIffTold(LoadTable(t, children[..i], own), children[i], own, name);
    }
  }

  lemma MarksIffTold(t: Table, e: Element, own: string, name: string)
    requires HeldIn(t, name, own) && Plain(e)
    ensures ElementMarks(t, e, Some(own), name, own) <==> Tells(e, name, own)
  {
    hide Fold, Delayed;
  }

  /** So the writer that has sent its table learns a node's own value if and only if it had no entry for it, or the
      same value. What it has wrong, it keeps. */
  lemma WriterLearnsIff(w: Node, n: Node, env0: Env, env: Env, name: string, outcome: nat -> VoteOutcome, env': nat -> Env)
    requires ValidEnv(env0) && ValidEnv(env) && Folded(TableOf(n)) && Typed(TableOf(n)) && Fold(w.self) != Fold(n.self)
    requires HeldIn(TableOf(n), name, Fold(n.self))
    requires (forall k :: ValidEnv(env'(k))) && Folded(TableOf(w)) && !w.shuttingDown
    ensures var n' := HandleSyncResponse(n, w.self, true, SyncMessage(w, env0), env);
      && |n.outbox| <= |n'.outbox|
      && var w' := HearsAll(w, n.self, n'.outbox[|n.outbox|..], outcome, env');
      var value := CurrentIn(TableOf(n), name, Fold(n.self));
      SameText(CurrentIn(TableOf(w'), name, Fold(n.self)), value) <==>
        !HeldIn(TableOf(w), name, Fold(n.self)) || SameText(CurrentIn(TableOf(w), name, Fold(n.self)), value)
  {
    hide HandleSyncResponse, Folded, Typed, Accepted, TableOf, CurrentIn, HeldIn, HearsAll, Fold, TableInOrder,
      SomeTells, AllPlain, UnseenTable;
    var e := SyncMessage(w, env0);
    OwnValueIsLearned(n, w.self, e, env, name, w, outcome, env');
    var names := env0.order(w.attributes.Keys);
    assert Enumerates(names, w.attributes.Keys);
    TableTells(w, names, env0, name, Fold(n.self));
    HeldIs(w, name, Fold(n.self));
    StillHeld(TableOf(n), name, Fold(n.self));
    AcceptedIffTold(UnseenTable(TableOf(n)), e.children, Fold(n.self), name);
  }

  lemma HeldIs(w: Node, name: string, h: string)
    ensures HeldIn(TableOf(w), name, h) <==> name in w.attributes && h in w.attributes[name].values
  {
  }

  lemma StillHeld(t: Table, name: string, h: string)
    requires HeldIn(t, name, h)
    ensures HeldIn(UnseenTable(t), name, h)
  {
  }

  // ---- The correction ----

  /** When a sync response gives a node's own value differently, the node keeps its value and broadcasts it: an update
      with one child, which names the attribute, the value and the node. */
  lemma CorrectionIsSent(n: Node, name: string, op: Op, host: string, env: Env)
    requires name in n.attributes && Fold(host) == Fold(n.self) && !SameText(CurrentIn(TableOf(n), name, Fold(host)), op.value)
    ensures var out := UpdateOnHost(n, name, op, host, true, env).outbox;
      && |out| == |n.outbox| + 1 && out[..|n.outbox|] == n.outbox && out[|n.outbox|].Send? && out[|n.outbox|].to.None?
      && var m := out[|n.outbox|].message;
      && m.attrs == NoAttrs.(task := Some(Update)) && |m.children| == 1
      && m.children[0].attrs.name == Some(name) && m.children[0].attrs.value == CurrentIn(TableOf(n), name, Fold(host))
      && m.children[0].attrs.host.Some?
      && m.children[0].attrs.host.value == (if HeldIn(TableOf(n), name, Fold(host)) then TableOf(n)[name].values[Fold(host)].nodename else host)
  {
    hide Fold, ChangeValue, Ms2S, TakeValue, BroadcastValue, LearnXmlId;
    var h := Fold(host);
    var a := n.attributes[name];
    var n1 := WithEntry(n, name, op, host);
    assert TableOf(n)[name] == RowOf(a);
    var v := n1.attributes[name].values[h];
    assert v.current == CurrentIn(TableOf(n), name, h);
    assert v.nodename == if h in a.values then a.values[h].nodename else host;
    ConflictIsBroadcast(n1, name, op, host, env);
    BroadcastIs(n1, name, n1.attributes[name], v);
    var n2 := MarkFromPeer(TakeValue(n1, name, op, host, true, env), name, h);
    LearnSends(n2, h, OrElse(op.hostId, Lookup(n.xmlIds, h)), Lookup(n.xmlIds, h), env);
  }

  lemma ConflictIsBroadcast(n: Node, name: string, op: Op, host: string, env: Env)
    requires name in n.attributes && Fold(host) == Fold(n.self) && Fold(host) in n.attributes[name].values
    requires !SameText(n.attributes[name].values[Fold(host)].current, op.value)
    ensures var a := n.attributes[name];
      TakeValue(n, name, op, host, true, env) == BroadcastValue(n, name, a, a.values[Fold(host)])
  {
    hide Fold, ChangeValue, BroadcastValue;
  }

  lemma BroadcastIs(n: Node, name: string, a: Attr, v: Value)
    ensures var out := BroadcastValue(n, name, a, v).outbox;
      && |out| == |n.outbox| + 1 && out[..|n.outbox|] == n.outbox && out[|n.outbox|].Send? && out[|n.outbox|].to.None?
      && var m := out[|n.outbox|].message;
      && m.attrs == NoAttrs.(task := Some(Update)) && |m.children| == 1
      && m.children[0].attrs.name == Some(name) && m.children[0].attrs.value == v.current && m.children[0].attrs.host == Some(v.nodename)
  {
    hide Ms2S;
  }

  /** Only the writer is told of values it did not mention: to the sync response of any other node, all that a node
      sends in answer are corrections and votes. */
  lemma OthersAreNotAnswered(s: System, from: string, e: Element, env: Env)
    ensures SentEmpty(s.node, Next(s, Deliver(from, SyncResponseMessage(e, false)), env).node)
  {
    hide LoadChildren, SentEmpty;
    NothingSent(s.node, s.node);
    LoadSends(s.node, e.children, env);
  }
}
