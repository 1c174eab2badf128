/** Handing the attribute table over to a peer: sync responses, the priority of local values, and the
    rebroadcast of values the writer did not know. */
module SyncTransfer {
  import opened Common
  import opened Model
  import opened Elections
  import opened CibWrites
  import opened Attributes
  import opened Corosync
  import opened Replica

  // ---- Own values win ----

  /** A table's value for an attribute on a host; an absent entry counts as unset. */
  function CurrentIn(t: Table, name: string, h: string): Option<string> {
    if name in t && h in t[name].values then t[name].values[h].current else None
  }

  predicate HeldIn(t: Table, name: string, h: string) {
    name in t && h in t[name].values
  }

  /** No update changes what a node holds for itself while its own values take priority. */
  lemma OwnKeptByUpdate(t: Table, op: Op, own: string, name: string)
    ensures CurrentIn(UpdateOne(t, op, Some(own)), name, own) == CurrentIn(t, name, own)
    ensures HeldIn(t, name, own) ==> HeldIn(UpdateOne(t, op, Some(own)), name, own)
  {
  }

  lemma {:induction false} OwnKeptByEach(t: Table, parent: Op, children: seq<Element>, own: string, name: string)
    ensures CurrentIn(UpdateEach(t, parent, children, Some(own)), name, own) == CurrentIn(t, name, own)
    ensures HeldIn(t, name, own) ==> HeldIn(UpdateEach(t, parent, children, Some(own)), name, own)
  {
    hide UpdateOne;
    if children != [] {
      OwnKeptByEach(t, parent, children[..|children|-1], own, name);
      OwnKeptByUpdate(UpdateEach(t, parent, children[..|children|-1], Some(own)),
                      Merge(children[|children|-1].attrs, parent), own, name);
    }
  }

  lemma {:induction false} OwnKeptByLoad(t: Table, children: seq<Element>, own: string, name: string)
    ensures CurrentIn(LoadTable(t, children, own), name, own) == CurrentIn(t, name, own)
    ensures HeldIn(t, name, own) ==> HeldIn(LoadTable(t, children, own), name, own)
  {
    hide UpdateOne, UpdateEach;
    if children != [] {
      var front, e := children[..|children|-1], children[|children|-1];
      OwnKeptByLoad(t, front, own, name);
      OwnKeptByEach(LoadTable(t, front, own), e.attrs, e.children, own, name);
      OwnKeptByUpdate(LoadTable(t, front, own), e.attrs, own, name);
    }
  }

  function UnseenRow(r: Row): Row {
    r.(values := map h | h in r.values :: r.values[h].(seen := false))
  }

  function UnseenTable(t: Table): Table {
    map name | name in t :: UnseenRow(t[name])
  }

  lemma UnseenRowView(a: Attr)
    ensures RowOf(Unseen(a)) == UnseenRow(RowOf(a))
  {
    assert RowOf(Unseen(a)).values == UnseenRow(RowOf(a)).values;
  }

  lemma UnseenFolded(t: Table)
    requires Folded(t)
    ensures Folded(UnseenTable(t))
  {
  }

  lemma UnseenView(n: Node, n': Node)
    requires n'.attributes.Keys == n.attributes.Keys
    requires forall name :: name in n.attributes ==> n'.attributes[name] == Unseen(n.attributes[name])
    ensures TableOf(n') == UnseenTable(TableOf(n))
  {
    hide RowOf, Unseen, UnseenRow;
    forall name | name in n.attributes ensures TableOf(n')[name] == UnseenTable(TableOf(n))[name] {
      UnseenRowView(n.attributes[name]);
    }
  }

  lemma ClearSeenView(n: Node)
    requires Folded(TableOf(n))
    ensures Views(n, ClearValueSeen(n), UnseenTable(TableOf(n))) && Folded(UnseenTable(TableOf(n)))
  {
    hide Folded, TableOf, Unseen, UnseenTable;
    UnseenFolded(TableOf(n));
    UnseenView(n, ClearValueSeen(n));
  }

  /** The table a sync response is loaded into. */
  function Receiving(t: Table, peerWon: bool): Table {
    if peerWon then UnseenTable(t) else t
  }

  lemma SyncResponseView(n: Node, peer: string, peerWon: bool, e: Element, env: Env)
    requires ValidEnv(env) && Folded(TableOf(n)) && Fold(peer) != Fold(n.self)
    ensures Views(n, HandleSyncResponse(n, peer, peerWon, e, env),
                  LoadTable(Receiving(TableOf(n), peerWon), e.children, Fold(n.self)))
    ensures Folded(LoadTable(Receiving(TableOf(n), peerWon), e.children, Fold(n.self)))
  {
    hide ClearValueSeen, LoadChildren, LoadTable, UnseenTable, Folded, UnseenInOrder;
    var n1 := CheckForNewWriter(n, peer, peerWon, env);
    assert TableOf(n1) == TableOf(n);
    ClearSeenView(n1);
    var n2 := if peerWon then ClearValueSeen(n1) else n1;
    LoadView(n2, e.children, env);
    assert TableOf(BroadcastUnseen(LoadChildren(n2, e.children, env), env)) == TableOf(LoadChildren(n2, e.children, env));
  }

  /** Own values win: no sync response, with any children whatever, changes the current value of any
      attribute this node holds for itself. */
  lemma OwnValuesWin(n: Node, peer: string, peerWon: bool, e: Element, env: Env, name: string)
    requires ValidEnv(env) && Folded(TableOf(n))
    ensures var t, t' := TableOf(n), TableOf(HandleSyncResponse(n, peer, peerWon, e, env));
      && CurrentIn(t', name, Fold(n.self)) == CurrentIn(t, name, Fold(n.self))
      && (HeldIn(t, name, Fold(n.self)) ==> HeldIn(t', name, Fold(n.self)))
  {
    hide HandleSyncResponse, LoadTable, Folded;
    if Fold(peer) != Fold(n.self) {
      SyncResponseView(n, peer, peerWon, e, env);
      OwnKeptByLoad(Receiving(TableOf(n), peerWon), e.children, Fold(n.self), name);
    } else {
      assert TableOf(HandleSyncResponse(n, peer, peerWon, e, env)) == TableOf(n) by { OwnSyncIgnored(n, peer, peerWon, e, env); }
    }
  }

  lemma OwnSyncIgnored(n: Node, peer: string, peerWon: bool, e: Element, env: Env)
    requires Fold(peer) == Fold(n.self)
    ensures var n' := HandleSyncResponse(n, peer, peerWon, e, env);
      n'.attributes == n.attributes && n'.self == n.self && n'.shuttingDown == n.shuttingDown
  {
  }

  // ---- What is rebroadcast after a hand-over ----

  /** An update gives (or confirms) a value of the attribute on the host. */
  predicate Marks(t: Table, op: Op, name: string, h: string) {
    && op.name == Some(name) && FindRow(t, op, name).1
    && (if op.host.Some? then Fold(op.host.value) == h
        else FindRow(t, op, name).0.Some? && h in FindRow(t, op, name).0.value.values)
  }

  predicate SeenIn(t: Table, name: string, h: string) {
    name in t && h in t[name].values && t[name].values[h].seen
  }

  lemma SeenAfterUpdate(t: Table, op: Op, own: Option<string>, name: string, h: string)
    ensures SeenIn(UpdateOne(t, op, own), name, h) == (SeenIn(t, name, h) || Marks(t, op, name, h))
  {
  }

  /** Some operation among the children, or the childless element itself, marks the value. */
  ghost predicate ElementMarks(t: Table, e: Element, own: Option<string>, name: string, h: string) {
    if e.children == [] then Marks(t, e.attrs, name, h)
    else exists i :: 0 <= i < |e.children| && e.children[i].isOp
                     && Marks(UpdateEach(t, e.attrs, e.children[..i], own), Merge(e.children[i].attrs, e.attrs), name, h)
  }

  lemma {:induction false} SeenAfterEach(t: Table, parent: Op, children: seq<Element>, own: Option<string>, name: string, h: string)
    ensures SeenIn(UpdateEach(t, parent, children, own), name, h) <==>
      SeenIn(t, name, h)
      || exists i :: 0 <= i < |children| && children[i].isOp
                     && Marks(UpdateEach(t, parent, children[..i], own), Merge(children[i].attrs, parent), name, h)
  {
    hide UpdateOne, Marks, SeenIn;
    if children != [] {
      var front, k := children[..|children|-1], |children|-1;
      SeenAfterEach(t, parent, front, own, name, h);
      SeenAfterUpdate(UpdateEach(t, parent, front, own), Merge(children[k].attrs, parent), own, name, h);
      assert forall i :: 0 <= i < k ==> front[..i] == children[..i] && front[i] == children[i];
      assert children[..k] == front;
    }
  }

  lemma SeenAfterElement(t: Table, e: Element, own: Option<string>, name: string, h: string)
    ensures SeenIn(UpdateTable(t, e, own), name, h) == (SeenIn(t, name, h) || ElementMarks(t, e, own, name, h))
  {
    hide UpdateOne, UpdateEach, Marks, SeenIn;
    SeenAfterEach(t, e.attrs, e.children, own, name, h);
    SeenAfterUpdate(t, e.attrs, own, name, h);
  }

  /** The response has an accepted entry for the attribute on the host. */
  ghost predicate Accepted(t: Table, children: seq<Element>, own: string, name: string, h: string) {
    exists i :: 0 <= i < |children| && ElementMarks(LoadTable(t, children[..i], own), children[i], Some(own), name, h)
  }

  lemma AcceptedInSteps(t: Table, children: seq<Element>, own: string, name: string, h: string)
    requires children != []
    ensures var front, k := children[..|children|-1], |children|-1;
      Accepted(t, children, own, name, h)
      == (Accepted(t, front, own, name, h) || ElementMarks(LoadTable(t, front, own), children[k], Some(own), name, h))
  {
    hide ElementMarks, LoadTable;
    var front, k := children[..|children|-1], |children|-1;
    assert forall i :: 0 <= i < k ==> front[..i] == children[..i] && front[i] == children[i];
    assert children[..k] == front;
  }

  lemma {:induction false} SeenAfterLoad(t: Table, children: seq<Element>, own: string, name: string, h: string)
    ensures SeenIn(LoadTable(t, children, own), name, h) == (SeenIn(t, name, h) || Accepted(t, children, own, name, h))
  {
    hide UpdateTable, ElementMarks, SeenIn;
    if children != [] {
      hide Accepted;
      SeenAfterLoad(t, children[..|children|-1], own, name, h);
      SeenAfterElement(LoadTable(t, children[..|children|-1], own), children[|children|-1], Some(own), name, h);
      AcceptedInSteps(t, children, own, name, h);
    }
  }

  // ---- The rebroadcast itself ----

  lemma {:induction false} UnseenOfOwn(n: Node, name: string, a: Attr, hosts: seq<string>)
    requires forall h :: h in a.values ==> Fold(a.values[h].nodename) == h
    requires forall i, j :: 0 <= i < j < |hosts| ==> hosts[i] != hosts[j]
    ensures UnseenOf(n, name, a, hosts)
         == if Fold(n.self) in hosts && Fold(n.self) in a.values && !a.values[Fold(n.self)].fromPeer
            then [ValueElement(n, name, a, a.values[Fold(n.self)], a.timeoutMs != 0 && a.timer != NoTimer)]
            else []
  {
    hide ValueElement;
    if hosts != [] {
      UnseenOfOwn(n, name, a, hosts[..|hosts|-1]);
    }
  }

  /** The node's own value of the attribute, unless a peer is known to have it. */
  ghost predicate OwnUnseen(n: Node, name: string) {
    && name in n.attributes && Fold(n.self) in n.attributes[name].values
    && !n.attributes[name].values[Fold(n.self)].fromPeer
  }

  function OwnElement(n: Node, name: string): Element
    requires name in n.attributes && Fold(n.self) in n.attributes[name].values
  {
    var a := n.attributes[name];
    ValueElement(n, name, a, a.values[Fold(n.self)], a.timeoutMs != 0 && a.timer != NoTimer)
  }

  lemma NodenamesFolded(n: Node, name: string)
    requires Folded(TableOf(n)) && name in n.attributes
    ensures forall h :: h in n.attributes[name].values ==> Fold(n.attributes[name].values[h].nodename) == h && Fold(h) == h
  {
    var a := n.attributes[name];
    forall h | h in a.values ensures Fold(a.values[h].nodename) == h && Fold(h) == h {
      assert TableOf(n)[name].values[h] == EntryOf(a.values[h]);
    }
  }

  lemma UnseenOfAttr(n: Node, name: string, env: Env)
    requires ValidEnv(env) && Folded(TableOf(n)) && name in n.attributes
    ensures UnseenOf(n, name, n.attributes[name], env.order(n.attributes[name].values.Keys))
         == if OwnUnseen(n, name) then [OwnElement(n, name)] else []
  {
    var a := n.attributes[name];
    var hosts := env.order(a.values.Keys);
    assert Enumerates(hosts, a.values.Keys);
    NodenamesFolded(n, name);
    UnseenOfOwn(n, name, a, hosts);
  }

  /** The rebroadcast lists, once each, exactly the node's own values that were not seen from a peer. */
  lemma {:induction false} UnseenExactly(n: Node, names: seq<string>, env: Env) returns (unseen: seq<string>)
    requires ValidEnv(env) && Folded(TableOf(n))
    requires forall i :: 0 <= i < |names| ==> names[i] in n.attributes
    requires forall i, j :: 0 <= i < j < |names| ==> names[i] != names[j]
    ensures forall name :: name in unseen <==> name in names && OwnUnseen(n, name)
    ensures forall i, j :: 0 <= i < j < |unseen| ==> unseen[i] != unseen[j]
    ensures |UnseenInOrder(n, names, env)| == |unseen|
    ensures forall i :: 0 <= i < |unseen| ==>
      OwnUnseen(n, unseen[i]) && UnseenInOrder(n, names, env)[i] == OwnElement(n, unseen[i])
  {
    hide UnseenOf, Folded, OwnElement;
    if names == [] {
      unseen := [];
    } else {
      var front, last := names[..|names|-1], names[|names|-1];
      var before := UnseenExactly(n, front, env);
      UnseenOfAttr(n, last, env);
      unseen := before + if OwnUnseen(n, last) then [last] else [];
      assert forall name :: name in names <==> name in front || name == last;
    }
  }

  // ---- Hand-off ----

  lemma NewIsSeen(t: Table, op: Op, own: Option<string>, name: string, h: string)
    ensures HeldIn(UpdateOne(t, op, own), name, h) ==> HeldIn(t, name, h) || SeenIn(UpdateOne(t, op, own), name, h)
    ensures HeldIn(t, name, h) ==> HeldIn(UpdateOne(t, op, own), name, h)
    ensures SeenIn(t, name, h) ==> SeenIn(UpdateOne(t, op, own), name, h)
  {
  }

  lemma {:induction false} NewIsSeenEach(t: Table, parent: Op, children: seq<Element>, own: Option<string>, name: string, h: string)
    ensures var t' := UpdateEach(t, parent, children, own);
      && (HeldIn(t', name, h) ==> HeldIn(t, name, h) || SeenIn(t', name, h))
      && (SeenIn(t, name, h) ==> SeenIn(t', name, h))
  {
    hide UpdateOne, HeldIn, SeenIn;
    if children != [] {
      NewIsSeenEach(t, parent, children[..|children|-1], own, name, h);
      NewIsSeen(UpdateEach(t, parent, children[..|children|-1], own), Merge(children[|children|-1].attrs, parent), own, name, h);
    }
  }

  lemma {:induction false} NewIsSeenLoad(t: Table, children: seq<Element>, own: string, name: string, h: string)
    ensures var t' := LoadTable(t, children, own);
      && (HeldIn(t', name, h) ==> HeldIn(t, name, h) || SeenIn(t', name, h))
      && (SeenIn(t, name, h) ==> SeenIn(t', name, h))
  {
    hide UpdateOne, UpdateEach, HeldIn, SeenIn;
    if children != [] {
      var front, e := children[..|children|-1], children[|children|-1];
      NewIsSeenLoad(t, front, own, name, h);
      NewIsSeenEach(LoadTable(t, front, own), e.attrs, e.children, Some(own), name, h);
      NewIsSeen(LoadTable(t, front, own), e.attrs, Some(own), name, h);
    }
  }

  lemma OwnUnseenInTable(n: Node, name: string)
    ensures OwnUnseen(n, name) == (HeldIn(TableOf(n), name, Fold(n.self)) && !SeenIn(TableOf(n), name, Fold(n.self)))
  {
    if name in n.attributes && Fold(n.self) in n.attributes[name].values {
      assert TableOf(n)[name].values[Fold(n.self)] == EntryOf(n.attributes[name].values[Fold(n.self)]);
    }
  }

  /** The values that are broadcast, given the table the writer's response was loaded into. */
  lemma UnseenAfterLoad(t: Table, children: seq<Element>, own: string, name: string)
    ensures var t' := LoadTable(UnseenTable(t), children, own);
      (HeldIn(t', name, own) && !SeenIn(t', name, own))
      == (HeldIn(t, name, own) && !Accepted(UnseenTable(t), children, own, name, own))
  {
    hide LoadTable, Accepted;
    SeenAfterLoad(UnseenTable(t), children, own, name, own);
    NewIsSeenLoad(UnseenTable(t), children, own, name, own);
    OwnKeptByLoad(UnseenTable(t), children, own, name);
    assert HeldIn(UnseenTable(t), name, own) == HeldIn(t, name, own) && !SeenIn(UnseenTable(t), name, own);
  }

  /** Attributes that belong in the CIB have a set type that can be written there. */
  ghost predicate Typed(t: Table) {
    forall name :: name in t ==> t[name].isPrivate || ValidSetType(t[name].setType)
  }

  lemma TypedUpdate(t: Table, op: Op, own: Option<string>)
    requires Typed(t)
    ensures Typed(UpdateOne(t, op, own))
  {
  }

  lemma {:induction false} TypedEach(t: Table, parent: Op, children: seq<Element>, own: Option<string>)
    requires Typed(t)
    ensures Typed(UpdateEach(t, parent, children, own))
  {
    hide UpdateOne, Typed;
    if children != [] {
      TypedEach(t, parent, children[..|children|-1], own);
      TypedUpdate(UpdateEach(t, parent, children[..|children|-1], own), Merge(children[|children|-1].attrs, parent), own);
    }
  }

  lemma {:induction false} TypedLoad(t: Table, children: seq<Element>, own: string)
    requires Typed(t)
    ensures Typed(LoadTable(t, children, own))
  {
    hide UpdateOne, UpdateEach, Typed;
    if children != [] {
      var front, e := children[..|children|-1], children[|children|-1];
      TypedLoad(t, front, own);
      TypedEach(LoadTable(t, front, own), e.attrs, e.children, Some(own));
      TypedUpdate(LoadTable(t, front, own), e.attrs, Some(own));
    }
  }

  /** An update that any node accepts for the host it names. */
  predicate Acceptable(op: Op) {
    && op.task.None? && op.name.Some? && op.host.Some? && ValidDelay(op)
    && (IsSet(op.isPrivate) || (op.setType.Some? && ValidSetType(op.setType.value)))
  }

  /** Sync hand-off: having loaded the writer's response, a node rebroadcasts exactly those of its own
      values for which the response had no accepted entry, each once and with the value it had before. */
  lemma HandOff(n: Node, peer: string, e: Element, env: Env) returns (unseen: seq<string>, told: seq<Element>)
    requires ValidEnv(env) && Folded(TableOf(n)) && Typed(TableOf(n)) && Fold(peer) != Fold(n.self)
    ensures forall name :: name in unseen <==>
      && HeldIn(TableOf(n), name, Fold(n.self))
      && !Accepted(UnseenTable(TableOf(n)), e.children, Fold(n.self), name, Fold(n.self))
    ensures forall i, j :: 0 <= i < j < |unseen| ==> unseen[i] != unseen[j]
    ensures |told| == |unseen| && forall i :: 0 <= i < |unseen| ==>
      && told[i].children == [] && Acceptable(told[i].attrs) && told[i].attrs.name == Some(unseen[i])
      && told[i].attrs.value == CurrentIn(TableOf(n), unseen[i], Fold(n.self))
      && Fold(told[i].attrs.host.value) == Fold(n.self)
    ensures var n1 := LoadChildren(ClearValueSeen(CheckForNewWriter(n, peer, true, env)), e.children, env);
      forall i :: 0 <= i < |unseen| ==>
        && unseen[i] in n1.attributes
        && told[i].attrs.forceWrite == Some(n1.attributes[unseen[i]].timeoutMs != 0 && n1.attributes[unseen[i]].timer != NoTimer)
        && told[i].attrs.hostId == Lookup(n1.xmlIds, Fold(n.self))
    ensures var n1 := LoadChildren(ClearValueSeen(CheckForNewWriter(n, peer, true, env)), e.children, env);
      HandleSyncResponse(n, peer, true, e, env).outbox
      == n1.outbox + if told == [] then []
                     else [Send(None, Element(false, NoAttrs.(task := Some(SyncResponse)), told), IsWriter(n1))]
  {
    hide LoadChildren, LoadTable, Folded, Typed, Accepted, UnseenTable, ClearValueSeen, CheckForNewWriter;
    var own := Fold(n.self);
    var n0 := CheckForNewWriter(n, peer, true, env);
    assert n0.attributes == n.attributes && n0.self == n.self by { CheckKeepsTable(n, peer, env); }
    assert TableOf(n0) == TableOf(n);
    ClearSeenView(n0);
    var n1 := LoadChildren(ClearValueSeen(n0), e.children, env);
    LoadView(ClearValueSeen(n0), e.children, env);
    assert Typed(UnseenTable(TableOf(n))) by { TypedUnseen(TableOf(n)); }
    TypedLoad(UnseenTable(TableOf(n)), e.children, own);
    var names := env.order(n1.attributes.Keys);
    assert Enumerates(names, n1.attributes.Keys);
    assert forall i :: 0 <= i < |names| ==> names[i] in names;
    unseen := UnseenExactly(n1, names, env);
    told := UnseenInOrder(n1, names, env);
    forall name ensures name in unseen <==> HeldIn(TableOf(n), name, own) && !Accepted(UnseenTable(TableOf(n)), e.children, own, name, own) {
      OwnUnseenInTable(n1, name);
      UnseenAfterLoad(TableOf(n), e.children, own, name);
    }
    forall i | 0 <= i < |unseen|
      ensures Acceptable(told[i].attrs)
      ensures told[i].attrs.value == CurrentIn(TableOf(n), unseen[i], own) && Fold(told[i].attrs.host.value) == own
      ensures unseen[i] in n1.attributes && told[i].attrs.hostId == Lookup(n1.xmlIds, own)
      ensures told[i].attrs.forceWrite == Some(n1.attributes[unseen[i]].timeoutMs != 0 && n1.attributes[unseen[i]].timer != NoTimer)
    {
      OwnValueTold(n1, unseen[i]);
      OwnKeptByLoad(UnseenTable(TableOf(n)), e.children, own, unseen[i]);
      UnseenKeepsCurrent(TableOf(n), unseen[i], own);
    }
  }

  lemma UnseenKeepsCurrent(t: Table, name: string, h: string)
    ensures CurrentIn(UnseenTable(t), name, h) == CurrentIn(t, name, h)
  {
  }

  lemma OwnValueTold(n: Node, name: string)
    requires OwnUnseen(n, name) && Folded(TableOf(n)) && Typed(TableOf(n))
    ensures var op := OwnElement(n, name).attrs;
      && Acceptable(op)
      && op.value == CurrentIn(TableOf(n), name, Fold(n.self)) && Fold(op.host.value) == Fold(n.self)
  {
    assert TableOf(n)[name] == RowOf(n.attributes[name]);
    NodenamesFolded(n, name);
    assert TableOf(n)[name].values[Fold(n.self)] == EntryOf(n.attributes[name].values[Fold(n.self)]);
  }

  lemma CheckKeepsTable(n: Node, peer: string, env: Env)
    ensures var n0 := CheckForNewWriter(n, peer, true, env); n0.attributes == n.attributes && n0.self == n.self
  {
  }

  lemma TypedUnseen(t: Table)
    requires Typed(t)
    ensures Typed(UnseenTable(t))
  {
  }

  // ---- The rebroadcast reaches the peers ----

  lemma AcceptedIsHeld(t: Table, op: Op, own: string)
    requires Acceptable(op) && Fold(op.host.value) != own
    ensures var t' := UpdateOne(t, op, Some(own));
      HeldIn(t', op.name.value, Fold(op.host.value)) && SameText(CurrentIn(t', op.name.value, Fold(op.host.value)), op.value)
  {
  }

  lemma ElsewhereKept(t: Table, op: Op, own: string, name: string, h: string)
    requires Acceptable(op) && (op.name.value != name || Fold(op.host.value) != h)
    ensures var t' := UpdateOne(t, op, Some(own));
      HeldIn(t', name, h) == HeldIn(t, name, h) && CurrentIn(t', name, h) == CurrentIn(t, name, h)
  {
  }

  /** Once the rebroadcast is loaded by any other node, that node holds every value it carries. */
  lemma {:induction false} PeersHoldWhatIsTold(t: Table, told: seq<Element>, own: string, i: nat)
    requires forall k :: 0 <= k < |told| ==> told[k].children == [] && Acceptable(told[k].attrs) && Fold(told[k].attrs.host.value) != own
    requires forall j, k :: 0 <= j < k < |told| ==> told[j].attrs.name != told[k].attrs.name
    requires i < |told|
    ensures var t', op := LoadTable(t, told, own), told[i].attrs;
      && Acceptable(op)
      && HeldIn(t', op.name.value, Fold(op.host.value))
      && SameText(CurrentIn(t', op.name.value, Fold(op.host.value)), op.value)
  {
    hide UpdateOne, HeldIn, CurrentIn;
    var front, last := told[..|told|-1], told[|told|-1];
    if i == |told|-1 {
      AcceptedIsHeld(LoadTable(t, front, own), last.attrs, own);
    } else {
      PeersHoldWhatIsTold(t, front, own, i);
      ElsewhereKept(LoadTable(t, front, own), last.attrs, own, told[i].attrs.name.value, Fold(told[i].attrs.host.value));
    }
  }

  /** The hand-off as a whole: any value of its own that the node has and the writer's response does not give is,
      once the node has handled that response and a peer has handled the node's broadcast, known to the peer. */
  lemma HandOffReachesPeers(n: Node, peer: string, e: Element, env: Env, name: string,
                            q: Node, fromWriter: bool, env': Env) returns (m: Element)
    requires ValidEnv(env) && Folded(TableOf(n)) && Typed(TableOf(n)) && Fold(peer) != Fold(n.self)
    requires HeldIn(TableOf(n), name, Fold(n.self))
    requires !Accepted(UnseenTable(TableOf(n)), e.children, Fold(n.self), name, Fold(n.self))
    requires ValidEnv(env') && Folded(TableOf(q)) && Fold(q.self) != Fold(n.self)
    ensures exists out, won :: HandleSyncResponse(n, peer, true, e, env).outbox == out + [Send(None, m, won)]
    ensures var t' := TableOf(HandleSyncResponse(q, n.self, fromWriter, m, env'));
      && HeldIn(t', name, Fold(n.self))
      && SameText(CurrentIn(t', name, Fold(n.self)), CurrentIn(TableOf(n), name, Fold(n.self)))
  {
    hide HandleSyncResponse, LoadTable, LoadChildren, Folded, Typed, Accepted, UnseenTable, TableOf, CurrentIn, HeldIn;
    var unseen, told := HandOff(n, peer, e, env);
    assert name in unseen;
    var i :| 0 <= i < |unseen| && unseen[i] == name;
    m := Element(false, NoAttrs.(task := Some(SyncResponse)), told);
    var own := Fold(q.self);
    SyncResponseView(q, n.self, fromWriter, m, env');
    PeersHoldWhatIsTold(Receiving(TableOf(q), fromWriter), told, own, i);
  }

  // ---- Round trip ----

  lemma {:induction false} LoadAppend(t: Table, es: seq<Element>, fs: seq<Element>, own: string)
    ensures LoadTable(t, es + fs, own) == LoadTable(LoadTable(t, es, own), fs, own)
  {
    hide UpdateTable;
    if fs == [] {
      assert es + fs == es;
    } else {
      LoadAppend(t, es, fs[..|fs|-1], own);
      assert (es + fs)[..|es + fs|-1] == es + fs[..|fs|-1];
    }
  }

  /** What a value becomes in the receiver's table: its own values stay unset there. */
  function LoadedEntry(v: Entry, h: string, own: string): Entry {
    Entry(v.nodename, if h == own then None else v.current, v.remote, true)
  }

  /** An attribute as loaded, with the values on some of the hosts; its delay is rounded to seconds. */
  function LoadedRow(r: Row, hosts: set<string>, own: string): Row {
    Row(r.setType, r.setId, r.user, r.isPrivate, CapMs(1000 * Ms2S(r.timeoutMs)),
        map h | h in r.values && h in hosts :: LoadedEntry(r.values[h], h, own))
  }

  function LoadedTable(t: Table, own: string): Table {
    map name | name in t && t[name].values != map[] :: LoadedRow(t[name], t[name].values.Keys, own)
  }

  lemma LoadFirst(t: Table, n: Node, name: string, h: string, own: string)
    requires name in n.attributes && h in n.attributes[name].values && name !in t
    requires Fold(n.attributes[name].values[h].nodename) == h
    requires var a := n.attributes[name]; a.isPrivate || ValidSetType(a.setType)
    ensures var a := n.attributes[name];
      UpdateTable(t, ValueElement(n, name, a, a.values[h], false), Some(own)) == t[name := LoadedRow(RowOf(a), {h}, own)]
  {
    var a := n.attributes[name];
    var op := ValueElement(n, name, a, a.values[h], false).attrs;
    var r := FindRow(t, op, name).0.value;
    assert r == Row(a.setType, a.setId, a.user, a.isPrivate, CapMs(1000 * Ms2S(a.timeoutMs)), map[]);
    assert UpdateRow(r, a.values[h].nodename, op, Some(own)).values == LoadedRow(RowOf(a), {h}, own).values;
  }

  lemma LoadNext(t: Table, n: Node, name: string, h: string, hosts: set<string>, own: string)
    requires name in n.attributes && h in n.attributes[name].values && h !in hosts
    requires name in t && t[name] == LoadedRow(RowOf(n.attributes[name]), hosts, own)
    requires Fold(n.attributes[name].values[h].nodename) == h
    ensures var a := n.attributes[name];
      UpdateTable(t, ValueElement(n, name, a, a.values[h], false), Some(own))
      == t[name := LoadedRow(RowOf(a), hosts + {h}, own)]
  {
    var a := n.attributes[name];
    var op := ValueElement(n, name, a, a.values[h], false).attrs;
    assert FindRow(t, op, name) == (Some(t[name]), true);
    assert UpdateRow(t[name], a.values[h].nodename, op, Some(own)).values == LoadedRow(RowOf(a), hosts + {h}, own).values;
  }

  function Elems(hosts: seq<string>): set<string> {
    set h | h in hosts
  }

  lemma ElemsAppend(hosts: seq<string>, h: string)
    ensures Elems(hosts + [h]) == Elems(hosts) + {h}
    ensures h in Elems(hosts) <==> h in hosts
    ensures Elems([]) == {}
  {
  }

  /** One more value of the attribute is loaded. */
  lemma LoadOneMore(t: Table, t1: Table, n: Node, name: string, front: seq<string>, h: string, own: string)
    requires name in n.attributes && h in n.attributes[name].values && h !in front && name !in t
    requires Fold(n.attributes[name].values[h].nodename) == h
    requires var a := n.attributes[name]; a.isPrivate || ValidSetType(a.setType)
    requires t1 == if front == [] then t else t[name := LoadedRow(RowOf(n.attributes[name]), Elems(front), own)]
    ensures var a := n.attributes[name];
      UpdateTable(t1, ValueElement(n, name, a, a.values[h], false), Some(own))
      == t[name := LoadedRow(RowOf(a), Elems(front + [h]), own)]
  {
    hide UpdateTable, ValueElement, LoadedRow, RowOf, Elems;
    ElemsAppend(front, h);
    if front == [] {
      assert {} + {h} == {h};
      LoadFirst(t, n, name, h, own);
    } else {
      LoadNext(t1, n, name, h, Elems(front), own);
      var r := LoadedRow(RowOf(n.attributes[name]), Elems(front + [h]), own);
      assert t1[name := r] == t[name := r];
    }
  }

  lemma {:induction false} LoadAttr(t: Table, n: Node, name: string, hosts: seq<string>, own: string)
    requires name in n.attributes && name !in t
    requires forall h :: h in n.attributes[name].values ==> Fold(n.attributes[name].values[h].nodename) == h
    requires var a := n.attributes[name]; a.isPrivate || ValidSetType(a.setType)
    requires forall i :: 0 <= i < |hosts| ==> hosts[i] in n.attributes[name].values
    requires forall i, j :: 0 <= i < j < |hosts| ==> hosts[i] != hosts[j]
    ensures var a := n.attributes[name];
      LoadTable(t, ValuesInOrder(n, name, a, hosts), own)
      == if hosts == [] then t else t[name := LoadedRow(RowOf(a), Elems(hosts), own)]
  {
    hide UpdateTable, ValueElement, LoadedRow, RowOf, Elems;
    var a := n.attributes[name];
    if hosts != [] {
      var front, h := hosts[..|hosts|-1], hosts[|hosts|-1];
      LoadAttr(t, n, name, front, own);
      var e := ValueElement(n, name, a, a.values[h], false);
      LoadAppend(t, ValuesInOrder(n, name, a, front), [e], own);
      var t1 := LoadTable(t, ValuesInOrder(n, name, a, front), own);
      assert LoadTable(t1, [e], own) == UpdateTable(t1, e, Some(own)) by { assert [e][..0] == []; }
      assert hosts == front + [h];
      LoadOneMore(t, t1, n, name, front, h, own);
    }
  }

  /** The attributes in `names`, loaded. */
  function LoadedSome(t: Table, names: seq<string>, own: string): Table {
    map name | name in t && name in names && t[name].values != map[] :: LoadedRow(t[name], t[name].values.Keys, own)
  }

  lemma {:induction false} LoadNames(n: Node, names: seq<string>, env: Env, own: string)
    requires ValidEnv(env) && Folded(TableOf(n)) && Typed(TableOf(n))
    requires forall i :: 0 <= i < |names| ==> names[i] in n.attributes
    requires forall i, j :: 0 <= i < j < |names| ==> names[i] != names[j]
    ensures LoadTable(map[], TableInOrder(n, names, env), own) == LoadedSome(TableOf(n), names, own)
  {
    hide LoadedRow, ValuesInOrder, Folded, Typed;
    if names != [] {
      var front, name := names[..|names|-1], names[|names|-1];
      LoadNames(n, front, env, own);
      var t1 := LoadTable(map[], TableInOrder(n, front, env), own);
      var a := n.attributes[name];
      var hosts := env.order(a.values.Keys);
      LoadAppend(map[], TableInOrder(n, front, env), ValuesInOrder(n, name, a, hosts), own);
      assert names == front + [name];
      assert name !in t1;
      LoadWhole(t1, n, name, env, own);
      LoadedMore(TableOf(n), front, name, own);
    }
  }

  lemma LoadWhole(t: Table, n: Node, name: string, env: Env, own: string)
    requires ValidEnv(env) && Folded(TableOf(n)) && Typed(TableOf(n)) && name in n.attributes && name !in t
    ensures var r := TableOf(n)[name];
      LoadTable(t, ValuesInOrder(n, name, n.attributes[name], env.order(n.attributes[name].values.Keys)), own)
      == if r.values == map[] then t else t[name := LoadedRow(r, r.values.Keys, own)]
  {
    hide LoadTable, ValuesInOrder, Folded, LoadedRow;
    var a := n.attributes[name];
    var hosts := env.order(a.values.Keys);
    assert Enumerates(hosts, a.values.Keys);
    NodenamesFolded(n, name);
    assert TableOf(n)[name] == RowOf(a);
    assert forall i :: 0 <= i < |hosts| ==> hosts[i] in hosts;
    LoadAttr(t, n, name, hosts, own);
    assert Elems(hosts) == a.values.Keys;
    RowKeys(a);
    if hosts != [] { assert hosts[0] in Elems(hosts); }
  }

  lemma RowKeys(a: Attr)
    ensures RowOf(a).values.Keys == a.values.Keys
    ensures RowOf(a).values == map[] <==> a.values.Keys == {}
  {
    if a.values.Keys != {} {
      var h :| h in a.values;
      assert h in RowOf(a).values;
    } else {
      assert RowOf(a).values.Keys == {};
    }
  }

  lemma LoadedMore(t: Table, names: seq<string>, name: string, own: string)
    requires name in t && name !in names
    ensures LoadedSome(t, names + [name], own)
         == if t[name].values == map[] then LoadedSome(t, names, own)
            else LoadedSome(t, names, own)[name := LoadedRow(t[name], t[name].values.Keys, own)]
  {
  }

  /** Sync round trip: loading the message with which a node hands over its table into an empty node
      rebuilds that table, except that attributes without values are absent, delays are rounded to whole
      seconds, and the receiver's own values stay unset. */
  lemma SyncRoundTrip(n: Node, env: Env, own: string)
    requires ValidEnv(env) && Folded(TableOf(n)) && Typed(TableOf(n))
    ensures LoadTable(map[], SyncMessage(n, env).children, own) == LoadedTable(TableOf(n), own)
  {
    hide LoadTable, LoadedRow, Folded, Typed, TableInOrder;
    var names := env.order(n.attributes.Keys);
    assert Enumerates(names, n.attributes.Keys);
    assert forall i :: 0 <= i < |names| ==> names[i] in names;
    LoadNames(n, names, env, own);
    assert LoadedSome(TableOf(n), names, own) == LoadedTable(TableOf(n), own);
  }

  /** A node that joins with an empty table and loads the writer's whole table ends with that table. */
  lemma JoiningNodeRebuildsTable(writer: Node, joining: Node, name: string, env: Env, env': Env)
    requires ValidEnv(env) && ValidEnv(env') && Folded(TableOf(writer)) && Typed(TableOf(writer))
    requires joining.attributes == map[] && Fold(name) != Fold(joining.self)
    ensures TableOf(HandleSyncResponse(joining, name, true, SyncMessage(writer, env), env'))
         == LoadedTable(TableOf(writer), Fold(joining.self))
  {
    hide HandleSyncResponse, LoadTable, LoadedTable;
    assert TableOf(joining) == map[];
    SyncResponseView(joining, name, true, SyncMessage(writer, env), env');
    assert UnseenTable(map[]) == map[];
    SyncRoundTrip(writer, env, Fold(joining.self));
  }

  // ---- The correction that is not one ----

  /** When a sync response disagrees with a node's own value, the node broadcasts its value; but the
      element describing the value is not an operation, so no receiver acts on that broadcast. */
  lemma CorrectionIsIgnored(sender: Node, name: string, a: Attr, v: Value, receiver: Node, filter: bool, env: Env)
    ensures var out := BroadcastValue(sender, name, a, v).outbox;
      && |out| == |sender.outbox| + 1 && out[|sender.outbox|].Send? && out[|sender.outbox|].to.None?
      && PeerUpdate(receiver, out[|sender.outbox|].message, filter, env) == receiver
  {
    hide ValueElement;
    var child := ValueElement(sender, name, a, v, false);
    assert !child.isOp by { ValueIsNoOp(sender, name, a, v); }
    assert [child][..0] == [];
    assert UpdateChildren(receiver, NoAttrs.(task := Some(Update)), [child], filter, env) == receiver;
  }

  lemma ValueIsNoOp(n: Node, name: string, a: Attr, v: Value)
    ensures !ValueElement(n, name, a, v, false).isOp
  {
  }
}
