/** Handling of cluster messages and membership changes (attrd_corosync.c). */
module Corosync {
  import opened Common
  import opened Model
  import opened Elections
  import opened CibWrites
  import opened Attributes

  /** Broadcast one value as an update whose only child describes the value. */
  function BroadcastValue(n: Node, name: string, a: Attr, v: Value): Node {
    n.(outbox := n.outbox + [Send(None, Element(true, NoAttrs.(task := Some(Update)), [ValueElement(n, name, a, v, false)]),
                                  IsWriter(n))])
  }

  function EntryFor(a: Attr, host: string): Value {
    if Fold(host) in a.values then a.values[Fold(host)] else Value(host, None, None, false, false, true)
  }

  /** Make sure there is an entry for the host; a host with a value is no longer to be erased. */
  function WithEntry(n: Node, name: string, op: Op, host: string): Node
    requires name in n.attributes
  {
    var a := n.attributes[name];
    var v := EntryFor(a, host);
    SetAttr(n, name, SetValue(a, Fold(host), v.(remote := v.remote || IsSet(op.isRemote))))
    .(removed := n.removed - {Fold(host)})
  }

  /** Take over a new value and write it, or start the delay after which it will be written. */
  function ChangeValue(n: Node, name: string, h: string, value: Option<string>, env: Env): Node
    requires name in n.attributes && h in n.attributes[name].values
  {
    var a := n.attributes[name];
    var a' := SetValue(a, h, a.values[h].(current := value, blank := false)).(changed := true);
    if a.timeoutMs != 0 && a.timer != NoTimer
    then SetAttr(n, name, a'.(timer := Running))
    else WriteOrElect(SetAttr(n, name, a'), name, env)
  }

  function MarkFromPeer(n: Node, name: string, h: string): Node {
    if name in n.attributes && h in n.attributes[name].values
    then SetAttr(n, name, SetValue(n.attributes[name], h, n.attributes[name].values[h].(fromPeer := true)))
    else n
  }

  /** Learning a node's XML ID may unblock values that could not be written without it. */
  function LearnXmlId(n: Node, h: string, id: Option<string>, previous: Option<string>, env: Env): Node {
    if id.None? || id == previous then n
    else
      var n' := n.(xmlIds := n.xmlIds[h := id.value]);
      if IsWriter(n) then WriteAttributes(n', false, false, env) else n'
  }

  /** The effect of an update on the value itself, once its entry exists. */
  function TakeValue(n: Node, name: string, op: Op, host: string, filter: bool, env: Env): Node
    requires name in n.attributes && Fold(host) in n.attributes[name].values
  {
    var a := n.attributes[name];
    var v := a.values[Fold(host)];
    if SameText(v.current, op.value) then
      if IsSet(op.forceWrite) && a.timeoutMs != 0 && a.timer != NoTimer
      then SetAttr(n, name, a.(forceWrite := true))
      else n
    else if filter && Fold(host) == Fold(n.self) then BroadcastValue(n, name, a, v)
    else ChangeValue(n, name, Fold(host), op.value, env)
  }

  function UpdateOnHost(n: Node, name: string, op: Op, host: string, filter: bool, env: Env): Node {
    if name !in n.attributes then n else
      var previous := Lookup(n.xmlIds, Fold(host));
      var n' := TakeValue(WithEntry(n, name, op, host), name, op, host, filter, env);
      LearnXmlId(MarkFromPeer(n', name, Fold(host)), Fold(host), OrElse(op.hostId, previous), previous, env)
  }

  function UpdateOnHosts(n: Node, name: string, op: Op, hosts: seq<string>, filter: bool, env: Env): Node {
    if hosts == [] then n
    else UpdateOnHost(UpdateOnHosts(n, name, op, hosts[..|hosts|-1], filter, env), name, op, hosts[|hosts|-1], filter, env)
  }

  /** Apply one update; without a host it applies to every host that has an entry. */
  function PeerUpdateOne(n: Node, op: Op, filter: bool, env: Env): Node {
    if op.name.None? then n else
      var name := op.name.value;
      var (n', ok) := Populate(n, op, name, env);
      if !ok || name !in n'.attributes then n'
      else if op.host.Some? then UpdateOnHost(n', name, op, op.host.value, filter, env)
      else UpdateOnHosts(n', name, op.(hostId := None), env.order(n'.attributes[name].values.Keys), filter, env)
  }

  function UpdateChildren(n: Node, parent: Op, children: seq<Element>, filter: bool, env: Env): Node {
    if children == [] then n else
      var n' := UpdateChildren(n, parent, children[..|children|-1], filter, env);
      var child := children[|children|-1];
      if child.isOp then PeerUpdateOne(n', Merge(child.attrs, parent), filter, env) else n'
  }

  /** An element with children stands for its operation children only. */
  function PeerUpdate(n: Node, e: Element, filter: bool, env: Env): Node {
    if e.children != [] then UpdateChildren(n, e.attrs, e.children, filter, env)
    else PeerUpdateOne(n, e.attrs, filter, env)
  }

  /** A request to clear failures, turned into an update that unsets one attribute. */
  function ClearOf(e: Element, name: string): Element {
    e.(attrs := e.attrs.(task := Some(Update), value := None, name := Some(name)))
  }

  /** An update leaves its mark on the message: operation children keep what they got from their parent. */
  function Absorb(children: seq<Element>, parent: Op): seq<Element> {
    if children == [] then [] else
      var child := children[|children|-1];
      Absorb(children[..|children|-1], parent) + [if child.isOp then child.(attrs := Merge(child.attrs, parent)) else child]
  }

  function Absorbed(e: Element): Element {
    e.(children := Absorb(e.children, e.attrs))
  }

  /** The request as it is after having been applied to those of the attributes that match. */
  function ClearRequest(e: Element, names: seq<string>, matching: set<string>): Element {
    if names == [] then e else
      var e' := ClearRequest(e, names[..|names|-1], matching);
      if names[|names|-1] in matching then Absorbed(ClearOf(e', names[|names|-1])) else e'
  }

  function ClearMatching(n: Node, e: Element, names: seq<string>, matching: set<string>, env: Env): Node {
    if names == [] then n else
      var front, name := names[..|names|-1], names[|names|-1];
      var n' := ClearMatching(n, e, front, matching, env);
      if name in matching then PeerUpdate(n', ClearOf(ClearRequest(e, front, matching), name), false, env) else n'
  }

  /** Unset every attribute whose name is among those the failure pattern matches. */
  function ClearFailure(n: Node, e: Element, matching: set<string>, env: Env): Node {
    ClearMatching(n, e, env.order(n.attributes.Keys), matching, env)
  }

  function ValuesInOrder(n: Node, name: string, a: Attr, hosts: seq<string>): seq<Element> {
    if hosts == [] then [] else
      var h := hosts[|hosts|-1];
      ValuesInOrder(n, name, a, hosts[..|hosts|-1])
      + (if h in a.values then [ValueElement(n, name, a, a.values[h], false)] else [])
  }

  function TableInOrder(n: Node, names: seq<string>, env: Env): seq<Element> {
    if names == [] then [] else
      var name := names[|names|-1];
      TableInOrder(n, names[..|names|-1], env)
      + (if name in n.attributes
         then ValuesInOrder(n, name, n.attributes[name], env.order(n.attributes[name].values.Keys)) else [])
  }

  /** The message with which the writer hands its whole table to a peer. */
  function SyncMessage(n: Node, env: Env): Element {
    Element(false, NoAttrs.(task := Some(SyncResponse)), TableInOrder(n, env.order(n.attributes.Keys), env))
  }

  function PeerSync(n: Node, to: Option<string>, env: Env): Node {
    n.(outbox := n.outbox + [Send(to, SyncMessage(n, env), IsWriter(n))])
  }

  /** A local value that no peer has been seen to know. */
  predicate LocalOnly(n: Node, h: string, v: Value) {
    !v.fromPeer && Fold(v.nodename) == Fold(n.self)
  }

  function UnseenOf(n: Node, name: string, a: Attr, hosts: seq<string>): seq<Element> {
    if hosts == [] then [] else
      var h := hosts[|hosts|-1];
      UnseenOf(n, name, a, hosts[..|hosts|-1])
      + (if h in a.values && LocalOnly(n, h, a.values[h])
         then [ValueElement(n, name, a, a.values[h], a.timeoutMs != 0 && a.timer != NoTimer)] else [])
  }

  function UnseenInOrder(n: Node, names: seq<string>, env: Env): seq<Element> {
    if names == [] then [] else
      var name := names[|names|-1];
      UnseenInOrder(n, names[..|names|-1], env)
      + (if name in n.attributes
         then UnseenOf(n, name, n.attributes[name], env.order(n.attributes[name].values.Keys)) else [])
  }

  function BroadcastUnseen(n: Node, env: Env): Node {
    var children := UnseenInOrder(n, env.order(n.attributes.Keys), env);
    if children == [] then n
    else n.(outbox := n.outbox + [Send(None, Element(false, NoAttrs.(task := Some(SyncResponse)), children), IsWriter(n))])
  }

  function LoadChildren(n: Node, children: seq<Element>, env: Env): Node {
    if children == [] then n
    else PeerUpdate(LoadChildren(n, children[..|children|-1], env), children[|children|-1], true, env)
  }

  function PeerSyncResponse(n: Node, peerWon: bool, e: Element, env: Env): Node {
    var n' := LoadChildren(if peerWon then ClearValueSeen(n) else n, e.children, env);
    if peerWon then BroadcastUnseen(n', env) else n'
  }

  /** A sync response is also how a node learns who the writer is; its own are otherwise ignored. */
  function HandleSyncResponse(n: Node, peer: string, peerWon: bool, e: Element, env: Env): Node {
    var n' := CheckForNewWriter(n, peer, peerWon, env);
    if Fold(peer) != Fold(n.self) then PeerSyncResponse(n', peerWon, e, env) else n'
  }

  function EraseEach(n: Node, hosts: seq<string>): Node {
    if hosts == [] then n
    else
      var n' := EraseEach(n, hosts[..|hosts|-1]);
      var h := hosts[|hosts|-1];
      n'.(log := n'.log + [Erase(h)], removed := n'.removed - {h})
  }

  function EraseRemoved(n: Node, env: Env): Node {
    if IsWriter(n) then EraseEach(n, env.order(n.removed)) else n
  }

  function DropHost(attributes: map<string, Attr>, h: string): map<string, Attr> {
    map name | name in attributes :: attributes[name].(values := attributes[name].values - {h})
  }

  function PeerRemove(n: Node, host: string, uncache: bool, env: Env): Node {
    var n1 := n.(attributes := DropHost(n.attributes, Fold(host)));
    var n2 := if IsWriter(n) then EraseTransient(n1, host)
              else StartElectionIfNeeded(n1.(removed := n1.removed + {Fold(host)}), env);
    if uncache then n2.(cache := n2.cache - {Fold(host)}, xmlIds := n2.xmlIds - {Fold(host)}) else n2
  }
}
