/** The state of one attribute manager: its attribute table, its view of the cluster, and the CIB
    calls it has issued. */
module Model {
  import opened Common

  /** One node's value of an attribute. `blank` is history kept by the model only: the entry was
      created without a value and no CIB transaction has covered it since. */
  datatype Value = Value(
    nodename: string,
    current: Option<string>,
    requested: Option<string>,
    remote: bool,
    fromPeer: bool,
    blank: bool)

  datatype Timer = NoTimer | Idle | Running

  datatype Attr = Attr(
    setType: string,
    setId: Option<string>,
    user: Option<string>,
    isPrivate: bool,
    timeoutMs: nat,
    timer: Timer,
    update: int,          // call ID of the transaction in flight, or 0
    changed: bool,
    nodeUnknown: bool,
    forceWrite: bool,
    values: map<string, Value>)   // keyed by folded node name

  /** CIB calls in the order they were issued. The call with ID `i + 1` is `log[i]`. A refused call
      uses up its ID without reaching the CIB. */
  datatype Request =
    | Commit(attr: string, ops: map<string, Option<string>>)
    | Erase(host: string)
    | Refused

  datatype Election = Start | InProgress | Lost | Won

  /** Write delay carried by a message, after parsing: text that is no duration is `BadDelay`. */
  datatype Delay = BadDelay | DelayMs(ms: int)

  datatype Task = Update | UpdateBoth | UpdateDelay | SyncResponse | OtherTask

  /** The XML attributes of a message element that the attribute manager reads. */
  datatype Op = Op(
    task: Option<Task>,
    name: Option<string>,
    value: Option<string>,
    host: Option<string>,
    hostId: Option<string>,
    delay: Option<Delay>,
    setType: Option<string>,
    setId: Option<string>,
    user: Option<string>,
    isPrivate: Option<bool>,
    isRemote: Option<bool>,
    forceWrite: Option<bool>)

  const NoAttrs: Op := Op(None, None, None, None, None, None, None, None, None, None, None, None)

  /** A message element; `isOp` tells whether it is named as an operation element. */
  datatype Element = Element(isOp: bool, attrs: Op, children: seq<Element>)

  datatype Outgoing =
    | Send(to: Option<string>, message: Element, fromWriter: bool)
    | Vote
    | Protocol(peer: string)

  datatype Node = Node(
    self: string,
    standAlone: bool,
    shuttingDown: bool,
    attributes: map<string, Attr>,
    xmlIds: map<string, string>,    // last known node XML IDs, by folded node name
    cache: map<string, string>,     // XML IDs known to the membership cache
    removed: set<string>,           // folded names of removed peers still to be erased
    election: Election,
    writer: Option<string>,
    lastDone: int,                  // call ID of the last successful transaction
    log: seq<Request>,
    callbacks: map<int, string>,    // transactions whose completion callback is still registered
    outbox: seq<Outgoing>)

  predicate IsWriter(n: Node) {
    n.election.Won?
  }

  /** Whether values of this attribute belong in the CIB at all. */
  predicate Writable(n: Node, a: Attr) {
    !n.standAlone && !a.isPrivate
  }

  function SetAttr(n: Node, name: string, a: Attr): Node {
    n.(attributes := n.attributes[name := a])
  }

  function SetValue(a: Attr, h: string, v: Value): Attr {
    a.(values := a.values[h := v])
  }

  /** Attributes of a child element, completed with its parent's where the child has none. */
  function Merge(child: Op, parent: Op): Op {
    Op(OrElse(child.task, parent.task), OrElse(child.name, parent.name), OrElse(child.value, parent.value),
       OrElse(child.host, parent.host), OrElse(child.hostId, parent.hostId), OrElse(child.delay, parent.delay),
       OrElse(child.setType, parent.setType), OrElse(child.setId, parent.setId), OrElse(child.user, parent.user),
       OrElse(child.isPrivate, parent.isPrivate), OrElse(child.isRemote, parent.isRemote),
       OrElse(child.forceWrite, parent.forceWrite))
  }

  /** XML flags are integers; absent means 0. */
  predicate IsSet(flag: Option<bool>) {
    flag == Some(true)
  }
}
