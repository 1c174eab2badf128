/** Creating attributes, changing their write delay, and describing values to peers (attrd_attributes.c). */
module Attributes {
  import opened Common
  import opened Model
  import opened CibWrites

  const INSTANCE_ATTRIBUTES := "instance_attributes"
  const UTILIZATION := "utilization"

  predicate ValidSetType(setType: string) {
    setType == INSTANCE_ATTRIBUTES || setType == UTILIZATION
  }

  function CapMs(ms: nat): nat {
    if ms <= INT_MAX then ms else INT_MAX
  }

  /** Milliseconds to whole seconds, to the nearest, but at least one second for any delay. */
  function Ms2S(ms: nat): nat {
    if ms == 0 then 0 else if ms < 1000 then 1 else ms / 1000 + (if ms % 1000 >= 500 then 1 else 0)
  }

  function CreateAttribute(n: Node, op: Op, name: string): Option<Node> {
    var setType := if op.setType.Some? then op.setType.value else INSTANCE_ATTRIBUTES;
    if !IsSet(op.isPrivate) && !ValidSetType(setType) then None
    else
      var ms := match op.delay case Some(DelayMs(ms)) => (if ms > 0 then ms else 0) case _ => 0;
      Some(SetAttr(n, name,
                   Attr(setType, op.setId, op.user, IsSet(op.isPrivate), CapMs(ms), if ms > 0 then Idle else NoTimer,
                        0, false, false, false, map[])))
  }

  /** A changed delay replaces the timer (stopping it) and writes at once, so that repeated changes
      cannot hold back a write forever. The second result tells whether the delay was acceptable. */
  function UpdateDampening(n: Node, op: Op, name: string, env: Env): (Node, bool)
    requires name in n.attributes
  {
    match op.delay
    case Some(DelayMs(ms)) =>
      if ms < 0 then (n, false)
      else if n.attributes[name].timeoutMs == ms then (n, true)
      else
        var a := n.attributes[name].(timeoutMs := CapMs(ms), timer := if ms > 0 then Idle else NoTimer);
        (WriteOrElect(SetAttr(n, name, a), name, env), true)
    case _ => (n, false)
  }

  /** Find or create the attribute an update is about. The second result tells whether to go on and
      set a value. */
  function Populate(n: Node, op: Op, name: string, env: Env): (Node, bool) {
    var both := op.task.None? || op.task == Some(UpdateBoth);
    if name !in n.attributes then
      if both || op.task == Some(Update) then
        match CreateAttribute(n, op, name)
        case None => (n, false)
        case Some(n') => if both then UpdateDampening(n', op, name, env) else (n', true)
      else (n, false)
    else if both then UpdateDampening(n, op, name, env)
    else if op.task == Some(UpdateDelay) then (UpdateDampening(n, op, name, env).0, false)
    else (n, true)
  }

  /** The element that describes a value to peers; it is not named as an operation. */
  function ValueElement(n: Node, name: string, a: Attr, v: Value, forceWrite: bool): Element {
    Element(false,
            Op(None, Some(name), v.current, Some(v.nodename), Lookup(n.xmlIds, Fold(v.nodename)),
               Some(DelayMs(1000 * Ms2S(a.timeoutMs))), Some(a.setType), a.setId, a.user,
               Some(a.isPrivate), Some(v.remote), Some(forceWrite)),
            [])
  }

  function Unseen(a: Attr): Attr {
    a.(values := map h | h in a.values :: a.values[h].(fromPeer := false))
  }

  function ClearValueSeen(n: Node): Node {
    n.(attributes := map name | name in n.attributes :: Unseen(n.attributes[name]))
  }
}
