/** Writing attributes to the CIB (attrd_cib.c). */
module CibWrites {
  import opened Common
  import opened Model
  import opened Elections

  const INT_MAX: int := 0x7fff_ffff

  /** XML ID to write a value under: a remote node's name, else what the membership cache says, else
      the last one learned. */
  function XmlIdFor(n: Node, h: string, v: Value): Option<string> {
    if v.remote then Some(v.nodename) else OrElse(Lookup(n.cache, h), Lookup(n.xmlIds, h))
  }

  /** The values a transaction started now would carry. */
  function Snapshot(n: Node, a: Attr): map<string, Option<string>> {
    map h | h in a.values && XmlIdFor(n, h, a.values[h]).Some? :: a.values[h].current
  }

  function LearnedIds(n: Node, a: Attr): map<string, string> {
    map h | h in a.values && XmlIdFor(n, h, a.values[h]).Some? :: XmlIdFor(n, h, a.values[h]).value
  }

  function Requested(values: map<string, Value>, ops: map<string, Option<string>>): map<string, Value> {
    map h | h in values ::
      if h in ops then values[h].(requested := values[h].current, blank := false) else values[h]
  }

  function ClearFlags(a: Attr): Attr {
    a.(changed := false, forceWrite := false, nodeUnknown := false)
  }

  /** Whether the write must be put off: a transaction is in flight, or the delay is still running. */
  predicate MustWait(n: Node, a: Attr, ignoreDelay: bool) {
    if a.update != 0 then a.update >= n.lastDone
    else a.timer.Running? && !ignoreDelay
  }

  /** A failed write is flagged for another attempt, which the writer delays. */
  function AfterFailure(a: Attr, isWriter: bool): Attr {
    var changed := a.changed || a.values != map[];
    a.(update := 0, changed := changed, timer := if changed && isWriter then Running else a.timer)
  }

  function CallbackFailed(n: Node, name: string): Node {
    if name !in n.attributes then n else SetAttr(n, name, AfterFailure(n.attributes[name], IsWriter(n)))
  }

  /** The attribute as a transaction started now leaves it, before the transaction is committed. */
  function Prepared(n: Node, a: Attr): Attr {
    var ops := Snapshot(n, a);
    ClearFlags(a).(
      update := 0,
      timer := if a.update == 0 && a.timer.Running? then Idle else a.timer,
      nodeUnknown := exists h :: h in a.values && h !in ops,
      values := Requested(a.values, ops))
  }

  /** The call with which the transaction is committed, if there is anything to write. */
  function SentCalls(n: Node, name: string, a: Attr, env: Env): seq<Request> {
    if Snapshot(n, a) == map[] then []
    else if env.refuses(|n.log| + 1) then [Refused]
    else [Commit(name, Snapshot(n, a))]
  }

  /** The attribute once the transaction is committed; a call that could not be sent fails at once. */
  function SentAttr(n: Node, a: Attr, env: Env): Attr {
    if Snapshot(n, a) == map[] then Prepared(n, a)
    else if env.refuses(|n.log| + 1) then AfterFailure(Prepared(n, a), IsWriter(n))
    else Prepared(n, a).(update := |n.log| + 1)
  }

  function SendTransaction(n: Node, name: string, env: Env): Node
    requires name in n.attributes
  {
    var a := n.attributes[name];
    var sent := Snapshot(n, a) != map[] && !env.refuses(|n.log| + 1);
    n.(attributes := n.attributes[name := SentAttr(n, a, env)],
       xmlIds := n.xmlIds + LearnedIds(n, a),
       log := n.log + SentCalls(n, name, a, env),
       callbacks := if sent then n.callbacks[|n.log| + 1 := name] else n.callbacks)
  }

  function WriteAttribute(n: Node, name: string, ignoreDelay: bool, env: Env): Node {
    if name !in n.attributes then n else
      var a := n.attributes[name];
      if !Writable(n, a) then SetAttr(n, name, ClearFlags(a))
      else if MustWait(n, a, ignoreDelay) then n
      else SendTransaction(n, name, env)
  }

  function WriteOrElect(n: Node, name: string, env: Env): Node {
    if IsWriter(n) then WriteAttribute(n, name, false, env) else StartElectionIfNeeded(n, env)
  }

  function Unrequested(values: map<string, Value>): map<string, Value> {
    map h | h in values :: values[h].(requested := None)
  }

  /** A completed write: forget what was requested, and drop a temporary delay. */
  function Confirmed(a: Attr): Attr {
    a.(update := 0, values := Unrequested(a.values), timer := if a.timeoutMs == 0 then NoTimer else a.timer)
  }

  /** What was deferred while the write was in flight can be written now. */
  function CallbackOk(n: Node, name: string, call: int, env: Env): Node {
    if name !in n.attributes then n else
      var n' := SetAttr(n, name, Confirmed(n.attributes[name])).(lastDone := call);
      if n.attributes[name].changed && IsWriter(n) then WriteAttribute(n', name, false, env) else n'
  }

  /** A reply (or the expiry of the wait for one) reaches the callback registered for the call, if any. */
  function CibCallback(n: Node, call: int, ok: bool, env: Env): Node {
    if call !in n.callbacks then n else
      var n' := n.(callbacks := n.callbacks - {call});
      if ok then CallbackOk(n', n.callbacks[call], call, env)
      else CallbackFailed(n', n.callbacks[call])
  }

  function TimerExpired(n: Node, name: string, env: Env): Node {
    if name !in n.attributes then n else
      WriteOrElect(SetAttr(n, name, n.attributes[name].(timer := Idle)), name, env)
  }

  function WriteIfAsked(n: Node, name: string, all: bool, noDelay: bool, env: Env): Node {
    if name !in n.attributes then n else
      var a := n.attributes[name];
      var retry := (!all && a.nodeUnknown) || a.forceWrite;
      var n' := if retry then SetAttr(n, name, a.(changed := true)) else n;
      if all || a.changed || retry then WriteAttribute(n', name, noDelay || a.forceWrite, env) else n'
  }

  function WriteEach(n: Node, names: seq<string>, all: bool, noDelay: bool, env: Env): Node {
    if names == [] then n
    else WriteIfAsked(WriteEach(n, names[..|names|-1], all, noDelay, env), names[|names|-1], all, noDelay, env)
  }

  function WriteAttributes(n: Node, all: bool, noDelay: bool, env: Env): Node {
    WriteEach(n, env.order(n.attributes.Keys), all, noDelay, env)
  }

  function EraseTransient(n: Node, host: string): Node {
    n.(log := n.log + [Erase(Fold(host))])
  }
}
