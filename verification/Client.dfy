/** Updates requested by local clients (attrd_ipc.c): what is made of a request, and what is broadcast. */
module Client {
  import opened Common
  import opened Model
  import opened CibWrites
  import opened Attributes
  import opened Corosync

  /** A client's request element: as a peer message, but it may name attributes by a regular expression. */
  datatype Message = Message(isOp: bool, op: Op, regex: Option<string>, children: seq<Message>)

  datatype Reply = NoReply | Done | NoSuchAttribute | BadRegex | NothingNamed

  /** What a request has brought about so far: the messages broadcast, and the result for the client. */
  datatype Effect = Effect(sent: seq<Message>, reply: Reply)

  /** What a request depends on besides the attribute table: the task of the request as a whole, the local
      node's XML ID, whether all peers take several operations in one message, which regular expressions
      are valid and what they match, and what an increment expression stands for, given the old value. */
  datatype Context = Context(
    task: Option<Task>,
    selfId: Option<string>,
    multi: bool,
    valid: string -> bool,
    matches: (string, string) -> bool,
    expand: (string, Option<string>) -> Option<string>)

  /** What peers get to see of a message. */
  function AsElement(m: Message): Element {
    Element(m.isOp, m.op, AsElements(m.children))
  }

  function AsElements(ms: seq<Message>): (es: seq<Element>)
    ensures |es| == |ms|
  {
    if ms == [] then [] else AsElements(ms[..|ms|-1]) + [AsElement(ms[|ms|-1])]
  }

  function FillHost(n: Node, c: Context, op: Op): Op {
    if op.host.None? then op.(host := Some(n.self), hostId := OrElse(c.selfId, op.hostId)) else op
  }

  function OldValue(n: Node, op: Op): Option<string> {
    if op.name.Some? && op.host.Some? && op.name.value in n.attributes
       && Fold(op.host.value) in n.attributes[op.name.value].values
    then n.attributes[op.name.value].values[Fold(op.host.value)].current
    else None
  }

  /** Replace an increment expression by its result. Only an existing attribute can have its delay changed. */
  function ExpandValue(n: Node, c: Context, op: Op): Option<Op> {
    if c.task == Some(UpdateDelay) && !(op.name.Some? && op.name.value in n.attributes) then None
    else if op.value.Some? && c.expand(op.value.value, OldValue(n, op)).Some?
    then Some(op.(value := c.expand(op.value.value, OldValue(n, op))))
    else Some(op)
  }

  function Prepare(n: Node, c: Context, op: Op): Option<Op> {
    ExpandValue(n, c, FillHost(n, c, op))
  }

  function PrepareEach(n: Node, c: Context, children: seq<Message>): Option<seq<Message>> {
    if children == [] then Some([]) else
      var child := children[|children|-1];
      match PrepareEach(n, c, children[..|children|-1])
      case None => None
      case Some(done) =>
        if !child.isOp then Some(done + [child])
        else if Prepare(n, c, child.op).None? then None
        else Some(done + [child.(op := Prepare(n, c, child.op).value)])
  }

  /** One operation for each attribute that the regular expression matches. */
  function MatchEach(n: Node, c: Context, x: Message, names: seq<string>): seq<Message> {
    if names == [] then [] else
      var name := names[|names|-1];
      MatchEach(n, c, x, names[..|names|-1])
      + (if x.regex.Some? && c.matches(x.regex.value, name)
         then [Message(true, x.op.(name := Some(name)), None, [])] else [])
  }

  function Expanded(n: Node, c: Context, env: Env, x: Message): Message {
    x.(children := MatchEach(n, c, x, env.order(n.attributes.Keys)))
  }

  /** A request on which the daemon recurses without end: an operation with both a name and a regular
      expression, at the top or reached by splitting. */
  predicate Stuck(multi: bool, x: Message) {
    if x.children != [] then !multi && exists y :: y in x.children && y.isOp && Stuck(multi, y)
    else x.op.name.Some? && x.regex.Some?
  }

  /** How deep the recursion on a request can go. */
  function Rank(x: Message): nat {
    if x.children == [] then (if x.regex.Some? then 2 else 0) else 1 + MaxRank(x.children)
  }

  function MaxRank(children: seq<Message>): (r: nat)
    ensures forall y :: y in children ==> Rank(y) <= r
  {
    if children == [] then 0 else
      var r := MaxRank(children[..|children|-1]);
      assert children == children[..|children|-1] + [children[|children|-1]];
      if Rank(children[|children|-1]) > r then Rank(children[|children|-1]) else r
  }

  /** An operation that names one attribute and has no children. */
  predicate IsSimple(y: Message) {
    y.isOp && y.children == [] && y.regex.None? && y.op.name.Some?
  }

  lemma {:induction false} SimpleRank(ys: seq<Message>)
    requires forall y :: y in ys ==> IsSimple(y)
    ensures MaxRank(ys) == 0
  {
    if ys != [] {
      assert ys[|ys|-1] in ys;
      SimpleRank(ys[..|ys|-1]);
    }
  }

  lemma {:induction false} MatchSimple(n: Node, c: Context, x: Message, names: seq<string>)
    ensures forall y :: y in MatchEach(n, c, x, names) ==> IsSimple(y)
  {
    if names != [] {
      MatchSimple(n, c, x, names[..|names|-1]);
    }
  }

  lemma ExpandedRank(n: Node, c: Context, env: Env, x: Message)
    ensures Expanded(n, c, env, x).children != [] ==> Rank(Expanded(n, c, env, x)) == 1
    ensures forall y :: y in Expanded(n, c, env, x).children ==> IsSimple(y) && !Stuck(c.multi, y)
  {
    MatchSimple(n, c, x, env.order(n.attributes.Keys));
    SimpleRank(Expanded(n, c, env, x).children);
  }

  function Answer(n: Node, c: Context, env: Env, x: Message, e: Effect): Effect
    requires !Stuck(c.multi, x)
    decreases Rank(x), 0
  {
    if x.children != [] then
      if c.multi then
        match PrepareEach(n, c, x.children)
        case None => e.(reply := NoSuchAttribute)
        case Some(children) => Effect(e.sent + [x.(children := children)], Done)
      else AnswerEach(n, c, env, x.children, e)
    else if x.op.name.None? then
      if x.regex.None? then e.(reply := NothingNamed)
      else if !c.valid(x.regex.value) then e.(reply := BadRegex)
      else
        var expanded := Expanded(n, c, env, x);
        ExpandedRank(n, c, env, x);
        if expanded.children == [] then e else Answer(n, c, env, expanded, e)
    else
      match Prepare(n, c, x.op)
      case None => e.(reply := NoSuchAttribute)
      case Some(op) => Effect(e.sent + [x.(op := op)], Done)
  }

  function AnswerEach(n: Node, c: Context, env: Env, children: seq<Message>, e: Effect): Effect
    requires forall y :: y in children && y.isOp ==> !Stuck(c.multi, y)
    decreases MaxRank(children), 1, |children|
  {
    if children == [] then e else
      var e' := AnswerEach(n, c, env, children[..|children|-1], e);
      var y := children[|children|-1];
      if y.isOp then Answer(n, c, env, y, e') else e'
  }

  /** A request being handled; its element is edited as the handling goes on. */
  class Handling {
    var xml: Message
    var sent: seq<Message>
    var reply: Reply

    constructor (xml: Message)
      ensures this.xml == xml && sent == [] && reply == NoReply
    {
      this.xml, sent, reply := xml, [], NoReply;
    }

    /** Make all operation children ready to be broadcast, up to the first one that cannot be. */
    method PrepareChildren(n: Node, c: Context) returns (ok: bool)
      modifies `xml
      ensures ok <==> PrepareEach(n, c, old(xml).children).Some?
      ensures ok ==> xml == old(xml).(children := PrepareEach(n, c, old(xml).children).value)
    {
      hide Prepare, PrepareEach;
      PrepareNone(n, c);
      var i, children := 0, xml.children;
      ghost var done: seq<Message> := [];
      while i < |children|
        invariant 0 <= i <= |children|
        invariant PrepareEach(n, c, children[..i]) == Some(done) && |done| == i
        invariant xml == old(xml).(children := done + children[i..])
      {
        PrepareNext(n, c, children, i);
        var child := children[i];
        if child.isOp {
          var op := Prepare(n, c, child.op);
          if op.None? {
            PrepareFails(n, c, children, i + 1);
            return false;
          }
          child := child.(op := op.value);
        }
        EditAt(done, children, i, child);
        xml := xml.(children := xml.children[i := child]);
        done := done + [child];
        i := i + 1;
      }
      assert children[..i] == children;
      assert done + children[i..] == done;
      return true;
    }

    /** Add one child for each attribute that the regular expression matches. */
    method ExpandRegex(n: Node, c: Context, env: Env)
      requires xml.children == []
      modifies `xml
      ensures xml == Expanded(n, c, env, old(xml))
    {
      var names := env.order(n.attributes.Keys);
      for i := 0 to |names|
        invariant xml == old(xml).(children := MatchEach(n, c, old(xml), names[..i]))
      {
        assert names[..i+1][..i] == names[..i];
        if xml.regex.Some? && c.matches(xml.regex.value, names[i]) {
          xml := xml.(children := xml.children + [Message(true, xml.op.(name := Some(names[i])), None, [])]);
        }
      }
      assert names[..|names|] == names;
    }

    method Update(n: Node, c: Context, env: Env)
      requires !Stuck(c.multi, xml)
      modifies this
      ensures Effect(sent, reply) == Answer(n, c, env, old(xml), Effect(old(sent), old(reply)))
      decreases Rank(xml)
    {
      if xml.children != [] {
        if c.multi {
          var ok := PrepareChildren(n, c);
          if !ok { reply := NoSuchAttribute; return; }
          sent, reply := sent + [xml], Done;
          return;
        }
        var whole := xml;
        for i := 0 to |whole.children|
          invariant forall y :: y in whole.children && y.isOp ==> !Stuck(c.multi, y)
          invariant Effect(sent, reply)
                 == AnswerEach(n, c, env, whole.children[..i], Effect(old(sent), old(reply)))
        {
          assert whole.children[..i+1][..i] == whole.children[..i];
          if whole.children[i].isOp {
            xml := whole.children[i];
            Update(n, c, env);
          }
        }
        assert whole.children[..|whole.children|] == whole.children;
        xml := whole;
        return;
      }
      if xml.op.name.None? {
        if xml.regex.None? { reply := NothingNamed; return; }
        if !c.valid(xml.regex.value) { reply := BadRegex; return; }
        ExpandedRank(n, c, env, xml);
        ExpandRegex(n, c, env);
        if xml.children != [] { Update(n, c, env); }
        return;
      }
      var op := Prepare(n, c, xml.op);
      if op.None? { reply := NoSuchAttribute; return; }
      xml := xml.(op := op.value);
      sent, reply := sent + [xml], Done;
    }
  }

  lemma PrepareNone(n: Node, c: Context)
    ensures PrepareEach(n, c, []) == Some([])
  {
  }

  lemma PrepareNext(n: Node, c: Context, children: seq<Message>, i: nat)
    requires i < |children|
    ensures PrepareEach(n, c, children[..i+1]) ==
      match PrepareEach(n, c, children[..i])
      case None => None
      case Some(done) =>
        var child := children[i];
        if !child.isOp then Some(done + [child])
        else if Prepare(n, c, child.op).None? then None
        else Some(done + [child.(op := Prepare(n, c, child.op).value)])
  {
    hide Prepare;
    assert children[..i+1][..i] == children[..i];
  }

  lemma EditAt(done: seq<Message>, children: seq<Message>, i: nat, child: Message)
    requires |done| == i < |children|
    ensures (done + children[i..])[i := child] == done + [child] + children[i+1..]
  {
  }

  lemma {:induction false} PrepareFails(n: Node, c: Context, children: seq<Message>, i: nat)
    requires i <= |children| && PrepareEach(n, c, children[..i]).None?
    ensures PrepareEach(n, c, children).None?
    decreases |children|
  {
    if i < |children| {
      assert children[..|children|-1][..i] == children[..i];
      PrepareFails(n, c, children[..|children|-1], i);
    } else {
      assert children[..i] == children;
    }
  }

  // ---- Which requests are answered ----

  /** The recursion on a request, as the daemon carries it out, is at most `k` calls deep. */
  ghost predicate EndsWithin(n: Node, c: Context, env: Env, x: Message, k: nat)
    decreases k
  {
    && k > 0
    && if x.children != [] then
         c.multi || forall y :: y in x.children && y.isOp ==> EndsWithin(n, c, env, y, k - 1)
       else if x.regex.None? then true
       else if x.op.name.Some? then EndsWithin(n, c, env, x, k - 1)
       else
         || !c.valid(x.regex.value)
         || Expanded(n, c, env, x).children == []
         || EndsWithin(n, c, env, Expanded(n, c, env, x), k - 1)
  }

  lemma {:induction false} EndsMonotone(n: Node, c: Context, env: Env, x: Message, k: nat, m: nat)
    requires EndsWithin(n, c, env, x, k) && k <= m
    ensures EndsWithin(n, c, env, x, m)
    decreases k
  {
    if x.children != [] {
      if !c.multi {
        forall y | y in x.children && y.isOp
          ensures EndsWithin(n, c, env, y, m - 1)
        {
          EndsMonotone(n, c, env, y, k - 1, m - 1);
        }
      }
    } else if x.regex.Some? {
      if x.op.name.Some? {
        EndsMonotone(n, c, env, x, k - 1, m - 1);
      } else if c.valid(x.regex.value) && Expanded(n, c, env, x).children != [] {
        EndsMonotone(n, c, env, Expanded(n, c, env, x), k - 1, m - 1);
      }
    }
  }

  lemma {:induction false} EndsUnlessStuck(n: Node, c: Context, env: Env, x: Message)
    requires !Stuck(c.multi, x)
    ensures EndsWithin(n, c, env, x, Rank(x) + 1)
    decreases Rank(x)
  {
    if x.children != [] {
      if !c.multi {
        forall y | y in x.children && y.isOp
          ensures EndsWithin(n, c, env, y, Rank(x))
        {
          EndsUnlessStuck(n, c, env, y);
          EndsMonotone(n, c, env, y, Rank(y) + 1, Rank(x));
        }
      }
    } else if x.regex.Some? {
      var expanded := Expanded(n, c, env, x);
      ExpandedRank(n, c, env, x);
      if expanded.children != [] {
        EndsUnlessStuck(n, c, env, expanded);
        EndsMonotone(n, c, env, expanded, 2, Rank(x));
      }
    }
  }

  lemma {:induction false} StuckNeverEnds(n: Node, c: Context, env: Env, x: Message, k: nat)
    requires Stuck(c.multi, x)
    ensures !EndsWithin(n, c, env, x, k)
    decreases k
  {
    if k > 0 {
      if x.children != [] {
        var y :| y in x.children && y.isOp && Stuck(c.multi, y);
        StuckNeverEnds(n, c, env, y, k - 1);
      } else {
        StuckNeverEnds(n, c, env, x, k - 1);
      }
    }
  }

  /** The recursion ends exactly for the requests that are not stuck. */
  lemma AnswersIffNotStuck(n: Node, c: Context, env: Env, x: Message)
    ensures (exists k :: EndsWithin(n, c, env, x, k)) <==> !Stuck(c.multi, x)
  {
    if Stuck(c.multi, x) {
      forall k
        ensures !EndsWithin(n, c, env, x, k)
      {
        StuckNeverEnds(n, c, env, x, k);
      }
    } else {
      EndsUnlessStuck(n, c, env, x);
      assert exists k :: k == Rank(x) + 1 && EndsWithin(n, c, env, x, k);
    }
  }

  /** No element of the request has both a name and a regular expression. */
  predicate NamedOnce(x: Message) {
    && !(x.op.name.Some? && x.regex.Some?)
    && forall y :: y in x.children ==> NamedOnce(y)
  }

  lemma {:induction false} NamedOnceEnds(n: Node, c: Context, env: Env, x: Message)
    requires NamedOnce(x)
    ensures !Stuck(c.multi, x)
    ensures exists k :: EndsWithin(n, c, env, x, k)
  {
    NotStuck(c.multi, x);
    AnswersIffNotStuck(n, c, env, x);
  }

  lemma {:induction false} NotStuck(multi: bool, x: Message)
    requires NamedOnce(x)
    ensures !Stuck(multi, x)
  {
    forall y | y in x.children
      ensures !Stuck(multi, y)
    {
      NotStuck(multi, y);
    }
  }

  // ---- What is broadcast ----

  /** A broadcast that says for which node each of its operations is. */
  predicate Addressed(m: Message) {
    if m.children == [] then m.op.name.Some? && m.op.host.Some?
    else forall y :: y in m.children && y.isOp ==> y.op.host.Some?
  }

  lemma {:induction false} PreparedAddressed(n: Node, c: Context, children: seq<Message>)
    requires PrepareEach(n, c, children).Some?
    ensures |PrepareEach(n, c, children).value| == |children|
    ensures forall y :: y in PrepareEach(n, c, children).value && y.isOp ==> y.op.host.Some?
  {
    if children != [] {
      PreparedAddressed(n, c, children[..|children|-1]);
    }
  }

  /** Whatever a client asks for, peers are told the node of every operation. */
  lemma {:induction false} BroadcastsAreAddressed(n: Node, c: Context, env: Env, x: Message, e: Effect)
    requires !Stuck(c.multi, x) && forall m :: m in e.sent ==> Addressed(m)
    ensures forall m :: m in Answer(n, c, env, x, e).sent ==> Addressed(m)
    decreases Rank(x), 0
  {
    if x.children != [] {
      if c.multi {
        if PrepareEach(n, c, x.children).Some? { PreparedAddressed(n, c, x.children); }
      } else {
        EachIsAddressed(n, c, env, x.children, e);
      }
    } else if x.op.name.None? && x.regex.Some? && c.valid(x.regex.value) {
      ExpandedRank(n, c, env, x);
      if Expanded(n, c, env, x).children != [] {
        BroadcastsAreAddressed(n, c, env, Expanded(n, c, env, x), e);
      }
    }
  }

  lemma {:induction false} EachIsAddressed(n: Node, c: Context, env: Env, children: seq<Message>, e: Effect)
    requires (forall y :: y in children && y.isOp ==> !Stuck(c.multi, y)) && forall m :: m in e.sent ==> Addressed(m)
    ensures forall m :: m in AnswerEach(n, c, env, children, e).sent ==> Addressed(m)
    decreases MaxRank(children), 1, |children|
  {
    if children != [] {
      EachIsAddressed(n, c, env, children[..|children|-1], e);
      var y := children[|children|-1];
      if y.isOp {
        assert y in children;
        BroadcastsAreAddressed(n, c, env, y, AnswerEach(n, c, env, children[..|children|-1], e));
      }
    }
  }

  /** When peers take several operations at once, a request is carried out as a whole or not at all: a single
      message is broadcast if the client is told it is done, and none otherwise. */
  lemma AllOrNothing(n: Node, c: Context, env: Env, x: Message)
    requires c.multi && !Stuck(true, x)
    ensures var e := Answer(n, c, env, x, Effect([], NoReply));
      |e.sent| == if e.reply == Done then 1 else 0
  {
    if x.children == [] && x.op.name.None? && x.regex.Some? && c.valid(x.regex.value) {
      ExpandedRank(n, c, env, x);
    }
  }
}
