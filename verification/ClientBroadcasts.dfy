/** What peers are told on behalf of a client: just the operations it asked for, each with the node it is for and the
    value it sets. */
module ClientBroadcasts {
  import opened Common
  import opened Model
  import opened CibWrites
  import opened Attributes
  import opened Corosync
  import opened Replica
  import opened Client
  import SyncTransfer

  /** The value that the local table has for the attribute on the node, if any. */
  function ValueHere(n: Node, name: Option<string>, host: string): Option<string> {
    if name.Some? && name.value in n.attributes && Fold(host) in n.attributes[name.value].values
    then n.attributes[name.value].values[Fold(host)].current
    else None
  }

  /** An operation as peers are told of it. A client that names no node means the local one, and its XML ID is added if
      it is known. An increment is replaced by its outcome on the value here. All else is as the client has it. */
  function Told(n: Node, c: Context, asked: Op): Op {
    var host := if asked.host.Some? then asked.host.value else n.self;
    var id := if asked.host.None? && c.selfId.Some? then c.selfId else asked.hostId;
    var outcome := if asked.value.Some? then c.expand(asked.value.value, ValueHere(n, asked.name, host)) else None;
    Op(asked.task, asked.name, if outcome.Some? then outcome else asked.value, Some(host), id, asked.delay, asked.setType,
       asked.setId, asked.user, asked.isPrivate, asked.isRemote, asked.forceWrite)
  }

  /** Only an attribute that exists can have its delay changed. */
  predicate Possible(n: Node, c: Context, asked: Op) {
    c.task == Some(UpdateDelay) ==> asked.name.Some? && asked.name.value in n.attributes
  }

  lemma PreparedIsTold(n: Node, c: Context, asked: Op)
    ensures Prepare(n, c, asked) == if Possible(n, c, asked) then Some(Told(n, c, asked)) else None
  {
  }

  // ---- What is asked for ----

  /** The operations among some elements. */
  function OpsIn(ms: seq<Message>): seq<Op> {
    if ms == [] then []
    else OpsIn(ms[..|ms|-1]) + if ms[|ms|-1].isOp then [ms[|ms|-1].op] else []
  }

  /** The attributes that a regular expression stands for. */
  function Named(c: Context, x: Message, names: seq<string>): seq<Op> {
    if names == [] then []
    else Named(c, x, names[..|names|-1])
         + if x.regex.Some? && c.matches(x.regex.value, names[|names|-1]) then [x.op.(name := Some(names[|names|-1]))] else []
  }

  /** The operations that a request stands for, in order: its children, the attributes that its regular expression
      matches, or itself. Where peers cannot take several at once, children may in turn have children, and so on. */
  function Asked(n: Node, c: Context, env: Env, x: Message): seq<Op>
    decreases Rank(x), 0
  {
    if x.children != [] then
      if c.multi then OpsIn(x.children) else AskedEach(n, c, env, x.children)
    else if x.op.name.Some? then [x.op]
    else if x.regex.Some? && c.valid(x.regex.value) then Named(c, x, env.order(n.attributes.Keys))
    else []
  }

  function AskedEach(n: Node, c: Context, env: Env, children: seq<Message>): seq<Op>
    decreases MaxRank(children), 1, |children|
  {
    if children == [] then [] else
      var y := children[|children|-1];
      AskedEach(n, c, env, children[..|children|-1]) + if y.isOp then Asked(n, c, env, y) else []
  }

  function TellEach(n: Node, c: Context, asked: seq<Op>): (told: seq<Op>) {
    if asked == [] then []
    else TellEach(n, c, asked[..|asked|-1])
         + if Possible(n, c, asked[|asked|-1]) then [Told(n, c, asked[|asked|-1])] else []
  }

  predicate AllPossible(n: Node, c: Context, asked: seq<Op>) {
    forall i :: 0 <= i < |asked| ==> Possible(n, c, asked[i])
  }

  /** The operations that some messages carry. */
  function Carried(ms: seq<Message>): seq<Op> {
    if ms == [] then []
    else
      var m := ms[|ms|-1];
      Carried(ms[..|ms|-1]) + CarriedBy(m)
  }

  function CarriedBy(m: Message): seq<Op> {
    if m.children == [] then [m.op] else OpsIn(m.children)
  }

  // ---- What is sent ----

  lemma {:induction false} TellEachOf(n: Node, c: Context, xs: seq<Op>, ys: seq<Op>)
    ensures TellEach(n, c, xs + ys) == TellEach(n, c, xs) + TellEach(n, c, ys)
  {
    hide Told, Possible;
    if ys == [] {
      assert xs + ys == xs;
    } else {
      assert (xs + ys)[..|xs + ys|-1] == xs + ys[..|ys|-1];
      TellEachOf(n, c, xs, ys[..|ys|-1]);
    }
  }

  lemma TellOne(n: Node, c: Context, op: Op)
    ensures TellEach(n, c, [op]) == if Possible(n, c, op) then [Told(n, c, op)] else []
  {
    hide Told, Possible;
    assert [op][..0] == [];
  }

  lemma {:induction false} CarriedOf(xs: seq<Message>, ys: seq<Message>)
    ensures Carried(xs + ys) == Carried(xs) + Carried(ys)
  {
    hide CarriedBy;
    if ys == [] {
      assert xs + ys == xs;
    } else {
      var front, last := ys[..|ys|-1], ys[|ys|-1];
      assert (xs + ys)[..|xs + ys|-1] == xs + front && (xs + ys)[|xs + ys|-1] == last;
      CarriedOf(xs, front);
      assert Carried(xs) + Carried(front) + CarriedBy(last) == Carried(xs) + (Carried(front) + CarriedBy(last));
    }
  }

  lemma CarriedOne(m: Message)
    ensures Carried([m]) == if m.children == [] then [m.op] else OpsIn(m.children)
  {
    assert [m][..0] == [];
  }

  /** Preparing children: all of them are told, or none is sent. */
  lemma {:induction false} PreparedAreTold(n: Node, c: Context, children: seq<Message>)
    ensures var r := PrepareEach(n, c, children);
      && (r.Some? <==> AllPossible(n, c, OpsIn(children)))
      && (r.Some? ==> |r.value| == |children| && OpsIn(r.value) == TellEach(n, c, OpsIn(children)))
  {
    hide Prepare, Told, Possible;
    if children != [] {
      var front, child := children[..|children|-1], children[|children|-1];
      PreparedAreTold(n, c, front);
      PreparedIsTold(n, c, child.op);
      var ops := OpsIn(front);
      if child.isOp {
        AllPossibleMore(n, c, ops, child.op);
        assert (ops + [child.op])[..|ops|] == ops;
        var r := PrepareEach(n, c, front);
        if r.Some? && Possible(n, c, child.op) {
          var ready := child.(op := Told(n, c, child.op));
          assert (r.value + [ready])[..|r.value|] == r.value;
        }
      } else {
        assert ops + [] == ops;
        var r := PrepareEach(n, c, front);
        if r.Some? {
          assert (r.value + [child])[..|r.value|] == r.value;
        }
      }
    }
  }

  lemma AllPossibleMore(n: Node, c: Context, ops: seq<Op>, op: Op)
    ensures AllPossible(n, c, ops + [op]) <==> AllPossible(n, c, ops) && Possible(n, c, op)
  {
    hide Possible;
    if AllPossible(n, c, ops + [op]) {
      assert forall i :: 0 <= i < |ops| ==> (ops + [op])[i] == ops[i];
      assert (ops + [op])[|ops|] == op;
    }
  }

  lemma {:induction false} MatchesAre(n: Node, c: Context, x: Message, names: seq<string>)
    ensures OpsIn(MatchEach(n, c, x, names)) == Named(c, x, names)
    ensures AskedMatches(n, c, x, names)
  {
    if names != [] {
      var front, name := names[..|names|-1], names[|names|-1];
      MatchesAre(n, c, x, front);
      var kids := MatchEach(n, c, x, front);
      if x.regex.Some? && c.matches(x.regex.value, name) {
        var kid := Message(true, x.op.(name := Some(name)), None, []);
        assert (kids + [kid])[..|kids|] == kids;
      } else {
        assert kids + [] == kids;
      }
    }
  }

  /** The children made for matches are operations that name one attribute. */
  ghost predicate AskedMatches(n: Node, c: Context, x: Message, names: seq<string>) {
    forall y :: y in MatchEach(n, c, x, names) ==> IsSimple(y)
  }

  lemma {:induction false} SimpleAsk(n: Node, c: Context, env: Env, kids: seq<Message>)
    requires forall y :: y in kids ==> IsSimple(y)
    ensures AskedEach(n, c, env, kids) == OpsIn(kids)
  {
    if kids != [] {
      var front, y := kids[..|kids|-1], kids[|kids|-1];
      assert y in kids;
      SimpleAsk(n, c, env, front);
    }
  }

  lemma {:induction false} NamedArePossible(n: Node, c: Context, x: Message, names: seq<string>)
    requires forall name :: name in names ==> name in n.attributes
    ensures AllPossible(n, c, Named(c, x, names))
  {
    if names != [] {
      var front, name := names[..|names|-1], names[|names|-1];
      assert name in names;
      NamedArePossible(n, c, x, front);
      hide Possible;
      AllPossibleMore(n, c, Named(c, x, front), x.op.(name := Some(name)));
      assert Possible(n, c, x.op.(name := Some(name))) by { Exists(n, c, x.op.(name := Some(name))); }
      assert Named(c, x, front) + [] == Named(c, x, front);
    }
  }

  lemma Exists(n: Node, c: Context, op: Op)
    requires op.name.Some? && op.name.value in n.attributes
    ensures Possible(n, c, op)
  {
  }

  /** What has been sent on top of what had been sent before. */
  ghost predicate Adds(before: seq<Message>, after: seq<Message>, told: seq<Op>) {
    |before| <= |after| && after[..|before|] == before && Carried(after[|before|..]) == told
  }

  lemma AddsNothing(before: seq<Message>)
    ensures Adds(before, before, [])
  {
    assert before[|before|..] == [];
  }

  lemma AddsOne(before: seq<Message>, m: Message)
    ensures Adds(before, before + [m], if m.children == [] then [m.op] else OpsIn(m.children))
  {
    assert (before + [m])[|before|..] == [m] && (before + [m])[..|before|] == before;
    CarriedOne(m);
  }

  lemma AddsMore(s0: seq<Message>, s1: seq<Message>, s2: seq<Message>, told1: seq<Op>, told2: seq<Op>)
    requires Adds(s0, s1, told1) && Adds(s1, s2, told2)
    ensures Adds(s0, s2, told1 + told2)
  {
    assert s2[..|s0|] == s2[..|s1|][..|s0|] == s0;
    assert s2[|s0|..] == s1[|s0|..] + s2[|s1|..] by { assert s2 == s1 + s2[|s1|..]; }
    CarriedOf(s1[|s0|..], s2[|s1|..]);
  }

  /** The operations that a request leads to: those asked for that are possible; but if peers take them all at once, and
      one of them is not possible, none. */
  function Expected(n: Node, c: Context, env: Env, x: Message): seq<Op> {
    var asked := Asked(n, c, env, x);
    if c.multi && !AllPossible(n, c, asked) then [] else TellEach(n, c, asked)
  }

  /** A client's request leads to the broadcast of what it asked for, in order, and nothing else: every operation goes to
      the node the client named, or the local one, and carries the value it asked for, or the outcome of its increment. */
  lemma {:induction false} BroadcastsWhatIsAsked(n: Node, c: Context, env: Env, x: Message, e: Effect)
    requires ValidEnv(env) && !Stuck(c.multi, x)
    ensures Adds(e.sent, Answer(n, c, env, x, e).sent, Expected(n, c, env, x))
    decreases Rank(x), 0, 1
  {
    hide Adds, Told, Possible, Prepare;
    AddsNothing(e.sent);
    if x.children != [] {
      if c.multi {
        PreparedAreTold(n, c, x.children);
        var r := PrepareEach(n, c, x.children);
        if r.Some? { AddsOne(e.sent, x.(children := r.value)); }
      } else {
        EachIsBroadcast(n, c, env, x.children, e);
      }
    } else if x.op.name.Some? {
      NamedIsBroadcast(n, c, env, x, e);
    } else if x.regex.Some? && c.valid(x.regex.value) {
      RegexIsBroadcast(n, c, env, x, e);
    }
  }

  lemma NamedIsBroadcast(n: Node, c: Context, env: Env, x: Message, e: Effect)
    requires x.children == [] && x.op.name.Some? && x.regex.None?
    ensures !Stuck(c.multi, x) && Adds(e.sent, Answer(n, c, env, x, e).sent, Expected(n, c, env, x))
  {
    hide Adds, Told, Possible, Prepare;
    PreparedIsTold(n, c, x.op);
    TellOne(n, c, x.op);
    AddsNothing(e.sent);
    assert AllPossible(n, c, [x.op]) <==> Possible(n, c, x.op) by { assert [] + [x.op] == [x.op]; AllPossibleMore(n, c, [], x.op); }
    if Possible(n, c, x.op) { AddsOne(e.sent, x.(op := Told(n, c, x.op))); }
  }

  lemma {:induction false} RegexIsBroadcast(n: Node, c: Context, env: Env, x: Message, e: Effect)
    requires ValidEnv(env) && x.children == [] && x.op.name.None? && x.regex.Some? && c.valid(x.regex.value)
    ensures !Stuck(c.multi, x) && Adds(e.sent, Answer(n, c, env, x, e).sent, Expected(n, c, env, x))
    decreases Rank(x), 0, 0
  {
    hide Adds, Told, Possible, Prepare;
    AddsNothing(e.sent);
    var names := env.order(n.attributes.Keys);
    assert Enumerates(names, n.attributes.Keys);
    MatchesAre(n, c, x, names);
    MatchSimple(n, c, x, names);
    NamedArePossible(n, c, x, names);
    ExpandedRank(n, c, env, x);
    var expanded := Expanded(n, c, env, x);
    SimpleAsk(n, c, env, expanded.children);
    if expanded.children != [] {
      BroadcastsWhatIsAsked(n, c, env, expanded, e);
    } else {
      assert Named(c, x, names) == [];
    }
  }

  lemma {:induction false} EachIsBroadcast(n: Node, c: Context, env: Env, children: seq<Message>, e: Effect)
    requires ValidEnv(env) && !c.multi && forall y :: y in children && y.isOp ==> !Stuck(c.multi, y)
    ensures Adds(e.sent, AnswerEach(n, c, env, children, e).sent, TellEach(n, c, AskedEach(n, c, env, children)))
    decreases MaxRank(children), 1, |children|
  {
    hide Adds, Told, Possible, Prepare, Answer, Stuck;
    AddsNothing(e.sent);
    if children != [] {
      var front, y := children[..|children|-1], children[|children|-1];
      assert forall z :: z in front ==> z in children;
      EachIsBroadcast(n, c, env, front, e);
      if y.isOp {
        assert y in children;
        var e1 := AnswerEach(n, c, env, front, e);
        BroadcastsWhatIsAsked(n, c, env, y, e1);
        TellEachOf(n, c, AskedEach(n, c, env, front), Asked(n, c, env, y));
        AddsMore(e.sent, e1.sent, Answer(n, c, env, y, e1).sent,
                 TellEach(n, c, AskedEach(n, c, env, front)), TellEach(n, c, Asked(n, c, env, y)));
      } else {
        assert AskedEach(n, c, env, front) + [] == AskedEach(n, c, env, front);
      }
    }
  }

  /** What the client is told about a request without children. */
  lemma RepliesAre(n: Node, c: Context, env: Env, x: Message, e: Effect)
    requires ValidEnv(env) && x.children == [] && !Stuck(c.multi, x)
    ensures var reply := Answer(n, c, env, x, e).reply;
      if x.op.name.Some? then reply == (if Possible(n, c, x.op) then Done else NoSuchAttribute)
      else if x.regex.None? then reply == NothingNamed
      else if !c.valid(x.regex.value) then reply == BadRegex
      else Asked(n, c, env, x) == [] ==> reply == e.reply
  {
    hide Told, Prepare;
    PreparedIsTold(n, c, x.op);
    if x.op.name.None? && x.regex.Some? && c.valid(x.regex.value) {
      MatchesAre(n, c, x, env.order(n.attributes.Keys));
      MatchSimple(n, c, x, env.order(n.attributes.Keys));
      NoneMatched(MatchEach(n, c, x, env.order(n.attributes.Keys)));
    }
  }

  lemma NoneMatched(kids: seq<Message>)
    requires forall y :: y in kids ==> IsSimple(y)
    ensures OpsIn(kids) == [] ==> kids == []
  {
    if kids != [] { assert kids[|kids|-1] in kids; }
  }

  /** Several operations are broadcast in one message that is otherwise the client's: what is not an operation, and what
      the operations have in common, stays as it is. */
  lemma {:induction false} PreparedKeepsOthers(n: Node, c: Context, children: seq<Message>)
    requires PrepareEach(n, c, children).Some?
    ensures var r := PrepareEach(n, c, children).value;
      && |r| == |children|
      && forall i :: 0 <= i < |r| ==> r[i] == if children[i].isOp then children[i].(op := r[i].op) else children[i]
  {
    hide Prepare;
    if children != [] {
      PreparedKeepsOthers(n, c, children[..|children|-1]);
    }
  }

  lemma BatchIsTheRequest(n: Node, c: Context, env: Env, x: Message, e: Effect)
    requires c.multi && x.children != [] && AllPossible(n, c, OpsIn(x.children))
    ensures !Stuck(c.multi, x)
    ensures var r := Answer(n, c, env, x, e);
      && r.reply == Done && |r.sent| == |e.sent| + 1 && r.sent[..|e.sent|] == e.sent
      && var m := r.sent[|e.sent|];
      && m == x.(children := m.children) && |m.children| == |x.children|
      && forall i :: 0 <= i < |m.children| ==>
           m.children[i] == if x.children[i].isOp then x.children[i].(op := m.children[i].op) else x.children[i]
  {
    hide Prepare, Possible;
    PreparedAreTold(n, c, x.children);
    PreparedKeepsOthers(n, c, x.children);
  }

  /** End to end: a client that sets a value without naming a node sets it for the node it runs on, at every peer. */
  lemma ClientSetsLocalValue(n: Node, c: Context, env: Env, name: string, value: string, p: Node, env': Env)
    requires ValidEnv(env) && ValidEnv(env') && Folded(TableOf(p)) && c.task == Some(Update)
    requires forall old' :: c.expand(value, old').None?
    ensures var x := Message(true, NoAttrs.(task := Some(Update), name := Some(name), value := Some(value)), None, []);
      !Stuck(c.multi, x)
      && var sent := Answer(n, c, env, x, Effect([], NoReply)).sent;
      && |sent| == 1
      && SameText(SyncTransfer.CurrentIn(TableOf(PeerUpdate(p, AsElement(sent[0]), false, env')), name, Fold(n.self)), Some(value))
  {
    hide Fold, TableOf, Folded, PeerUpdate, Prepare;
    var op := NoAttrs.(task := Some(Update), name := Some(name), value := Some(value));
    var x := Message(true, op, None, []);
    PreparedIsTold(n, c, op);
    var told := Told(n, c, op);
    var sent := Answer(n, c, env, x, Effect([], NoReply)).sent;
    assert sent == [x.(op := told)];
    var e := Element(true, told, []);
    assert AsElement(sent[0]) == e;
    PeerUpdateView(p, e, false, env');
    assert NewRow(told).Some?;
  }
}
