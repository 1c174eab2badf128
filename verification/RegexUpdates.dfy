/** An update that names attributes by a regular expression is broadcast as one message with an operation for
    each match or, when some peer cannot take that, as one message for each match. Peers end up the same. */
module RegexUpdates {
  import opened Common
  import opened Model
  import opened CibWrites
  import opened Attributes
  import opened Corosync
  import opened Replica
  import opened Client
  import ClientBroadcasts

  /** A request that names attributes by a valid regular expression only. */
  predicate ByRegex(c: Context, x: Message) {
    x.children == [] && x.op.name.None? && x.regex.Some? && c.valid(x.regex.value)
  }

  /** The operation broadcast for one attribute: what the client asked for, with the local node filled in where no node
      is named, and the outcome of an increment where the value is one. */
  function OpFor(n: Node, c: Context, x: Message, name: string): Op {
    ClientBroadcasts.Told(n, c, x.op.(name := Some(name)))
  }

  function MessageFor(n: Node, c: Context, x: Message, name: string): Message {
    Message(true, OpFor(n, c, x, name), None, [])
  }

  predicate Matched(n: Node, c: Context, x: Message, name: string) {
    name in n.attributes && x.regex.Some? && c.matches(x.regex.value, name)
  }

  /** Exactly one message for each match. */
  ghost predicate OnePerMatch(n: Node, c: Context, x: Message, ms: seq<Message>) {
    && (forall m :: m in ms ==> m.op.name.Some? && Matched(n, c, x, m.op.name.value)
                                && m == MessageFor(n, c, x, m.op.name.value))
    && (forall name :: Matched(n, c, x, name) ==> MessageFor(n, c, x, name) in ms)
    && DistinctNames(ms)
  }

  ghost predicate DistinctNames(ms: seq<Message>) {
    forall i, j :: 0 <= i < j < |ms| ==> ms[i].op.name != ms[j].op.name
  }

  // ---- What is broadcast ----

  function Messages(n: Node, c: Context, x: Message, names: seq<string>): seq<Message> {
    if names == [] then [] else
      var name := names[|names|-1];
      Messages(n, c, x, names[..|names|-1]) + (if Matched(n, c, x, name) then [MessageFor(n, c, x, name)] else [])
  }

  lemma {:induction false} MessagesMatch(n: Node, c: Context, x: Message, names: seq<string>)
    ensures forall m :: m in Messages(n, c, x, names) ==>
      && m.op.name.Some? && Matched(n, c, x, m.op.name.value) && m.op.name.value in names
      && m == MessageFor(n, c, x, m.op.name.value)
  {
    if names != [] {
      var front, name := names[..|names|-1], names[|names|-1];
      MessagesMatch(n, c, x, front);
      assert names == front + [name];
      assert OpFor(n, c, x, name).name == Some(name);
      hide Matched, OpFor;
    }
  }

  lemma {:induction false} MatchesHaveMessages(n: Node, c: Context, x: Message, names: seq<string>, name: string)
    requires name in names && Matched(n, c, x, name)
    ensures MessageFor(n, c, x, name) in Messages(n, c, x, names)
  {
    hide Matched, MessageFor;
    var front, last := names[..|names|-1], names[|names|-1];
    assert names == front + [last];
    if name != last {
      MatchesHaveMessages(n, c, x, front, name);
    }
  }

  lemma {:induction false} MessagesDistinct(n: Node, c: Context, x: Message, names: seq<string>)
    requires forall i, j :: 0 <= i < j < |names| ==> names[i] != names[j]
    ensures DistinctNames(Messages(n, c, x, names))
  {
    if names != [] {
      var front, name := names[..|names|-1], names[|names|-1];
      MessagesDistinct(n, c, x, front);
      MessagesMatch(n, c, x, front);
      assert OpFor(n, c, x, name).name == Some(name);
      hide Matched, OpFor;
      var ms := Messages(n, c, x, front);
      forall i | 0 <= i < |ms|
        ensures ms[i].op.name != Some(name)
      {
        assert ms[i] in ms;
        assert name !in front;
      }
    }
  }

  lemma MessagesAre(n: Node, c: Context, x: Message, names: seq<string>)
    requires Enumerates(names, n.attributes.Keys)
    ensures OnePerMatch(n, c, x, Messages(n, c, x, names))
  {
    MessagesMatch(n, c, x, names);
    MessagesDistinct(n, c, x, names);
    forall name | Matched(n, c, x, name)
      ensures MessageFor(n, c, x, name) in Messages(n, c, x, names)
    {
      MatchesHaveMessages(n, c, x, names, name);
    }
  }

  lemma PreparedMatch(n: Node, c: Context, x: Message, name: string)
    requires name in n.attributes
    ensures Prepare(n, c, x.op.(name := Some(name))) == Some(OpFor(n, c, x, name))
  {
    ClientBroadcasts.PreparedIsTold(n, c, x.op.(name := Some(name)));
  }

  /** The expanded request, prepared, carries exactly the messages. */
  lemma {:induction false} PreparedMatches(n: Node, c: Context, x: Message, names: seq<string>)
    requires x.regex.Some? && forall name :: name in names ==> name in n.attributes
    ensures PrepareEach(n, c, MatchEach(n, c, x, names)) == Some(Messages(n, c, x, names))
  {
    hide Prepare, OpFor;
    if names != [] {
      var front, name := names[..|names|-1], names[|names|-1];
      PreparedMatches(n, c, x, front);
      var kids := MatchEach(n, c, x, front);
      if c.matches(x.regex.value, name) {
        var kid := Message(true, x.op.(name := Some(name)), None, []);
        assert (kids + [kid])[..|kids|] == kids;
        PreparedMatch(n, c, x, name);
      } else {
        assert kids + [] == kids;
        assert Messages(n, c, x, front) + [] == Messages(n, c, x, front);
      }
    }
  }

  lemma AnswerToMatch(n: Node, c: Context, env: Env, x: Message, name: string, e: Effect)
    requires x.regex.Some? && name in n.attributes
    requires !Stuck(c.multi, Message(true, x.op.(name := Some(name)), None, []))
    ensures Answer(n, c, env, Message(true, x.op.(name := Some(name)), None, []), e)
         == Effect(e.sent + [MessageFor(n, c, x, name)], Done)
  {
    assert Prepare(n, c, x.op.(name := Some(name))) == Some(OpFor(n, c, x, name)) by {
      ClientBroadcasts.PreparedIsTold(n, c, x.op.(name := Some(name)));
    }
    hide Prepare, OpFor, Stuck;
  }

  lemma AnswerOneMore(n: Node, c: Context, env: Env, kids: seq<Message>, kid: Message, e: Effect)
    requires kid.isOp && forall y :: y in kids + [kid] && y.isOp ==> !Stuck(c.multi, y)
    ensures forall y :: y in kids ==> y in kids + [kid]
    ensures kid in kids + [kid]
    ensures AnswerEach(n, c, env, kids + [kid], e) == Answer(n, c, env, kid, AnswerEach(n, c, env, kids, e))
  {
    hide Answer, Stuck;
    assert (kids + [kid])[..|kids|] == kids;
  }

  lemma {:induction false} AnsweredMatches(n: Node, c: Context, env: Env, x: Message, names: seq<string>, e: Effect)
    requires x.regex.Some? && forall name :: name in names ==> name in n.attributes
    requires forall y :: y in MatchEach(n, c, x, names) && y.isOp ==> !Stuck(c.multi, y)
    ensures AnswerEach(n, c, env, MatchEach(n, c, x, names), e)
         == Effect(e.sent + Messages(n, c, x, names), if Messages(n, c, x, names) == [] then e.reply else Done)
  {
    hide Answer, Stuck, MessageFor;
    if names != [] {
      var front, name := names[..|names|-1], names[|names|-1];
      var kids := MatchEach(n, c, x, front);
      assert name in names;
      if c.matches(x.regex.value, name) {
        var kid := Message(true, x.op.(name := Some(name)), None, []);
        assert MatchEach(n, c, x, names) == kids + [kid] && Matched(n, c, x, name);
        hide AnswerEach, MatchEach;
        AnswerOneMore(n, c, env, kids, kid, e);
        AnsweredMatches(n, c, env, x, front, e);
        AnswerToMatch(n, c, env, x, name, AnswerEach(n, c, env, kids, e));
      } else {
        assert MatchEach(n, c, x, names) == kids + [] == kids;
        hide AnswerEach, MatchEach;
        AnsweredMatches(n, c, env, x, front, e);
      }
    }
  }

  lemma {:induction false} SameMatches(n: Node, c: Context, multi: bool, x: Message, names: seq<string>)
    ensures Messages(n, c.(multi := multi), x, names) == Messages(n, c, x, names)
  {
    if names != [] {
      SameMatches(n, c, multi, x, names[..|names|-1]);
    }
  }

  /** Peers that take several operations at once get one message, whose operations are just the messages that
      the others get: one for each match, with the host filled in and the value computed from the local table. */
  lemma RegexBroadcast(n: Node, c: Context, env: Env, x: Message, e: Effect) returns (ms: seq<Message>)
    requires ValidEnv(env) && ByRegex(c, x)
    ensures OnePerMatch(n, c, x, ms)
    ensures !Stuck(true, x) && !Stuck(false, x)
    ensures ms == [] ==> Answer(n, c.(multi := true), env, x, e) == e == Answer(n, c.(multi := false), env, x, e)
    ensures ms != [] ==>
      && Answer(n, c.(multi := true), env, x, e) == Effect(e.sent + [x.(children := ms)], Done)
      && Answer(n, c.(multi := false), env, x, e) == Effect(e.sent + ms, Done)
  {
    var names := env.order(n.attributes.Keys);
    assert Enumerates(names, n.attributes.Keys);
    ms := Messages(n, c, x, names);
    MessagesAre(n, c, x, names);
    SameMatches(n, c, true, x, names);
    SameMatches(n, c, false, x, names);
    hide Answer, Messages, Enumerates, OnePerMatch;
    RegexAnswer(n, c.(multi := true), env, x, e);
    RegexAnswer(n, c.(multi := false), env, x, e);
  }

  lemma RegexAnswer(n: Node, c: Context, env: Env, x: Message, e: Effect)
    requires ValidEnv(env) && ByRegex(c, x)
    ensures var ms := Messages(n, c, x, env.order(n.attributes.Keys));
      Answer(n, c, env, x, e) ==
        if ms == [] then e
        else if c.multi then Effect(e.sent + [x.(children := ms)], Done)
        else Effect(e.sent + ms, Done)
  {
    var names := env.order(n.attributes.Keys);
    assert Enumerates(names, n.attributes.Keys);
    PreparedMatches(n, c, x, names);
    PreparedLength(n, c, MatchEach(n, c, x, names));
    AnswersByRegex(n, c, env, x, e);
    AnsweredMatches(n, c, env, x, names, e);
    hide Answer, MatchEach, Messages, PrepareEach;
  }

  lemma {:induction false} PreparedLength(n: Node, c: Context, children: seq<Message>)
    ensures PrepareEach(n, c, children).Some? ==> |PrepareEach(n, c, children).value| == |children|
  {
    if children != [] {
      PreparedLength(n, c, children[..|children|-1]);
    }
  }

  /** One unfolding of the recursion. */
  lemma AnswersByRegex(n: Node, c: Context, env: Env, x: Message, e: Effect)
    requires ByRegex(c, x)
    ensures var kids := MatchEach(n, c, x, env.order(n.attributes.Keys));
      && (forall y :: y in kids && y.isOp ==> !Stuck(c.multi, y))
      && Answer(n, c, env, x, e) ==
         if kids == [] then e
         else if !c.multi then AnswerEach(n, c, env, kids, e)
         else match PrepareEach(n, c, kids)
              case None => e.(reply := NoSuchAttribute)
              case Some(ready) => Effect(e.sent + [x.(children := ready)], Done)
  {
    ExpandedRank(n, c, env, x);
  }

  // ---- What peers make of it ----

  function Repeat(env: Env, k: nat): (envs: seq<Env>)
    ensures |envs| == k
  {
    if k == 0 then [] else Repeat(env, k - 1) + [env]
  }

  /** A peer takes in a series of messages, traversing its tables in any order each time. */
  function Receives(p: Node, ms: seq<Message>, envs: seq<Env>): Node
    requires |ms| == |envs|
  {
    if ms == [] then p
    else PeerUpdate(Receives(p, ms[..|ms|-1], envs[..|ms|-1]), AsElement(ms[|ms|-1]), false, envs[|ms|-1])
  }

  /** The operations already carry all that the enclosing message would add. */
  lemma NothingToInherit(n: Node, c: Context, x: Message, name: string)
    requires x.op.name.None?
    ensures Merge(OpFor(n, c, x, name), x.op) == OpFor(n, c, x, name)
  {
  }

  lemma {:induction false} SplitChildren(p: Node, x: Op, ms: seq<Message>, env: Env)
    requires forall m :: m in ms ==> m.isOp && m.children == [] && Merge(m.op, x) == m.op
    ensures UpdateChildren(p, x, AsElements(ms), false, env)
         == Receives(p, ms, Repeat(env, |ms|))
  {
    if ms != [] {
      var front, m := ms[..|ms|-1], ms[|ms|-1];
      SplitChildren(p, x, front, env);
      assert AsElements(ms)[..|ms|-1] == AsElements(front) && AsElements(ms)[|ms|-1] == AsElement(m);
      assert Repeat(env, |ms|)[..|ms|-1] == Repeat(env, |front|);
      assert m in ms;
      hide PeerUpdateOne, Merge;
    }
  }

  /** A peer that takes in the single message ends in the very state that the separate messages lead to. */
  lemma BatchIsSplit(n: Node, c: Context, env: Env, x: Message, p: Node, env': Env)
    requires ValidEnv(env) && ByRegex(c, x)
    ensures !Stuck(true, x) && !Stuck(false, x)
    ensures var batch, split := Answer(n, c.(multi := true), env, x, Effect([], NoReply)).sent,
                                Answer(n, c.(multi := false), env, x, Effect([], NoReply)).sent;
      Receives(p, batch, Repeat(env', |batch|)) == Receives(p, split, Repeat(env', |split|))
  {
    var ms := RegexBroadcast(n, c, env, x, Effect([], NoReply));
    hide Answer;
    if ms != [] {
      assert [] + [x.(children := ms)] == [x.(children := ms)] && [] + ms == ms;
      Inherited(n, c, x, ms);
      hide OnePerMatch, Receives;
      ReceivesBatch(p, x.(children := ms), env');
      SplitChildren(p, x.op, ms, env');
    }
  }

  lemma Inherited(n: Node, c: Context, x: Message, ms: seq<Message>)
    requires x.op.name.None? && OnePerMatch(n, c, x, ms)
    ensures forall m :: m in ms ==> m.isOp && m.children == [] && Merge(m.op, x.op) == m.op
  {
    forall m | m in ms
      ensures m.isOp && m.children == [] && Merge(m.op, x.op) == m.op
    {
      NothingToInherit(n, c, x, m.op.name.value);
      hide OpFor, Matched, Merge;
    }
  }

  lemma ReceivesBatch(p: Node, b: Message, env: Env)
    requires b.children != []
    ensures Receives(p, [b], Repeat(env, 1))
         == UpdateChildren(p, b.op, AsElements(b.children), false, env)
  {
    hide UpdateChildren, PeerUpdateOne;
    assert [b][..0] == [];
    assert Receives(p, [b], Repeat(env, 1)) == PeerUpdate(p, AsElement(b), false, env);
  }

  // ---- In any order ----

  function UpdateOps(t: Table, ms: seq<Message>): Table {
    if ms == [] then t else UpdateOne(UpdateOps(t, ms[..|ms|-1]), ms[|ms|-1].op, None)
  }

  /** An update looks at and changes the row it names only. */
  lemma UpdateIsLocal(t: Table, u: Table, op: Op, name: string)
    ensures op.name != Some(name) ==> Lookup(UpdateOne(t, op, None), name) == Lookup(t, name)
    ensures op.name == Some(name) && Lookup(t, name) == Lookup(u, name) ==>
      Lookup(UpdateOne(t, op, None), name) == Lookup(UpdateOne(u, op, None), name)
  {
    hide UpdateRow, UpdateAllRow;
    if op.name == Some(name) && Lookup(t, name) == Lookup(u, name) {
      assert FindRow(t, op, name) == FindRow(u, op, name);
    }
  }

  lemma {:induction false} RowAfter(t: Table, ms: seq<Message>, name: string)
    requires DistinctNames(ms)
    ensures (forall m :: m in ms ==> m.op.name != Some(name)) ==> Lookup(UpdateOps(t, ms), name) == Lookup(t, name)
    ensures forall m :: m in ms && m.op.name == Some(name) ==>
      Lookup(UpdateOps(t, ms), name) == Lookup(UpdateOne(t, m.op, None), name)
  {
    hide UpdateOne, Lookup;
    if ms != [] {
      var front, last := ms[..|ms|-1], ms[|ms|-1];
      RowAfter(t, front, name);
      assert ms == front + [last];
      assert forall m :: m in front ==> m in ms && m.op.name != last.op.name;
      UpdateIsLocal(UpdateOps(t, front), t, last.op, name);
    }
  }

  lemma OrderIsIrrelevant(t: Table, ms: seq<Message>, ms': seq<Message>)
    requires DistinctNames(ms) && DistinctNames(ms') && forall m :: m in ms <==> m in ms'
    ensures UpdateOps(t, ms) == UpdateOps(t, ms')
  {
    var u, u' := UpdateOps(t, ms), UpdateOps(t, ms');
    forall name
      ensures Lookup(u, name) == Lookup(u', name)
    {
      RowAfter(t, ms, name);
      RowAfter(t, ms', name);
      if m :| m in ms && m.op.name == Some(name) {
        assert m in ms';
      }
    }
    assert forall name :: Lookup(u, name) == Lookup(u', name);
    assert forall name :: (name in u <==> Lookup(u, name).Some?) && (name in u' <==> Lookup(u', name).Some?);
  }

  lemma {:induction false} ReceivesView(p: Node, ms: seq<Message>, envs: seq<Env>)
    requires |ms| == |envs| && (forall env :: env in envs ==> ValidEnv(env)) && Folded(TableOf(p))
    requires forall m :: m in ms ==> m.children == []
    ensures Views(p, Receives(p, ms, envs), UpdateOps(TableOf(p), ms))
    ensures Folded(UpdateOps(TableOf(p), ms))
  {
    hide TableOf, Folded, PeerUpdate, UpdateOne;
    if ms != [] {
      var q := Receives(p, ms[..|ms|-1], envs[..|ms|-1]);
      ReceivesView(p, ms[..|ms|-1], envs[..|ms|-1]);
      var m, env := ms[|ms|-1], envs[|ms|-1];
      assert m in ms && env in envs;
      assert AsElement(m).children == [];
      PeerUpdateView(q, AsElement(m), false, env);
    }
  }

  lemma {:induction false} EachIsOps(t: Table, x: Op, ms: seq<Message>)
    requires forall m :: m in ms ==> m.isOp && m.children == [] && Merge(m.op, x) == m.op
    ensures UpdateEach(t, x, AsElements(ms), None) == UpdateOps(t, ms)
  {
    if ms != [] {
      var front, m := ms[..|ms|-1], ms[|ms|-1];
      EachIsOps(t, x, front);
      assert AsElements(ms)[..|ms|-1] == AsElements(front) && AsElements(ms)[|ms|-1] == AsElement(m);
      assert m in ms;
      hide UpdateOne, Merge;
    }
  }

  /** One peer takes in the single message, another with the same table takes in one message for each match, in
      any order, and each traverses its tables as it likes: their tables are the same again. */
  lemma BatchRefinesSplit(n: Node, c: Context, env: Env, x: Message, p: Node, env': Env,
                          q: Node, split: seq<Message>, envs: seq<Env>)
    requires ValidEnv(env) && ByRegex(c, x) && !Stuck(true, x)
    requires ValidEnv(env') && |split| == |envs| && forall e :: e in envs ==> ValidEnv(e)
    requires OnePerMatch(n, c, x, split)
    requires TableOf(p) == TableOf(q) && Folded(TableOf(p))
    ensures var batch := Answer(n, c.(multi := true), env, x, Effect([], NoReply)).sent;
      TableOf(Receives(p, batch, Repeat(env', |batch|))) == TableOf(Receives(q, split, envs))
  {
    var ms := RegexBroadcast(n, c, env, x, Effect([], NoReply));
    SameMessages(n, c, x, ms, split);
    Inherited(n, c, x, ms);
    Inherited(n, c, x, split);
    OrderIsIrrelevant(TableOf(p), ms, split);
    hide TableOf, Folded, Answer, OnePerMatch, Views, Receives, UpdateOps, UpdateEach;
    ReceivesView(q, split, envs);
    Unpack(q, Receives(q, split, envs), UpdateOps(TableOf(q), split));
    if ms != [] {
      assert [] + [x.(children := ms)] == [x.(children := ms)];
      EachIsOps(TableOf(p), x.op, ms);
      BatchView(p, x.(children := ms), env');
    } else {
      assert (split + [x])[0] in split || split == [];
      NothingReceived(p, env');
      NothingReceived(q, env');
    }
  }

  lemma NothingReceived(p: Node, env: Env)
    ensures Receives(p, [], []) == p && UpdateOps(TableOf(p), []) == TableOf(p)
  {
  }

  lemma Unpack(p: Node, p': Node, t: Table)
    requires Views(p, p', t)
    ensures TableOf(p') == t
  {
  }

  lemma BatchView(p: Node, b: Message, env: Env)
    requires ValidEnv(env) && Folded(TableOf(p)) && b.children != []
    ensures TableOf(Receives(p, [b], Repeat(env, 1)))
         == UpdateEach(TableOf(p), b.op, AsElements(b.children), None)
  {
    hide TableOf, Folded, UpdateEach, PeerUpdate;
    PeerUpdateView(p, AsElement(b), false, env);
    assert [b][..0] == [];
    assert Receives(p, [b], Repeat(env, 1)) == PeerUpdate(p, AsElement(b), false, env);
  }

  lemma SameMessages(n: Node, c: Context, x: Message, ms: seq<Message>, ms': seq<Message>)
    requires OnePerMatch(n, c, x, ms) && OnePerMatch(n, c, x, ms')
    ensures DistinctNames(ms) && DistinctNames(ms') && forall m :: m in ms <==> m in ms'
  {
    hide Matched, MessageFor;
  }
}
