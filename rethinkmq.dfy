/** `rethinkmq`: AMQP-style exchanges, topics and queues over a RethinkDB
    table. An exchange is a table whose primary key is `topic`; publishing
    upserts the topic's document, and a queue is a changefeed on that table
    filtered by the regexes its binding keys translate to.

    The server is modelled by `Table` (the documents and the change
    notifications its writes produce) and by the answers its queries give,
    which callers pass in; `MQConnection.log` records the queries sent. re2's
    `match` is a parameter `re(regex, topic)`. */
module RethinkMQ {
  import opened Store
  import opened BindingKey

  /** A document of the exchange's table; `force` is the `_force_change`
      uuid string that makes every write a change. */
  datatype Message = Message(topic: string, payload: Json, force: string)

  /** The ReQL filter `consume` builds: `r.row['topic'].match(regex)`
      terms joined with `|`. */
  datatype Matcher = Match(regex: string) | Or(left: Matcher, right: Matcher)

  /** Whether a document with this topic passes the filter, given re2's
      `match` as `re(regex, topic)`. */
  function Eval(m: Matcher, topic: string, re: (string, string) -> bool): bool {
    match m
    case Match(regex) => re(regex, topic)
    case Or(left, right) => Eval(left, topic, re) || Eval(right, topic, re)
  }

  /** The matcher for a non-empty list of regexes, folded left to right:
      the first regex, then `|` each following one. */
  function Combine(regexes: seq<string>): Matcher
    requires |regexes| > 0
    decreases |regexes|
  {
    if |regexes| == 1 then Match(regexes[0])
    else Or(Combine(regexes[..|regexes| - 1]), Match(regexes[|regexes| - 1]))
  }

  /** The OR-combination passes a topic iff one of the regexes matches it. */
  lemma {:induction false} CombineMatchesAny(regexes: seq<string>, topic: string, re: (string, string) -> bool)
    requires |regexes| > 0
    ensures Eval(Combine(regexes), topic, re) <==> exists i :: 0 <= i < |regexes| && re(regexes[i], topic)
    decreases |regexes|
  {
    if |regexes| > 1 {
      var init := regexes[..|regexes| - 1];
      CombineMatchesAny(init, topic, re);
      var last := regexes[|regexes| - 1];
      assert Combine(regexes) == Or(Combine(init), Match(last));
      assert Eval(Match(last), topic, re) == re(last, topic);
      assert Eval(Combine(regexes), topic, re) == (Eval(Combine(init), topic, re) || re(last, topic));
      if Eval(Combine(regexes), topic, re) {
        if Eval(Combine(init), topic, re) {
          var i :| 0 <= i < |init| && re(init[i], topic);
          assert regexes[i] == init[i];
        }
      } else {
        assert !Eval(Combine(init), topic, re) && !re(last, topic);
        forall i | 0 <= i < |regexes| ensures !re(regexes[i], topic) {
          if i < |regexes| - 1 {
            assert regexes[i] == init[i];
            assert !re(init[i], topic);
          }
        }
      }
    }
  }

  /** The translation of each binding key, in order. */
  function Translations(patterns: seq<string>): (regexes: seq<string>)
    ensures |regexes| == |patterns|
    decreases |patterns|
  {
    if patterns == [] then []
    else Translations(patterns[..|patterns| - 1]) + [Translate(patterns[|patterns| - 1])]
  }

  lemma {:induction false} TranslationsIndex(patterns: seq<string>, i: int)
    requires 0 <= i < |patterns|
    ensures Translations(patterns)[i] == Translate(patterns[i])
    decreases |patterns|
  {
    var init := patterns[..|patterns| - 1];
    if i < |init| {
      TranslationsIndex(init, i);
      assert init[i] == patterns[i];
    }
  }

  /** The documents of a changefeed that pass the filter, in feed order. */
  function Selected(feed: seq<Message>, m: Matcher, re: (string, string) -> bool): seq<Message>
    decreases |feed|
  {
    if feed == [] then []
    else
      var last := feed[|feed| - 1];
      Selected(feed[..|feed| - 1], m, re) + (if Eval(m, last.topic, re) then [last] else [])
  }

  /** Selection preserves feed order: the selection of a feed read in two
      parts is the two selections one after the other. */
  lemma {:induction false} SelectedAppend(a: seq<Message>, b: seq<Message>, m: Matcher, re: (string, string) -> bool)
    ensures Selected(a + b, m, re) == Selected(a, m, re) + Selected(b, m, re)
    decreases |b|
  {
    if b == [] {
      assert a + b == a;
    } else {
      var b' := b[..|b| - 1];
      assert (a + b)[..|a + b| - 1] == a + b';
      assert (a + b)[|a + b| - 1] == b[|b| - 1];
      SelectedAppend(a, b', m, re);
    }
  }

  /** A document is selected iff it is in the feed and passes the filter. */
  lemma {:induction false} SelectedMembers(feed: seq<Message>, m: Matcher, re: (string, string) -> bool, msg: Message)
    ensures msg in Selected(feed, m, re) <==> msg in feed && Eval(m, msg.topic, re)
    decreases |feed|
  {
    if feed != [] {
      var init := feed[..|feed| - 1];
      SelectedMembers(init, m, re, msg);
      assert feed == init + [feed[|feed| - 1]];
    }
  }

  /** What a consumer bound to `patterns` receives: a document of the feed
      iff its topic matches the translation of at least one binding key. */
  lemma ConsumeDeliversAny(patterns: seq<string>, feed: seq<Message>, re: (string, string) -> bool, msg: Message)
    requires |patterns| > 0
    ensures msg in Selected(feed, Combine(Translations(patterns)), re)
        <==> msg in feed && exists i :: 0 <= i < |patterns| && re(Translate(patterns[i]), msg.topic)
  {
    var regexes := Translations(patterns);
    SelectedMembers(feed, Combine(regexes), re, msg);
    CombineMatchesAny(regexes, msg.topic, re);
    if exists i :: 0 <= i < |regexes| && re(regexes[i], msg.topic) {
      var i :| 0 <= i < |regexes| && re(regexes[i], msg.topic);
      TranslationsIndex(patterns, i);
      assert re(Translate(patterns[i]), msg.topic);
    }
    if exists i :: 0 <= i < |patterns| && re(Translate(patterns[i]), msg.topic) {
      var i :| 0 <= i < |patterns| && re(Translate(patterns[i]), msg.topic);
      TranslationsIndex(patterns, i);
      assert re(regexes[i], msg.topic);
    }
  }

  /** What the generator yields for a delivered document:
      `message['topic'], message['payload']`. */
  function Pair(msg: Message): (string, Json) {
    (msg.topic, msg.payload)
  }

  /** `[binding_key_to_regex(pattern) for pattern in patterns]`. */
  method TranslateAll(patterns: seq<string>) returns (regexes: seq<string>)
    ensures regexes == Translations(patterns)
  {
    regexes := [];
    for i := 0 to |patterns|
      invariant regexes == Translations(patterns[..i])
    {
      var regex := BindingKeyToRegex(patterns[i]);
      assert patterns[..i + 1][..i] == patterns[..i];
      regexes := regexes + [regex];
    }
    assert patterns[..|patterns|] == patterns;
  }

  /** `matchers = match(regexes.pop(0))`, then `matchers |= match(regex)` for
      each remaining regex. */
  method OrAll(regexes: seq<string>) returns (matchers: Matcher)
    requires |regexes| > 0
    ensures matchers == Combine(regexes)
  {
    matchers := Match(regexes[0]);
    for i := 1 to |regexes|
      invariant matchers == Combine(regexes[..i])
    {
      assert regexes[..i + 1][..i] == regexes[..i];
      matchers := Or(matchers, Match(regexes[i]));
    }
    assert regexes[..|regexes|] == regexes;
  }

  /** The body of `consume` once it has binding keys: translate them, OR the
      `match` terms together, and yield the `(topic, payload)` of each
      document of the changefeed that passes. */
  method Deliver(patterns: seq<string>, feed: seq<Message>, re: (string, string) -> bool)
    returns (out: seq<(string, Json)>)
    requires |patterns| > 0
    ensures out == Yielded(Selected(feed, Combine(Translations(patterns)), re), Pair)
  {
    var regexes := TranslateAll(patterns);
    var matchers := OrAll(regexes);
    out := YieldEach(Selected(feed, matchers, re), Pair);
  }

  /** The exception `consume` raises when given no binding keys. */
  const NothingToConsume: Error := Raised("Nothing to consume, no patterns provided")

  /** The `assert_table` decorator's effect before the wrapped method runs:
      nothing once the table was asserted, otherwise `conn.assert_table`. */
  function Guard(asserted: bool, reply: Outcome): Outcome {
    if asserted then Pass else Tolerate(reply)
  }

  /** The queries the decorator sends. */
  function GuardLog(asserted: bool, name: string): seq<Query> {
    if asserted then [] else [TableCreate(name)]
  }

  /** The queries a run of guarded calls sends, one call per reply, starting
      from the flag value `asserted`. */
  function GuardedLog(asserted: bool, replies: seq<Outcome>, name: string): seq<Query>
    decreases |replies|
  {
    if replies == [] then []
    else GuardLog(asserted, name) + GuardedLog(asserted || Guard(asserted, replies[0]).Pass?, replies[1..], name)
  }

  /** `n` copies of `table_create(name)`. */
  function Creates(n: nat, name: string): (r: seq<Query>)
    ensures |r| == n
  {
    seq(n, _ => TableCreate(name))
  }

  /** Once asserted, guarded calls send nothing. */
  lemma {:induction false} GuardedLogAsserted(replies: seq<Outcome>, name: string)
    ensures GuardedLog(true, replies, name) == []
    decreases |replies|
  {
    if replies != [] {
      GuardedLogAsserted(replies[1..], name);
    }
  }

  /** A fresh exchange sends `table_create` on every guarded call up to and
      including the first one whose creation goes through (or on all of them
      when none does), and never after. */
  lemma {:induction false} GuardCreatesUntilFirstSuccess(replies: seq<Outcome>, name: string, k: nat)
    requires k <= |replies|
    requires forall j :: 0 <= j < k ==> Tolerate(replies[j]).Fail?
    requires k == |replies| || Tolerate(replies[k]).Pass?
    ensures GuardedLog(false, replies, name) == Creates(if k == |replies| then k else k + 1, name)
    decreases k
  {
    if replies == [] {
    } else if k == 0 {
      GuardedLogAsserted(replies[1..], name);
      assert GuardedLog(false, replies, name) == [TableCreate(name)] + [];
    } else {
      var rest := replies[1..];
      assert forall j :: 0 <= j < k - 1 ==> rest[j] == replies[j + 1];
      GuardCreatesUntilFirstSuccess(rest, name, k - 1);
      assert GuardedLog(false, replies, name) == [TableCreate(name)] + GuardedLog(false, rest, name);
      var n := if k == |replies| then k else k + 1;
      assert Creates(n, name) == [TableCreate(name)] + Creates(n - 1, name);
    }
  }

  /** A connection with its database; `log` is every query sent on it. */
  class MQConnection {
    const db: string
    var log: seq<Query>

    constructor (db: string)
      ensures this.db == db && log == []
    {
      this.db := db;
      log := [];
    }

    /** `assert_table`: sends `table_create(name, primary_key='topic',
        durability='soft')`, whose answer is `reply`; an "already exists"
        runtime error is tolerated, any other error propagates. */
    method AssertTable(name: string, reply: Outcome) returns (o: Outcome)
      modifies this
      ensures log == old(log) + [TableCreate(name)]
      ensures o == Tolerate(reply)
    {
      log := log + [TableCreate(name)];
      o := Tolerate(reply);
    }
  }

  /** The server-side table: documents by primary key `topic`, and the change
      notifications (new values) its writes have produced, in order. */
  class Table {
    const name: string
    var docs: map<string, Message>
    var changes: seq<Message>

    constructor (name: string)
      ensures this.name == name && docs == map[] && changes == []
    {
      this.name := name;
      docs := map[];
      changes := [];
    }

    /** `insert(msg, upsert=True)`: the document with `msg`'s topic becomes
        `msg`; the fresh `_force_change` makes the write a change. */
    method RunUpsert(msg: Message)
      modifies this
      ensures docs == old(docs)[msg.topic := msg]
      ensures changes == old(changes) + [msg]
    {
      docs := docs[msg.topic := msg];
      changes := changes + [msg];
    }
  }

  class Exchange {
    const name: string
    const conn: MQConnection
    const table: Table
    var asserted: bool

    constructor (conn: MQConnection, table: Table)
      ensures this.conn == conn && this.table == table
      ensures name == table.name && !asserted
    {
      this.conn := conn;
      this.table := table;
      name := table.name;
      asserted := false;
    }

    /** `topic(name)`. */
    method NewTopic(topicName: string) returns (t: Topic)
      ensures fresh(t) && t.name == topicName && t.exchange == this
    {
      t := new Topic(topicName, this);
    }

    /** `queue(*patterns)`. */
    method NewQueue(patterns: seq<Binding>) returns (q: Queue)
      ensures fresh(q) && q.exchange == this && q.bindings == Keys(patterns)
    {
      q := new Queue(this, patterns);
    }

    /** The `assert_table` decorator's prologue: unless the table was
        asserted, calls `conn.assert_table(name)`; the flag is set only when
        that returns normally. */
    method CheckTable(reply: Outcome) returns (o: Outcome)
      modifies this, conn
      ensures o == Guard(old(asserted), reply)
      ensures asserted == (old(asserted) || o.Pass?)
      ensures conn.log == old(conn.log) + GuardLog(old(asserted), name)
    {
      if !asserted {
        o := conn.AssertTable(name, reply);
        if o.Fail? {
          return;
        }
        asserted := true;
      }
      o := Pass;
    }

    /** What `publish(topic, payload)` does, given the decorator's
        `table_create` answer `reply` and the fresh uuid `force`. */
    twostate predicate Published(topic: string, payload: Json, reply: Outcome, force: string, o: Outcome)
      reads this, conn, table
    {
      && o == Guard(old(asserted), reply)
      && asserted == (old(asserted) || o.Pass?)
      && (o.Pass? ==>
            && conn.log == old(conn.log) + GuardLog(old(asserted), name) + [Insert(name)]
            && table.docs == old(table.docs)[topic := Message(topic, payload, force)]
            && table.changes == old(table.changes) + [Message(topic, payload, force)])
      && (o.Fail? ==>
            && conn.log == old(conn.log) + GuardLog(old(asserted), name)
            && table.docs == old(table.docs) && table.changes == old(table.changes))
    }

    /** `publish`: upserts `{topic, payload, _force_change}` after the
        decorator's check. */
    method Publish(topic: string, payload: Json, reply: Outcome, force: string) returns (o: Outcome)
      modifies this, conn, table
      ensures Published(topic, payload, reply, force, o)
    {
      o := CheckTable(reply);
      if o.Fail? {
        return;
      }
      conn.log := conn.log + [Insert(name)];
      table.RunUpsert(Message(topic, payload, force));
    }

    /** What `consume(*patterns)` does, given the decorator's `table_create`
        answer `reply`, the documents `feed` the changefeed delivers and re2's
        `match` as `re`. */
    twostate predicate Consumed(patterns: seq<string>, reply: Outcome, feed: seq<Message>,
                                re: (string, string) -> bool, new r: Result<seq<(string, Json)>>)
      reads this, conn
    {
      var g := Guard(old(asserted), reply);
      && asserted == (old(asserted) || g.Pass?)
      && (g.Fail? ==> r == Err(g.error) && conn.log == old(conn.log) + GuardLog(old(asserted), name))
      && (g.Pass? && patterns == [] ==>
            r == Err(NothingToConsume) && conn.log == old(conn.log) + GuardLog(old(asserted), name))
      && (g.Pass? && patterns != [] ==>
            && r == Ok(Yielded(Selected(feed, Combine(Translations(patterns)), re), Pair))
            && conn.log == old(conn.log) + GuardLog(old(asserted), name) + [Changes(name)])
    }

    /** `consume`: after the decorator's check, refuses an empty list of
        binding keys, translates each key, ORs the `match` terms left to
        right and yields `(topic, payload)` of every passing document. */
    method Consume(patterns: seq<string>, reply: Outcome, feed: seq<Message>, re: (string, string) -> bool)
      returns (r: Result<seq<(string, Json)>>)
      modifies this, conn
      ensures Consumed(patterns, reply, feed, re, r)
    {
      var o := CheckTable(reply);
      if o.Fail? {
        return Err(o.error);
      }
      if patterns == [] {
        return Err(NothingToConsume);
      }
      conn.log := conn.log + [Changes(name)];
      var out := Deliver(patterns, feed, re);
      r := Ok(out);
    }
  }

  /** Two guarded calls on an exchange that has not asserted its table: when
      the first goes through, the second sends nothing and goes through, so
      `table_create` was sent once; when the first raises, the second tries
      again. */
  method CheckTableTwice(exchange: Exchange, first: Outcome, second: Outcome) returns (o1: Outcome, o2: Outcome)
    requires !exchange.asserted
    modifies exchange, exchange.conn
    ensures o1 == Tolerate(first)
    ensures o1.Pass? ==> o2 == Pass && exchange.conn.log == old(exchange.conn.log) + [TableCreate(exchange.name)]
    ensures o1.Fail? ==>
      && o2 == Tolerate(second)
      && exchange.conn.log == old(exchange.conn.log) + [TableCreate(exchange.name), TableCreate(exchange.name)]
    ensures exchange.asserted == (o1.Pass? || o2.Pass?)
  {
    o1 := exchange.CheckTable(first);
    o2 := exchange.CheckTable(second);
  }

  /** A hierarchical topic on an exchange. */
  class Topic {
    const name: string
    const exchange: Exchange

    constructor (name: string, exchange: Exchange)
      ensures this.name == name && this.exchange == exchange
    {
      this.name := name;
      this.exchange := exchange;
    }

    /** `topic[subtopic]`: the topic `name.subtopic` on the same exchange. */
    method Subtopic(subtopicName: string) returns (t: Topic)
      ensures fresh(t) && t.name == name + "." + subtopicName && t.exchange == exchange
    {
      t := new Topic(name + "." + subtopicName, exchange);
    }

    /** `publish(payload)`: exactly `exchange.publish(name, payload)`. */
    method Publish(payload: Json, reply: Outcome, force: string) returns (o: Outcome)
      modifies exchange, exchange.conn, exchange.table
      ensures exchange.Published(name, payload, reply, force, o)
    {
      o := exchange.Publish(name, payload, reply, force);
    }

    /** `queue()`: a new queue on this exchange bound to `name.#`. */
    method NewQueue() returns (q: Queue)
      ensures fresh(q) && q.exchange == exchange && q.bindings == [name + ".#"]
    {
      q := new Queue(exchange, [OfTopic(this)]);
    }
  }

  /** An argument of `bind`: a binding key, or a topic standing for every
      topic below it. */
  datatype Binding = Key(key: string) | OfTopic(topic: Topic)

  /** The binding key `bind` stores for one argument. */
  function KeyOf(b: Binding): string {
    match b
    case Key(key) => key
    case OfTopic(topic) => topic.name + ".#"
  }

  /** The binding keys stored for a list of arguments, in order. */
  function Keys(patterns: seq<Binding>): (keys: seq<string>)
    ensures |keys| == |patterns|
  {
    seq(|patterns|, i requires 0 <= i < |patterns| => KeyOf(patterns[i]))
  }

  /** Binding in two calls stores what binding once with both lists stores. */
  lemma KeysAppend(a: seq<Binding>, b: seq<Binding>)
    ensures Keys(a + b) == Keys(a) + Keys(b)
  {
    assert forall i :: 0 <= i < |a + b| ==> Keys(a + b)[i] == (Keys(a) + Keys(b))[i];
  }

  /** A queue: binding keys (OR-combined) on one exchange. */
  class Queue {
    const exchange: Exchange
    var bindings: seq<string>

    constructor (exchange: Exchange, patterns: seq<Binding>)
      ensures this.exchange == exchange && bindings == Keys(patterns)
    {
      this.exchange := exchange;
      bindings := [];
      new;
      Bind(patterns);
    }

    /** `bind(*patterns)`: appends one binding key per argument, in order,
        keeping the earlier ones; a topic binds `name.#`. */
    method Bind(patterns: seq<Binding>)
      modifies this
      ensures bindings == old(bindings) + Keys(patterns)
    {
      ghost var before := bindings;
      for i := 0 to |patterns|
        invariant bindings == before + Keys(patterns[..i])
      {
        var pattern := patterns[i];
        assert patterns[..i + 1] == patterns[..i] + [pattern];
        KeysAppend(patterns[..i], [pattern]);
        match pattern
        case OfTopic(topic) =>
          bindings := bindings + [topic.name + ".#"];
        case Key(key) =>
          bindings := bindings + [key];
      }
      assert patterns[..|patterns|] == patterns;
    }

    /** `consume()`: exactly `exchange.consume(*bindings)`. */
    method Consume(reply: Outcome, feed: seq<Message>, re: (string, string) -> bool)
      returns (r: Result<seq<(string, Json)>>)
      modifies exchange, exchange.conn
      ensures exchange.Consumed(bindings, reply, feed, re, r)
    {
      r := exchange.Consume(bindings, reply, feed, re);
    }
  }
}
