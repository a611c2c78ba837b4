/** `repubsub`: publish/subscribe over a RethinkDB table whose documents are
    one-slot mailboxes keyed by topic. Publishing updates every document of
    the topic, or inserts one when none was replaced; subscribing is a
    changefeed on the table filtered by a predicate on the topic.

    The server is modelled by `Table` (its documents in table order and the
    change notifications its writes produce) and by the answers to the two
    creation queries, which callers pass in; `Connection.log` records the
    queries sent. Topic keys and payloads are JSON values compared by plain
    equality. */
module Repubsub {
  import opened Store

  /** A document of the exchange's table; `force` is the `_force_change`
      random number that makes every write a change. */
  datatype Document = Document(topic: Json, payload: Json, force: real)

  /** `doc` after `update({'payload': payload, '_force_change': force})` if its
      topic is `key`, unchanged otherwise. The update merges its object into
      the document, so an object payload is merged into a stored object
      payload rather than replacing it; the payload is not wrapped in
      `r.literal`. */
  function Touch(doc: Document, key: Json, payload: Json, force: real): Document {
    if doc.topic == key then doc.(payload := Merge(doc.payload, payload), force := force) else doc
  }

  /** The table after `filter({'topic': key}).update(...)`. */
  function Updated(docs: seq<Document>, key: Json, payload: Json, force: real): (r: seq<Document>)
    ensures |r| == |docs|
  {
    seq(|docs|, i requires 0 <= i < |docs| => Touch(docs[i], key, payload, force))
  }

  /** The documents whose topic is `key`, in table order. */
  function WithTopic(docs: seq<Document>, key: Json): seq<Document>
    decreases |docs|
  {
    if docs == [] then []
    else
      var last := docs[|docs| - 1];
      WithTopic(docs[..|docs| - 1], key) + (if last.topic == key then [last] else [])
  }

  /** How many documents have topic `key`: the update's `replaced` count. */
  function Count(docs: seq<Document>, key: Json): nat {
    |WithTopic(docs, key)|
  }

  lemma {:induction false} CountPositive(docs: seq<Document>, key: Json)
    ensures Count(docs, key) > 0 <==> exists i :: 0 <= i < |docs| && docs[i].topic == key
    decreases |docs|
  {
    if docs != [] {
      var init := docs[..|docs| - 1];
      CountPositive(init, key);
      if exists i :: 0 <= i < |init| && init[i].topic == key {
        var i :| 0 <= i < |init| && init[i].topic == key;
        assert docs[i] == init[i];
      }
      if exists i :: 0 <= i < |docs| && docs[i].topic == key {
        var i :| 0 <= i < |docs| && docs[i].topic == key;
        if i < |init| {
          assert init[i] == docs[i];
        }
      }
    }
  }

  /** Every document `WithTopic` returns has the topic. */
  lemma {:induction false} WithTopicHasTopic(docs: seq<Document>, key: Json)
    ensures forall d :: d in WithTopic(docs, key) ==> d in docs && d.topic == key
    decreases |docs|
  {
    if docs != [] {
      var init := docs[..|docs| - 1];
      WithTopicHasTopic(init, key);
      assert docs == init + [docs[|docs| - 1]];
    }
  }

  /** With no document of topic `key`, the update changes nothing. */
  lemma NoMatchNoUpdate(docs: seq<Document>, key: Json, payload: Json, force: real)
    requires Count(docs, key) == 0
    ensures Updated(docs, key, payload, force) == docs
    ensures WithTopic(docs, key) == []
  {
    CountPositive(docs, key);
    forall i | 0 <= i < |docs| ensures Updated(docs, key, payload, force)[i] == docs[i] {
      assert docs[i].topic != key;
    }
  }

  /** The table after `publish(key, payload)`: the update when it replaced
      something, otherwise the table with one inserted document. */
  function AfterPublish(docs: seq<Document>, key: Json, payload: Json, updateForce: real, insertForce: real): seq<Document> {
    if Count(docs, key) > 0 then Updated(docs, key, payload, updateForce)
    else docs + [Document(key, payload, insertForce)]
  }

  /** The change notifications (new values) `publish(key, payload)` produces. */
  function Notifications(docs: seq<Document>, key: Json, payload: Json, updateForce: real, insertForce: real): seq<Document> {
    if Count(docs, key) > 0 then WithTopic(Updated(docs, key, payload, updateForce), key)
    else [Document(key, payload, insertForce)]
  }

  /** When a document has the topic, `publish` merges the payload into the
      payload of every such document, rewrites its `_force_change` in place
      and inserts nothing; otherwise it appends exactly one new document. */
  lemma PublishShape(docs: seq<Document>, key: Json, payload: Json, updateForce: real, insertForce: real)
    ensures var after := AfterPublish(docs, key, payload, updateForce, insertForce);
      if exists i :: 0 <= i < |docs| && docs[i].topic == key then
        && |after| == |docs|
        && forall i :: 0 <= i < |docs| && docs[i].topic == key ==>
             after[i] == Document(key, Merge(docs[i].payload, payload), updateForce)
      else
        && |after| == |docs| + 1
        && after[..|docs|] == docs
        && after[|docs|] == Document(key, payload, insertForce)
  {
    CountPositive(docs, key);
    var after := AfterPublish(docs, key, payload, updateForce, insertForce);
    if !exists i :: 0 <= i < |docs| && docs[i].topic == key {
      assert after == docs + [Document(key, payload, insertForce)];
      assert after[..|docs|] == docs;
    }
  }

  /** `publish` leaves every document of another topic as it was. */
  lemma PublishKeepsOthers(docs: seq<Document>, key: Json, payload: Json, updateForce: real, insertForce: real)
    ensures var after := AfterPublish(docs, key, payload, updateForce, insertForce);
      |docs| <= |after| && forall i :: 0 <= i < |docs| && docs[i].topic != key ==> after[i] == docs[i]
  {
  }

  /** After `publish(key, payload)` some document of the topic carries
      everything the payload states: exactly the payload unless it is an
      object, and every field of an object payload otherwise. */
  lemma PublishDelivers(docs: seq<Document>, key: Json, payload: Json, updateForce: real, insertForce: real)
    ensures var after := AfterPublish(docs, key, payload, updateForce, insertForce);
      exists i :: 0 <= i < |after| && after[i].topic == key && Agrees(after[i].payload, payload)
  {
    var after := AfterPublish(docs, key, payload, updateForce, insertForce);
    CountPositive(docs, key);
    if Count(docs, key) > 0 {
      var i :| 0 <= i < |docs| && docs[i].topic == key;
      MergeAgrees(docs[i].payload, payload);
      assert after[i].topic == key && Agrees(after[i].payload, payload);
    } else {
      AgreesSelf(payload);
      assert after[|docs|].topic == key && Agrees(after[|docs|].payload, payload);
    }
  }

  /** A second `publish` to the same topic takes the update path: it replaces
      something, and the number of documents stays the same. */
  lemma RepublishUpdates(docs: seq<Document>, key: Json, p1: Json, p2: Json, f1: real, f2: real, f3: real, f4: real)
    ensures var once := AfterPublish(docs, key, p1, f1, f2);
      && Count(once, key) > 0
      && |AfterPublish(once, key, p2, f3, f4)| == |once|
  {
    var once := AfterPublish(docs, key, p1, f1, f2);
    PublishDelivers(docs, key, p1, f1, f2);
    CountPositive(once, key);
  }

  /** Every notification of a publish carries its topic and everything its
      payload states, and a publish notifies once per document of the topic,
      at least once. */
  lemma NotificationsCarryMessage(docs: seq<Document>, key: Json, payload: Json, updateForce: real, insertForce: real)
    ensures var notes := Notifications(docs, key, payload, updateForce, insertForce);
      && (forall n :: n in notes ==> n.topic == key && Agrees(n.payload, payload))
      && |notes| == if Count(docs, key) > 0 then Count(docs, key) else 1
  {
    var updated := Updated(docs, key, payload, updateForce);
    WithTopicHasTopic(updated, key);
    forall n | n in WithTopic(updated, key) ensures Agrees(n.payload, payload) {
      var i :| 0 <= i < |updated| && updated[i] == n;
      MergeAgrees(docs[i].payload, payload);
    }
    AgreesSelf(payload);
    SameTopicsSameCount(docs, updated, key);
  }

  /** Two tables with the same topics, position by position, have the same
      number of documents of each topic. */
  lemma {:induction false} SameTopicsSameCount(a: seq<Document>, b: seq<Document>, key: Json)
    requires |a| == |b| && forall i :: 0 <= i < |a| ==> a[i].topic == b[i].topic
    ensures Count(a, key) == Count(b, key)
    decreases |a|
  {
    if a != [] {
      SameTopicsSameCount(a[..|a| - 1], b[..|b| - 1], key);
    }
  }

  /** At most one document per topic. */
  predicate UniqueTopics(docs: seq<Document>) {
    forall i, j :: 0 <= i < j < |docs| ==> docs[i].topic != docs[j].topic
  }

  /** Used sequentially, `publish` keeps at most one document per topic; the
      duplicate a concurrent insert can cause is outside this model. With
      unique topics every publish produces exactly one notification. */
  lemma PublishKeepsTopicsUnique(docs: seq<Document>, key: Json, payload: Json, updateForce: real, insertForce: real)
    requires UniqueTopics(docs)
    ensures UniqueTopics(AfterPublish(docs, key, payload, updateForce, insertForce))
    ensures |Notifications(docs, key, payload, updateForce, insertForce)| == 1
  {
    CountPositive(docs, key);
    NotificationsCarryMessage(docs, key, payload, updateForce, insertForce);
    if Count(docs, key) > 0 {
      var i :| 0 <= i < |docs| && docs[i].topic == key;
      UniqueCountOne(docs, key, i);
    }
  }

  lemma {:induction false} UniqueCountOne(docs: seq<Document>, key: Json, i: nat)
    requires UniqueTopics(docs) && i < |docs| && docs[i].topic == key
    ensures Count(docs, key) == 1
    decreases |docs|
  {
    var init := docs[..|docs| - 1];
    assert UniqueTopics(init);
    if i == |docs| - 1 {
      assert !exists j :: 0 <= j < |init| && init[j].topic == key by {
        forall j | 0 <= j < |init| ensures init[j].topic != key {
          assert init[j] == docs[j];
        }
      }
      CountPositive(init, key);
    } else {
      UniqueCountOne(init, key, i);
      assert docs[|docs| - 1].topic != key;
    }
  }

  /** As written, publishing an object payload onto a stored object payload
      keeps a field the new payload does not mention: the topic's document is
      then not the last message sent. */
  lemma PublishMergesObjects(docs: seq<Document>, key: Json, payload: Json, updateForce: real, insertForce: real,
                             i: nat, field: string)
    requires i < |docs| && docs[i].topic == key
    requires docs[i].payload.Object? && payload.Object?
    requires field in docs[i].payload.fields && field !in payload.fields
    ensures var after := AfterPublish(docs, key, payload, updateForce, insertForce);
      && after[i].payload != payload
      && after[i].payload.Object? && field in after[i].payload.fields
      && after[i].payload.fields[field] == docs[i].payload.fields[field]
  {
    CountPositive(docs, key);
    MergeKeeps(docs[i].payload, payload);
  }

  /** The smallest such input: `{"a": 1}` stored, then `publish` of `{"b": 2}`. */
  lemma PublishMergesExample()
    ensures var stored := Document(Str("k"), Object(map["a" := Number(1.0)]), 0.0);
      var sent := Object(map["b" := Number(2.0)]);
      AfterPublish([stored], Str("k"), sent, 0.5, 0.25)[0].payload != sent
  {
    var stored := Document(Str("k"), Object(map["a" := Number(1.0)]), 0.0);
    PublishMergesObjects([stored], Str("k"), Object(map["b" := Number(2.0)]), 0.5, 0.25, 0, "a");
  }

  /** `doc` after the update with the payload wrapped in `r.literal`, as the
      topic key is: the payload is replaced whole. */
  function LiteralTouch(doc: Document, key: Json, payload: Json, force: real): Document {
    if doc.topic == key then doc.(payload := payload, force := force) else doc
  }

  /** The table after a `publish` that sends `r.literal(payload)`. */
  function AfterLiteralPublish(docs: seq<Document>, key: Json, payload: Json, updateForce: real, insertForce: real): seq<Document> {
    if Count(docs, key) > 0 then seq(|docs|, i requires 0 <= i < |docs| => LiteralTouch(docs[i], key, payload, updateForce))
    else docs + [Document(key, payload, insertForce)]
  }

  /** With `r.literal`, the topic's documents hold exactly the last message
      sent, as the module's description promises, and there is one. */
  lemma LiteralPublishStoresLast(docs: seq<Document>, key: Json, payload: Json, updateForce: real, insertForce: real)
    ensures var after := AfterLiteralPublish(docs, key, payload, updateForce, insertForce);
      && (exists i :: 0 <= i < |after| && after[i].topic == key)
      && forall i :: 0 <= i < |after| && after[i].topic == key ==> after[i].payload == payload
  {
    CountPositive(docs, key);
    var after := AfterLiteralPublish(docs, key, payload, updateForce, insertForce);
    if Count(docs, key) > 0 {
      var i :| 0 <= i < |docs| && docs[i].topic == key;
      assert after[i].topic == key;
    } else {
      assert after[|docs|].topic == key;
    }
  }

  /** The two agree whenever the payload sent is not an object. */
  lemma PublishAgreesWithLiteral(docs: seq<Document>, key: Json, payload: Json, updateForce: real, insertForce: real)
    requires !payload.Object?
    ensures AfterPublish(docs, key, payload, updateForce, insertForce)
         == AfterLiteralPublish(docs, key, payload, updateForce, insertForce)
  {
  }

  /** The documents a changefeed filtered by `filter` on the topic delivers,
      in feed order: the meaning of `full_query(filter)`. */
  function Watch(filter: Json -> bool, feed: seq<Document>): seq<Document>
    decreases |feed|
  {
    if feed == [] then []
    else
      var last := feed[|feed| - 1];
      Watch(filter, feed[..|feed| - 1]) + (if filter(last.topic) then [last] else [])
  }

  /** Filtering preserves feed order: a feed read in two parts is filtered
      part by part. */
  lemma {:induction false} WatchAppend(filter: Json -> bool, a: seq<Document>, b: seq<Document>)
    ensures Watch(filter, a + b) == Watch(filter, a) + Watch(filter, b)
    decreases |b|
  {
    if b == [] {
      assert a + b == a;
    } else {
      var b' := b[..|b| - 1];
      assert (a + b)[..|a + b| - 1] == a + b';
      assert (a + b)[|a + b| - 1] == b[|b| - 1];
      WatchAppend(filter, a, b');
    }
  }

  /** A document passes iff it is in the feed and its topic satisfies the
      filter. */
  lemma {:induction false} WatchMembers(filter: Json -> bool, feed: seq<Document>)
    ensures forall doc :: doc in Watch(filter, feed) <==> doc in feed && filter(doc.topic)
    decreases |feed|
  {
    if feed != [] {
      var init := feed[..|feed| - 1];
      WatchMembers(filter, init);
      assert feed == init + [feed[|feed| - 1]];
    }
  }

  /** What the generator yields for a delivered document:
      `message['topic'], message['payload']`. */
  function Pair(doc: Document): (Json, Json) {
    (doc.topic, doc.payload)
  }

  /** The server's answers to the two creation queries of `assert_table`. */
  datatype SetupReplies = SetupReplies(dbCreate: Outcome, tableCreate: Outcome)

  /** What `assert_table` returns: nothing to do once asserted; otherwise the
      database step, then the table step, each tolerating "already exists". */
  function Setup(asserted: bool, replies: SetupReplies): Outcome {
    if asserted then Pass
    else if Tolerate(replies.dbCreate).Fail? then Tolerate(replies.dbCreate)
    else Tolerate(replies.tableCreate)
  }

  /** The queries `assert_table` sends. */
  function SetupLog(asserted: bool, replies: SetupReplies, db: string, name: string): seq<Query> {
    if asserted then []
    else if Tolerate(replies.dbCreate).Fail? then [DbCreate(db)]
    else [DbCreate(db), TableCreate(name)]
  }

  /** An unasserted setup goes through iff both creations succeed or find
      their target already there; the table is only created after the
      database step went through. */
  lemma SetupSucceedsIff(replies: SetupReplies, db: string, name: string)
    ensures Setup(false, replies).Pass? <==>
      && (replies.dbCreate.Pass? || AlreadyExists(replies.dbCreate.error))
      && (replies.tableCreate.Pass? || AlreadyExists(replies.tableCreate.error))
    ensures TableCreate(name) in SetupLog(false, replies, db, name) <==> Tolerate(replies.dbCreate).Pass?
  {
  }

  /** A connection with its database; `log` is every query sent on it. */
  class Connection {
    const db: string
    var log: seq<Query>

    constructor (db: string)
      ensures this.db == db && log == []
    {
      this.db := db;
      log := [];
    }
  }

  /** The server-side table: documents in table order, and the change
      notifications (new values) its writes have produced, in order. */
  class Table {
    const name: string
    var docs: seq<Document>
    var changes: seq<Document>

    constructor (name: string)
      ensures this.name == name && docs == [] && changes == []
    {
      this.name := name;
      docs := [];
      changes := [];
    }

    /** `filter({'topic': key}).update({'payload': payload, '_force_change':
        force})`: one query that rewrites every document of the topic and
        answers how many it replaced. */
    method RunUpdate(key: Json, payload: Json, force: real) returns (replaced: nat)
      modifies this
      ensures docs == Updated(old(docs), key, payload, force)
      ensures replaced == Count(old(docs), key)
      ensures changes == old(changes) + WithTopic(docs, key)
    {
      replaced := Count(docs, key);
      docs := Updated(docs, key, payload, force);
      changes := changes + WithTopic(docs, key);
    }

    /** `insert(doc)`. */
    method RunInsert(doc: Document)
      modifies this
      ensures docs == old(docs) + [doc]
      ensures changes == old(changes) + [doc]
    {
      docs := docs + [doc];
      changes := changes + [doc];
    }
  }

  class Exchange {
    const name: string
    const conn: Connection
    const table: Table
    var asserted: bool

    constructor (conn: Connection, table: Table)
      ensures this.conn == conn && this.table == table
      ensures name == table.name && !asserted
    {
      this.conn := conn;
      this.table := table;
      name := table.name;
      asserted := false;
    }

    /** `topic(key)`. */
    method NewTopic(key: Json) returns (t: Topic)
      ensures fresh(t) && t.key == key && t.exchange == this
    {
      t := new Topic(this, key);
    }

    /** `queue(filter)`. */
    method NewQueue(filter: Json -> bool) returns (q: Queue)
      ensures fresh(q) && q.filter == filter && q.exchange == this
    {
      q := new Queue(this, filter);
    }

    /** `full_query(filter)`: the changefeed's documents whose topic
        satisfies the filter, in feed order. */
    function FullQuery(filter: Json -> bool, feed: seq<Document>): (r: seq<Document>)
      ensures forall doc :: doc in r <==> doc in feed && filter(doc.topic)
    {
      WatchMembers(filter, feed);
      Watch(filter, feed)
    }

    /** `assert_table`: returns at once once asserted; otherwise creates the
        database, then the table, each step tolerating only "already
        exists", and sets the flag only when both went through. */
    method AssertTable(replies: SetupReplies) returns (o: Outcome)
      modifies this, conn
      ensures o == Setup(old(asserted), replies)
      ensures asserted == (old(asserted) || o.Pass?)
      ensures conn.log == old(conn.log) + SetupLog(old(asserted), replies, conn.db, name)
    {
      if asserted {
        return Pass;
      }
      conn.log := conn.log + [DbCreate(conn.db)];
      o := Tolerate(replies.dbCreate);
      if o.Fail? {
        return;
      }
      conn.log := conn.log + [TableCreate(name)];
      o := Tolerate(replies.tableCreate);
      if o.Fail? {
        return;
      }
      asserted := true;
    }

    /** What `publish(key, payload)` does, given the answers to the setup
        queries and the two `random.random()` values. */
    twostate predicate Published(key: Json, payload: Json, replies: SetupReplies,
                                 updateForce: real, insertForce: real, o: Outcome)
      reads this, conn, table
    {
      var setupLog := old(conn.log) + SetupLog(old(asserted), replies, conn.db, name);
      && o == Setup(old(asserted), replies)
      && asserted == (old(asserted) || o.Pass?)
      && (o.Pass? ==>
            && table.docs == AfterPublish(old(table.docs), key, payload, updateForce, insertForce)
            && table.changes == old(table.changes) + Notifications(old(table.docs), key, payload, updateForce, insertForce)
            && conn.log == setupLog + [Update(name)] + (if Count(old(table.docs), key) > 0 then [] else [Insert(name)]))
      && (o.Fail? ==>
            && table.docs == old(table.docs) && table.changes == old(table.changes)
            && conn.log == setupLog)
    }

    /** `publish`: after `assert_table`, updates every document of the topic
        and inserts a new one if none was replaced. */
    method Publish(key: Json, payload: Json, replies: SetupReplies, updateForce: real, insertForce: real)
      returns (o: Outcome)
      modifies this, conn, table
      ensures Published(key, payload, replies, updateForce, insertForce, o)
    {
      o := AssertTable(replies);
      if o.Fail? {
        return;
      }
      conn.log := conn.log + [Update(name)];
      var replaced := table.RunUpdate(key, payload, updateForce);
      if replaced == 0 {
        NoMatchNoUpdate(old(table.docs), key, payload, updateForce);
        conn.log := conn.log + [Insert(name)];
        table.RunInsert(Document(key, payload, insertForce));
      }
    }

    /** What `subscribe(filter)` yields, given the answers to the setup
        queries and the documents `feed` the changefeed delivers. */
    twostate predicate Subscribed(filter: Json -> bool, replies: SetupReplies, feed: seq<Document>,
                                  new r: Result<seq<(Json, Json)>>)
      reads this, conn
    {
      var s := Setup(old(asserted), replies);
      var setupLog := old(conn.log) + SetupLog(old(asserted), replies, conn.db, name);
      && asserted == (old(asserted) || s.Pass?)
      && (s.Fail? ==> r == Err(s.error) && conn.log == setupLog)
      && (s.Pass? ==> r == Ok(Yielded(FullQuery(filter, feed), Pair)) && conn.log == setupLog + [Changes(name)])
    }

    /** `subscribe(filter)`: after `assert_table`, yields `(topic, payload)`
        of each document `full_query(filter)` delivers. */
    method Subscribe(filter: Json -> bool, replies: SetupReplies, feed: seq<Document>)
      returns (r: Result<seq<(Json, Json)>>)
      modifies this, conn
      ensures Subscribed(filter, replies, feed, r)
    {
      var o := AssertTable(replies);
      if o.Fail? {
        return Err(o.error);
      }
      conn.log := conn.log + [Changes(name)];
      var messages := FullQuery(filter, feed);
      var out := YieldEach(messages, Pair);
      r := Ok(out);
    }
  }

  /** A topic that may be published to. */
  class Topic {
    const key: Json
    const exchange: Exchange

    constructor (exchange: Exchange, key: Json)
      ensures this.exchange == exchange && this.key == key
    {
      this.exchange := exchange;
      this.key := key;
    }

    /** `publish(payload)`: exactly `exchange.publish(key, payload)`. */
    method Publish(payload: Json, replies: SetupReplies, updateForce: real, insertForce: real)
      returns (o: Outcome)
      modifies exchange, exchange.conn, exchange.table
      ensures exchange.Published(key, payload, replies, updateForce, insertForce, o)
    {
      o := exchange.Publish(key, payload, replies, updateForce, insertForce);
    }
  }

  /** A queue: a filter on the topic, against one exchange. */
  class Queue {
    const exchange: Exchange
    const filter: Json -> bool

    constructor (exchange: Exchange, filter: Json -> bool)
      ensures this.exchange == exchange && this.filter == filter
    {
      this.exchange := exchange;
      this.filter := filter;
    }

    /** `full_query()`: the exchange's query for this queue's filter, the
        feed documents whose topic satisfies it, in feed order. */
    function FullQuery(feed: seq<Document>): (r: seq<Document>)
      ensures r == Watch(filter, feed)
      ensures forall doc :: doc in r <==> doc in feed && filter(doc.topic)
    {
      exchange.FullQuery(filter, feed)
    }

    /** `subscribe()`: exactly `exchange.subscribe(filter)`. */
    method Subscribe(replies: SetupReplies, feed: seq<Document>) returns (r: Result<seq<(Json, Json)>>)
      modifies exchange, exchange.conn
      ensures exchange.Subscribed(filter, replies, feed, r)
    {
      r := exchange.Subscribe(filter, replies, feed);
    }
  }

  /** The pure half of the scenario below: the first publish inserts, the
      second updates, merging its payload into the first. */
  lemma TwoPublishes(key: Json, first: Json, second: Json, f1: real, f2: real, f3: real, f4: real)
    ensures AfterPublish([], key, first, f1, f2) == [Document(key, first, f2)]
    ensures Notifications([], key, first, f1, f2) == [Document(key, first, f2)]
    ensures AfterPublish([Document(key, first, f2)], key, second, f3, f4) == [Document(key, Merge(first, second), f3)]
    ensures Notifications([Document(key, first, f2)], key, second, f3, f4) == [Document(key, Merge(first, second), f3)]
  {
    var one := [Document(key, first, f2)];
    assert one[..0] == [];
    assert WithTopic(one, key) == one;
    var updated := Updated(one, key, second, f3);
    assert updated == [Document(key, Merge(first, second), f3)];
    assert updated[..0] == [];
    assert WithTopic(updated, key) == updated;
  }

  /** A changefeed whose filter accepts every document delivers all of them. */
  lemma {:induction false} WatchAllAccepted(filter: Json -> bool, feed: seq<Document>)
    requires forall i :: 0 <= i < |feed| ==> filter(feed[i].topic)
    ensures Watch(filter, feed) == feed
    decreases |feed|
  {
    if feed != [] {
      var init := feed[..|feed| - 1];
      assert forall i :: 0 <= i < |init| ==> init[i] == feed[i];
      WatchAllAccepted(filter, init);
      assert init + [feed[|feed| - 1]] == feed;
    }
  }

  /** The first publish to an exchange whose table is empty and not yet
      asserted creates the table and inserts the message. */
  method FirstPublishInserts(exchange: Exchange, key: Json, payload: Json)
    requires exchange.table.docs == [] && exchange.table.changes == [] && !exchange.asserted
    modifies exchange, exchange.conn, exchange.table
    ensures exchange.asserted
    ensures exchange.table.docs == exchange.table.changes == [Document(key, payload, 0.25)]
  {
    TwoPublishes(key, payload, payload, 0.5, 0.25, 0.75, 0.125);
    var o := exchange.Publish(key, payload, SetupReplies(Pass, Pass), 0.5, 0.25);
    assert o == Pass;
  }

  /** A second publish to the same topic rewrites the document in place,
      merging the second payload into the first, and notifies the result
      after the first message. */
  method SecondPublishUpdates(exchange: Exchange, key: Json, first: Json, second: Json)
    requires exchange.asserted
    requires exchange.table.docs == exchange.table.changes == [Document(key, first, 0.25)]
    modifies exchange, exchange.conn, exchange.table
    ensures exchange.table.docs == [Document(key, Merge(first, second), 0.75)]
    ensures exchange.table.changes == [Document(key, first, 0.25), Document(key, Merge(first, second), 0.75)]
  {
    TwoPublishes(key, first, second, 0.5, 0.25, 0.75, 0.125);
    var o := exchange.Publish(key, second, SetupReplies(Pass, Pass), 0.75, 0.125);
    assert o == Pass;
  }

  /** A subscriber whose filter accepts one topic, given a changefeed of that
      topic only, receives every message in feed order. */
  method SubscribeToTopic(exchange: Exchange, key: Json, feed: seq<Document>)
    returns (received: Result<seq<(Json, Json)>>)
    requires forall i :: 0 <= i < |feed| ==> feed[i].topic == key
    modifies exchange, exchange.conn
    ensures received == Ok(Yielded(feed, Pair))
  {
    var filter := (t: Json) => t == key;
    WatchAllAccepted(filter, feed);
    var queue := exchange.NewQueue(filter);
    received := queue.Subscribe(SetupReplies(Pass, Pass), feed);
  }

  /** Two publishes to one topic on a fresh exchange leave one document whose
      payload is the second merged into the first (the second itself unless
      both are objects), and a subscriber to the topic on the same exchange
      that saw the whole changefeed receives both messages, in publish order. */
  method PublishTwiceScenario(key: Json, first: Json, second: Json)
    returns (docs: seq<Document>, received: Result<seq<(Json, Json)>>)
    ensures |docs| == 1 && docs[0].topic == key && docs[0].payload == Merge(first, second)
    ensures Agrees(docs[0].payload, second)
    ensures !first.Object? || !second.Object? ==> docs[0].payload == second
    ensures received == Ok([(key, first), (key, Merge(first, second))])
  {
    var conn := new Connection("repubsub");
    var table := new Table("messages");
    var exchange := new Exchange(conn, table);
    FirstPublishInserts(exchange, key, first);
    SecondPublishUpdates(exchange, key, first, second);
    docs := table.docs;
    var feed := table.changes;
    received := SubscribeToTopic(exchange, key, feed);
    assert Yielded(feed, Pair) == [(key, first), (key, Merge(first, second))];
    MergeAgrees(first, second);
  }
}
