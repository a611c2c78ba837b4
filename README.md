# Publish/subscribe over RethinkDB changefeeds, modelled in Dafny

Two small Python libraries implement message queueing on top of RethinkDB
changefeeds. An exchange is a table; a topic is a document of that table
whose content is the last message sent; a queue is a changefeed on the
table filtered by topic. The change notification is the message.

- `rethinkmq` follows AMQP 0-9-1 topic exchanges (section 3.1.3.3 of the
  AMQP 0-9-1 specification: in a binding key `*` is one word, `#` is zero
  or more words). Binding keys are translated to re2 regexes. Queues hold
  binding keys, OR-combined. A decorator creates the table once, before the
  first `publish` or `consume`.
- `repubsub` publishes by updating every document of the topic and
  inserting one when nothing was replaced. It subscribes with an arbitrary
  predicate on the topic. Database and table are created once per exchange.

Files:

- `store.dfy` (module `Store`): JSON values, the exceptions a query raises,
  the queries a connection sends, and the "tolerate `already exists`,
  re-raise anything else" rule both libraries use.
- `binding_key.dfy` (module `BindingKey`): `binding_key_to_regex`, character
  for character, as a method with a loop, proved against the function
  `Translate`, with the properties of `Translate` as lemmas.
- `rethinkmq.dfy` (module `RethinkMQ`): the ReQL filter as a datatype
  `Matcher`, the classes `MQConnection`, `Exchange`, `Topic` and `Queue`,
  and the server table.
- `repubsub.dfy` (module `Repubsub`): the publish protocol over a table held
  as a sequence of documents, the setup state machine, and the classes
  `Exchange`, `Topic` and `Queue`.

How the outside world enters the model:

- The RethinkDB server is a class `Table` in each module. It holds the
  documents and `changes`, the new values its writes have produced, in
  order.
- The server's answer to each creation query (`db_create`,
  `table_create`) is a parameter of type `Outcome`.
- Each connection keeps `log`, the queries it has sent. This is how "no
  store calls" and "table creation is not attempted" are stated.
- The documents a changefeed delivers are a parameter `feed`, a finite
  prefix of the live stream. Generators become methods that return what
  they would yield for that prefix.
- re2's `match` is a parameter `re(regex, topic)`.
- The `_force_change` values (`uuid.uuid4()`, `random.random()`) are
  parameters.
- Topic keys and payloads of `repubsub` are JSON values compared by plain
  equality.

Where the code does something other than what the design intends, the
model follows the code:

- The design intends literal sections of a binding key to be escaped. The
  code inserts them unescaped.
- The design intends `#` alone to match every topic. A leading `#` keeps
  its `(?:\.` prefix, so `#` alone translates to `^(?:\.[a-zA-Z]+)*$`: the
  empty topic or a run of dot-prefixed words. A key made only of `#`
  sections, such as `#.#`, translates to repetitions of that group and
  likewise admits the empty topic. Which topics a regex matches is re2's
  business and outside the model; the model proves only what the regex is.
- No binding key is validated when it is bound.
- Failures of `publish`'s update or insert are not handled; they propagate.
- `repubsub`'s module description says a topic's document holds the last
  message sent. Its update merges an object payload into a stored object
  payload instead, because the payload is not wrapped in `r.literal` (see
  "## Findings").

## Model

| member | source | states |
|---|---|---|
| `Store.Tolerate` | python/rethinkmq.py:184-193 | creation goes through exactly when it succeeded or raised a runtime error whose message contains `already exists`; any other failure is returned unchanged |
| `Store.AlreadyExistsTolerated` | python/rethinkmq.py:190-192 | a runtime error whose message contains `already exists` anywhere (as the server's "Table `db.t` already exists." does) is swallowed |
| `Store.OnlyRuntimeErrorsTolerated` | python/rethinkmq.py:190 | only `RqlRuntimeError` is caught: any other exception propagates, whatever its message |
| `Store.ContainsIsInfix` | python/rethinkmq.py:191 | `'already exists' in message` holds only when the message has the phrase as an infix, the converse of `ContainsInfix` |
| `Store.OtherRuntimeErrorsPropagate` | python/rethinkmq.py:190-192 | a runtime error whose message holds the phrase nowhere is re-raised unchanged |
| `Store.MergeAgrees` | python/repubsub.py:71-74 | the value an update leaves reads back everything the update wrote: the written value itself unless it is an object, each of its fields, recursively, otherwise |
| `Store.MergeKeeps` | python/repubsub.py:71-74 | merging an object into a stored object keeps the stored fields it does not mention, and has exactly the fields of the two |
| `Store.MergeReplaces` | python/repubsub.py:71-74 | unless both the stored and the written value are objects, the written value replaces the stored one |
| `BindingKey.Split` | python/rethinkmq.py:39 | `pattern.split('.')` always has at least one piece, even for the empty key |
| `BindingKey.SplitPiecesDotFree` | python/rethinkmq.py:39 | no piece of `split('.')` contains a dot |
| `BindingKey.JoinSplit` | python/rethinkmq.py:39 | joining the pieces of `split('.')` with dots gives back the key |
| `BindingKey.SplitJoin` | python/rethinkmq.py:39 | splitting the dot-join of dot-free pieces gives back exactly those pieces |
| `BindingKey.SplitDot` | python/rethinkmq.py:39 | the sections of `p.q` are the sections of `p` followed by those of `q` |
| `BindingKey.StripCount` | python/rethinkmq.py:49 | `lstrip(r'\.')` removes a prefix made only of backslashes and dots, and the character after it is neither: the longest such prefix |
| `BindingKey.StripCountUnique` | python/rethinkmq.py:49 | that prefix is the only one of stripped characters followed by an unstripped character or the end |
| `BindingKey.LStripAppend` | python/rethinkmq.py:49 | when something survives stripping, text appended afterwards is kept whole |
| `BindingKey.LStripKeeps` | python/rethinkmq.py:49 | a string starting with neither a backslash nor a dot is returned unchanged |
| `BindingKey.LStripSkips` | python/rethinkmq.py:49 | any prefix of backslashes and dots disappears entirely, not just one `\.` |
| `BindingKey.BindingKeyToRegex` | python/rethinkmq.py:36-49 | the loop builds one fragment per section, in order, then joins, strips and anchors them: the result is `Translate(pattern)` |
| `BindingKey.TranslateAnchored` | python/rethinkmq.py:49 | the regex starts with `^`, ends with `$`, and what lies between never starts with a backslash or a dot |
| `BindingKey.UnstrippedDot` | python/rethinkmq.py:38-48 | the unstripped body is the in-order concatenation of the sections' fragments: the body of `p.q` is the body of `p` followed by the body of `q` |
| `BindingKey.UnstrippedSection` | python/rethinkmq.py:40-48 | a single section contributes exactly its fragment: `\.[a-zA-Z]+` for `*`, `(?:\.[a-zA-Z]+)*` for `#`, `\.` + the section unescaped otherwise |
| `BindingKey.TranslateEmpty` | python/rethinkmq.py:49 | the empty key translates to `^$` |
| `BindingKey.TranslateLeadingStar` | python/rethinkmq.py:40-42 | a leading `*` loses its `\.`: the body starts `[a-zA-Z]+` followed by the other sections' fragments |
| `BindingKey.TranslateLeadingHash` | python/rethinkmq.py:43-45 | a leading `#` is not stripped: the body starts with the whole `(?:\.[a-zA-Z]+)*`, followed by the other sections' fragments |
| `BindingKey.TranslateLiteral` | python/rethinkmq.py:46-49 | a key of literal sections that does not start with a dot or backslash becomes itself with each dot written `\.`, anchored; nothing else is escaped |
| `BindingKey.TranslateTwoWords` | python/rethinkmq.py:46-49 | two literal words `w1.w2` (the first not starting with a backslash) translate to `^w1\.w2$` |
| `BindingKey.TranslateTopicQueue` | python/rethinkmq.py:152-153 | the key `name.#` bound for a topic is the name's body followed by `(?:\.[a-zA-Z]+)*`, also after stripping when the name's body is not empty |
| `RethinkMQ.CombineMatchesAny` | python/rethinkmq.py:101-103 | the left-folded OR of `match` terms passes a topic iff at least one regex matches it |
| `RethinkMQ.TranslationsIndex` | python/rethinkmq.py:100 | the i-th regex is the translation of the i-th binding key |
| `RethinkMQ.TranslateAll` | python/rethinkmq.py:100 | the comprehension gives the translation of each binding key, in order |
| `RethinkMQ.OrAll` | python/rethinkmq.py:101-103 | `pop(0)` then `|=` in a loop builds exactly the left fold of the regexes |
| `Store.YieldEach` | python/rethinkmq.py:106-108 | the generator loop yields `f` of each delivered document, in feed order: `Yielded`; both libraries use it with `(topic, payload)` |
| `Store.YieldedAppend` | python/repubsub.py:94-95 | what a generator yields for a feed read in two parts is what it yields for each part, one after the other |
| `RethinkMQ.Deliver` | python/rethinkmq.py:100-108 | with at least one key, yields `(topic, payload)` of each feed document whose topic passes the OR of the keys' translations, in feed order |
| `RethinkMQ.SelectedAppend` | python/rethinkmq.py:106-107 | the filtered changefeed keeps feed order: a feed read in two parts is filtered part by part |
| `RethinkMQ.SelectedMembers` | python/rethinkmq.py:106-107 | a document is delivered iff it is in the feed and its topic passes the filter |
| `RethinkMQ.ConsumeDeliversAny` | python/rethinkmq.py:100-107 | a consumer bound to several keys receives a document iff its topic matches the translation of at least one key |
| `RethinkMQ.GuardCreatesUntilFirstSuccess` | python/rethinkmq.py:56-60 | over a run of guarded calls on a fresh exchange, `table_create` is sent on every call up to and including the first whose creation goes through (on all of them if none does), and never after |
| `RethinkMQ.GuardedLogAsserted` | python/rethinkmq.py:57 | once the flag is set, no guarded call sends anything |
| `RethinkMQ.CheckTableTwice` | python/rethinkmq.py:56-60 | two guarded calls on a fresh exchange: if the first goes through, the second sends nothing and goes through, so `table_create` went out once; if the first raises, the second tries again |
| `RethinkMQ.MQConnection.AssertTable` | python/rethinkmq.py:181-193 | sends one `table_create` for the name and returns normally iff it succeeded or found the table already there; any other error propagates |
| `RethinkMQ.Table.RunUpsert` | python/rethinkmq.py:85-89 | the upsert replaces the document with the message's topic, and the write is one change notification |
| `RethinkMQ.Exchange.constructor` | python/rethinkmq.py:68-72 | a new exchange is named after its table and has not asserted it |
| `RethinkMQ.Exchange.NewTopic` | python/rethinkmq.py:74-76 | `topic(name)` is a new topic of that name on this exchange |
| `RethinkMQ.Exchange.NewQueue` | python/rethinkmq.py:78-80 | `queue(*patterns)` is a new queue on this exchange bound to the patterns' keys |
| `RethinkMQ.Exchange.CheckTable` | python/rethinkmq.py:56-60 | the decorator calls `conn.assert_table` only while the flag is unset, and sets the flag only when that call returns normally |
| `RethinkMQ.Exchange.Publish` | python/rethinkmq.py:82-89 | after the decorator's check, upserts `{topic, payload, _force_change}`; if the check raises, nothing is written |
| `RethinkMQ.Exchange.Consume` | python/rethinkmq.py:91-108 | after the decorator's check, no keys raise `Nothing to consume` before anything is yielded; otherwise yields `(topic, payload)` of each feed document whose topic passes the OR of the translated regexes, in feed order |
| `RethinkMQ.Topic.constructor` | python/rethinkmq.py:115-117 | a new topic has the given name and belongs to the given exchange |
| `RethinkMQ.Topic.Subtopic` | python/rethinkmq.py:119-122 | `topic[s]` is a new topic named `name + '.' + s` on the same exchange |
| `RethinkMQ.Topic.Publish` | python/rethinkmq.py:124-126 | exactly `exchange.publish(name, payload)` |
| `RethinkMQ.Topic.NewQueue` | python/rethinkmq.py:128-130 | `queue()` is a new queue on the same exchange whose bindings are exactly `[name + '.#']` |
| `RethinkMQ.KeysAppend` | python/rethinkmq.py:146-155 | binding two lists one after the other stores the same keys as binding both at once |
| `RethinkMQ.Queue.constructor` | python/rethinkmq.py:137-144 | a new queue starts with no bindings and binds the given patterns |
| `RethinkMQ.Queue.Bind` | python/rethinkmq.py:146-155 | appends exactly one key per argument, in argument order, keeping earlier bindings: a topic becomes `name + '.#'`, anything else is stored verbatim |
| `RethinkMQ.Queue.Consume` | python/rethinkmq.py:157-160 | exactly `exchange.consume(*bindings)` |
| `Repubsub.CountPositive` | python/repubsub.py:67-74 | the update replaces something iff some document's topic equals the key |
| `Repubsub.NoMatchNoUpdate` | python/repubsub.py:67-74 | when no document has the topic, the update changes nothing and produces no notification |
| `Repubsub.PublishShape` | python/repubsub.py:62-86 | if a document has the topic, the payload is merged into every such document's payload, its `_force_change` is rewritten and nothing is inserted; otherwise exactly one document `{topic, payload, _force_change}` is appended |
| `Repubsub.PublishKeepsOthers` | python/repubsub.py:67-74 | every document of another topic is left as it was |
| `Repubsub.PublishDelivers` | python/repubsub.py:62-86 | after `publish(k, p)` some document of topic `k` holds everything `p` states: `p` itself unless it is an object, every field of an object `p` otherwise |
| `Repubsub.RepublishUpdates` | python/repubsub.py:62-86 | a second `publish(k, p2)` takes the update path and does not change the number of documents |
| `Repubsub.NotificationsCarryMessage` | python/repubsub.py:66-86 | every notification of a publish carries its topic and everything its payload states; there is one per document of the topic, at least one |
| `Repubsub.PublishMergesObjects` | python/repubsub.py:71-74 | an object payload published onto a stored object payload leaves in place a field it does not mention, so the stored payload is not the one sent |
| `Repubsub.PublishMergesExample` | python/repubsub.py:71-74 | with `{"a": 1}` stored, publishing `{"b": 2}` does not leave `{"b": 2}` stored |
| `Repubsub.LiteralPublishStoresLast` | python/repubsub.py:71-74 | with the payload wrapped in `r.literal`, the topic has a document and each of its documents holds exactly the last payload sent |
| `Repubsub.PublishAgreesWithLiteral` | python/repubsub.py:71-74 | for a payload that is not an object, publishing as written and with `r.literal` give the same table |
| `Repubsub.PublishKeepsTopicsUnique` | python/repubsub.py:76-86 | used sequentially, publish keeps at most one document per topic, and then each publish notifies exactly once |
| `Repubsub.WatchAppend` | python/repubsub.py:57-60 | the filtered changefeed keeps feed order: a feed read in two parts is filtered part by part |
| `Repubsub.WatchMembers` | python/repubsub.py:57-60 | a document is delivered iff it is in the feed and the filter accepts its topic |
| `Repubsub.WatchAllAccepted` | python/repubsub.py:57-60 | when the filter accepts every document of the feed, all of them are delivered, in order |
| `Repubsub.SetupSucceedsIff` | python/repubsub.py:102-120 | an unasserted setup goes through iff both creations succeed or find their target there; the table is created only after the database step went through |
| `Repubsub.Table.RunUpdate` | python/repubsub.py:67-74 | the update merges the payload into, and rewrites `_force_change` of, every document of the topic, in place, leaves the rest, answers how many it replaced, and notifies each rewritten document in table order |
| `Repubsub.Table.RunInsert` | python/repubsub.py:82-86 | the insert appends the document and notifies it |
| `Repubsub.Exchange.constructor` | python/repubsub.py:39-43 | a new exchange is named after its table and has not asserted it |
| `Repubsub.Exchange.NewTopic` | python/repubsub.py:48-50 | `topic(key)` is a new topic with that key on this exchange |
| `Repubsub.Exchange.NewQueue` | python/repubsub.py:52-55 | `queue(filter)` is a new queue with that filter on this exchange |
| `Repubsub.Exchange.FullQuery` | python/repubsub.py:57-60 | exactly the feed documents whose topic satisfies the filter |
| `Repubsub.Exchange.AssertTable` | python/repubsub.py:97-120 | once asserted, returns with no query sent; otherwise `db_create`, then `table_create` only if that went through, each tolerating only "already exists"; the flag is set iff both went through |
| `Repubsub.Exchange.Publish` | python/repubsub.py:62-86 | after `assert_table`, sends the update and, only when it replaced nothing, the insert; the table and its notifications become `AfterPublish` and `Notifications`, whose update merges the payload into the stored one; a failed setup writes nothing |
| `Repubsub.Exchange.Subscribe` | python/repubsub.py:88-95 | after `assert_table`, yields `(topic, payload)` of exactly the feed documents whose topic satisfies the filter, in feed order; a failed setup raises and yields nothing |
| `Repubsub.Topic.constructor` | python/repubsub.py:130-132 | a new topic has the given key and belongs to the given exchange |
| `Repubsub.Topic.Publish` | python/repubsub.py:134-136 | exactly `exchange.publish(key, payload)` |
| `Repubsub.Queue.constructor` | python/repubsub.py:145-147 | a new queue holds the given filter and belongs to the given exchange |
| `Repubsub.Queue.FullQuery` | python/repubsub.py:154-156 | the query for the queue's filter: the feed documents whose topic satisfies it, in feed order, and no others |
| `Repubsub.Queue.Subscribe` | python/repubsub.py:149-152 | exactly `exchange.subscribe(filter)` |
| `Repubsub.TwoPublishes` | python/repubsub.py:62-86 | on an empty table the first publish inserts one document; a second publish to the same topic rewrites it in place with the second payload merged into the first; each notifies once with the document it wrote |
| `Repubsub.FirstPublishInserts` | python/repubsub.py:62-86 | the first publish on an empty, unasserted exchange creates the table and inserts the one message, notifying it |
| `Repubsub.SecondPublishUpdates` | python/repubsub.py:62-86 | a second publish to the same topic rewrites that document in place, merging the second payload into the first, and notifies the result after the first message |
| `Repubsub.SubscribeToTopic` | python/repubsub.py:88-95 | a subscriber filtering on one topic, given a feed of that topic only, receives `(topic, payload)` of every message in order |
| `Repubsub.PublishTwiceScenario` | python/repubsub.py:62-95 | two publishes to one topic on a fresh exchange leave one document whose payload is `v2` merged into `v1` (exactly `v2` unless both are objects, and holding all of `v2` always), and a subscriber to the topic receives `(k, v1)` then `(k, merge(v1, v2))` |

## Findings

| source | as written | input that shows it | evidently intended | confidence | as-written member | corrected member |
|---|---|---|---|---|---|---|
| python/repubsub.py:71-74 | `update({'payload': payload, ...})` merges an object payload into the stored object payload | a document `{topic: "k", payload: {"a": 1}}`, then `publish("k", {"b": 2})`: the stored and notified payload is `{"a": 1, "b": 2}` | the topic's document holds the last message sent (python/repubsub.py:3-5), which `'payload': r.literal(payload)` gives, as the topic key already is wrapped at python/repubsub.py:68-70 | medium: rests on ReQL's documented merge of nested objects in `update`; not executed | `Repubsub.PublishMergesObjects`, `Repubsub.PublishMergesExample` | `Repubsub.LiteralPublishStoresLast`, with `Repubsub.PublishAgreesWithLiteral` |

The classes model the code as written: `Repubsub.Exchange.Publish` merges.
The corrected `AfterLiteralPublish` stands beside it, with the intended
property proved, and agrees with it on every payload that is not an object.

## Left out

- re2 regex semantics: `match` is the parameter `re`. The model proves what
  regex each binding key becomes and how the regexes are combined, not
  which topics a regex matches.
- The `r.row != None and matchers` clause (python/rethinkmq.py:105): by
  Python truthiness it evaluates to `matchers`, and the model filters by
  `matchers` alone. `new_val` being null (deletions) is not modelled; this
  layer never deletes.
- `r.literal` matching of dictionary topic keys in `repubsub`: topics match
  by plain equality.
- The concurrent duplicate insert between update and insert
  (python/repubsub.py:76-80): the model is sequential. A table that already
  holds duplicates is handled: each duplicate is updated and notified.
- Randomness of `_force_change`: the values are parameters, assumed fresh,
  so every matched document counts as replaced and every upsert is a change.
- Failures of the update, insert, upsert and changefeed queries: the source
  does not handle them, and the model's server always executes them.
- Laziness of generators: `consume` and `subscribe` return what they yield
  for a finite feed prefix. In Python, `rethinkmq`'s decorator check runs
  at call time and the rest at the first `next()`; `repubsub.subscribe`
  runs everything at the first `next()`. The observable order of checks is
  kept.
- Default arguments of `repubsub`'s `Topic(exchange, topic_key=None)` and
  `Exchange.queue(binding_query=None)` (python/repubsub.py:52, :130): the
  model's constructors always take a key and a filter. A queue built with
  no filter would fail when subscribing, on calling `None` inside
  `full_query` (python/repubsub.py:59-60); that failure is not modelled.
- RethinkMQ.Table.RunUpsert: `insert(..., upsert=True)` is taken to replace
  the stored document whole. Had the server merged instead, object payloads
  would merge as they do in `repubsub`'s update.
- ReQL terms inside a payload (an `r.literal` a caller builds into it) are
  not modelled: payloads are plain JSON, and `Merge` is ReQL's merge of
  plain JSON objects.
- Repubsub.Table.RunUpdate: notifications of a multi-document update are
  emitted in table order; RethinkDB promises no order among them.
- Queries' options (`durability='soft'`, `primary_key='topic'`) are not
  modelled. The primary key shows only in `rethinkmq`'s table being a map
  keyed by topic.
- Connection setup and running queries (`r.connect`, `MQConnection.__init__`,
  `MQConnection.__call__`, `MQConnection.exchange`), `__repr__` methods, and
  logging.
- python/demo.py, python/receiver.py, python/sender.py and python/setup.py
  are drivers, demo content and packaging, not part of this model.
