/** The cache-aside conversation memory (`ChatHistoryService`): each user's latest exchanges
    live in a Redis list under `finmind:history:<userId>`, backed by the `chat_record`
    table. Reads serve the list when it is there and otherwise fall back to the 3 newest rows
    and write them back; saves append to the list and pop its oldest entry when the list
    then holds more than 3.

    Redis failures are parameters of the operations that can meet them. The JSON mapping
    of a node is abstract: an entry the service wrote decodes to the node it wrote, and any
    other text may fail to decode. */
module ChatHistory {
  import opened Wrappers
  import opened ChatStore

  const HISTORY_KEY_PREFIX: string := "finmind:history:"
  const MAX_HISTORY_ROUNDS: nat := 3

  /** `HistoryNode`: one question with its answer. */
  datatype HistoryNode = HistoryNode(question: string, answer: string)

  /** A string in a Redis list: the JSON written for a node, or text that does not decode
      to a node. */
  datatype CachedJson = Json(node: HistoryNode) | Undecodable(text: string)

  /** `objectMapper.readValue(json, HistoryNode.class)`. */
  function Decode(entry: CachedJson): Option<HistoryNode>
  {
    match entry
    case Json(node) => Some(node)
    case Undecodable(_) => None
  }

  function Key(userId: string): string
  {
    HISTORY_KEY_PREFIX + userId
  }

  /** Different users have different keys. */
  lemma KeyInjective(u: string, v: string)
    requires Key(u) == Key(v)
    ensures u == v
  {
    assert u == Key(u)[|HISTORY_KEY_PREFIX|..];
    assert v == Key(v)[|HISTORY_KEY_PREFIX|..];
  }

  // ---------------------------------------------------------------------------------------
  // Redis lists

  /** The list under `key`; Redis treats a missing key as an empty list. */
  function Lookup(lists: map<string, seq<CachedJson>>, key: string): seq<CachedJson>
  {
    if key in lists then lists[key] else []
  }

  /** The Redis lists the service uses. */
  class RedisLists {
    var lists: map<string, seq<CachedJson>>

    constructor ()
      ensures lists == map[]
    {
      lists := map[];
    }

    /** `opsForList().range(key, 0, -1)`: the whole list. */
    method Range(key: string) returns (entries: seq<CachedJson>)
      ensures entries == Lookup(lists, key)
    {
      entries := Lookup(lists, key);
    }

    /** `opsForList().rightPush(key, entry)`. */
    method RightPush(key: string, entry: CachedJson)
      modifies this
      ensures lists == old(lists)[key := Lookup(old(lists), key) + [entry]]
    {
      lists := lists[key := Lookup(lists, key) + [entry]];
    }

    /** `opsForList().size(key)`. */
    method Size(key: string) returns (size: nat)
      ensures size == |Lookup(lists, key)|
    {
      size := |Lookup(lists, key)|;
    }

    /** `opsForList().leftPop(key)`: drop the head; a list left empty disappears. */
    method LeftPop(key: string)
      modifies this
      ensures var before := Lookup(old(lists), key);
        lists == if |before| <= 1 then old(lists) - {key} else old(lists)[key := before[1..]]
    {
      var before := Lookup(lists, key);
      if |before| <= 1 {
        lists := lists - {key};
      } else {
        lists := lists[key := before[1..]];
      }
    }
  }

  // ---------------------------------------------------------------------------------------
  // Messages from nodes and rows

  /** A `UserMessage(question)` then an `AssistantMessage(answer)` per node, in order. */
  function NodeMessages(nodes: seq<HistoryNode>): seq<Message>
  {
    if nodes == [] then []
    else
      var last := nodes[|nodes| - 1];
      NodeMessages(nodes[..|nodes| - 1]) + [UserMessage(last.question), AssistantMessage(last.answer)]
  }

  /** Two messages per node: message 2i asks node i's question, message 2i+1 gives its
      answer. */
  lemma {:induction false} NodeMessagesAt(nodes: seq<HistoryNode>)
    ensures |NodeMessages(nodes)| == 2 * |nodes|
    ensures forall i :: 0 <= i < |nodes| ==>
              NodeMessages(nodes)[2 * i] == UserMessage(nodes[i].question)
              && NodeMessages(nodes)[2 * i + 1] == AssistantMessage(nodes[i].answer)
  {
    if nodes != [] {
      NodeMessagesAt(nodes[..|nodes| - 1]);
    }
  }

  lemma NodeMessagesSnoc(nodes: seq<HistoryNode>, node: HistoryNode)
    ensures NodeMessages(nodes + [node]) == NodeMessages(nodes) + [UserMessage(node.question), AssistantMessage(node.answer)]
  {
    assert (nodes + [node])[..|nodes|] == nodes;
  }

  /** The node for each row: its question and its answer. */
  function RecordNodes(records: seq<ChatRecord>): (r: seq<HistoryNode>)
    ensures |r| == |records|
  {
    if records == [] then []
    else
      var last := records[|records| - 1];
      RecordNodes(records[..|records| - 1]) + [HistoryNode(last.question, last.answer)]
  }

  /** The nodes of the entries that decode, in order. */
  function DecodeAll(entries: seq<CachedJson>): seq<HistoryNode>
  {
    if entries == [] then []
    else
      var last := entries[|entries| - 1];
      DecodeAll(entries[..|entries| - 1]) + (match Decode(last) case Some(n) => [n] case None => [])
  }

  /** The index of the first entry that does not decode, or the length when all do. */
  function FirstUndecodable(entries: seq<CachedJson>): (r: nat)
    ensures r <= |entries|
  {
    if entries == [] || Decode(entries[0]).None? then 0 else 1 + FirstUndecodable(entries[1..])
  }

  /** No entry before the first undecodable one fails to decode. */
  lemma {:induction false} FirstUndecodableBound(entries: seq<CachedJson>, j: nat)
    requires j < |entries| && Decode(entries[j]).None?
    ensures FirstUndecodable(entries) <= j
  {
    if j > 0 && Decode(entries[0]).Some? {
      FirstUndecodableBound(entries[1..], j - 1);
    }
  }

  /** The entry at the first undecodable index does not decode. */
  lemma {:induction false} FirstUndecodableStops(entries: seq<CachedJson>)
    ensures FirstUndecodable(entries) < |entries| ==> Decode(entries[FirstUndecodable(entries)]).None?
  {
    if entries != [] && Decode(entries[0]).Some? {
      FirstUndecodableStops(entries[1..]);
    }
  }

  /** Every entry before the first undecodable one decodes. */
  lemma {:induction false} FirstUndecodableAt(entries: seq<CachedJson>)
    ensures forall j :: 0 <= j < FirstUndecodable(entries) ==> Decode(entries[j]).Some?
  {
    if entries != [] && Decode(entries[0]).Some? {
      FirstUndecodableAt(entries[1..]);
    }
  }

  /** One node per row: its question and its answer. */
  lemma {:induction false} RecordNodesAt(records: seq<ChatRecord>)
    ensures forall i :: 0 <= i < |records| ==> RecordNodes(records)[i] == HistoryNode(records[i].question, records[i].answer)
  {
    if records != [] {
      RecordNodesAt(records[..|records| - 1]);
    }
  }

  lemma RecordNodeAt(records: seq<ChatRecord>, k: nat)
    requires k < |records|
    ensures RecordNodes(records)[k] == HistoryNode(records[k].question, records[k].answer)
  {
    RecordNodesAt(records);
  }

  /** The entries `nodes` become when pushed. */
  function Encoded(nodes: seq<HistoryNode>): (r: seq<CachedJson>)
    ensures |r| == |nodes|
  {
    if nodes == [] then [] else Encoded(nodes[..|nodes| - 1]) + [Json(nodes[|nodes| - 1])]
  }

  lemma {:induction false} EncodedAt(nodes: seq<HistoryNode>)
    ensures forall i :: 0 <= i < |nodes| ==> Encoded(nodes)[i] == Json(nodes[i])
  {
    if nodes != [] {
      EncodedAt(nodes[..|nodes| - 1]);
    }
  }

  /** The lists after right-pushing `nodes` one by one onto `key`. */
  function Backfilled(lists: map<string, seq<CachedJson>>, key: string, nodes: seq<HistoryNode>): map<string, seq<CachedJson>>
  {
    if nodes == [] then lists
    else
      var before := Backfilled(lists, key, nodes[..|nodes| - 1]);
      before[key := Lookup(before, key) + [Json(nodes[|nodes| - 1])]]
  }

  lemma BackfilledSnoc(lists: map<string, seq<CachedJson>>, key: string, nodes: seq<HistoryNode>, node: HistoryNode)
    ensures var before := Backfilled(lists, key, nodes);
      Backfilled(lists, key, nodes + [node]) == before[key := Lookup(before, key) + [Json(node)]]
  {
    assert (nodes + [node])[..|nodes|] == nodes;
  }

  /** Backfilling one more node of `nodes` is one more push. */
  lemma BackfilledStep(lists: map<string, seq<CachedJson>>, key: string, nodes: seq<HistoryNode>, k: nat)
    requires k < |nodes|
    ensures var before := Backfilled(lists, key, nodes[..k]);
      Backfilled(lists, key, nodes[..k + 1]) == before[key := Lookup(before, key) + [Json(nodes[k])]]
  {
    assert nodes[..k + 1] == nodes[..k] + [nodes[k]];
    BackfilledSnoc(lists, key, nodes[..k], nodes[k]);
  }

  /** Backfilling appends the nodes to the user's list, in order, and leaves every other
      list as it was. */
  lemma {:induction false} BackfilledAt(lists: map<string, seq<CachedJson>>, key: string, nodes: seq<HistoryNode>)
    ensures Lookup(Backfilled(lists, key, nodes), key) == Lookup(lists, key) + Encoded(nodes)
    ensures forall k :: k != key ==> Lookup(Backfilled(lists, key, nodes), k) == Lookup(lists, k)
  {
    if nodes != [] {
      BackfilledAt(lists, key, nodes[..|nodes| - 1]);
    }
  }

  // ---------------------------------------------------------------------------------------
  // getHistoryMessages

  /** What a history read returns and what the Redis lists then hold. */
  datatype ReadOutcome = ReadOutcome(messages: seq<Message>, lists: map<string, seq<CachedJson>>)

  /** The list the read gets from Redis: nothing when the range call throws. */
  function CachedFor(lists: map<string, seq<CachedJson>>, userId: string, rangeFails: bool): seq<CachedJson>
  {
    if rangeFails then [] else Lookup(lists, Key(userId))
  }

  /** A hit: a non-empty list whose every entry decodes. */
  predicate IsHit(cached: seq<CachedJson>)
  {
    cached != [] && FirstUndecodable(cached) == |cached|
  }

  /** The rows a miss reads, oldest first. */
  function MissRecords(rows: seq<ChatRecord>, userId: string): seq<ChatRecord>
  {
    Reverse(Newest(rows, userId, MAX_HISTORY_ROUNDS))
  }

  /** How many of `count` backfill pushes happen before the failing one. */
  function Pushed(count: nat, backfillFault: Option<nat>): nat
  {
    match backfillFault
    case Some(k) => Min(k, count)
    case None => count
  }

  /** `getHistoryMessages` over the lists and the rows, when the table query does not
      throw. `rangeFails` says the Redis read throws; `backfillFault` says which backfill
      push throws, if any. On a miss the messages decoded before a failure stay at the
      front. */
  function ReadHistory(lists: map<string, seq<CachedJson>>, rows: seq<ChatRecord>, userId: string,
                       rangeFails: bool, backfillFault: Option<nat>): ReadOutcome
  {
    var cached := CachedFor(lists, userId, rangeFails);
    if IsHit(cached) then ReadOutcome(NodeMessages(DecodeAll(cached)), lists)
    else
      var nodes := RecordNodes(MissRecords(rows, userId));
      ReadOutcome(NodeMessages(DecodeAll(cached[..FirstUndecodable(cached)])) + NodeMessages(nodes),
                  Backfilled(lists, Key(userId), nodes[..Pushed(|nodes|, backfillFault)]))
  }

  /** The decoding loop of a read: the messages of the entries before the first that fails
      to decode, and how many entries that is. */
  method DecodeEntries(cached: seq<CachedJson>) returns (messages: seq<Message>, decoded: nat)
    ensures decoded == FirstUndecodable(cached)
    ensures messages == NodeMessages(DecodeAll(cached[..decoded]))
  {
    FirstUndecodableStops(cached);
    messages := [];
    decoded := 0;
    while decoded < |cached|
      invariant decoded <= FirstUndecodable(cached)
      invariant messages == NodeMessages(DecodeAll(cached[..decoded]))
    {
      var node := Decode(cached[decoded]);
      if node.None? {
        FirstUndecodableBound(cached, decoded);
        return;
      }
      messages := messages + [UserMessage(node.value.question), AssistantMessage(node.value.answer)];
      ghost var prefix := cached[..decoded];
      assert cached[..decoded + 1][..decoded] == prefix;
      assert DecodeAll(cached[..decoded + 1]) == DecodeAll(prefix) + [node.value];
      NodeMessagesSnoc(DecodeAll(prefix), node.value);
      decoded := decoded + 1;
    }
  }

  /** The loop building the messages of the fetched rows. */
  method AppendRecordMessages(messages: seq<Message>, records: array<ChatRecord>) returns (result: seq<Message>)
    ensures result == messages + NodeMessages(RecordNodes(records[..]))
  {
    result := messages;
    var m := 0;
    while m < records.Length
      invariant 0 <= m <= records.Length
      invariant result == messages + NodeMessages(RecordNodes(records[..m]))
    {
      ghost var before := RecordNodes(records[..m]);
      ghost var node := HistoryNode(records[m].question, records[m].answer);
      var pair := [UserMessage(records[m].question), AssistantMessage(records[m].answer)];
      assert records[..m + 1][..m] == records[..m];
      assert RecordNodes(records[..m + 1]) == before + [node];
      NodeMessagesSnoc(before, node);
      assert (messages + NodeMessages(before)) + pair == messages + NodeMessages(before + [node]);
      result := result + pair;
      m := m + 1;
    }
    assert records[..m] == records[..];
  }

  /** The outcome of the Redis writes of `saveInteraction`: the push throws (nothing is
      written), the size query or the pop throws (the push stays, untrimmed), or none
      throws. */
  datatype SaveFault = NoFault | PushFails | TrimFails

  /** The lists after `saveInteraction` pushes `node` onto `key`. */
  function SavedLists(lists: map<string, seq<CachedJson>>, key: string, node: HistoryNode, fault: SaveFault): map<string, seq<CachedJson>>
  {
    if fault == PushFails then lists
    else
      var pushed := Lookup(lists, key) + [Json(node)];
      if fault == TrimFails || |pushed| <= MAX_HISTORY_ROUNDS then lists[key := pushed]
      else lists[key := pushed[1..]]
  }

  class ChatHistoryService {
    const redis: RedisLists
    const table: ChatRecordTable

    constructor (redis: RedisLists, table: ChatRecordTable)
      ensures this.redis == redis && this.table == table
    {
      this.redis := redis;
      this.table := table;
    }

    /** `getHistoryMessages`: the cached list when it is there and decodes; otherwise the
        user's 3 newest rows, oldest first, written back to the cache. `selectFails` says the
        table query throws; that exception is not caught, so the read then answers nothing
        (`None`) and, as nothing has been pushed yet, leaves the lists as they were. */
    method GetHistoryMessages(userId: string, rangeFails: bool, selectFails: bool, backfillFault: Option<nat>)
      returns (result: Option<seq<Message>>)
      modifies redis
      ensures var outcome := ReadHistory(old(redis.lists), table.rows, userId, rangeFails, backfillFault);
        if selectFails && !IsHit(CachedFor(old(redis.lists), userId, rangeFails))
        then result.None? && redis.lists == old(redis.lists)
        else result == Some(outcome.messages) && redis.lists == outcome.lists
    {
      var key := HISTORY_KEY_PREFIX + userId;
      ghost var cached := CachedFor(redis.lists, userId, rangeFails);
      var messages := [];
      if !rangeFails {
        var entries := redis.Range(key);
        if |entries| > 0 {
          var decoded;
          messages, decoded := DecodeEntries(entries);
          if decoded == |entries| {
            assert entries[..decoded] == entries;
            return Some(messages);
          }
        }
      }
      assert !IsHit(cached);
      result := ReadDatabase(userId, messages, selectFails, backfillFault);
    }

    /** The database path of a read: the user's 3 newest rows, reversed to oldest first,
        pushed back onto the list and appended to the messages gathered so far; nothing,
        with the lists untouched, when the query throws. */
    method ReadDatabase(userId: string, messages: seq<Message>, selectFails: bool, backfillFault: Option<nat>)
      returns (result: Option<seq<Message>>)
      modifies redis
      ensures selectFails ==> result.None? && redis.lists == old(redis.lists)
      ensures !selectFails ==>
        var nodes := RecordNodes(MissRecords(table.rows, userId));
        && result == Some(messages + NodeMessages(nodes))
        && redis.lists == Backfilled(old(redis.lists), Key(userId), nodes[..Pushed(|nodes|, backfillFault)])
    {
      if selectFails {
        return None;
      }
      ghost var nodes := RecordNodes(MissRecords(table.rows, userId));
      var records := table.SelectList(userId, MAX_HISTORY_ROUNDS);
      if records.Length == 0 {
        assert nodes == [] && nodes[..Pushed(|nodes|, backfillFault)] == [];
        assert messages + NodeMessages([]) == messages;
        return Some(messages);
      }
      ReverseInPlace(records);
      assert RecordNodes(records[..]) == nodes;
      Backfill(HISTORY_KEY_PREFIX + userId, records, backfillFault);
      var all := AppendRecordMessages(messages, records);
      result := Some(all);
    }

    /** The backfill loop: push each fetched row onto the list in order, until a push
        throws. */
    method Backfill(key: string, records: array<ChatRecord>, backfillFault: Option<nat>)
      modifies redis
      ensures redis.lists == Backfilled(old(redis.lists), key, RecordNodes(records[..])[..Pushed(records.Length, backfillFault)])
    {
      ghost var rows := records[..];
      ghost var nodes := RecordNodes(rows);
      ghost var start := redis.lists;
      var k := 0;
      while k < records.Length
        invariant 0 <= k <= records.Length
        invariant redis.lists == Backfilled(start, key, nodes[..k])
        invariant backfillFault.Some? ==> k <= backfillFault.value
      {
        if backfillFault == Some(k) {
          return;
        }
        var node := HistoryNode(records[k].question, records[k].answer);
        assert rows[k] == records[k];
        RecordNodeAt(rows, k);
        BackfilledStep(start, key, nodes, k);
        redis.RightPush(key, Json(node));
        k := k + 1;
      }
    }

    /** `saveInteraction`: insert the exchange into the table (a failure there is logged and
        ignored), then push it onto the user's list and pop the head when the list is over
        3. */
    method SaveInteraction(userId: string, userQ: string, aiA: string, dbFails: bool, fault: SaveFault)
      requires table.Valid()
      modifies table, redis
      ensures table.Valid()
      ensures table.rows == if dbFails then old(table.rows)
                            else old(table.rows) + [ChatRecord(|old(table.rows)| + 1, userId, userQ, aiA, old(table.clock))]
      ensures table.clock == if dbFails then old(table.clock) else old(table.clock) + 1
      ensures redis.lists == SavedLists(old(redis.lists), Key(userId), HistoryNode(userQ, aiA), fault)
    {
      if !dbFails {
        table.Insert(userId, userQ, aiA);
      }
      var key := HISTORY_KEY_PREFIX + userId;
      if fault == PushFails {
        return;
      }
      redis.RightPush(key, Json(HistoryNode(userQ, aiA)));
      if fault == TrimFails {
        return;
      }
      var size := redis.Size(key);
      if size > MAX_HISTORY_ROUNDS {
        redis.LeftPop(key);
      }
    }
  }

  // ---------------------------------------------------------------------------------------
  // Properties of reads

  /** A hit: a non-empty list that decodes answers two messages per entry, in list order,
      without trimming; the cache is unchanged and the table is not consulted. */
  lemma ReadHit(lists: map<string, seq<CachedJson>>, rows: seq<ChatRecord>, otherRows: seq<ChatRecord>, userId: string, backfillFault: Option<nat>)
    requires var cached := Lookup(lists, Key(userId)); cached != [] && forall i :: 0 <= i < |cached| ==> cached[i].Json?
    ensures var cached := Lookup(lists, Key(userId));
      var outcome := ReadHistory(lists, rows, userId, false, backfillFault);
      && outcome == ReadHistory(lists, otherRows, userId, false, None)
      && outcome.lists == lists
      && |outcome.messages| == 2 * |cached|
      && forall i :: 0 <= i < |cached| ==>
           outcome.messages[2 * i] == UserMessage(cached[i].node.question)
           && outcome.messages[2 * i + 1] == AssistantMessage(cached[i].node.answer)
  {
    var cached := Lookup(lists, Key(userId));
    AllJsonDecode(cached);
    NodeMessagesAt(DecodeAll(cached));
  }

  lemma {:induction false} AllJsonDecode(entries: seq<CachedJson>)
    requires forall i :: 0 <= i < |entries| ==> entries[i].Json?
    ensures FirstUndecodable(entries) == |entries|
    ensures |DecodeAll(entries)| == |entries|
    ensures forall i :: 0 <= i < |entries| ==> DecodeAll(entries)[i] == entries[i].node
  {
    if entries != [] {
      AllJsonDecode(entries[1..]);
      AllJsonDecode(entries[..|entries| - 1]);
    }
  }

  /** A miss: the result is the entries decoded before the failure (none after a failed
      read), then two messages for each of the user's 3 most recent rows, oldest first, so
      the rows contribute at most 6 messages; with no rows nothing is written back. */
  lemma ReadMiss(lists: map<string, seq<CachedJson>>, rows: seq<ChatRecord>, userId: string, rangeFails: bool, backfillFault: Option<nat>)
    requires !IsHit(CachedFor(lists, userId, rangeFails))
    ensures var cached := CachedFor(lists, userId, rangeFails);
      var latest := Latest(UserRows(rows, userId), MAX_HISTORY_ROUNDS);
      var outcome := ReadHistory(lists, rows, userId, rangeFails, backfillFault);
      && outcome.messages == NodeMessages(DecodeAll(cached[..FirstUndecodable(cached)])) + NodeMessages(RecordNodes(latest))
      && |NodeMessages(RecordNodes(latest))| == 2 * |latest| <= 2 * MAX_HISTORY_ROUNDS
      && (UserRows(rows, userId) == [] ==> outcome.lists == lists)
  {
    NewestIsLatest(rows, userId, MAX_HISTORY_ROUNDS);
    NodeMessagesAt(RecordNodes(Latest(UserRows(rows, userId), MAX_HISTORY_ROUNDS)));
  }

  /** A failing backfill push changes what is cached but never what is returned. */
  lemma BackfillFaultInvisible(lists: map<string, seq<CachedJson>>, rows: seq<ChatRecord>, userId: string, rangeFails: bool, f: Option<nat>, g: Option<nat>)
    ensures ReadHistory(lists, rows, userId, rangeFails, f).messages == ReadHistory(lists, rows, userId, rangeFails, g).messages
  {
  }

  /** Whatever fails, a read changes no other user's list. */
  lemma ReadIsolation(lists: map<string, seq<CachedJson>>, rows: seq<ChatRecord>, userId: string, other: string, rangeFails: bool, backfillFault: Option<nat>)
    requires other != userId
    ensures Lookup(ReadHistory(lists, rows, userId, rangeFails, backfillFault).lists, Key(other)) == Lookup(lists, Key(other))
  {
    var nodes := RecordNodes(MissRecords(rows, userId));
    BackfilledAt(lists, Key(userId), nodes[..Pushed(|nodes|, backfillFault)]);
    if Key(other) == Key(userId) {
      KeyInjective(other, userId);
    }
  }

  /** Without a failure, a miss pushes the user's 3 most recent rows onto the list, oldest
      first. */
  lemma ReadBackfillOrder(lists: map<string, seq<CachedJson>>, rows: seq<ChatRecord>, userId: string, rangeFails: bool)
    requires !IsHit(CachedFor(lists, userId, rangeFails))
    ensures Lookup(ReadHistory(lists, rows, userId, rangeFails, None).lists, Key(userId))
              == Lookup(lists, Key(userId)) + Encoded(RecordNodes(Latest(UserRows(rows, userId), MAX_HISTORY_ROUNDS)))
  {
    var nodes := RecordNodes(MissRecords(rows, userId));
    NewestIsLatest(rows, userId, MAX_HISTORY_ROUNDS);
    assert nodes[..|nodes|] == nodes;
    BackfilledAt(lists, Key(userId), nodes);
  }

  /** A list holding an entry that does not decode never serves a hit again, and each read
      of a user with rows pushes the rows behind it, so the list outgrows the 3-entry
      bound and keeps growing. */
  lemma UndecodableEntryGrowsCache(lists: map<string, seq<CachedJson>>, rows: seq<ChatRecord>, userId: string, j: nat)
    requires var cached := Lookup(lists, Key(userId)); j < |cached| && cached[j].Undecodable?
    requires UserRows(rows, userId) != []
    ensures var cached := Lookup(lists, Key(userId));
      var after := Lookup(ReadHistory(lists, rows, userId, false, None).lists, Key(userId));
      && |after| > |cached|
      && after[j] == cached[j]
  {
    var cached := Lookup(lists, Key(userId));
    FirstUndecodableAt(cached);
    assert !IsHit(cached);
    ReadBackfillOrder(lists, rows, userId, false);
    assert |Latest(UserRows(rows, userId), MAX_HISTORY_ROUNDS)| > 0;
  }

  // ---------------------------------------------------------------------------------------
  // Properties of saves

  /** A save without a fault keeps the 3 most recent exchanges, newest last, whenever the
      list held at most 3 before: the new entry is pushed and exactly one head entry is
      popped when the list grows past 3. */
  lemma SaveKeepsLatest(lists: map<string, seq<CachedJson>>, userId: string, node: HistoryNode)
    ensures var before, after := Lookup(lists, Key(userId)), Lookup(SavedLists(lists, Key(userId), node, NoFault), Key(userId));
      |before| <= MAX_HISTORY_ROUNDS ==>
        && after == Latest(before + [Json(node)], MAX_HISTORY_ROUNDS)
        && |after| <= MAX_HISTORY_ROUNDS
        && after[|after| - 1] == Json(node)
  {
    var before := Lookup(lists, Key(userId));
    var pushed := before + [Json(node)];
    if |before| <= MAX_HISTORY_ROUNDS {
      assert Lookup(SavedLists(lists, Key(userId), node, NoFault), Key(userId))
        == if |pushed| <= MAX_HISTORY_ROUNDS then pushed else pushed[1..];
      if |pushed| <= MAX_HISTORY_ROUNDS {
        assert pushed[|pushed| - Min(MAX_HISTORY_ROUNDS, |pushed|)..] == pushed;
      }
    }
  }

  /** A save touches only the saving user's list. */
  lemma SaveIsolation(lists: map<string, seq<CachedJson>>, userId: string, node: HistoryNode, fault: SaveFault)
    ensures var after := SavedLists(lists, Key(userId), node, fault);
      forall other :: other != userId ==> Lookup(after, Key(other)) == Lookup(lists, Key(other))
  {
    forall other | other != userId
      ensures Key(other) != Key(userId)
    {
      if Key(other) == Key(userId) {
        KeyInjective(other, userId);
      }
    }
  }

  /** A list within the bound whose entries all decode. */
  ghost predicate HealthyList(entries: seq<CachedJson>)
  {
    |entries| <= MAX_HISTORY_ROUNDS && forall i :: 0 <= i < |entries| ==> entries[i].Json?
  }

  /** Every list is healthy. */
  ghost predicate CacheHealthy(lists: map<string, seq<CachedJson>>)
  {
    forall k :: k in lists ==> HealthyList(lists[k])
  }

  /** A healthy cache stays healthy under a save whose trim does not fail. */
  lemma SaveKeepsCacheHealthy(lists: map<string, seq<CachedJson>>, userId: string, node: HistoryNode, fault: SaveFault)
    requires CacheHealthy(lists) && fault != TrimFails
    ensures CacheHealthy(SavedLists(lists, Key(userId), node, fault))
  {
    var key := Key(userId);
    var pushed := Lookup(lists, key) + [Json(node)];
    assert forall i :: 0 <= i < |pushed| ==> pushed[i].Json?;
  }

  /** A healthy cache stays healthy under a read whose Redis range call succeeds: a healthy
      list is either a hit or empty, and an empty list receives at most 3 entries. */
  lemma ReadKeepsCacheHealthy(lists: map<string, seq<CachedJson>>, rows: seq<ChatRecord>, userId: string, backfillFault: Option<nat>)
    requires CacheHealthy(lists)
    ensures CacheHealthy(ReadHistory(lists, rows, userId, false, backfillFault).lists)
  {
    var key := Key(userId);
    var cached := Lookup(lists, key);
    if cached == [] {
      var nodes := RecordNodes(MissRecords(rows, userId));
      NewestShape(rows, userId, MAX_HISTORY_ROUNDS);
      ReverseAt(Newest(rows, userId, MAX_HISTORY_ROUNDS));
      BackfillKeepsCacheHealthy(lists, key, nodes[..Pushed(|nodes|, backfillFault)]);
    } else {
      AllJsonDecode(cached);
    }
  }

  /** Backfilling at most 3 nodes onto an empty list of a healthy cache keeps it healthy. */
  lemma BackfillKeepsCacheHealthy(lists: map<string, seq<CachedJson>>, key: string, written: seq<HistoryNode>)
    requires CacheHealthy(lists) && Lookup(lists, key) == [] && |written| <= MAX_HISTORY_ROUNDS
    ensures CacheHealthy(Backfilled(lists, key, written))
  {
    var after := Backfilled(lists, key, written);
    BackfilledAt(lists, key, written);
    assert HealthyList(Lookup(after, key)) by {
      assert Lookup(after, key) == Encoded(written);
      EncodedAt(written);
    }
    forall k: string | k in after
      ensures HealthyList(after[k])
    {
      assert after[k] == Lookup(after, k);
      if k != key {
        assert Lookup(after, k) == Lookup(lists, k);
      }
    }
  }
}
