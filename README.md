# ZUEL-FinMind retrieval and memory core, in Dafny

ZUEL-FinMind is a retrieval-augmented financial chat backend. This project models its
retrieval and conversation-memory path and proves properties of that model:

- **Chunking.** `DocumentUtils.splitText` collapses whitespace runs to one space and trims
  the text. It then cuts the result into windows of `chunkSize` characters that advance by
  `chunkSize - overlap` (`Chunker.dfy`).
- **Pinecone ingestion and search.** `PineconeVectorStore.store` builds one upsert record
  per chunk whose embedding succeeded. It groups the records with the `batches` helper and
  upserts the batches in order. `search` keeps the matches of a top-20 query that score above
  0.4 and maps them to `(material, score, source)` (`VectorStore.dfy`).
- **Cache-aside memory.** `ChatHistoryService` keeps each user's latest exchanges in a Redis
  list under `finmind:history:<userId>`. A read serves the list when it is there and decodes.
  Otherwise it falls back to the user's 3 newest `chat_record` rows and writes them back. A
  save inserts the row, pushes the exchange, and pops the oldest entry when the list then
  holds more than 3 (`ChatHistory.dfy`).
- **Legacy prompt assembly.** `DeepSeekService.chat` sends
  `[system persona] ++ history ++ [question]` to the model and records the exchange. Its
  history is the user's 10 newest rows, oldest first (`DeepSeek.dfy`).
- **In-memory knowledge map.** `KnowledgeBaseService.addDocument` inserts a text with its
  embedding if the text is absent. `search` returns the stored text with the highest score
  when that score is above 0.4 (`KnowledgeBase.dfy`).

`ChatStore.dfy` holds what two services share:

- the `chat_record` table, as a class with the auto-increment id and a creation-time counter;
- the query `user_id = ? ORDER BY create_time DESC LIMIT n`;
- the message kinds;
- `Collections.reverse`, as an in-place array reversal.

`Wrappers.dfy` holds `Option`, `Result` and `Min`.

Where the source changes state, the model does too:

- The Redis lists, the table, the Pinecone index, the upsert `ArrayList`s and the knowledge
  map are class fields. The methods that change them carry `modifies` clauses.
- Each method that has a loop in the source is a method with that loop. It is proved
  against a specification function of the inputs and the old state. The properties are
  lemmas about those functions.

External calls are parameters:

- the embedding service is `embed: string -> Option<Vector>`, with `None` for Java's `null`;
- the chat model is a function from the prompt to an optional answer;
- the Pinecone query is a function from a vector and `topK` to optional matches, with `None` when the index call throws;
- the cosine score is `similarity: (Vector, Vector) -> real`.

Exceptions the source catches or lets through become explicit fault parameters:

- `rangeFails`, `selectFails` and `backfillFault` for a read;
- `dbFails` and `SaveFault` for a save;
- `UpsertFailure` for `store`;
- `selectFails` and `insertFails` for `chat`.

The model's `Store`, `Chat` and `Search` keep the behaviour as written. The corrected
definitions under "## Findings" sit beside them, with their intended properties proved.

## Model

| member | source | states |
|---|---|---|
| Chunker.SplitText | src/main/java/org/swy/zuelfinmind/utils/DocumentUtils.java:37-63 | For `0 <= overlap < chunkSize`, the chunks returned are exactly the windows of the normalised text; an empty text gives none. |
| Chunker.SlideWindow | src/main/java/org/swy/zuelfinmind/utils/DocumentUtils.java:44-59 | The `while (start < length)` loop, which breaks after the window that reaches the end, produces exactly the reference windows. |
| Chunker.CollapseSpacesShape | src/main/java/org/swy/zuelfinmind/utils/DocumentUtils.java:42 | `replaceAll("\\s+", " ")` leaves no whitespace but single plain spaces, never two in a row. It keeps every other character in order, and it is empty only for empty input. |
| Chunker.CollapseRun | src/main/java/org/swy/zuelfinmind/utils/DocumentUtils.java:42 | A non-empty whitespace run becomes one space. |
| Chunker.CollapseSpacesJoin | src/main/java/org/swy/zuelfinmind/utils/DocumentUtils.java:42 | Cutting the text where the cut does not fall inside a whitespace run, collapsing the two parts and joining them gives the collapsed text. |
| Chunker.CollapseRunBetween | src/main/java/org/swy/zuelfinmind/utils/DocumentUtils.java:42 | A whitespace run that sits between two other characters becomes exactly one space, with the text on each side collapsed on its own; it is never dropped. |
| Chunker.TrimShape | src/main/java/org/swy/zuelfinmind/utils/DocumentUtils.java:42 | `trim()` returns the infix left after cutting characters up to U+0020 from both ends; everything cut is such a character and the result neither starts nor ends with one. |
| Chunker.NormalizeSpaces | src/main/java/org/swy/zuelfinmind/utils/DocumentUtils.java:42 | The cleaned text holds no tab, newline or other whitespace, only single spaces. |
| Chunker.NormalizeTrimmed | src/main/java/org/swy/zuelfinmind/utils/DocumentUtils.java:42 | The cleaned text neither starts nor ends with a space or control character. |
| Chunker.BlankNormalizesToEmpty | src/main/java/org/swy/zuelfinmind/utils/DocumentUtils.java:39-47 | Whitespace-only text cleans to the empty string, so the loop never runs and no chunk is produced. |
| Chunker.WindowStartIsProduct | src/main/java/org/swy/zuelfinmind/utils/DocumentUtils.java:58 | After k turns the loop's `start` is `k * (chunkSize - overlap)`. |
| Chunker.ChunkCountBounds | src/main/java/org/swy/zuelfinmind/utils/DocumentUtils.java:47-58 | The number of windows is 0 exactly for an empty text. The last window starts inside the text and reaches its end, and the one before it stopped short of the end. |
| Chunker.ChunkCountClosedForm | src/main/java/org/swy/zuelfinmind/utils/DocumentUtils.java:44-58 | The number of chunks is 0 for empty text, 1 when `0 < L <= chunkSize`, and otherwise `1 + ceil((L - chunkSize) / step)`. |
| Chunker.ChunkAt | src/main/java/org/swy/zuelfinmind/utils/DocumentUtils.java:47-58 | Chunk k is `clean[k*step .. min(k*step + chunkSize, L)]` and starts inside the text. |
| Chunker.ChunkLengths | src/main/java/org/swy/zuelfinmind/utils/DocumentUtils.java:47-52 | Every chunk is non-empty and at most `chunkSize` characters long. |
| Chunker.ChunkCountCases | src/main/java/org/swy/zuelfinmind/utils/DocumentUtils.java:39-57 | There is no chunk exactly when the cleaned text is empty, and a cleaned text that fits one window is the only chunk. |
| Chunker.ChunkFull | src/main/java/org/swy/zuelfinmind/utils/DocumentUtils.java:49-58 | A chunk that is not the last is a full window ending before the text does. |
| Chunker.ChunkEnds | src/main/java/org/swy/zuelfinmind/utils/DocumentUtils.java:49-57 | All chunks but the last have `chunkSize` characters, and the last ends exactly at the end of the cleaned text. |
| Chunker.ChunkOverlap | src/main/java/org/swy/zuelfinmind/utils/DocumentUtils.java:49-58 | Chunk k+1 begins with the last `overlap` characters of chunk k. |
| Chunker.ChunkCoverage | src/main/java/org/swy/zuelfinmind/utils/DocumentUtils.java:47-58 | Every character of the cleaned text lies in some chunk, at its offset from that chunk's start. |
| Chunker.ReassembleChunks | src/main/java/org/swy/zuelfinmind/utils/DocumentUtils.java:42-59 | Dropping each chunk's leading overlap (all but the first) and concatenating gives back the cleaned text exactly: chunking loses and duplicates nothing. |
| Chunker.SplitExample | src/main/java/org/swy/zuelfinmind/utils/DocumentUtils.java:44-58 | "ABCDEFGHIJ" with size 4 and overlap 1 is cut into "ABCD", "DEFG", "GHIJ". |
| VectorStore.NatToStringInjective | src/main/java/org/swy/zuelfinmind/service/strategy/impl/PineconeVectorStore.java:103 | Different chunk indices print as different decimal strings. |
| VectorStore.PartIdInjective | src/main/java/org/swy/zuelfinmind/service/strategy/impl/PineconeVectorStore.java:103 | `filename + "_part_" + i` differs for different i. |
| VectorStore.BuildUpsertList | src/main/java/org/swy/zuelfinmind/service/strategy/impl/PineconeVectorStore.java:91-114 | The loop fills a fresh list with one record per chunk whose embedding is not null, in chunk order. |
| VectorStore.EmbeddedPartsExact | src/main/java/org/swy/zuelfinmind/service/strategy/impl/PineconeVectorStore.java:93-97 | The chunks that get a record are exactly those with an embedding, in increasing index order. |
| VectorStore.UpsertEntriesAt | src/main/java/org/swy/zuelfinmind/service/strategy/impl/PineconeVectorStore.java:93-113 | Record p is the record of the p-th embedded chunk i: id `filename_part_i` (skipped chunks leave gaps), values the embedding, metadata `material` the chunk text and `source` the file name. |
| VectorStore.UpsertIdsDistinct | src/main/java/org/swy/zuelfinmind/service/strategy/impl/PineconeVectorStore.java:102-112 | No two records of one upload share an id. |
| VectorStore.VectorList.Add | src/main/java/org/swy/zuelfinmind/service/strategy/impl/PineconeVectorStore.java:112 | `ArrayList.add` appends the record and changes nothing else. |
| VectorStore.PineconeIndex.Upsert | src/main/java/org/swy/zuelfinmind/service/strategy/impl/PineconeVectorStore.java:120 | An upsert writes each record under its id (last wins) and leaves every other record. |
| VectorStore.BatchMapContents | src/main/java/org/swy/zuelfinmind/service/strategy/impl/PineconeVectorStore.java:120 | A batch with distinct ids writes exactly its records under their ids. |
| VectorStore.BatchMapAppend | src/main/java/org/swy/zuelfinmind/service/strategy/impl/PineconeVectorStore.java:119-121 | Upserting two lists one after the other writes what upserting their concatenation writes. |
| VectorStore.Batches | src/main/java/org/swy/zuelfinmind/service/strategy/impl/PineconeVectorStore.java:220-238 | At most 96 records: the one batch is the input list itself, unchanged. More than 96: `floor((n-1)/96)` entries that all alias one fresh list, which holds all n records in order on return. |
| VectorStore.NoRecordLost | src/main/java/org/swy/zuelfinmind/service/strategy/impl/PineconeVectorStore.java:220-238 | There is always a batch, and every record is in the first one. |
| VectorStore.BatchesOversizeExample | src/main/java/org/swy/zuelfinmind/service/strategy/impl/PineconeVectorStore.java:229-237 | 97 records go out as one batch of 97; 193 records as two batches that each hold all 193. |
| VectorStore.SplitIntoBatchesSound | src/main/java/org/swy/zuelfinmind/service/strategy/impl/PineconeVectorStore.java:219-238 | The intended batching sends every record exactly once, in order, in non-empty batches of at most 96. |
| VectorStore.ApplyAllFlatten | src/main/java/org/swy/zuelfinmind/service/strategy/impl/PineconeVectorStore.java:119-121 | Upserting batches in order writes what upserting their concatenation writes. |
| VectorStore.RepeatedUpsert | src/main/java/org/swy/zuelfinmind/service/strategy/impl/PineconeVectorStore.java:119-121 | Upserting the same list several times writes what one upsert of it writes. |
| VectorStore.BatchingsAgreeOnSuccess | src/main/java/org/swy/zuelfinmind/service/strategy/impl/PineconeVectorStore.java:117-121 | Once every upsert succeeds, the batches as written and the intended batches leave the index in the same state. |
| VectorStore.KeptExactly | src/main/java/org/swy/zuelfinmind/service/strategy/impl/PineconeVectorStore.java:170-171 | The filter keeps exactly the matches scoring strictly above 0.4. |
| VectorStore.KeptAppend | src/main/java/org/swy/zuelfinmind/service/strategy/impl/PineconeVectorStore.java:170-171 | The filter preserves order: filtering a concatenation filters each part. |
| VectorStore.MapResultsExact | src/main/java/org/swy/zuelfinmind/service/strategy/impl/PineconeVectorStore.java:172-194 | The mapping succeeds exactly when every kept match has both metadata fields. It then gives one `(material, score, source)` per match, in order. |
| VectorStore.SearchMatchesScores | src/main/java/org/swy/zuelfinmind/service/strategy/impl/PineconeVectorStore.java:170-194 | The mapping of the query matches succeeds exactly when every match above 0.4 has both metadata fields. It then gives one result per such match, never more than there were matches, and every result scores above 0.4. |
| VectorStore.Search | src/main/java/org/swy/zuelfinmind/service/strategy/impl/PineconeVectorStore.java:153-196 | A null question embedding gives no answer, and so does a top-20 index query that throws (it is not caught). Otherwise the search answers exactly when every match above 0.4 has both metadata fields. The answer is then the `(material, score, source)` of each such match, in match order, all scoring above 0.4. |
| VectorStore.SearchAtMostTopK | src/main/java/org/swy/zuelfinmind/service/strategy/impl/PineconeVectorStore.java:158-194 | A search that answers had an embedding and an index query that answered; when the index honours `topK = 20`, it returns at most 20 results. |
| VectorStore.PineconeVectorStore.Store | src/main/java/org/swy/zuelfinmind/service/strategy/impl/PineconeVectorStore.java:76-127 | The message returned and the index afterwards are those of `store`, computed from the parsed text, the embeddings and the failing upsert call, if any. |
| VectorStore.PineconeVectorStore.Upload | src/main/java/org/swy/zuelfinmind/service/strategy/impl/PineconeVectorStore.java:117-126 | The upserts run in order. The first throw ends the loop with the failure message, and earlier batches stay written. Otherwise the success message is returned. |
| VectorStore.StoreEmptyContent | src/main/java/org/swy/zuelfinmind/service/strategy/impl/PineconeVectorStore.java:78-79 | Empty parsed text gives the parse-failure message and writes nothing. |
| VectorStore.StoreSuccess | src/main/java/org/swy/zuelfinmind/service/strategy/impl/PineconeVectorStore.java:76-127 | Without a failure, every record of the document ends up in the index under its id, every other record stays, and the success message is returned. |
| VectorStore.StoreFailure | src/main/java/org/swy/zuelfinmind/service/strategy/impl/PineconeVectorStore.java:117-126 | A failing upsert returns `"❌ 上传失败: "` plus its message. On the first call nothing is written; on a later call every record is already written. |
| ChatStore.ReverseInPlace | src/main/java/org/swy/zuelfinmind/service/ChatHistoryService.java:115 | `Collections.reverse` leaves the list reversed. |
| ChatStore.ReverseAt | src/main/java/org/swy/zuelfinmind/service/ChatHistoryService.java:115 | Element i of the reversal is element `n-1-i` of the original. |
| ChatStore.UserRowsBelong | src/main/java/org/swy/zuelfinmind/service/ChatHistoryService.java:102 | The rows `eq("user_id", userId)` selects all belong to that user. |
| ChatStore.NewestIsLatest | src/main/java/org/swy/zuelfinmind/service/ChatHistoryService.java:101-115 | The query result, reversed, is the user's `limit` most recent rows, oldest first. |
| ChatStore.NewestShape | src/main/java/org/swy/zuelfinmind/service/ChatHistoryService.java:101-107 | The query returns `min(limit, number of the user's rows)` rows, all stored and all the user's. |
| ChatStore.NewestByTimeDescending | src/main/java/org/swy/zuelfinmind/service/ChatHistoryService.java:103 | When creation times grow with insertion, the result is in strictly decreasing `create_time`. |
| ChatStore.ChatRecordTable.Insert | src/main/java/org/swy/zuelfinmind/service/ChatHistoryService.java:151-157 | `insert` appends one row with the next auto-increment id and the current time. Ids and creation times stay increasing. |
| ChatStore.ChatRecordTable.SelectList | src/main/java/org/swy/zuelfinmind/service/ChatHistoryService.java:101-107 | `selectList` returns a fresh list holding the query result. |
| ChatHistory.KeyInjective | src/main/java/org/swy/zuelfinmind/service/ChatHistoryService.java:66 | Different users get different Redis keys. |
| ChatHistory.RedisLists.Range | src/main/java/org/swy/zuelfinmind/service/ChatHistoryService.java:75 | `range(key, 0, -1)` returns the whole list, empty for a missing key. |
| ChatHistory.RedisLists.RightPush | src/main/java/org/swy/zuelfinmind/service/ChatHistoryService.java:172 | `rightPush` appends at the tail of that key only. |
| ChatHistory.RedisLists.Size | src/main/java/org/swy/zuelfinmind/service/ChatHistoryService.java:175 | `size` is the list length. |
| ChatHistory.RedisLists.LeftPop | src/main/java/org/swy/zuelfinmind/service/ChatHistoryService.java:178 | `leftPop` drops the head, and a list left empty disappears. |
| ChatHistory.NodeMessagesAt | src/main/java/org/swy/zuelfinmind/service/ChatHistoryService.java:81-87 | Two messages per node: the question as a user message, then the answer as an assistant message. |
| ChatHistory.FirstUndecodableAt | src/main/java/org/swy/zuelfinmind/service/ChatHistoryService.java:81-83 | Every entry before the first undecodable one decodes. |
| ChatHistory.FirstUndecodableStops | src/main/java/org/swy/zuelfinmind/service/ChatHistoryService.java:81-83 | The entry at the first undecodable index, when there is one, does not decode. |
| ChatHistory.DecodeEntries | src/main/java/org/swy/zuelfinmind/service/ChatHistoryService.java:81-87 | The decoding loop stops at the first entry that fails to decode. It returns the messages of the entries before it. |
| ChatHistory.AllJsonDecode | src/main/java/org/swy/zuelfinmind/service/ChatHistoryService.java:81-83 | A list of written nodes decodes entirely, to those nodes. |
| ChatHistory.RecordNodesAt | src/main/java/org/swy/zuelfinmind/service/ChatHistoryService.java:122 | Each fetched row becomes the node of its question and answer. |
| ChatHistory.BackfilledAt | src/main/java/org/swy/zuelfinmind/service/ChatHistoryService.java:119-130 | Backfilling appends the nodes to the user's list in order and leaves every other list. |
| ChatHistory.ChatHistoryService.GetHistoryMessages | src/main/java/org/swy/zuelfinmind/service/ChatHistoryService.java:65-144 | The messages returned and the Redis lists afterwards follow `getHistoryMessages`: a hit, or a miss or read failure that falls back to the table. When the fallback's table query throws, the exception propagates and the lists are unchanged. |
| ChatHistory.ChatHistoryService.ReadDatabase | src/main/java/org/swy/zuelfinmind/service/ChatHistoryService.java:100-143 | A throwing table query (line 107, outside the `try`) propagates before anything is pushed. Otherwise the fallback appends the messages of the user's 3 newest rows, oldest first, to what was decoded, and pushes those rows onto the list up to the first failing push. |
| ChatHistory.ChatHistoryService.Backfill | src/main/java/org/swy/zuelfinmind/service/ChatHistoryService.java:119-135 | The backfill loop pushes the fetched rows in order until a push throws. |
| ChatHistory.AppendRecordMessages | src/main/java/org/swy/zuelfinmind/service/ChatHistoryService.java:138-141 | The final loop appends the question and the answer of each row, in row order. |
| ChatHistory.ChatHistoryService.SaveInteraction | src/main/java/org/swy/zuelfinmind/service/ChatHistoryService.java:149-186 | A table insert failure is swallowed and the Redis write still runs. The Redis write is a right-push, then one left-pop when the list is over 3, each stopping at its fault. |
| ChatHistory.ReadHit | src/main/java/org/swy/zuelfinmind/service/ChatHistoryService.java:75-88 | A non-empty list that decodes answers two messages per entry, in list order and untrimmed. The cache is unchanged and the table is not consulted. |
| ChatHistory.ReadMiss | src/main/java/org/swy/zuelfinmind/service/ChatHistoryService.java:90-141 | On a miss, the messages decoded before the failure come first. Then come two messages per row of the user's 3 most recent rows, oldest first, so at most 6 from rows. With no rows nothing is written. |
| ChatHistory.BackfillFaultInvisible | src/main/java/org/swy/zuelfinmind/service/ChatHistoryService.java:119-141 | A failing backfill push never changes the messages returned. |
| ChatHistory.ReadIsolation | src/main/java/org/swy/zuelfinmind/service/ChatHistoryService.java:66-135 | A read changes no other user's list, whatever fails. |
| ChatHistory.ReadBackfillOrder | src/main/java/org/swy/zuelfinmind/service/ChatHistoryService.java:115-130 | Without a failure, a miss pushes the user's 3 most recent rows onto the list, oldest first. |
| ChatHistory.UndecodableEntryGrowsCache | src/main/java/org/swy/zuelfinmind/service/ChatHistoryService.java:75-135 | A list holding an undecodable entry is never a hit. Every read of a user with rows appends behind it, so the list keeps growing past 3. |
| ChatHistory.SaveKeepsLatest | src/main/java/org/swy/zuelfinmind/service/ChatHistoryService.java:172-179 | When the list held at most 3 entries, a faultless save leaves the 3 most recent exchanges, newest last. |
| ChatHistory.SaveIsolation | src/main/java/org/swy/zuelfinmind/service/ChatHistoryService.java:165-179 | A save touches only the saving user's list. |
| ChatHistory.SaveKeepsCacheHealthy | src/main/java/org/swy/zuelfinmind/service/ChatHistoryService.java:164-184 | When every list has at most 3 decodable entries, it stays so under a save whose trim does not fail. |
| ChatHistory.ReadKeepsCacheHealthy | src/main/java/org/swy/zuelfinmind/service/ChatHistoryService.java:65-144 | When every list has at most 3 decodable entries, it stays so under a read whose range call succeeds. |
| ChatHistory.BackfillKeepsCacheHealthy | src/main/java/org/swy/zuelfinmind/service/ChatHistoryService.java:119-130 | Backfilling at most 3 rows onto an empty list keeps every list within 3 decodable entries. |
| DeepSeek.RecordMessagesAt | src/main/java/org/swy/zuelfinmind/service/DeepSeekService.java:166-171 | Record i gives message 2i, a user message with the record's user id, and message 2i+1, an assistant message with its answer. |
| DeepSeek.DeepSeekService.GetHistoryMessages | src/main/java/org/swy/zuelfinmind/service/DeepSeekService.java:151-173 | The loop over the reversed query result builds exactly the history of the user's 10 newest rows; a throwing query gives no history. |
| DeepSeek.DeepSeekService.Chat | src/main/java/org/swy/zuelfinmind/service/DeepSeekService.java:110-148 | The model gets the prompt built from the rows before the call. On success exactly one row (user, question, answer) is inserted and the answer is returned. A history-query exception (before the model is called), a model exception or an insert exception changes nothing and propagates. |
| DeepSeek.HistoryShape | src/main/java/org/swy/zuelfinmind/service/DeepSeekService.java:151-173 | The history holds two messages for each of the user's at most 10 latest rows, oldest first, so at most 20. Each pair is the user id, then the answer. |
| DeepSeek.PromptShape | src/main/java/org/swy/zuelfinmind/service/DeepSeekService.java:128-132 | The prompt is the persona, then the history, then the question. |
| DeepSeek.NextChatSeesExchange | src/main/java/org/swy/zuelfinmind/service/DeepSeekService.java:123-145 | The history is read before the insert. The next chat of the same user sees the exchange as its last two history messages. |
| DeepSeek.QuestionMessagesAt | src/main/java/org/swy/zuelfinmind/service/DeepSeekService.java:166-171 | In the intended mapping, record i gives its question and then its answer. |
| DeepSeek.IntendedHistoryShape | src/main/java/org/swy/zuelfinmind/service/DeepSeekService.java:164-171 | The intended history replays each of the 10 latest exchanges, oldest first: question, then answer. |
| DeepSeek.HistoryLosesQuestion | src/main/java/org/swy/zuelfinmind/service/DeepSeekService.java:168 | After one exchange the history as written shows the user id where the intended history shows the question. |
| KnowledgeBase.KnowledgeBaseService.AddDocument | src/main/java/org/swy/zuelfinmind/service/KnowledgeBaseService.java:76-90 | The map afterwards is the insert-if-absent of the text with its embedding. |
| KnowledgeBase.AddIdempotent | src/main/java/org/swy/zuelfinmind/service/KnowledgeBaseService.java:78-81 | Adding a text twice is adding it once. |
| KnowledgeBase.AddOnlyInserts | src/main/java/org/swy/zuelfinmind/service/KnowledgeBaseService.java:76-90 | No entry is removed or changed. A new text with an embedding is added with exactly it; a null embedding leaves the map unchanged. |
| KnowledgeBase.KnowledgeBaseService.Search | src/main/java/org/swy/zuelfinmind/service/KnowledgeBaseService.java:96-119 | The scan over the map in its iteration order answers as the search specification says, including the throw on a rejected entry. |
| KnowledgeBase.ScanFrom | src/main/java/org/swy/zuelfinmind/service/KnowledgeBaseService.java:101-114 | A best match exists exactly when the running maximum rose above its start value -1. |
| KnowledgeBase.FirstRejectedPrefix | src/main/java/org/swy/zuelfinmind/service/KnowledgeBaseService.java:105-108 | Once the scan has thrown on some entry, scanning further entries does not change where it threw. |
| KnowledgeBase.RejectedExactly | src/main/java/org/swy/zuelfinmind/service/KnowledgeBaseService.java:105-108 | The scan throws exactly when some visited entry has a vector of another length or a key shorter than 5, and it names such an entry. |
| KnowledgeBase.ScanFindsFirstMaximum | src/main/java/org/swy/zuelfinmind/service/KnowledgeBaseService.java:101-114 | The scan keeps the maximum of -1 and all scores. Because the comparison is strict, it keeps the first key in iteration order that reaches it. |
| KnowledgeBase.MaximumOrderFree | src/main/java/org/swy/zuelfinmind/service/KnowledgeBaseService.java:105-114 | Every iteration order reaches the same maximum score. |
| KnowledgeBase.SearchAnswers | src/main/java/org/swy/zuelfinmind/service/KnowledgeBaseService.java:96-119 | A null question embedding gives "检索失败". The search fails exactly when some entry is rejected, naming it. Otherwise it returns the highest-scoring text (first of equals) when some score is above 0.4, and "未找到相关知识" when none is, as always for an empty map. |
| KnowledgeBase.ShortKeyBreaksSearch | src/main/java/org/swy/zuelfinmind/service/KnowledgeBaseService.java:108 | A stored 4-character text makes the search throw as written, while the intended search returns it. |

## Left out

- `DocumentUtils.parseFile` (Tika extraction) is not part of this model. `store` receives the parsed text as `content`.
- Java `null` strings for `splitText` are not modelled; strings are never null here.
- Chunker.SplitText: requires `0 <= overlap < chunkSize`, and only such calls are modelled. When the cleaned text is longer than `chunkSize`, the source loop never ends for `overlap == chunkSize` and `substring` throws for `overlap > chunkSize`. A cleaned text of at most `chunkSize` characters gives one chunk for any overlap; that case is not modelled either.
- Chunker.SplitText: a negative `overlap` and a `chunkSize` of 0 or less are not modelled; both parameters are natural numbers. The one call in the repository passes 200 and 50.
- Java `String.length`, `substring` and `trim` count UTF-16 code units; the model counts Unicode code points. They agree for text without supplementary-plane characters.
- Java `int` overflow of `start + chunkSize` and of chunk indices is not modelled; integers are unbounded.
- The embedding service, the Pinecone client, the chat model and `VectorUtils.cosineSimilarity` are calls into code that is not part of this model. They are parameters. Only the length check of the cosine score is carried over, as the `Rejects` condition of the knowledge search.
- Floating point is modelled as `real`. Scores and the 0.4 threshold are exact reals, so a score of `0.4f` widened to `double` (slightly above 0.4) is not distinguished from 0.4.
- The float conversion of embeddings (`Double::floatValue`) is not modelled.
- VectorStore.Search: a null query vector is modelled as a failed index query (`None`). The model assumes the Pinecone client rejects it; that client is not part of this model.
- Redis `expire` (the one-hour TTL) is left out, and so is key expiry.
- Logging and `System.out.println` are left out. The Java text-block whitespace of the persona is written out as it evaluates.
- The JSON mapping of a history node is abstracted: an entry the service wrote decodes to its node, and any other text is `Undecodable`.
- `LocalDateTime.now()` is a strictly increasing counter. Rows with equal creation times, and the database's tie order for them, are not modelled.
- `KnowledgeBaseService.loadFromFile`/`saveToFile` (JSON file I/O) and `DeepSeekService.testEmbedding` (a start-up probe of the embedding service that only prints) are left out.
- KnowledgeBase.KnowledgeBaseService.AddDocument: the contract does not state that a present text makes no embedding call; the embedding function is pure here, so the call is not observable.
- KnowledgeBase.KnowledgeBaseService.Search: `ConcurrentHashMap` gives no iteration order, so the order is an explicit parameter `order` listing every key once. Which of several keys tied at the maximum is returned depends on it.
- Concurrency is left out: concurrent updates of the map, of Redis or of the table.
- Commented-out code is left out: the old `store`, `search` and `rerank`, and the older `chat` variants.

## Findings

| source | as written | input that shows it | evidently intended | confidence | as-written member | corrected member |
|---|---|---|---|---|---|---|
| src/main/java/org/swy/zuelfinmind/service/strategy/impl/PineconeVectorStore.java:229-237 | For more than 96 records, `batches` adds one shared list `floor((n-1)/96)` times and fills it with every record. Every batch is the whole list, larger than 96. | 97 records give one batch of 97; 193 records give two batches of 193. | Consecutive slices of at most 96 records, each record sent once. | not executed | VectorStore.BatchesOversizeExample | VectorStore.SplitIntoBatchesSound |
| src/main/java/org/swy/zuelfinmind/service/DeepSeekService.java:168 | Each history record becomes `UserMessage(record.getUserId())`. | Rows `[(1, "alice", "What is GDP?", "Gross domestic product.")]` give the history `[User("alice"), Assistant("Gross domestic product.")]`. | `UserMessage(record.getQuestion())`: the history replays the questions. | not executed | DeepSeek.HistoryLosesQuestion | DeepSeek.IntendedHistoryShape |
| src/main/java/org/swy/zuelfinmind/service/KnowledgeBaseService.java:108 | The debug line takes `substring(0, 5)` of every key, so a stored text shorter than 5 characters throws. | Store `{"ZUEL" ↦ [1.0]}`, any question with an embedding: `search` throws. | The debug line never makes the search fail; the best text is returned. | not executed | KnowledgeBase.ShortKeyBreaksSearch | KnowledgeBase.SearchAnswers |
