/** The chat service that talks to the language model (`DeepSeekService`): it builds the
    prompt from a fixed system persona, the user's recent history read from `chat_record`
    and the new question, asks the model, records the exchange and returns the answer.

    The model is a parameter: a function from the prompt to the answer text, `None` when the
    call throws. */
module DeepSeek {
  import opened Wrappers
  import opened ChatStore

  /** The number of rows the history query reads. */
  const HISTORY_LIMIT: nat := 10

  /** The system persona, as the Java text block evaluates: the common 16-column indentation
      removed, the remaining 12 columns kept on lines 2 to 5, and a final line break. */
  const SYSTEM_TEXT: string :=
    "你是一个名为 'ZUEL-FinMind' 的专业金融AI助手，由中南财经政法大学(ZUEL)的学生开发。\n"
    + "            你的核心原则：\n"
    + "            1. 只回答金融、经济、编程或数据分析相关的问题。\n"
    + "            2. 如果用户问生活类问题（如做菜、娱乐），请礼貌但坚决地拒绝，并引导他们回到金融话题。\n"
    + "            3. 回答要简短精炼，多用数据说话，避免长篇大论。\n"

  /** The messages `getHistoryMessages` makes of rows: per row a user message holding the
      row's user id (not its question) and an assistant message holding its answer. */
  function RecordMessages(records: seq<ChatRecord>): (r: seq<Message>)
    ensures |r| == 2 * |records|
  {
    if records == [] then []
    else
      var last := records[|records| - 1];
      RecordMessages(records[..|records| - 1]) + [UserMessage(last.userId), AssistantMessage(last.answer)]
  }

  lemma {:induction false} RecordMessagesAt(records: seq<ChatRecord>)
    ensures forall i :: 0 <= i < |records| ==>
              RecordMessages(records)[2 * i] == UserMessage(records[i].userId)
              && RecordMessages(records)[2 * i + 1] == AssistantMessage(records[i].answer)
  {
    if records != [] {
      RecordMessagesAt(records[..|records| - 1]);
    }
  }

  /** The history of `userId` the rows give: their 10 newest rows, oldest first. */
  function History(rows: seq<ChatRecord>, userId: string): seq<Message>
  {
    RecordMessages(Reverse(Newest(rows, userId, HISTORY_LIMIT)))
  }

  /** The prompt `chat` sends: the persona, the history, the new question. */
  function Prompt(rows: seq<ChatRecord>, userId: string, userMessage: string): seq<Message>
  {
    [SystemMessage(SYSTEM_TEXT)] + History(rows, userId) + [UserMessage(userMessage)]
  }

  /** Why `chat` throws: the history query, the model call or the insert. */
  datatype ChatFailure = HistoryReadFailed | ModelCallFailed | InsertFailed

  class DeepSeekService {
    const table: ChatRecordTable

    constructor (table: ChatRecordTable)
      ensures this.table == table
    {
      this.table := table;
    }

    /** `getHistoryMessages`: read the 10 newest rows, reverse them in place, and turn each
        into two messages; `None` when the query throws (`selectFails`). */
    method GetHistoryMessages(userId: string, selectFails: bool) returns (messages: Option<seq<Message>>)
      ensures messages == if selectFails then None else Some(History(table.rows, userId))
    {
      if selectFails {
        return None;
      }
      var records := table.SelectList(userId, HISTORY_LIMIT);
      ReverseInPlace(records);
      var history := [];
      var i := 0;
      while i < records.Length
        invariant 0 <= i <= records.Length
        invariant history == RecordMessages(records[..i])
      {
        history := history + [UserMessage(records[i].userId), AssistantMessage(records[i].answer)];
        assert records[..i + 1][..i] == records[..i];
        i := i + 1;
      }
      assert records[..i] == records[..];
      messages := Some(history);
    }

    /** `chat`: assemble the prompt, call the model, record the exchange, return the answer.
        `selectFails` says the history query throws, `model` gives the model's answer to a
        prompt (`None` when the call throws) and `insertFails` says the insert throws. A
        throw propagates and nothing is recorded. */
    method Chat(userId: string, userMessage: string, model: seq<Message> -> Option<string>, selectFails: bool, insertFails: bool)
      returns (result: Result<string, ChatFailure>)
      requires table.Valid()
      modifies table
      ensures table.Valid()
      ensures var answer := model(Prompt(old(table.rows), userId, userMessage));
        if !selectFails && answer.Some? && !insertFails then
          && result == Success(answer.value)
          && table.rows == old(table.rows) + [ChatRecord(|old(table.rows)| + 1, userId, userMessage, answer.value, old(table.clock))]
          && table.clock == old(table.clock) + 1
        else
          && result == Failure(if selectFails then HistoryReadFailed else if answer.None? then ModelCallFailed else InsertFailed)
          && table.rows == old(table.rows)
          && table.clock == old(table.clock)
    {
      var systemMsg := SystemMessage(SYSTEM_TEXT);
      var historyMessages := GetHistoryMessages(userId, selectFails);
      if historyMessages.None? {
        return Failure(HistoryReadFailed);
      }
      var currentUserMsg := UserMessage(userMessage);
      var promptList: seq<Message> := [];
      promptList := promptList + [systemMsg];
      promptList := promptList + historyMessages.value;
      promptList := promptList + [currentUserMsg];
      assert promptList == Prompt(table.rows, userId, userMessage);
      var response := model(promptList);
      if response.None? {
        return Failure(ModelCallFailed);
      }
      var aiAnswer := response.value;
      if insertFails {
        return Failure(InsertFailed);
      }
      table.Insert(userId, userMessage, aiAnswer);
      return Success(aiAnswer);
    }
  }

  // ---------------------------------------------------------------------------------------
  // Properties

  /** The history is two messages for each of the user's 10 most recent rows, oldest
      first, so at most 20 messages: a user message that carries the user id, whatever was
      asked, then the answer. */
  lemma HistoryShape(rows: seq<ChatRecord>, userId: string)
    ensures var latest := Latest(UserRows(rows, userId), HISTORY_LIMIT);
      var history := History(rows, userId);
      && |history| == 2 * |latest| <= 2 * HISTORY_LIMIT
      && forall i :: 0 <= i < |latest| ==>
           history[2 * i] == UserMessage(userId) && history[2 * i + 1] == AssistantMessage(latest[i].answer)
  {
    NewestIsLatest(rows, userId, HISTORY_LIMIT);
    var latest := Latest(UserRows(rows, userId), HISTORY_LIMIT);
    RecordMessagesAt(latest);
    UserRowsBelong(rows, userId);
    assert forall r :: r in latest ==> r in UserRows(rows, userId);
  }

  /** The prompt opens with the persona, ends with the new question and holds the history
      in between. */
  lemma PromptShape(rows: seq<ChatRecord>, userId: string, userMessage: string)
    ensures var prompt, history := Prompt(rows, userId, userMessage), History(rows, userId);
      && |prompt| == |history| + 2
      && prompt[0] == SystemMessage(SYSTEM_TEXT)
      && prompt[1..|prompt| - 1] == history
      && prompt[|prompt| - 1] == UserMessage(userMessage)
  {
    var prompt, history := Prompt(rows, userId, userMessage), History(rows, userId);
    assert prompt[1..|prompt| - 1] == history;
  }

  /** The history is read before the exchange is recorded, so a chat's prompt is built from
      the rows before its own; the next chat of the same user sees the exchange as the last
      two messages of its history: a user message carrying the user id, then the answer. */
  lemma NextChatSeesExchange(rows: seq<ChatRecord>, userId: string, question: string, answer: string, clock: nat)
    ensures var next := History(rows + [ChatRecord(|rows| + 1, userId, question, answer, clock)], userId);
      && |next| >= 2
      && next[|next| - 2..] == [UserMessage(userId), AssistantMessage(answer)]
  {
    var row := ChatRecord(|rows| + 1, userId, question, answer, clock);
    var all := rows + [row];
    assert all[..|all| - 1] == rows && all[|all| - 1] == row;
    var rest := Newest(rows, userId, HISTORY_LIMIT - 1);
    assert Newest(all, userId, HISTORY_LIMIT) == [row] + rest;
    assert ([row] + rest)[1..] == rest;
    assert Reverse([row] + rest) == Reverse(rest) + [row];
  }

  // ---------------------------------------------------------------------------------------
  // The history as evidently intended

  /** Per row the question as a user message, then the answer: what the history is meant to
      replay. */
  function QuestionMessages(records: seq<ChatRecord>): (r: seq<Message>)
    ensures |r| == 2 * |records|
  {
    if records == [] then []
    else
      var last := records[|records| - 1];
      QuestionMessages(records[..|records| - 1]) + [UserMessage(last.question), AssistantMessage(last.answer)]
  }

  /** The intended history: the 10 newest rows, oldest first, as question and answer. */
  function IntendedHistory(rows: seq<ChatRecord>, userId: string): seq<Message>
  {
    QuestionMessages(Reverse(Newest(rows, userId, HISTORY_LIMIT)))
  }

  /** The intended history replays each of the user's 10 latest exchanges, oldest first:
      what was asked, then what was answered. */
  lemma {:induction false} IntendedHistoryShape(rows: seq<ChatRecord>, userId: string)
    ensures var latest := Latest(UserRows(rows, userId), HISTORY_LIMIT);
      var history := IntendedHistory(rows, userId);
      && |history| == 2 * |latest|
      && forall i :: 0 <= i < |latest| ==>
           history[2 * i] == UserMessage(latest[i].question) && history[2 * i + 1] == AssistantMessage(latest[i].answer)
  {
    NewestIsLatest(rows, userId, HISTORY_LIMIT);
    QuestionMessagesAt(Latest(UserRows(rows, userId), HISTORY_LIMIT));
  }

  lemma {:induction false} QuestionMessagesAt(records: seq<ChatRecord>)
    ensures forall i :: 0 <= i < |records| ==>
              QuestionMessages(records)[2 * i] == UserMessage(records[i].question)
              && QuestionMessages(records)[2 * i + 1] == AssistantMessage(records[i].answer)
  {
    if records != [] {
      QuestionMessagesAt(records[..|records| - 1]);
    }
  }

  /** As written, the history loses the questions: after one exchange the model is shown the
      user id where the question should be. */
  lemma HistoryLosesQuestion()
    ensures var rows := [ChatRecord(1, "alice", "What is GDP?", "Gross domestic product.", 0)];
      && History(rows, "alice") == [UserMessage("alice"), AssistantMessage("Gross domestic product.")]
      && IntendedHistory(rows, "alice") == [UserMessage("What is GDP?"), AssistantMessage("Gross domestic product.")]
  {
    var rows := [ChatRecord(1, "alice", "What is GDP?", "Gross domestic product.", 0)];
    assert rows[..0] == [];
    assert Newest(rows, "alice", HISTORY_LIMIT) == rows;
    assert Reverse(rows) == rows;
  }
}
