/** The `chat_record` table both chat services read and write, the Spring AI message
    kinds, and the list reversal both history readers apply (`Collections.reverse`). */
module ChatStore {
  import opened Wrappers

  /** A row of `chat_record`: auto-increment id, the user, one question and its answer, and
      the creation time (a counter standing for `LocalDateTime.now()`). */
  datatype ChatRecord = ChatRecord(id: nat, userId: string, question: string, answer: string, createTime: nat)

  /** The messages of a prompt. */
  datatype Message = SystemMessage(text: string) | UserMessage(text: string) | AssistantMessage(text: string)

  function Reverse<T>(s: seq<T>): seq<T>
  {
    if s == [] then [] else Reverse(s[1..]) + [s[0]]
  }

  /** Element i of the reversal is element |s|-1-i of the original. */
  lemma {:induction false} ReverseAt<T>(s: seq<T>)
    ensures |Reverse(s)| == |s|
    ensures forall i :: 0 <= i < |s| ==> Reverse(s)[i] == s[|s| - 1 - i]
  {
    if s != [] {
      ReverseAt(s[1..]);
    }
  }

  /** `Collections.reverse` on a list: swap the two ends, moving inwards. */
  method ReverseInPlace<T>(a: array<T>)
    modifies a
    ensures a[..] == Reverse(old(a[..]))
  {
    var n := a.Length;
    var i := 0;
    while i < n / 2
      invariant 0 <= i <= n / 2
      invariant forall k :: 0 <= k < i ==> a[k] == old(a[n - 1 - k]) && a[n - 1 - k] == old(a[k])
      invariant forall k :: i <= k < n - i ==> a[k] == old(a[k])
    {
      a[i], a[n - 1 - i] := a[n - 1 - i], a[i];
      i := i + 1;
    }
    ReverseAt(old(a[..]));
  }

  // ---------------------------------------------------------------------------------------
  // The query `user_id = ? ORDER BY create_time DESC LIMIT n`

  /** The rows of one user, in insertion order. */
  function UserRows(rows: seq<ChatRecord>, userId: string): seq<ChatRecord>
  {
    if rows == [] then []
    else UserRows(rows[..|rows| - 1], userId) + (if rows[|rows| - 1].userId == userId then [rows[|rows| - 1]] else [])
  }

  /** The rows of a user are that user's. */
  lemma {:induction false} UserRowsBelong(rows: seq<ChatRecord>, userId: string)
    ensures forall r :: r in UserRows(rows, userId) ==> r.userId == userId
  {
    if rows != [] {
      UserRowsBelong(rows[..|rows| - 1], userId);
    }
  }

  /** The last `n` elements of `s` (all of them when there are fewer). */
  function Latest<T>(s: seq<T>, n: nat): seq<T>
  {
    s[|s| - Min(n, |s|)..]
  }

  /** The rows the query returns: the user's rows from the most recently inserted
      backwards, at most `limit` of them. */
  function Newest(rows: seq<ChatRecord>, userId: string, limit: nat): seq<ChatRecord>
  {
    if rows == [] || limit == 0 then []
    else if rows[|rows| - 1].userId == userId then [rows[|rows| - 1]] + Newest(rows[..|rows| - 1], userId, limit - 1)
    else Newest(rows[..|rows| - 1], userId, limit)
  }

  /** Read oldest first, the query result is the user's `limit` most recent rows. */
  lemma {:induction false} NewestIsLatest(rows: seq<ChatRecord>, userId: string, limit: nat)
    ensures Reverse(Newest(rows, userId, limit)) == Latest(UserRows(rows, userId), limit)
  {
    if rows != [] && limit != 0 {
      var init, last := rows[..|rows| - 1], rows[|rows| - 1];
      var before := UserRows(init, userId);
      if last.userId == userId {
        NewestIsLatest(init, userId, limit - 1);
        var newest := Newest(init, userId, limit - 1);
        assert ([last] + newest)[1..] == newest;
        assert Reverse([last] + newest) == Reverse(newest) + [last];
        assert UserRows(rows, userId) == before + [last];
        assert Latest(before + [last], limit) == Latest(before, limit - 1) + [last];
      } else {
        NewestIsLatest(init, userId, limit);
        assert UserRows(rows, userId) == before + [];
      }
    }
  }

  /** The query returns min(limit, number of the user's rows) rows, all the user's. */
  lemma {:induction false} NewestShape(rows: seq<ChatRecord>, userId: string, limit: nat)
    ensures |Newest(rows, userId, limit)| == Min(limit, |UserRows(rows, userId)|)
    ensures forall r :: r in Newest(rows, userId, limit) ==> r in rows && r.userId == userId
  {
    if rows != [] && limit != 0 {
      var init := rows[..|rows| - 1];
      if rows[|rows| - 1].userId == userId {
        NewestShape(init, userId, limit - 1);
      } else {
        NewestShape(init, userId, limit);
      }
      assert forall r :: r in init ==> r in rows;
    }
  }

  /** When creation times increase with insertion, as the table keeps them, the query result
      is in strictly decreasing creation time: the order `ORDER BY create_time DESC` asks
      for. */
  lemma {:induction false} NewestByTimeDescending(rows: seq<ChatRecord>, userId: string, limit: nat)
    requires forall i, j :: 0 <= i < j < |rows| ==> rows[i].createTime < rows[j].createTime
    ensures var r := Newest(rows, userId, limit);
      forall i, j :: 0 <= i < j < |r| ==> r[i].createTime > r[j].createTime
  {
    if rows != [] && limit != 0 {
      var init, last := rows[..|rows| - 1], rows[|rows| - 1];
      var rest := Newest(init, userId, if last.userId == userId then limit - 1 else limit);
      NewestByTimeDescending(init, userId, if last.userId == userId then limit - 1 else limit);
      NewestShape(init, userId, if last.userId == userId then limit - 1 else limit);
      if last.userId == userId {
        var r := [last] + rest;
        forall i, j | 0 <= i < j < |r|
          ensures r[i].createTime > r[j].createTime
        {
          if i == 0 {
            assert r[j] == rest[j - 1] && rest[j - 1] in init;
          } else {
            assert r[i] == rest[i - 1] && r[j] == rest[j - 1];
          }
        }
      }
    }
  }

  /** The `chat_record` table, through `ChatRecordMapper`. */
  class ChatRecordTable {
    var rows: seq<ChatRecord>
    /** The next value `LocalDateTime.now()` returns. */
    var clock: nat

    /** Ids are assigned 1, 2, 3, … and creation times increase with insertion. */
    ghost predicate Valid()
      reads this
    {
      && (forall i :: 0 <= i < |rows| ==> rows[i].id == i + 1 && rows[i].createTime < clock)
      && (forall i, j :: 0 <= i < j < |rows| ==> rows[i].createTime < rows[j].createTime)
    }

    constructor ()
      ensures Valid() && rows == []
    {
      rows := [];
      clock := 0;
    }

    /** `chatRecordMapper.insert(record)` with `createTime = now()`. */
    method Insert(userId: string, question: string, answer: string)
      requires Valid()
      modifies this
      ensures Valid()
      ensures rows == old(rows) + [ChatRecord(|old(rows)| + 1, userId, question, answer, old(clock))]
      ensures clock == old(clock) + 1
    {
      rows := rows + [ChatRecord(|rows| + 1, userId, question, answer, clock)];
      clock := clock + 1;
    }

    /** `selectList(user_id = userId ORDER BY create_time DESC LIMIT limit)`, as a fresh
        list. */
    method SelectList(userId: string, limit: nat) returns (records: array<ChatRecord>)
      ensures fresh(records)
      ensures records[..] == Newest(rows, userId, limit)
    {
      var result := Newest(rows, userId, limit);
      records := new ChatRecord[|result|](i requires 0 <= i < |result| => result[i]);
    }
  }
}
