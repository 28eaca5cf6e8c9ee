/**
 * The `/api/messages` handler: the newest 100 messages are selected newest-first
 * and the rows are then reversed, so the client gets the most recent history
 * oldest-first.
 */
module History {
  import opened Json

  /** The most rows the history query returns (`LIMIT 100`). */
  const HistoryLimit: nat := 100

  const FetchFailed := "Failed to fetch messages"

  /** A row of the history query: a message joined with its sender's username. */
  datatype MessageRow = MessageRow(id: Json, content: Json, senderId: Json, createdAt: Json, username: Json)

  datatype ReplyBody = RowsBody(rows: seq<MessageRow>) | ErrorBody(error: string)

  datatype Reply = Reply(status: nat, body: ReplyBody)

  function Reversed<T>(s: seq<T>): (r: seq<T>)
    ensures |r| == |s|
  {
    if s == [] then [] else Reversed(s[1..]) + [s[0]]
  }

  lemma {:induction false} ReversedAt<T>(s: seq<T>, k: nat)
    requires k < |s|
    ensures Reversed(s)[k] == s[|s| - 1 - k]
  {
    if k < |s| - 1 {
      ReversedAt(s[1..], k);
    }
  }

  lemma ReversedEverywhere<T>(s: seq<T>)
    ensures forall k :: 0 <= k < |s| ==> Reversed(s)[k] == s[|s| - 1 - k]
  {
    forall k | 0 <= k < |s|
      ensures Reversed(s)[k] == s[|s| - 1 - k]
    {
      ReversedAt(s, k);
    }
  }

  function Min(a: nat, b: nat): nat
  {
    if a <= b then a else b
  }

  /**
   * `ORDER BY created_at DESC LIMIT limit` over the visible messages, given
   * oldest-first: the newest `limit` of them, newest first.
   */
  function NewestFirst(messages: seq<MessageRow>, limit: nat): (r: seq<MessageRow>)
    ensures |r| == Min(limit, |messages|)
    ensures forall k :: 0 <= k < |r| ==> r[k] == messages[|messages| - 1 - k]
  {
    ReversedEverywhere(messages);
    Reversed(messages)[..Min(limit, |messages|)]
  }

  /** The history sent to the client: `rows.reverse()` of the query result. */
  function HistoryRows(messages: seq<MessageRow>): (r: seq<MessageRow>)
    ensures |r| == Min(HistoryLimit, |messages|)
  {
    Reversed(NewestFirst(messages, HistoryLimit))
  }

  /**
   * The history is the last `min(100, n)` messages in their original (oldest-first)
   * order: a contiguous suffix of the table, so at most 100 rows.
   */
  lemma HistoryIsNewestSuffix(messages: seq<MessageRow>)
    ensures |HistoryRows(messages)| == Min(HistoryLimit, |messages|) <= HistoryLimit
    ensures HistoryRows(messages) == messages[|messages| - Min(HistoryLimit, |messages|)..]
  {
    var selected := NewestFirst(messages, HistoryLimit);
    var m := |selected|;
    var suffix := messages[|messages| - m..];
    forall k | 0 <= k < m
      ensures HistoryRows(messages)[k] == suffix[k]
    {
      ReversedAt(selected, k);
    }
  }

  /** With 100 or fewer messages the client gets all of them, in order. */
  lemma ShortHistoryIsComplete(messages: seq<MessageRow>)
    requires |messages| <= HistoryLimit
    ensures HistoryRows(messages) == messages
  {
    HistoryIsNewestSuffix(messages);
  }

  /** The handler: the query's rows reversed, or 500 when the query throws. */
  function MessagesReply(query: Outcome<seq<MessageRow>>): (r: Reply)
    ensures r.status == 200 <==> query.Done?
    ensures query.Done? ==> r.body == RowsBody(Reversed(query.value))
    ensures query.Threw? ==> r == Reply(500, ErrorBody(FetchFailed))
  {
    match query
    case Done(rows) => Reply(200, RowsBody(Reversed(rows)))
    case Threw => Reply(500, ErrorBody(FetchFailed))
  }

  /** When the database answers the history query, the reply is the most recent history oldest-first. */
  lemma MessagesReplyIsRecentHistory(messages: seq<MessageRow>)
    ensures var r := MessagesReply(Done(NewestFirst(messages, HistoryLimit)));
            r.status == 200 && r.body.RowsBody? && |r.body.rows| <= HistoryLimit &&
            r.body.rows == messages[|messages| - Min(HistoryLimit, |messages|)..]
  {
    HistoryIsNewestSuffix(messages);
  }
}
