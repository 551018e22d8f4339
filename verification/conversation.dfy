/**
 * The conversation side of `ask` (src/rag.py:172-197): the persisted turns,
 * the history lookup and the message sequence sent to the language model.
 *
 * The MongoDB collection is a sequence of records that `Insert` appends to.
 * `get_data` lives in `src/database.py`, which is not part of this model;
 * `Find` states what `ask` assumes of it: the caller's records, in stored
 * order, at most `limit` of them.
 */
module Conversation {

  /** The LangChain message classes. */
  datatype Message = SystemMessage(text: string) | HumanMessage(text: string) | AIMessage(text: string)

  /** One stored exchange: the document `stream_response` inserts (lines 219-225). */
  datatype Turn = Turn(human: string, system: string, userId: string, llm: string, timestamp: string)

  /** `history_limit` (line 190). */
  const HistoryLimit: nat := 10

  /** The records of `userId`, in stored order. */
  function OfUser(records: seq<Turn>, userId: string): (mine: seq<Turn>)
    decreases |records|
  {
    if records == [] then []
    else
      var last := records[|records| - 1];
      OfUser(records[..|records| - 1], userId) + (if last.userId == userId then [last] else [])
  }

  lemma {:induction false} OfUserExact(records: seq<Turn>, userId: string)
    ensures forall t :: t in OfUser(records, userId) ==> t in records && t.userId == userId
    ensures forall t :: t in records && t.userId == userId ==> t in OfUser(records, userId)
    decreases |records|
  {
    if records != [] {
      OfUserExact(records[..|records| - 1], userId);
      assert records == records[..|records| - 1] + [records[|records| - 1]];
    }
  }

  class ConversationStore {
    var records: seq<Turn>

    constructor (initial: seq<Turn>)
      ensures records == initial
    {
      records := initial;
    }

    /** `get_data(..., filters={"userId": userId}, limit=limit)`. */
    function Find(userId: string, limit: nat): (found: seq<Turn>)
      reads this
      ensures |found| == if |OfUser(records, userId)| <= limit then |OfUser(records, userId)| else limit
      ensures found == OfUser(records, userId)[..|found|]
      ensures forall k :: 0 <= k < |found| ==> found[k] in records && found[k].userId == userId
    {
      OfUserExact(records, userId);
      var mine := OfUser(records, userId);
      if |mine| <= limit then mine else mine[..limit]
    }

    /** `insert_data`: the collection gains exactly one record, at the end. */
    method Insert(turn: Turn)
      modifies this
      ensures records == old(records) + [turn]
    {
      records := records + [turn];
    }
  }

  /** The messages one turn of history contributes (lines 194-195). */
  function HistoryMessages(history: seq<Turn>): (msgs: seq<Message>)
    ensures |msgs| == 2 * |history|
    ensures forall k :: 0 <= k < |history| ==>
      msgs[2 * k] == HumanMessage(history[k].human) && msgs[2 * k + 1] == AIMessage(history[k].system)
    decreases |history|
  {
    if history == [] then []
    else
      var last := history[|history| - 1];
      HistoryMessages(history[..|history| - 1]) + [HumanMessage(last.human), AIMessage(last.system)]
  }
}
