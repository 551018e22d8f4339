/**
 * `ask` (src/rag.py:172-230): compose the message sequence from the current
 * system prompt, the caller's stored history and the query, then either call
 * the model once or stream its fragments.
 *
 * The model is represented by what it is asked and, when streaming, by the
 * fragments it produces (`chunks`). `now` is the formatted `datetime.now()`.
 */
module Orchestrator {
  import opened Text
  import opened DocumentCache
  import opened Conversation
  import opened Streaming

  /** `model` (line 164), stored with every streamed turn. */
  const ModelName := "gemini-2.0-flash"

  /**
   * What `ask` hands back: the blocking call `llm.invoke(messages)`, whose
   * answer comes from the model, or the frames of the streamed answer.
   */
  datatype Reply = Invoked(request: seq<Message>) | Streamed(request: seq<Message>, frames: seq<string>)

  /**
   * The `messages` list of lines 188-197: the system prompt, then each history
   * turn as a human/assistant pair in retrieval order, then the query.
   */
  method ComposeMessages(systemPrompt: string, history: seq<Turn>, query: string) returns (msgs: seq<Message>)
    ensures |msgs| == 2 + 2 * |history| && msgs[1..|msgs| - 1] == HistoryMessages(history)
    ensures |msgs| >= 2 && msgs[0] == SystemMessage(systemPrompt) && msgs[|msgs| - 1] == HumanMessage(query)
    ensures |msgs| == 2 + 2 * |history| && forall k :: 0 <= k < |history| ==> msgs[2 * k + 1] == HumanMessage(history[k].human)
    ensures |msgs| == 2 + 2 * |history| && forall k :: 0 <= k < |history| ==> msgs[2 * k + 2] == AIMessage(history[k].system)
  {
    msgs := [SystemMessage(systemPrompt)];
    var i := 0;
    while i < |history|
      invariant 0 <= i <= |history|
      invariant msgs == [SystemMessage(systemPrompt)] + HistoryMessages(history[..i])
    {
      assert history[..i + 1][..i] == history[..i];
      msgs := msgs + [HumanMessage(history[i].human)];
      msgs := msgs + [AIMessage(history[i].system)];
      i := i + 1;
    }
    assert history[..i] == history;
    msgs := msgs + [HumanMessage(query)];
  }

  /**
   * `ask`: the history (only when asked for) is read before anything is
   * stored, the blocking mode stores nothing, and the streaming mode stores
   * the turn once its consumer has drained every fragment.
   */
  method Ask(cache: DocsCache, store: ConversationStore, query: string, userId: string,
             chatHistory: bool, stream: bool, chunks: seq<string>, pulls: nat, now: string)
    returns (reply: Reply)
    modifies store
    ensures var history := if chatHistory then old(store.Find(userId, HistoryLimit)) else [];
      reply.request == [SystemMessage(cache.systemPrompt)] + HistoryMessages(history) + [HumanMessage(query)]
    ensures |reply.request| <= 2 + 2 * HistoryLimit
    ensures !chatHistory ==> reply.request == [SystemMessage(cache.systemPrompt), HumanMessage(query)]
    ensures !stream ==> reply.Invoked? && store.records == old(store.records)
    ensures stream ==> reply.Streamed?
    ensures stream ==> |reply.frames| == if pulls < |chunks| then pulls else |chunks|
    ensures stream ==> forall k :: 0 <= k < |reply.frames| ==> reply.frames[k] == Frame(chunks[k])
    ensures stream && pulls > |chunks| ==>
      store.records == old(store.records) + [Turn(query, Join(chunks, ""), userId, ModelName, now)]
    ensures stream && pulls <= |chunks| ==> store.records == old(store.records)
  {
    var history := [];
    if chatHistory {
      history := store.Find(userId, HistoryLimit);
    }
    var messages := ComposeMessages(cache.systemPrompt, history, query);
    if !stream {
      reply := Invoked(messages);
    } else {
      var frames := StreamResponse(store, chunks, pulls, query, userId, ModelName, now);
      reply := Streamed(messages, frames);
    }
  }
}
