/**
 * `stream_response` (src/rag.py:205-229): each model fragment is sent as one
 * server-sent event whose `data:` field (section 9.2 of the WHATWG HTML
 * Standard) is the JSON object `{"data": fragment}` (RFC 8259), and once the
 * model's output is exhausted the joined fragments are stored as one turn.
 *
 * The model's output is the given list `chunks`. The async generator is driven
 * by a consumer that asks for the next item `pulls` times: it receives one
 * frame per request while fragments remain, and the turn is stored only on the
 * request that finds the fragments exhausted.
 */
module Streaming {
  import opened Wrappers
  import opened Text
  import opened Json
  import opened Conversation

  const FrameHead := "data: {\"data\": \""
  const FrameTail := "\"}\n\n"

  /** `f"data: {json.dumps({'data': content})}\n\n"` (lines 210-212). */
  function Frame(content: string): (frame: string)
    ensures frame == "data: " + DataObject(content) + "\n\n"
  {
    FrameHead + Escape(content) + FrameTail
  }

  /** What a client reads back from one frame: the `data` member of its JSON object. */
  function ParseFrame(frame: string): (content: Option<string>)
  {
    if |frame| < |FrameHead| + |FrameTail| then None
    else if frame[..|FrameHead|] != FrameHead || frame[|frame| - |FrameTail|..] != FrameTail then None
    else Unescape(frame[|FrameHead|..|frame| - |FrameTail|])
  }

  /** A frame gives back exactly the fragment it carries. */
  lemma FrameRoundTrip(content: string)
    ensures ParseFrame(Frame(content)) == Some(content)
  {
    var f := Frame(content);
    assert f[..|FrameHead|] == FrameHead;
    assert f[|f| - |FrameTail|..] == FrameTail;
    assert f[|FrameHead|..|f| - |FrameTail|] == Escape(content);
    UnescapeEscape(content);
  }

  /**
   * A frame is one complete event: it starts with the `data:` field, holds no
   * line break before the blank line that ends it, so a fragment containing
   * newlines can never split an event or end it early.
   */
  lemma FrameIsOneEvent(content: string)
    ensures var f := Frame(content);
      |f| >= 8 && f[..6] == "data: " && f[|f| - 2..] == "\n\n" &&
      forall k :: 0 <= k < |f| - 2 ==> f[k] != '\n' && f[k] != '\r'
  {
    var f := Frame(content);
    var e := Escape(content);
    assert f == FrameHead + e + FrameTail;
    forall k | 0 <= k < |f| - 2
      ensures f[k] != '\n' && f[k] != '\r'
    {
      if |FrameHead| <= k < |FrameHead| + |e| {
        assert f[k] == e[k - |FrameHead|];
      }
    }
  }

  /** The fragments a client recovers from a list of frames. */
  function DecodeFrames(frames: seq<string>): (chunks: Option<seq<string>>)
  {
    if frames == [] then Some([])
    else
      match (ParseFrame(frames[0]), DecodeFrames(frames[1..]))
      case (Some(c), Some(rest)) => Some([c] + rest)
      case _ => None
  }

  /**
   * The loop of lines 206-214 run to the end, followed by line 217: one frame
   * per fragment, in order, and the fragments joined with no separator.
   */
  method FrameChunks(chunks: seq<string>) returns (frames: seq<string>, response: string)
    ensures |frames| == |chunks|
    ensures forall k :: 0 <= k < |chunks| ==> frames[k] == Frame(chunks[k])
    ensures response == Join(chunks, "")
  {
    var responseChunks: seq<string> := [];
    frames := [];
    var i := 0;
    while i < |chunks|
      invariant 0 <= i <= |chunks|
      invariant responseChunks == chunks[..i]
      invariant |frames| == i
      invariant forall k :: 0 <= k < i ==> frames[k] == Frame(chunks[k])
    {
      var content := chunks[i];
      responseChunks := responseChunks + [content];
      frames := frames + [Frame(content)];
      i := i + 1;
    }
    assert responseChunks == chunks;
    response := Join(responseChunks, "");
  }

  /**
   * What the client receives carries every fragment, in order, and joined
   * they are exactly the response text that gets stored.
   */
  lemma {:induction false} StreamCompleteness(chunks: seq<string>, frames: seq<string>)
    requires |frames| == |chunks|
    requires forall k :: 0 <= k < |chunks| ==> frames[k] == Frame(chunks[k])
    ensures DecodeFrames(frames) == Some(chunks)
    decreases |chunks|
  {
    if chunks != [] {
      FrameRoundTrip(chunks[0]);
      StreamCompleteness(chunks[1..], frames[1..]);
      assert [chunks[0]] + chunks[1..] == chunks;
    }
  }

  /**
   * `stream_response` consumed by a client that asks for `pulls` items: it
   * gets one frame per fragment while fragments remain, and the turn is
   * inserted only when the client asks past the last fragment.
   */
  method StreamResponse(store: ConversationStore, chunks: seq<string>, pulls: nat,
                        query: string, userId: string, model: string, now: string)
    returns (emitted: seq<string>)
    modifies store
    ensures |emitted| == if pulls < |chunks| then pulls else |chunks|
    ensures forall k :: 0 <= k < |emitted| ==> emitted[k] == Frame(chunks[k])
    ensures pulls > |chunks| ==>
      store.records == old(store.records) + [Turn(query, Join(chunks, ""), userId, model, now)]
    ensures pulls <= |chunks| ==> store.records == old(store.records)
  {
    var n := if pulls < |chunks| then pulls else |chunks|;
    var response;
    emitted, response := FrameChunks(chunks[..n]);
    if pulls > |chunks| {
      assert chunks[..n] == chunks;
      store.Insert(Turn(query, response, userId, model, now));
    }
  }
}
