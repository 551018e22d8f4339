# AIR Coach retrieval-augmented chat core, in Dafny

This project models the core of `src/rag.py`, the backend of a skydiving-knowledge chat assistant.
It covers four parts:

- **Loader** (`fetch_docs_from_s3`): turns a bucket listing into one combined Markdown corpus and a metadata list.
- **Document cache** (`_docs_cache`, `get_combined_docs`, `update_docs`): a lazily filled cache, plus the `combined_docs` and `system_prompt` globals.
- **Prompt builder** (`build_system_prompt`): embeds the corpus in a fixed instruction template.
- **Orchestrator** (`ask` and its inner `stream_response`): builds the message sequence and streams the answer as server-sent events. A streamed turn is stored in the conversation collection.

The modules follow those parts:

- `Text`: Python's `join`, `endswith` and `split('/')[-1]`.
- `Json`: how `json.dumps` writes a string, and the matching decoder.
- `Loader`, `Prompt`, `DocumentCache`: the first three parts above.
- `Conversation`: messages, stored turns and the history lookup.
- `Streaming`: event frames and the generator.
- `Orchestrator`: message composition and `ask`.

External services become plain inputs:

- The S3 listing is an `Option<seq<S3Object>>`. `None` means `list_objects_v2` raised. An object whose `body` is `None` is one whose download or UTF-8 decoding raised.
- The clock readings are parameters.
- The language model is the list of fragments it streams.
- The MongoDB collection is a `ConversationStore` object whose record list `Insert` appends to.

Two consequences of the code are worth stating:

- A streamed turn is stored only when the consumer drains the generator past its last fragment, because `insert_data` runs after the `for` loop inside the async generator. The blocking mode (`stream=False`) stores nothing.
- A failed first fetch stores `""` and `[]`. These are not `None`, so later reads never fetch again (`DocumentCache.FailedFetchIsKept`).

## Model

| member | source | states |
|---|---|---|
| `Text.JoinLength` | src/rag.py:48 | the joined corpus ends right after its last part |
| `Text.JoinPartAt` | src/rag.py:48 | every part appears verbatim in the join, at the offset taken up by the earlier parts and their separators |
| `Text.JoinSepAt` | src/rag.py:48 | consecutive parts are separated by exactly the separator |
| `Text.LastSegmentIsMaximalSuffix` | src/rag.py:38 | the title is the longest `/`-free suffix of the key: it holds no `/`, ends the key, is preceded by `/` unless it is the whole key, and a key with no `/` is its own title |
| `Loader.FetchDocsFromS3` | src/rag.py:19-54 | the loop returns exactly the reference result: Markdown bodies joined by a blank line, with parallel metadata; a failed listing or download gives `""` and `[]` |
| `Loader.MarkdownObjectsAppend` | src/rag.py:32-33 | filtering distributes over concatenation, so kept objects stay in listing order |
| `Loader.MarkdownObjectsExact` | src/rag.py:32-33 | an object is kept if and only if it is in the listing and its key ends in `.md` |
| `Loader.FetchMetadata` | src/rag.py:36-46 | after a successful fetch, entry k of the metadata belongs to Markdown object k, and its title holds no `/` and ends the key |
| `Loader.FetchContent` | src/rag.py:36-48 | after a successful fetch, body k sits verbatim in the corpus at its offset |
| `Loader.FetchFailure` | src/rag.py:52-54 | a failed listing or download yields content `""` and metadata `[]` |
| `Loader.EmptyListingLooksLikeFailure` | src/rag.py:32-54 | a listing with no Markdown key gives the same result as a failure |
| `Prompt.BuildSystemPrompt` | src/rag.py:72-129 | the prompt is the fixed prefix ending in `Contesto: \n    `, then the corpus verbatim, then one newline |
| `Prompt.BuildSystemPromptInjective` | src/rag.py:76-129 | equal prompts come from equal corpora, so a changed corpus changes the prompt |
| `DocumentCache.DocsCache.Load` | src/rag.py:159-161 | start-up reads the empty cache once and builds the prompt from that corpus; one fetch in total |
| `DocumentCache.DocsCache.GetCombinedDocs` | src/rag.py:56-70 | on a hit nothing changes and no fetch happens, and the cached content is returned; on a miss one fetch sets content, metadata and timestamp together; afterwards the cache is always populated |
| `DocumentCache.DocsCache.UpdateDocs` | src/rag.py:131-157 | always fetches, replaces content and metadata from the same result, sets the prompt to the built prompt of the new corpus, reports `docs_count` equal to the length of `docs_details`, which is the new metadata; a changed corpus changes the prompt |
| `DocumentCache.RepeatedReadsAgree` | src/rag.py:62-70 | two reads with no refresh between them return the same string and fetch at most once |
| `DocumentCache.FailedFetchIsKept` | src/rag.py:52-54 | after a failed start-up fetch, a later read returns `""` without fetching again, whatever the bucket then holds |
| `Json.Escape` | src/rag.py:211 | the encoded string literal holds only printable ASCII characters |
| `Json.Hex4RoundTrip` | src/rag.py:211 | a four-digit `\u` escape reads back as the code unit it encodes |
| `Json.UnescapeChar` | src/rag.py:211 | decoding one escaped character gives back that character |
| `Json.UnescapeEscape` | src/rag.py:211 | decoding the literal `json.dumps` writes gives back the original string |
| `Conversation.OfUserExact` | src/rag.py:192 | the filter keeps exactly the records of the given user |
| `Conversation.ConversationStore.Find` | src/rag.py:190-192 | history is the caller's records in stored order, at most `limit` (10) of them |
| `Conversation.ConversationStore.Insert` | src/rag.py:226 | the collection gains exactly one record, at the end |
| `Conversation.HistoryMessages` | src/rag.py:193-195 | each history turn contributes `HumanMessage(human)` then `AIMessage(system)`, in retrieval order |
| `Orchestrator.ComposeMessages` | src/rag.py:188-197 | the sequence is `SystemMessage(prompt)`, the history pairs, then `HumanMessage(query)`, with length `2 + 2·|history|` |
| `Streaming.FrameRoundTrip` | src/rag.py:210-212 | a client parsing the frame's JSON reads back exactly the fragment |
| `Streaming.FrameIsOneEvent` | src/rag.py:212 | a frame starts with `data: ` and holds no line break before its final blank line, so it is exactly one event |
| `Streaming.FrameChunks` | src/rag.py:206-217 | one frame per fragment, in order, and the stored response is the fragments joined with no separator |
| `Streaming.StreamCompleteness` | src/rag.py:206-217 | the frames decode back to the full fragment list |
| `Streaming.StreamResponse` | src/rag.py:205-229 | the consumer gets one frame per request while fragments remain; exactly one turn (query, joined fragments, user id, model) is inserted when it asks past the last fragment, and none otherwise |
| `Orchestrator.Ask` | src/rag.py:172-230 | the request is the system prompt, at most 10 history pairs and the query; two messages without history; blocking mode stores nothing; streaming mode returns the frames and stores the turn as `StreamResponse` does |

## Left out

- S3 network I/O, credentials and UTF-8 decoding are not modelled. Their outcome is the listing input and each object's optional body.
- The `strftime` formatting of `LastModified` and of the stored timestamp is not modelled. Both are given as already-formatted values, and the cache timestamp is an opaque `Instant`.
- The wording of the Italian instruction template is not modelled. It is the constant `Prompt.Instructions`, and no property depends on its text.
- The language model is not modelled. `llm.invoke` is represented only by the request it receives; `llm.stream` is the given fragment list. Fragments are assumed to be strings.
- `src/database.py` is not part of this model. `Conversation.ConversationStore.Find` states what `ask` assumes of `get_data`: it returns the first `limit` of the user's records in stored order, which are the user's oldest turns. If `get_data` sorted newest-first, `ask` would send different turns. `ensure_indexes` is initialisation only.
- `update_docs_lock` and the unsynchronised lazy fill are not modelled. Each cache method runs atomically, so races between concurrent first reads are not represented.
- The per-fragment `try`/`except` and the `except` around the insert only log. The model has no failing fragment and no failing insert. The per-fragment `try` (src/rag.py:207-214) does not cover `llm.stream` itself (line 206). If the stream raises, the exception reaches the consumer and no turn is stored. The model has no such failure, so `Streaming.StreamResponse`'s one stored turn assumes the stream ends normally.
- Logging is not modelled.
- `src/models.py` holds only request and response schemas. The `min_length=1` user-id check belongs to the HTTP layer, so `Ask` accepts any user id.
- `Json.Escape` covers `json.dumps` of a string only, with default options (`ensure_ascii=True`). The decoder accepts the escapes of RFC 8259; it is the client's reader, not part of the source.
