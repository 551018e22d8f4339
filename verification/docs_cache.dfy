/**
 * The module-level state of src/rag.py: the `_docs_cache` dictionary
 * (lines 12-16) and the `combined_docs` and `system_prompt` globals, with
 * `get_combined_docs` (lines 56-70), `update_docs` (lines 131-157) and the
 * start-up code that runs when the module is imported (lines 159-161).
 *
 * The clock is a parameter (`now`), and so is the bucket listing each fetch
 * would see. `update_docs_lock` is not modelled: each method runs atomically.
 */
module DocumentCache {
  import opened Wrappers
  import opened Loader
  import opened Prompt

  /** A reading of `datetime.utcnow()`. */
  datatype Instant = Instant(ticks: int)

  /** The dictionary `update_docs` returns. */
  datatype RefreshSummary = RefreshSummary(message: string, docsCount: nat, docsDetails: seq<DocMeta>)

  const RefreshMessage := "Document cache and system prompt updated successfully."

  class DocsCache {
    // `_docs_cache["content"]`, `_docs_cache["docs_meta"]`, `_docs_cache["timestamp"]`
    var content: Option<string>
    var docsMeta: Option<seq<DocMeta>>
    var timestamp: Option<Instant>
    // the globals `combined_docs` and `system_prompt`
    var combinedDocs: string
    var systemPrompt: string

    /** The loader result the cached entries were taken from. */
    ghost var source: FetchResult
    /** How many times the loader has been called. */
    ghost var fetches: nat

    /** Content and metadata are set together, from one loader result, or not at all. */
    ghost predicate Consistent()
      reads this
    {
      && (content.None? <==> docsMeta.None?)
      && (content.None? <==> timestamp.None?)
      && (content.Some? ==> content.value == source.combinedDocs && docsMeta.value == source.docsMeta)
    }

    /** The condition under which `get_combined_docs` does not fetch. */
    predicate Populated()
      reads this
    {
      content.Some? && docsMeta.Some?
    }

    /** The globals agree with the cache, and the prompt was built from the cached corpus. */
    ghost predicate InSync()
      reads this
    {
      Consistent() && Populated() && combinedDocs == content.value &&
      systemPrompt == BuildSystemPrompt(combinedDocs)
    }

    /**
     * Importing the module: the cache starts empty (lines 12-16), is read once
     * (line 160) and the prompt is built from what the read returned (line 161).
     */
    constructor Load(listing: Option<seq<S3Object>>, now: Instant)
      ensures InSync()
      ensures source == Fetch(listing) && timestamp == Some(now) && fetches == 1
      ensures combinedDocs == Fetch(listing).combinedDocs
    {
      content, docsMeta, timestamp := None, None, None;
      source, fetches := EmptyResult, 0;
      new;
      var docs := GetCombinedDocs(listing, now);
      combinedDocs := docs;
      systemPrompt := BuildSystemPrompt(combinedDocs);
    }

    /**
     * `get_combined_docs`: fetches only when content or metadata is `None`,
     * and always leaves both set, even after a failed fetch.
     */
    method GetCombinedDocs(listing: Option<seq<S3Object>>, now: Instant) returns (docs: string)
      requires Consistent()
      modifies this`content, this`docsMeta, this`timestamp, this`source, this`fetches
      ensures Consistent() && Populated() && docs == content.value
      ensures old(Populated()) ==>
        content == old(content) && docsMeta == old(docsMeta) && timestamp == old(timestamp) &&
        source == old(source) && fetches == old(fetches)
      ensures !old(Populated()) ==>
        source == Fetch(listing) && timestamp == Some(now) && fetches == old(fetches) + 1
    {
      if content.None? || docsMeta.None? {
        var result := FetchDocsFromS3(listing);
        content := Some(result.combinedDocs);
        docsMeta := Some(result.docsMeta);
        timestamp := Some(now);
        source := result;
        fetches := fetches + 1;
      }
      docs := content.value;
    }

    /**
     * `update_docs`: always fetches, replaces content and metadata together,
     * rebuilds the prompt from the new corpus and reports what was loaded.
     */
    method UpdateDocs(listing: Option<seq<S3Object>>, now: Instant) returns (summary: RefreshSummary)
      modifies this
      ensures InSync()
      ensures source == Fetch(listing) && timestamp == Some(now) && fetches == old(fetches) + 1
      ensures combinedDocs == Fetch(listing).combinedDocs
      ensures systemPrompt == BuildSystemPrompt(Fetch(listing).combinedDocs)
      ensures summary.message == RefreshMessage
      ensures summary.docsDetails == Fetch(listing).docsMeta && summary.docsCount == |summary.docsDetails|
      ensures old(InSync()) && combinedDocs != old(combinedDocs) ==> systemPrompt != old(systemPrompt)
    {
      ghost var wasInSync, oldDocs, oldPrompt := InSync(), combinedDocs, systemPrompt;
      var result := FetchDocsFromS3(listing);
      content := Some(result.combinedDocs);
      docsMeta := Some(result.docsMeta);
      timestamp := Some(now);
      source := result;
      fetches := fetches + 1;
      combinedDocs := content.value;
      systemPrompt := BuildSystemPrompt(combinedDocs);
      summary := RefreshSummary(RefreshMessage, |result.docsMeta|, result.docsMeta);
      if wasInSync && systemPrompt == oldPrompt {
        BuildSystemPromptInjective(combinedDocs, oldDocs);
      }
    }
  }

  /**
   * Two reads with no refresh between them return the same corpus and fetch
   * at most once, whatever the bucket holds at the time of each read.
   */
  method RepeatedReadsAgree(cache: DocsCache, listing1: Option<seq<S3Object>>, listing2: Option<seq<S3Object>>,
                            now1: Instant, now2: Instant) returns (docs1: string, docs2: string)
    requires cache.Consistent()
    modifies cache
    ensures docs1 == docs2
    ensures cache.fetches <= old(cache.fetches) + 1
  {
    docs1 := cache.GetCombinedDocs(listing1, now1);
    docs2 := cache.GetCombinedDocs(listing2, now2);
  }

  /**
   * A failed first fetch leaves `""` and `[]` in the cache, which are not
   * `None`: every later read returns the empty corpus without fetching again.
   */
  method FailedFetchIsKept(listing: Option<seq<S3Object>>, now1: Instant, now2: Instant)
    returns (cache: DocsCache, docs: string)
    ensures cache.fetches == 1 && docs == "" && cache.docsMeta == Some([])
    ensures cache.systemPrompt == BuildSystemPrompt("")
  {
    cache := new DocsCache.Load(None, now1);
    docs := cache.GetCombinedDocs(listing, now2);
  }
}
