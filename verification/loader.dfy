/**
 * `fetch_docs_from_s3` (src/rag.py:19-54): list the bucket under `docs/`, keep
 * the Markdown objects, download each, join the bodies with a blank line and
 * record one title/last-modified entry per kept object. Any exception turns
 * the whole result into an empty corpus.
 *
 * The S3 client is replaced by plain inputs. The listing is `None` when
 * `list_objects_v2` raises; an object's `body` is `None` when `get_object` or
 * the UTF-8 decoding raises for it (that is only attempted for `.md` keys).
 */
module Loader {
  import opened Wrappers
  import opened Text

  /** One entry of the bucket listing, with what `get_object` would return for it. */
  datatype S3Object = S3Object(key: string, body: Option<string>, lastModified: Option<string>)

  /** One entry of `docs_meta`; `lastModified` is already formatted, or absent. */
  datatype DocMeta = DocMeta(title: string, lastModified: Option<string>)

  /** The loader's dictionary `{"combined_docs": ..., "docs_meta": ...}`. */
  datatype FetchResult = FetchResult(combinedDocs: string, docsMeta: seq<DocMeta>)

  const Separator := "\n\n"
  const EmptyResult := FetchResult("", [])

  predicate IsMarkdown(o: S3Object)
  {
    EndsWith(o.key, ".md")
  }

  /** The Markdown objects of a listing, in listing order. */
  function MarkdownObjects(objs: seq<S3Object>): (md: seq<S3Object>)
    decreases |objs|
  {
    if objs == [] then []
    else
      var last := objs[|objs| - 1];
      MarkdownObjects(objs[..|objs| - 1]) + (if IsMarkdown(last) then [last] else [])
  }

  /** Every download succeeded. */
  predicate AllDownloaded(objs: seq<S3Object>)
  {
    forall k :: 0 <= k < |objs| ==> objs[k].body.Some?
  }

  function Bodies(objs: seq<S3Object>): (bodies: seq<string>)
    requires AllDownloaded(objs)
    ensures |bodies| == |objs|
    ensures forall k :: 0 <= k < |objs| ==> bodies[k] == objs[k].body.value
  {
    seq(|objs|, k requires 0 <= k < |objs| => objs[k].body.value)
  }

  function Meta(o: S3Object): (meta: DocMeta)
  {
    DocMeta(LastSegment(o.key), o.lastModified)
  }

  function Metas(objs: seq<S3Object>): (metas: seq<DocMeta>)
    ensures |metas| == |objs|
    ensures forall k :: 0 <= k < |objs| ==> metas[k] == Meta(objs[k])
  {
    seq(|objs|, k requires 0 <= k < |objs| => Meta(objs[k]))
  }

  /** What the loader returns for a listing: the reference definition. */
  function Fetch(listing: Option<seq<S3Object>>): (result: FetchResult)
  {
    match listing
    case None => EmptyResult
    case Some(objs) =>
      var md := MarkdownObjects(objs);
      if AllDownloaded(md) then FetchResult(Join(Bodies(md), Separator), Metas(md))
      else EmptyResult
  }

  /** The loop of src/rag.py:32-48, with the `except` of lines 52-54. */
  method FetchDocsFromS3(listing: Option<seq<S3Object>>) returns (r: FetchResult)
    ensures r == Fetch(listing)
  {
    if listing.None? {
      return EmptyResult;
    }
    var objs := listing.value;
    var docsContent: seq<string> := [];
    var docsMeta: seq<DocMeta> := [];
    var i := 0;
    while i < |objs|
      invariant 0 <= i <= |objs|
      invariant AllDownloaded(MarkdownObjects(objs[..i]))
      invariant docsContent == Bodies(MarkdownObjects(objs[..i]))
      invariant docsMeta == Metas(MarkdownObjects(objs[..i]))
    {
      var obj := objs[i];
      MarkdownObjectsStep(objs, i);
      if EndsWith(obj.key, ".md") {
        if obj.body.None? {
          assert MarkdownObjects(objs[..i + 1])[|MarkdownObjects(objs[..i])|] == obj;
          MarkdownPrefixFailure(objs, i + 1);
          return EmptyResult;
        }
        ExtendDownloaded(MarkdownObjects(objs[..i]), obj);
        docsContent := docsContent + [obj.body.value];
        docsMeta := docsMeta + [DocMeta(LastSegment(obj.key), obj.lastModified)];
      }
      i := i + 1;
    }
    assert objs[..|objs|] == objs;
    r := FetchResult(Join(docsContent, Separator), docsMeta);
  }

  /** One more listing entry extends the filtered prefix by that entry, when it is Markdown. */
  lemma MarkdownObjectsStep(objs: seq<S3Object>, i: nat)
    requires i < |objs|
    ensures MarkdownObjects(objs[..i + 1]) ==
      MarkdownObjects(objs[..i]) + (if IsMarkdown(objs[i]) then [objs[i]] else [])
  {
    assert objs[..i + 1][..i] == objs[..i];
  }

  /** Bodies and metadata of a filtered prefix grow by one entry with it. */
  lemma ExtendDownloaded(md: seq<S3Object>, o: S3Object)
    requires AllDownloaded(md) && o.body.Some?
    ensures AllDownloaded(md + [o])
    ensures Bodies(md + [o]) == Bodies(md) + [o.body.value]
    ensures Metas(md + [o]) == Metas(md) + [Meta(o)]
  {
    var ext := md + [o];
    assert forall k :: 0 <= k < |md| ==> ext[k] == md[k];
  }

  /** A failed download among the Markdown objects of a prefix fails the whole listing. */
  lemma MarkdownPrefixFailure(objs: seq<S3Object>, n: nat)
    requires n <= |objs|
    requires !AllDownloaded(MarkdownObjects(objs[..n]))
    ensures !AllDownloaded(MarkdownObjects(objs))
  {
    var md := MarkdownObjects(objs[..n]);
    var k :| 0 <= k < |md| && md[k].body.None?;
    MarkdownObjectsAppend(objs[..n], objs[n..]);
    assert objs[..n] + objs[n..] == objs;
    assert MarkdownObjects(objs)[k] == md[k];
  }

  /** Filtering distributes over concatenation, so it keeps listing order. */
  lemma {:induction false} MarkdownObjectsAppend(a: seq<S3Object>, b: seq<S3Object>)
    ensures MarkdownObjects(a + b) == MarkdownObjects(a) + MarkdownObjects(b)
    decreases |b|
  {
    if b != [] {
      var b', last := b[..|b| - 1], b[|b| - 1];
      var extra := if IsMarkdown(last) then [last] else [];
      assert (a + b)[..|a + b| - 1] == a + b';
      assert (a + b)[|a + b| - 1] == last;
      assert MarkdownObjects(a + b) == MarkdownObjects(a + b') + extra;
      assert MarkdownObjects(b) == MarkdownObjects(b') + extra;
      MarkdownObjectsAppend(a, b');
    } else {
      assert a + b == a;
    }
  }

  /** Exactly the Markdown objects are kept: each kept object is one, and each one is kept. */
  lemma {:induction false} MarkdownObjectsExact(objs: seq<S3Object>)
    ensures forall o :: o in MarkdownObjects(objs) ==> o in objs && IsMarkdown(o)
    ensures forall o :: o in objs && IsMarkdown(o) ==> o in MarkdownObjects(objs)
    decreases |objs|
  {
    if objs != [] {
      var init := objs[..|objs| - 1];
      MarkdownObjectsExact(init);
      assert objs == init + [objs[|objs| - 1]];
    }
  }

  lemma FetchDownloaded(objs: seq<S3Object>)
    requires AllDownloaded(MarkdownObjects(objs))
    ensures Fetch(Some(objs)) ==
      FetchResult(Join(Bodies(MarkdownObjects(objs)), Separator), Metas(MarkdownObjects(objs)))
  {
  }

  /**
   * A successful fetch records one metadata entry per Markdown object, in order:
   * entry `k` belongs to Markdown object `k` and its title is the last segment
   * of that key, so it holds no `/` and ends the key.
   */
  lemma FetchMetadata(objs: seq<S3Object>, k: nat)
    requires AllDownloaded(MarkdownObjects(objs))
    requires k < |MarkdownObjects(objs)|
    ensures |Fetch(Some(objs)).docsMeta| == |MarkdownObjects(objs)|
    ensures Fetch(Some(objs)).docsMeta[k] ==
      DocMeta(LastSegment(MarkdownObjects(objs)[k].key), MarkdownObjects(objs)[k].lastModified)
    ensures '/' !in Fetch(Some(objs)).docsMeta[k].title
    ensures EndsWith(MarkdownObjects(objs)[k].key, Fetch(Some(objs)).docsMeta[k].title)
  {
    var md := MarkdownObjects(objs);
    FetchDownloaded(objs);
    var metas := Metas(md);
    assert metas[k] == Meta(md[k]);
    MetaTitle(md[k]);
  }

  /** A title holds no `/` and ends its key. */
  lemma MetaTitle(o: S3Object)
    ensures '/' !in Meta(o).title
    ensures EndsWith(o.key, Meta(o).title)
  {
    LastSegmentHasNoSlash(o.key);
    LastSegmentEndsKey(o.key);
  }

  /**
   * A successful fetch holds the body of Markdown object `k` verbatim, at the
   * offset that the bodies before it and their blank-line separators take up.
   */
  lemma FetchContent(objs: seq<S3Object>, k: nat)
    requires AllDownloaded(MarkdownObjects(objs))
    requires k < |MarkdownObjects(objs)|
    ensures var body, at := MarkdownObjects(objs)[k].body.value, Offset(Bodies(MarkdownObjects(objs)), Separator, k);
      at + |body| <= |Fetch(Some(objs)).combinedDocs| &&
      Fetch(Some(objs)).combinedDocs[at..at + |body|] == body
  {
    FetchDownloaded(objs);
    JoinPartAt(Bodies(MarkdownObjects(objs)), Separator, k);
  }

  /** A failed listing or download yields the empty corpus and no metadata. */
  lemma FetchFailure(listing: Option<seq<S3Object>>)
    requires listing.None? || !AllDownloaded(MarkdownObjects(listing.value))
    ensures Fetch(listing) == FetchResult("", [])
  {
  }

  /**
   * The failure result cannot be told apart from a listing with no Markdown
   * object at all.
   */
  lemma {:induction false} EmptyListingLooksLikeFailure(objs: seq<S3Object>)
    requires forall k :: 0 <= k < |objs| ==> !IsMarkdown(objs[k])
    ensures MarkdownObjects(objs) == []
    ensures Fetch(Some(objs)) == Fetch(None)
    decreases |objs|
  {
    if objs != [] {
      EmptyListingLooksLikeFailure(objs[..|objs| - 1]);
    }
  }
}
