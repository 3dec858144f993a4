/**
 * The source rewrite of the FAISS ingestion script (src/chapter_6/faiss_ingestion.py,
 * lines 61-64): before the chunks are embedded, each chunk's `metadata["source"]`, a file
 * path under the local mirror of the documentation, has the mirror's directory replaced by
 * the documentation's URL. The chunks are objects and their metadata is changed in place.
 */
module FaissIngestion {
  import opened Wrappers
  import opened PythonStrings

  /** The URL the local directory is replaced by. */
  const DocsUrl: string := "https://python.langchain.com"

  /** A chunk: its text and its metadata dictionary, which the rewrite updates in place. */
  class Document {
    var pageContent: string
    var metadata: map<string, string>

    constructor (pageContent: string, metadata: map<string, string>)
      ensures this.pageContent == pageContent && this.metadata == metadata
    {
      this.pageContent := pageContent;
      this.metadata := metadata;
    }
  }

  /** The metadata after one iteration: `source` rewritten, every other key as it was. */
  function RewrittenMetadata(metadata: map<string, string>, path: string): map<string, string>
    requires "source" in metadata
  {
    metadata["source" := Replace(metadata["source"], path, DocsUrl)]
  }

  /** Only the `source` entry changes; no key is added or removed. */
  lemma RewriteTouchesOnlySource(metadata: map<string, string>, path: string)
    requires "source" in metadata
    ensures RewrittenMetadata(metadata, path).Keys == metadata.Keys
    ensures forall key :: key in metadata && key != "source" ==> RewrittenMetadata(metadata, path)[key] == metadata[key]
  {
  }

  /** A source that does not contain the directory is left unchanged. */
  lemma RewriteWithoutPath(metadata: map<string, string>, path: string)
    requires "source" in metadata && !Contains(metadata["source"], path)
    ensures RewrittenMetadata(metadata, path) == metadata
  {
    ReplaceWithoutOccurrence(metadata["source"], path, DocsUrl);
  }

  /** A file under the directory, `path + suffix`, gets the URL in its place. */
  lemma RewriteFileUnderPath(metadata: map<string, string>, path: string, suffix: string)
    requires path != [] && !Contains(suffix, path)
    requires "source" in metadata && metadata["source"] == path + suffix
    ensures RewrittenMetadata(metadata, path)["source"] == DocsUrl + suffix
  {
    ReplaceLeadingOnly(path, suffix, DocsUrl);
  }

  /**
   * Every occurrence of the directory is replaced: the source is split at it, no piece
   * still holds the directory, and the pieces are joined with the URL.
   */
  lemma RewriteEveryOccurrence(metadata: map<string, string>, path: string)
    requires path != [] && "source" in metadata
    ensures forall k :: 0 <= k < |Split(metadata["source"], path)| ==> !Contains(Split(metadata["source"], path)[k], path)
    ensures RewrittenMetadata(metadata, path)["source"] == Join(Split(metadata["source"], path), DocsUrl)
  {
    SplitPiecesFree(metadata["source"], path);
    ReplaceIsJoinOfSplit(metadata["source"], path, DocsUrl);
  }

  /** How many chunks the loop rewrote: all of them, or those before the failing one. */
  function RewrittenCount(failedAt: Option<nat>, n: nat): nat
  {
    if failedAt.Some? && failedAt.value < n then failedAt.value else n
  }

  /**
   * The loop over the split chunks that, for each chunk in order, replaces the directory by
   * the URL in its `source` entry and stores the result back. The loop stops with a `KeyError` at the first chunk without a `source`, reported as
   * `Some(index)`; the chunks before it are rewritten and the rest are untouched. The list
   * itself and every chunk's text stay as they were.
   */
  method RewriteSources(docs: seq<Document>, path: string) returns (failedAt: Option<nat>)
    requires forall i, j :: 0 <= i < j < |docs| ==> docs[i] != docs[j]
    modifies set d | d in docs
    ensures failedAt.Some? ==> failedAt.value < |docs| && "source" !in old(docs[failedAt.value].metadata)
    ensures forall i :: 0 <= i < RewrittenCount(failedAt, |docs|) ==>
              "source" in old(docs[i].metadata) && docs[i].metadata == RewrittenMetadata(old(docs[i].metadata), path)
    ensures forall i :: RewrittenCount(failedAt, |docs|) <= i < |docs| ==> docs[i].metadata == old(docs[i].metadata)
    ensures forall i :: 0 <= i < |docs| ==> docs[i].pageContent == old(docs[i].pageContent)
  {
    var k := 0;
    while k < |docs|
      invariant 0 <= k <= |docs|
      invariant forall i :: 0 <= i < k ==>
                  "source" in old(docs[i].metadata) && docs[i].metadata == RewrittenMetadata(old(docs[i].metadata), path)
      invariant forall i :: k <= i < |docs| ==> docs[i].metadata == old(docs[i].metadata)
      invariant forall i :: 0 <= i < |docs| ==> docs[i].pageContent == old(docs[i].pageContent)
    {
      var doc := docs[k];
      if "source" !in doc.metadata {
        return Some(k);
      }
      doc.metadata := doc.metadata["source" := Replace(doc.metadata["source"], path, DocsUrl)];
      k := k + 1;
    }
    return None;
  }
}
