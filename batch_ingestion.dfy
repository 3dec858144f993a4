/**
 * `save_embeddings` of the Pinecone ingestion script (src/chapter_5/pinecone_ingestion.py):
 * the document chunks are sent to the vector store in slices of 100, one store call per
 * slice, each preceded by a progress line "Processing batch k of total".
 *
 * The store call is recorded rather than performed, and the printed line is recorded as
 * its two numbers. The index name, read from the environment, is a parameter: `None` when
 * the variable is not set, as `os.getenv` gives.
 */
module PineconeIngestion {
  import opened Wrappers

  /** `batch_size`. */
  const BatchSize: nat := 100

  /** One `PineconeVectorStore.from_documents(documents=…, embedding=…, index_name=…)`. */
  datatype StoreCall<D, E> = StoreCall(documents: seq<D>, embedding: E, indexName: Option<string>)

  /** The progress line "Processing batch {batch} of {total}". */
  datatype Progress = Progress(batch: nat, total: nat)

  /** The printed total, `(len(docs) + batch_size - 1) // batch_size`. */
  function BatchCount(n: nat): nat
  {
    (n + BatchSize - 1) / BatchSize
  }

  /** `docs[i : i + batch_size]`: Python clamps the end of a slice to the length. */
  function BatchAt<D>(docs: seq<D>, i: nat): seq<D>
    requires i <= |docs|
  {
    if i + BatchSize <= |docs| then docs[i..i + BatchSize] else docs[i..]
  }

  /** The reference partition: a full batch of 100 taken off the front while one remains. */
  function Batches<D>(docs: seq<D>): seq<seq<D>>
    decreases |docs|
  {
    if docs == [] then []
    else if |docs| <= BatchSize then [docs]
    else [docs[..BatchSize]] + Batches(docs[BatchSize..])
  }

  /** The batches one after the other. */
  function Concat<D>(batches: seq<seq<D>>): seq<D>
  {
    if batches == [] then [] else batches[0] + Concat(batches[1..])
  }

  /** Nothing dropped, nothing duplicated: the batches in order are the documents. */
  lemma {:induction false} BatchesConcat<D>(docs: seq<D>)
    ensures Concat(Batches(docs)) == docs
    decreases |docs|
  {
    if |docs| > BatchSize {
      BatchesConcat(docs[BatchSize..]);
      var rest := Batches(docs[BatchSize..]);
      assert ([docs[..BatchSize]] + rest)[1..] == rest;
      assert docs == docs[..BatchSize] + docs[BatchSize..];
    } else if docs != [] {
      assert [docs][1..] == [];
    }
  }

  /** There are as many batches as the printed total says. */
  lemma {:induction false} BatchesCount<D>(docs: seq<D>)
    ensures |Batches(docs)| == BatchCount(|docs|)
    decreases |docs|
  {
    if |docs| > BatchSize {
      BatchesCount(docs[BatchSize..]);
    }
  }

  /** Every batch has between 1 and 100 documents, and all but the last exactly 100. */
  lemma {:induction false} BatchesSizes<D>(docs: seq<D>)
    ensures forall k :: 0 <= k < |Batches(docs)| ==> 1 <= |Batches(docs)[k]| <= BatchSize
    ensures forall k :: 0 <= k < |Batches(docs)| - 1 ==> |Batches(docs)[k]| == BatchSize
    decreases |docs|
  {
    if |docs| > BatchSize {
      BatchesSizes(docs[BatchSize..]);
      var rest := Batches(docs[BatchSize..]);
      forall k | 1 <= k < |Batches(docs)| ensures Batches(docs)[k] == rest[k - 1] {
      }
    }
  }

  /** Batch k is the slice starting at offset 100 k, which lies below the length. */
  lemma {:induction false} BatchesAtOffsets<D>(docs: seq<D>, k: nat)
    requires k < |Batches(docs)|
    ensures k * BatchSize < |docs|
    ensures Batches(docs)[k] == BatchAt(docs, k * BatchSize)
    decreases k
  {
    if k > 0 {
      var rest := docs[BatchSize..];
      var o := (k - 1) * BatchSize;
      assert k * BatchSize == o + BatchSize;
      assert Batches(docs)[k] == Batches(rest)[k - 1];
      BatchesAtOffsets(rest, k - 1);
      if o + BatchSize <= |rest| {
        assert rest[o..o + BatchSize] == docs[o + BatchSize..o + BatchSize + BatchSize];
      } else {
        assert rest[o..] == docs[o + BatchSize..];
      }
    }
  }

  /** The arithmetic of the loop's offsets: offset `100 c` is below `n` exactly when `c` is below the count. */
  lemma OffsetArithmetic(c: nat, n: nat)
    ensures (c * BatchSize) / BatchSize == c
    ensures c * BatchSize < n <==> c < BatchCount(n)
  {
  }

  /**
   * `save_embeddings(docs, embeddings)` with the index name given: one store call per batch,
   * in order, each with the same embeddings and index name, and the progress lines
   * numbered 1, 2, … up to the printed total, which is the number of calls.
   */
  method SaveEmbeddings<D, E>(docs: seq<D>, embeddings: E, indexName: Option<string>)
    returns (calls: seq<StoreCall<D, E>>, progress: seq<Progress>)
    ensures |calls| == |progress| == BatchCount(|docs|) == |Batches(docs)|
    ensures forall k :: 0 <= k < |calls| ==>
              k * BatchSize < |docs| && calls[k].documents == BatchAt(docs, k * BatchSize)
    ensures forall k :: 0 <= k < |calls| ==>
              calls[k] == StoreCall(Batches(docs)[k], embeddings, indexName)
    ensures forall k :: 0 <= k < |progress| ==> progress[k] == Progress(k + 1, |calls|)
  {
    BatchesCount(docs);
    calls, progress := [], [];
    var i := 0;
    while i < |docs|
      invariant i == |calls| * BatchSize
      invariant |progress| == |calls| <= |Batches(docs)|
      invariant forall k :: 0 <= k < |calls| ==> calls[k] == StoreCall(Batches(docs)[k], embeddings, indexName)
      invariant forall k :: 0 <= k < |progress| ==> progress[k] == Progress(k + 1, |Batches(docs)|)
      decreases |docs| - i
    {
      OffsetArithmetic(|calls|, |docs|);
      BatchesAtOffsets(docs, |calls|);
      var batch := BatchAt(docs, i);
      progress := progress + [Progress(i / BatchSize + 1, (|docs| + BatchSize - 1) / BatchSize)];
      calls := calls + [StoreCall(batch, embeddings, indexName)];
      i := i + BatchSize;
    }
    OffsetArithmetic(|calls|, |docs|);
    forall k | 0 <= k < |calls| ensures k * BatchSize < |docs| && calls[k].documents == BatchAt(docs, k * BatchSize) {
      BatchesAtOffsets(docs, k);
    }
  }
}
