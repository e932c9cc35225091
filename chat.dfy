/** The POST half of the `chat` route, as far as the retrieval goes: the
    upload rebuilds the working set, then the query (if any) is answered
    from it.  The prompt sent to the chat model, the model's reply and its
    rendering are not part of this model; `context` is what the prompt
    would quote. */
module Chat {
  import opened VectorStore
  import opened Retriever

  /** One POST: rebuild the working set from `files`, then build the
      retrieval context for `query` with the top K chunks.  The rebuild
      chunks with the corrected chunker; wherever the upload loop as
      written completes, the store is the one the source builds, and so is
      the context when every similarity is defined (the source raises on a
      zero-magnitude embedding, see the README). */
  method HandlePost(store: Store, files: seq<Upload>, query: string,
                    embed: string -> Vector, similarity: (Vector, Vector) -> real)
    returns (context: Option<string>)
    modifies store
    ensures store.records == Ingest(files, embed)
    ensures context == Answer(query, Ingest(files, embed), embed, similarity, K)
    ensures UploadRun(files, embed).Completed? ==>
              store.records == UploadRun(files, embed).records
              && context == Answer(query, UploadRun(files, embed).records, embed, similarity, K)
  {
    UploadRunAgrees(files, embed);
    store.Rebuild(files, embed);
    context := Answer(query, store.records, embed, similarity, K);
  }

  /** Whatever the store held before, a POST whose files include no PDF
      empties it and produces no context, so no question is sent (the
      source then fails rendering the page, see the README). */
  lemma NoPdfNoContext(files: seq<Upload>, query: string,
                       embed: string -> Vector, similarity: (Vector, Vector) -> real)
    requires forall i :: 0 <= i < |files| ==> !IsPdf(files[i])
    ensures Ingest(files, embed) == []
    ensures Answer(query, Ingest(files, embed), embed, similarity, K) == None
  {
    IngestNoPdf(files, embed);
    AnswerShape(query, [], embed, similarity, K);
  }
}
