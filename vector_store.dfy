/** The in-memory working set: the records `chat` builds from the PDF files
    of an upload, one per chunk, each pairing the chunk with its embedding. */
module VectorStore {
  import opened Text
  import Chunker

  /** An embedding as the embedding service returns it. */
  type Vector = seq<real>

  /** {"chunk": chunk, "embedding": emb} */
  datatype Record = Record(chunk: string, embedding: Vector)

  /** An uploaded file: its name and the text extracted from each page. */
  datatype Upload = Upload(filename: string, pages: seq<string>)

  /** file.filename.lower().endswith('.pdf') */
  predicate IsPdf(u: Upload)
  {
    EndsWith(Lower(u.filename), ".pdf")
  }

  /** The extension test is a case-insensitive match of the last four
      characters against ".pdf". */
  lemma IsPdfIff(u: Upload)
    ensures IsPdf(u) <==>
              var n := u.filename;
              |n| >= 4 && n[|n| - 4] == '.'
              && n[|n| - 3] in "pP" && n[|n| - 2] in "dD" && n[|n| - 1] in "fF"
  {
    var n := u.filename;
    if |n| >= 4 {
      var tail := Lower(n)[|n| - 4..];
      assert tail == [LowerChar(n[|n| - 4]), LowerChar(n[|n| - 3]), LowerChar(n[|n| - 2]), LowerChar(n[|n| - 1])];
    }
  }

  /** The text the upload loop accumulates from the pages: each page's text
      followed by a newline. */
  function DocumentText(pages: seq<string>): (text: string)
  {
    if pages == [] then ""
    else DocumentText(pages[..|pages| - 1]) + pages[|pages| - 1] + "\n"
  }

  /** Each page's text followed by a newline. */
  function Closed(pages: seq<string>): (r: seq<string>)
    ensures |r| == |pages|
  {
    seq(|pages|, i requires 0 <= i < |pages| => pages[i] + "\n")
  }

  /** The document text is the pages in order, each closed by a newline,
      so a document with at least one page is never empty. */
  lemma {:induction false} DocumentTextShape(pages: seq<string>)
    ensures DocumentText(pages) == Concat(Closed(pages))
    ensures |DocumentText(pages)| == |Concat(pages)| + |pages|
    ensures pages != [] ==> DocumentText(pages)[|DocumentText(pages)| - 1] == '\n'
  {
    if pages != [] {
      var init, last := pages[..|pages| - 1], pages[|pages| - 1];
      DocumentTextShape(init);
      assert pages == init + [last];
      assert Closed(pages) == Closed(init) + [last + "\n"];
      ConcatAppend(Closed(init), [last + "\n"]);
      assert Concat([last + "\n"]) == last + "\n";
      ConcatAppend(init, [last]);
      assert Concat([last]) == last;
    }
  }

  /** One record per chunk, in chunk order. */
  function Embedded(chunks: seq<string>, embed: string -> Vector): (r: seq<Record>)
  {
    seq(|chunks|, i requires 0 <= i < |chunks| => Record(chunks[i], embed(chunks[i])))
  }

  lemma EmbeddedSnoc(chunks: seq<string>, c: string, embed: string -> Vector)
    ensures Embedded(chunks + [c], embed) == Embedded(chunks, embed) + [Record(c, embed(c))]
  {
  }

  /** The records one uploaded file contributes. */
  function FileRecords(u: Upload, embed: string -> Vector): (r: seq<Record>)
  {
    if IsPdf(u) then Embedded(Chunker.FixedChunks(DocumentText(u.pages), Chunker.DefaultMaxLen), embed)
    else []
  }

  /** The working set after an upload of `files`. */
  function Ingest(files: seq<Upload>, embed: string -> Vector): (r: seq<Record>)
  {
    if files == [] then []
    else Ingest(files[..|files| - 1], embed) + FileRecords(files[|files| - 1], embed)
  }

  /** An upload's records are those of its first files followed by those of
      the rest: file order, then chunk order. */
  lemma {:induction false} IngestAppend(a: seq<Upload>, b: seq<Upload>, embed: string -> Vector)
    ensures Ingest(a + b, embed) == Ingest(a, embed) + Ingest(b, embed)
    decreases |b|
  {
    if b == [] {
      assert a + b == a;
    } else {
      var init, last := b[..|b| - 1], b[|b| - 1];
      assert (a + b)[..|a + b| - 1] == a + init;
      assert (a + b)[|a + b| - 1] == last;
      assert Ingest(a + b, embed) == Ingest(a + init, embed) + FileRecords(last, embed);
      IngestAppend(a, init, embed);
      assert Ingest(b, embed) == Ingest(init, embed) + FileRecords(last, embed);
    }
  }

  lemma IngestPrefix(files: seq<Upload>, i: nat, embed: string -> Vector)
    requires i < |files|
    ensures Ingest(files[..i + 1], embed) == Ingest(files[..i], embed) + FileRecords(files[i], embed)
  {
    assert files[..i + 1][..i] == files[..i];
  }

  /** Files whose name does not end in ".pdf" contribute nothing: an upload
      with no PDF leaves the working set empty. */
  lemma {:induction false} IngestNoPdf(files: seq<Upload>, embed: string -> Vector)
    requires forall i :: 0 <= i < |files| ==> !IsPdf(files[i])
    ensures Ingest(files, embed) == []
  {
    if files != [] {
      IngestNoPdf(files[..|files| - 1], embed);
    }
  }

  /** Each record of a PDF file is one of its chunks with that chunk's
      embedding, and the chunks put the document text back exactly. */
  lemma FileRecordsShape(u: Upload, embed: string -> Vector)
    ensures IsPdf(u) ==>
              var cs := Chunker.FixedChunks(DocumentText(u.pages), Chunker.DefaultMaxLen);
              |FileRecords(u, embed)| == |cs| && Concat(cs) == DocumentText(u.pages)
              && forall i :: 0 <= i < |cs| ==>
                   FileRecords(u, embed)[i].chunk == cs[i]
                   && FileRecords(u, embed)[i].embedding == embed(cs[i])
  {
    if IsPdf(u) {
      Chunker.FixedChunksSound(DocumentText(u.pages), Chunker.DefaultMaxLen);
    }
  }

  /** Every record of the working set carries the embedding of its own
      chunk, and every chunk is non-empty and at most 1000 characters. */
  lemma {:induction false} IngestRecords(files: seq<Upload>, embed: string -> Vector)
    ensures forall r :: r in Ingest(files, embed) ==>
              r.embedding == embed(r.chunk) && 0 < |r.chunk| <= Chunker.DefaultMaxLen
  {
    if files != [] {
      IngestRecords(files[..|files| - 1], embed);
      var u := files[|files| - 1];
      if IsPdf(u) {
        var cs := Chunker.FixedChunks(DocumentText(u.pages), Chunker.DefaultMaxLen);
        Chunker.FixedChunksSound(DocumentText(u.pages), Chunker.DefaultMaxLen);
        forall r | r in FileRecords(u, embed)
          ensures r.embedding == embed(r.chunk) && 0 < |r.chunk| <= Chunker.DefaultMaxLen
        {
          var i :| 0 <= i < |cs| && FileRecords(u, embed)[i] == r;
        }
      }
    }
  }

  /** Where chunk_text as written ends on a PDF file's text, the file's
      records are exactly those of its chunks. */
  lemma FileRecordsAsWritten(u: Upload, embed: string -> Vector)
    requires IsPdf(u)
    ensures var o := Chunker.ChunkRun(DocumentText(u.pages), Chunker.DefaultMaxLen);
            o.Chunks? ==> FileRecords(u, embed) == Embedded(o.chunks, embed)
  {
    Chunker.FixedChunksSound(DocumentText(u.pages), Chunker.DefaultMaxLen);
  }

  /** What the upload loop as written does: it completes with the records
      of all files, or it hangs inside `chunk_text` on the PDF file at index
      `file`, with the records of the files before it in the store. */
  datatype UploadOutcome = Completed(records: seq<Record>) | Hangs(records: seq<Record>, file: nat)

  /** The upload loop of lines 159-169 with chunk_text as written. */
  function UploadRun(files: seq<Upload>, embed: string -> Vector): (r: UploadOutcome)
    ensures r.Hangs? ==> r.file < |files|
  {
    if files == [] then Completed([])
    else
      match UploadRun(files[..|files| - 1], embed)
      case Hangs(recs, f) => Hangs(recs, f)
      case Completed(recs) =>
        var u := files[|files| - 1];
        if !IsPdf(u) then Completed(recs)
        else
          match Chunker.ChunkRun(DocumentText(u.pages), Chunker.DefaultMaxLen)
          case Chunks(cs) => Completed(recs + Embedded(cs, embed))
          case Diverges(_, _) => Hangs(recs, |files| - 1)
  }

  /** When the upload as written completes, it leaves exactly the records
      the model's working set holds; when it hangs, it hangs on a PDF file
      whose text makes chunk_text stall, with the records of the earlier
      files in the store. */
  lemma {:induction false} UploadRunAgrees(files: seq<Upload>, embed: string -> Vector)
    ensures UploadRun(files, embed).Completed? ==> UploadRun(files, embed).records == Ingest(files, embed)
    ensures UploadRun(files, embed).Hangs? ==>
              var f := UploadRun(files, embed).file;
              IsPdf(files[f])
              && Chunker.ChunkRun(DocumentText(files[f].pages), Chunker.DefaultMaxLen).Diverges?
              && UploadRun(files, embed).records == Ingest(files[..f], embed)
  {
    if files != [] {
      var init, u := files[..|files| - 1], files[|files| - 1];
      UploadRunAgrees(init, embed);
      var prev := UploadRun(init, embed);
      if prev.Hangs? {
        assert init[prev.file] == files[prev.file];
        assert init[..prev.file] == files[..prev.file];
      } else if IsPdf(u) {
        FileRecordsAsWritten(u, embed);
        if Chunker.ChunkRun(DocumentText(u.pages), Chunker.DefaultMaxLen).Diverges? {
          assert files[..|files| - 1] == init;
        }
      }
    }
  }

  /** The page loop of the upload: text = '' and then text += page + '\n'
      for every page, in order. */
  method PdfText(u: Upload) returns (text: string)
    ensures text == DocumentText(u.pages)
  {
    text := "";
    for p := 0 to |u.pages|
      invariant text == DocumentText(u.pages[..p])
    {
      assert u.pages[..p + 1][..p] == u.pages[..p];
      text := text + u.pages[p] + "\n";
    }
    assert u.pages[..|u.pages|] == u.pages;
  }

  /** The process-wide `vector_store` list. */
  class Store {
    var records: seq<Record>

    /** vector_store = [] at start-up */
    constructor ()
      ensures records == []
    {
      records := [];
    }

    /** The upload half of `chat`: clear the list, then append one record
        per chunk of every PDF file, in file order and chunk order.  Nothing
        of the previous working set survives. */
    method Rebuild(files: seq<Upload>, embed: string -> Vector)
      modifies this
      ensures records == Ingest(files, embed)
    {
      records := [];
      for i := 0 to |files|
        invariant records == Ingest(files[..i], embed)
      {
        IngestPrefix(files, i, embed);
        AddFile(files[i], embed);
      }
      assert files[..|files|] == files;
    }

    /** One pass of the upload loop: a PDF file is read, chunked and each
        chunk appended with its embedding; any other file is skipped. */
    method AddFile(u: Upload, embed: string -> Vector)
      modifies this
      ensures records == old(records) + FileRecords(u, embed)
    {
      if IsPdf(u) {
        var text := PdfText(u);
        var chunks := Chunker.ChunkTextFixed(text, Chunker.DefaultMaxLen);
        for c := 0 to |chunks|
          invariant records == old(records) + Embedded(chunks[..c], embed)
        {
          var emb := embed(chunks[c]);
          assert chunks[..c + 1] == chunks[..c] + [chunks[c]];
          EmbeddedSnoc(chunks[..c], chunks[c], embed);
          records := records + [Record(chunks[c], emb)];
        }
        assert chunks[..|chunks|] == chunks;
      } else {
        assert records == old(records) + [];
      }
    }
  }
}
