# Retrieval core of the medical lab test analyzer

The Flask application in `app/main.py` answers questions about uploaded
lab-report PDFs by retrieval-augmented generation. Its retrieval core has
three parts, and this project models all of them in Dafny:

- **Chunker** (`chunker.dfy`). `chunk_text` cuts the document text into
  windows of at most `max_len` characters. In an inner window it cuts at
  the last newline, failing that at the last space, and failing that after
  `max_len` characters. The source loop is modelled twice:
  - `Chunker.ChunkText` follows the code as written. One outcome,
    `Diverges`, stands for the case where the loop never ends.
  - `Chunker.ChunkTextFixed` is the corrected loop (see Findings).
- **Working set** (`vector_store.dfy`). `vector_store` is the process-wide
  list of `{chunk, embedding}` records. It is modelled as the class
  `VectorStore.Store`, which holds a `seq<Record>`. `Rebuild` is the upload
  half of the `chat` route:
  - it clears the list;
  - it keeps only files whose lower-cased name ends in `.pdf`;
  - it joins each page's text plus a newline;
  - it chunks the text and appends one record per chunk, in file order and
    then chunk order.
- **Ranking** (`retriever.dfy`). Every record is scored against the query
  embedding. The list is sorted by descending score with a stable sort, the
  first 3 entries are kept, and their chunks are joined with `"\n\n"` into
  the context. `Chat.HandlePost` (`chat.dfy`) chains the rebuild and the
  ranking as one POST does.

`text.dfy` holds the Python string operations the code uses:
- `str.rfind` with a one-character needle;
- `sep.join`;
- `str.lower` on ASCII;
- `str.endswith`.

It also defines `Concat`, the parts one after the other. The code never
calls it; the proofs use it to say what the chunks put back together are.

Some collaborators are parameters of the model:
- The embedding service is a function `embed: string -> Vector`.
- The cosine similarity is a function `similarity: (Vector, Vector) -> real`.
  The ranking needs only that scores are totally ordered.
- PDF text extraction is an input: each upload carries its pages' text.

Two points where the model makes a choice of its own:
- `max_len <= 0` on non-empty text: the loop never ends, because every cut
  lies below `len(text)`. For `max_len == 0` it appends `""` forever at
  position 0. For `max_len < 0`, Python reads the negative bounds from the
  end of the text: `chunk_text("abcdef", -2)` appends `"abcd"`, then `""`
  while `start` moves to -2, -4, and so on, and a newline in
  `text[0:len+max_len]` makes `start` jump forward to it. The model does
  not follow those appends and reports `Diverges([], 0)` for every
  non-positive `max_len`. The upload path always uses `max_len = 1000`.
- At a cut the code drops nothing: the break character starts the next
  chunk (lines 130-132), so the chunks concatenate to the text exactly.
  That is what is proved.

As written, the loop can also stall with a positive `max_len` and append
`""` forever (see Findings). The working set is built with the corrected
chunker, which always finishes, never yields an empty chunk
(`Chunker.FixedChunksSound`), and agrees with `chunk_text` wherever that
ends. `VectorStore.UploadRun` models the upload loop with `chunk_text` as
written, and `VectorStore.UploadRunAgrees` ties the two together.

## Model

| member | source | states |
|---|---|---|
| Text.RFind | app/main.py:126-128 | `text.rfind(c, lo, hi)` is -1 exactly when `c` does not occur in `text[lo:hi]`. Otherwise it is the position of the last `c` there. |
| Text.Join | app/main.py:179 | `sep.join(parts)`: the parts in order with `sep` between neighbours. Its properties are stated by `Text.JoinShape`. |
| Text.JoinShape | app/main.py:179 | The joined string is the first part, then every later part in order, each preceded by one separator, and nothing else. |
| Text.JoinLength | app/main.py:179 | The joined string is as long as the parts plus one separator between each two neighbours. |
| Chunker.ChunkFrom | app/main.py:122-133 | The loop of `chunk_text` from a given `start`: it ends with chunks, or it stalls at a position `at` with `start <= at < len(text)`. |
| Chunker.ChunkRun | app/main.py:119-133 | `chunk_text(text, max_len)` as written: empty text gives no chunks, and a run that never ends stalls inside the text. |
| Chunker.Cut | app/main.py:124-131 | A cut lies in `[start, len(text)]` and at most `max_len` past `start`. A window that reaches the end of the text is cut at `len(text)`. |
| Chunker.CutRule | app/main.py:125-130 | An inner window is cut at its last newline. Failing that, at its last space. Failing that, at `start + max_len`. |
| Chunker.ShortText | app/main.py:119-133 | Empty text gives no chunks. A non-empty text of at most `max_len` characters gives exactly `[text]`. |
| Chunker.ChunkFromConcat | app/main.py:121-133 | When the loop ends, the chunks appended from `start` concatenate to `text[start:]` exactly. |
| Chunker.ChunkFromDiverges | app/main.py:121-133 | When the loop never ends, it gets stuck at a position `at < len(text)`. There the cut does not move, or `max_len <= 0`. The chunks appended before that concatenate to `text[start:at]`. |
| Chunker.ChunkFromBounded | app/main.py:124-131 | Every chunk appended before the loop ends or stalls is non-empty and at most `max_len` long. |
| Chunker.StallIff | app/main.py:125-132 | The cut stays at `start` if and only if the window is an inner one and one of two cases holds. Either `text[start]` is a newline with no later newline in the window. Or `text[start]` is a space, with no newline in the window and no later space. |
| Chunker.ChunkText | app/main.py:119-133 | The loop as written returns the outcome of `chunk_text`. On termination the chunks rebuild the text and each is in `1..max_len`. On divergence it reports the chunks done so far and the stuck position. |
| Chunker.RunSound | app/main.py:119-133 | For a whole run of `chunk_text`: it either ends with chunks that rebuild the text, or it stalls at a stuck position. |
| Chunker.StallExample | app/main.py:126-132 | `chunk_text("aaaa bbbbbbbbbb", 6)` appends `"aaaa"`, then stalls at position 4 forever. |
| Chunker.CutFixed | app/main.py:124-131 | The corrected cut always moves forward. It stays within `max_len` and the text. |
| Chunker.CutFixedRule | app/main.py:125-130 | The corrected rule for an inner window: the last newline after `start`; failing that, the last space after `start`; failing that, `start + max_len`. |
| Chunker.FixedExample | app/main.py:126-132 | On the input that stalls `chunk_text`, the corrected chunker gives `"aaaa"`, `" bbbbb"`, `"bbbbb"`. |
| Chunker.CutAgrees | app/main.py:125-130 | Wherever the source's cut moves forward, the corrected cut is the same. |
| Chunker.FixedAgrees | app/main.py:119-133 | From any start where the source's loop ends, the corrected chunker returns the same chunks. |
| Chunker.FixedChunksSound | app/main.py:119-133 | The corrected chunker always finishes. Its chunks concatenate to the text, each is non-empty and at most `max_len`, and it agrees with `chunk_text` wherever that ends. |
| Chunker.ChunkTextFixed | app/main.py:119-133 | The corrected loop returns exactly the corrected chunks. |
| VectorStore.IsPdf | app/main.py:161 | `file.filename.lower().endswith('.pdf')`. Its meaning is stated by `VectorStore.IsPdfIff`. |
| VectorStore.DocumentText | app/main.py:162-165 | The text built from the pages, each followed by a newline. Its shape is stated by `VectorStore.DocumentTextShape`. |
| VectorStore.FileRecords | app/main.py:161-169 | The records one file contributes, chunked with the corrected chunker: none for a file that is not a PDF. |
| VectorStore.FileRecordsAsWritten | app/main.py:161-169 | Where `chunk_text` as written ends on a PDF file's text, the file's records are exactly one per chunk of that run. |
| VectorStore.Ingest | app/main.py:159-169 | The working set after an upload, built with the corrected chunker. Its properties are stated by the `Ingest...` lemmas below. |
| VectorStore.UploadRun | app/main.py:159-169 | The upload loop with `chunk_text` as written: it completes with the records, or it hangs on a file at an index below the number of files. |
| VectorStore.UploadRunAgrees | app/main.py:159-169 | When the upload as written completes, its records are exactly `Ingest`'s. When it hangs, it hangs on a PDF file whose text makes `chunk_text` stall, with the records of the earlier files in the store. |
| VectorStore.IsPdfIff | app/main.py:161 | `filename.lower().endswith('.pdf')` holds if and only if the last four characters are `.`, `p`/`P`, `d`/`D`, `f`/`F`. |
| VectorStore.DocumentTextShape | app/main.py:162-165 | The document text is the concatenation of the pages, each followed by a newline. Its length is the pages' total plus one per page, and it ends in a newline whenever there is a page. |
| VectorStore.PdfText | app/main.py:162-165 | The page loop builds exactly the document text of the pages. |
| VectorStore.IngestAppend | app/main.py:160-169 | The records of an upload are those of its first files followed by those of the rest: file order, then chunk order. |
| VectorStore.IngestNoPdf | app/main.py:160-161 | An upload with no PDF file leaves the working set empty. |
| VectorStore.FileRecordsShape | app/main.py:161-169 | With the corrected chunker, a PDF file contributes one record per chunk, in chunk order. Each record is its chunk paired with that chunk's embedding, and the chunks rebuild the document text. |
| VectorStore.IngestRecords | app/main.py:160-169 | Every record in the working set carries its own chunk's embedding. Every chunk is non-empty and at most 1000 characters. |
| VectorStore.Store.constructor | app/main.py:117 | The working set starts empty. |
| VectorStore.Store.Rebuild | app/main.py:159-169 | After an upload, the working set is exactly the records of that upload's PDF files, chunked with the corrected chunker. Nothing of the previous set survives. |
| VectorStore.Store.AddFile | app/main.py:160-169 | One pass of the upload loop, with the corrected chunker, appends the file's records, or nothing for a file that is not a PDF. |
| Retriever.ScoreAll | app/main.py:174-177 | One scored entry per record, in store order: the record's chunk with the score `similarity(query embedding, record embedding)`. |
| Retriever.SortByScore | app/main.py:178 | `sorted(..., key=score, reverse=True)`: as many entries as its input. The sort's properties are stated by the lemmas below. |
| Retriever.TopK | app/main.py:178 | `sorted(...)[:k]` keeps `min(k, n)` entries. |
| Retriever.SortByScoreSound | app/main.py:178 | The sort permutes its input and the scores come out non-increasing. Entries of equal score keep their input order. |
| Retriever.StableSortUnique | app/main.py:178 | Permutation, non-increasing order and stability determine the order completely. |
| Retriever.SortByScoreIsStableSort | app/main.py:178 | Any stable descending order of the scored list equals the sort's result. |
| Retriever.TopKRanked | app/main.py:178 | `[:3]` keeps `min(3, n)` entries of the scored list, in non-increasing order. No kept entry scores below an entry left out. |
| Retriever.TopKStable | app/main.py:178 | Among kept entries of equal score, the kept ones are the first of that score in store order. |
| Retriever.Answer | app/main.py:172-179 | A context is built exactly when the query is non-empty and the store holds a record. |
| Retriever.AnswerShape | app/main.py:172-179 | A context joins `min(3, n)` chunks, each taken from the store. |
| Chat.HandlePost | app/main.py:154-179 | A POST leaves the working set equal to the upload's records, chunked with the corrected chunker, and builds the context of the query against them. Wherever the upload as written completes, the store is exactly the source's, and so is the context whenever every similarity the source computes is defined (no zero-magnitude embedding). |
| Chat.NoPdfNoContext | app/main.py:158-172 | Whatever the store held before, a POST with no PDF file empties it and builds no context. |

## Left out

- Cosine similarity (`cosine_similarity`, lines 145-149) is a parameter. A zero-magnitude embedding, the query's or a record's, makes line 149 raise `ZeroDivisionError` inside the comprehension at lines 174-177, after the store was rebuilt, so the source builds no context. `similarity` is total, so the model builds one. `zip` truncation and floating-point rounding are not modelled. Scores are reals, so every pair of scores is ordered.
- Embedding and chat-completion calls (lines 136-142 and 180-192) are out of scope. `embed` is a total function. A failing call, which would leave the working set partly rebuilt, is not modelled. Neither are the prompt, the completion and the markdown rendering.
- `PdfReader` is out of scope: each upload carries its pages' text. `extract_text()` returning `None` is not modelled.
- Flask routing, the login form, the SQLite user table and password hashing are out of scope. So are environment configuration and page rendering. `answer_html` (line 192) is bound only when a context was built, so the GET path and every POST that builds no context (an empty query, or an upload without a PDF) raise `UnboundLocalError` while rendering, after such a POST has already rebuilt the store. The model ends at the context.
- Concurrent requests sharing `vector_store` are not modelled: each POST runs alone.
- `str.lower()` is modelled for ASCII letters only. The truthiness test `if file` is subsumed by the extension test, since an empty filename never ends in `.pdf`.
- A missing `query` form field (`None`) is modelled as the empty query. Both are falsy.
- ChunkText: does not represent the chunks the source keeps appending once the loop never ends. For `max_len >= 0` that is `""` forever at the stuck position. For `max_len < 0` it is what Python's negative slice and `rfind` bounds give, which the model does not follow; it reports `Diverges([], 0)`.
- ChunkFrom: summarises a run with `max_len < 0` as `Diverges([], start)` instead of following Python's negative bounds (see ChunkText below).
- ChunkRun: reports `Diverges([], 0)` for `max_len < 0` on non-empty text, where Python first appends `text[0:len+max_len]` and then `""` with `start` decreasing.
- Ingest: builds the working set with the corrected chunker. On a PDF whose text makes `chunk_text` stall, the source hangs with only the earlier files' records; `VectorStore.UploadRun` models that case.
- FileRecords: chunks a PDF file with the corrected chunker. Where `chunk_text` stalls on the file's text, the source produces no records for it and hangs; `VectorStore.FileRecordsAsWritten` covers the case where `chunk_text` ends.
- Rebuild: chunks each document with the corrected chunker. On a PDF whose text makes `chunk_text` stall, the source request hangs with only the earlier files' records in the store, while the model installs records. `VectorStore.UploadRunAgrees` states both cases of the loop as written.
- AddFile: appends the corrected chunker's records. On a PDF whose text makes `chunk_text` stall, the source never returns from that pass and appends nothing for that file.
- FileRecordsShape: states the records of the corrected chunker's chunks. Where `chunk_text` stalls on the file's text the source produces no records for it; `VectorStore.FileRecordsAsWritten` covers the case where `chunk_text` ends.
- HandlePost: on an upload that makes `chunk_text` stall, the source never reaches the query, while the model returns the context built from the corrected records. Its second ensures gives the source's store and context wherever the upload as written completes. It also returns a context where a zero-magnitude query or record embedding makes the source raise `ZeroDivisionError` at line 149 before any context is built.

## Findings

| source | as written | input that shows it | evidently intended | confidence | as-written member | corrected member |
|---|---|---|---|---|---|---|
| app/main.py:126-132 | The break character is searched for in `text[start:end]`. A window whose only chosen break sits at `start` itself is cut at `start`, so `""` is appended and `start` never advances. | `chunk_text("aaaa bbbbbbbbbb", 6)` appends `"aaaa"`, then loops forever at position 4. | Search `text[start+1:end]`, so every cut moves forward. The example then gives `"aaaa"`, `" bbbbb"`, `"bbbbb"`. | not executed | Chunker.StallExample | Chunker.FixedChunksSound |
