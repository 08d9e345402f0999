/**
 * app/api/upload/route.js: POST ingests either the bundled PDF (local mode)
 * or an uploaded PDF or DOCX file. Unlike the ingesting route, a single
 * failing embedding aborts the request, and nothing is stored.
 */
module Upload {
  import opened Wrappers
  import opened Config
  import opened JsText
  import opened Embedding
  import opened Records
  import opened Pinecone
  import opened Ingesting

  const LocalPdf := "who_health_monitoring_policy.pdf"
  const LocalNotFound := "Local PDF not found"
  const LocalFailed := "Error processing local PDF"
  const LocalEmpty := "Local PDF processed but no text content found to ingest."
  const LocalStored := "Local PDF processed & stored"
  const NoFile := "No file provided"
  const Unsupported := "Unsupported file format"
  const FileFailed := "Error processing file"
  const FileEmpty := "File processed but no text content found to ingest."
  const FileStored := "File processed & stored"
  const EmptyWarning := "The PDF may be image-based or contain no extractable text."

  /** Local mode is on only when the `local` parameter is exactly "1" or "true". */
  predicate UseLocal(local: Option<string>) {
    local == Some("1") || local == Some("true")
  }

  /** The `file` form field: its name and what each extractor makes of its
      bytes (`None`: the extractor throws). */
  datatype UploadedFile = UploadedFile(name: string, pdfPages: Option<seq<string>>, docxText: Option<string>)

  datatype UploadReply =
    | Failed(status: int, error: string)
    | Empty(message: string, warning: string)
    | Stored(message: string)

  // ---------------------------------------------------------------- the pages

  /** Local mode: the kept pages, or one empty page when none has text. */
  function LocalPages(raw: seq<string>): seq<string> {
    if KeptPages(raw) != [] then KeptPages(raw) else [""]
  }

  /** An uploaded PDF: the kept pages, or the accumulated full text (then
      empty) as the only page when none has text. */
  function PdfPages(raw: seq<string>): seq<string> {
    if KeptPages(raw) != [] then KeptPages(raw) else [FullText(KeptPages(raw))]
  }

  /** The pages of an uploaded file, dispatched on its name's extension, or
      the reply when it is neither a readable PDF nor a readable DOCX. */
  function FilePages(file: UploadedFile): Result<seq<string>, UploadReply> {
    if EndsWith(file.name, ".pdf") then
      if file.pdfPages.None? then Failure(Failed(500, FileFailed)) else Success(PdfPages(file.pdfPages.value))
    else if EndsWith(file.name, ".docx") then
      if file.docxText.None? then Failure(Failed(500, FileFailed)) else Success([file.docxText.value])
    else Failure(Failed(400, Unsupported))
  }

  /** Every chunk in `refs` has an embedding. */
  predicate AllEmbed(refs: seq<ChunkRef>, embed: string -> Option<Vector>) {
    forall j :: 0 <= j < |refs| ==> embed(refs[j].text).Some?
  }

  /** The records the route builds for `pages`, or `None` when an embedding fails. */
  function UploadRecords(name: string, pages: seq<string>, embed: string -> Option<Vector>): Option<seq<VectorRecord>> {
    if AllEmbed(ChunkRefs(PageChunks(pages)), embed) then Some(IngestRecords(name, pages, embed)) else None
  }

  /** The reply once the records are built (or the build failed). */
  function Outcome(records: Option<seq<VectorRecord>>, failed: string, empty: string, stored: string): UploadReply {
    if records.None? then Failed(500, failed)
    else if records.value == [] then Empty(empty, EmptyWarning)
    else Stored(stored)
  }

  // ---------------------------------------------------------------- POST

  /** `POST(request)`. `local` is the `local` query parameter, `localPdf` the
      pages of the bundled PDF as extracted (`None`: no such file), `file` the
      form's `file` field, and `embed` is `generateEmbedding` (`None`: it throws). */
  method Post(local: Option<string>, localPdf: Option<seq<string>>, file: Option<UploadedFile>, env: Env,
              cache: ClientCache, index: VectorIndex, embed: string -> Option<Vector>)
    returns (reply: UploadReply)
    modifies cache, index
    ensures UseLocal(local) && localPdf.None? ==> reply == Failed(404, LocalNotFound) && unchanged(cache, index)
    ensures UseLocal(local) && localPdf.Some? && !Truthy(env.pineconeApiKey) ==>
      reply == Failed(500, LocalFailed) && unchanged(index)
    ensures UseLocal(local) && localPdf.Some? && Truthy(env.pineconeApiKey) ==>
      var records := UploadRecords(LocalPdf, LocalPages(localPdf.value), embed);
      reply == Outcome(records, LocalFailed, LocalEmpty, LocalStored) &&
      if records.Some? && records.value != [] then
        index.records == Upserted(old(index.records), records.value) && index.upserts == old(index.upserts) + 1
      else unchanged(index)
    ensures UseLocal(local) && localPdf.Some? ==> ClientCached(cache, env)
    ensures !UseLocal(local) && file.None? ==> reply == Failed(400, NoFile) && unchanged(cache, index)
    ensures !UseLocal(local) && file.Some? && FilePages(file.value).Failure? ==>
      reply == FilePages(file.value).error && unchanged(cache, index)
    ensures !UseLocal(local) && file.Some? && FilePages(file.value).Success? && !Truthy(env.pineconeApiKey) ==>
      reply == Failed(500, FileFailed) && unchanged(index)
    ensures !UseLocal(local) && file.Some? && FilePages(file.value).Success? && Truthy(env.pineconeApiKey) ==>
      var records := UploadRecords(file.value.name, FilePages(file.value).value, embed);
      reply == Outcome(records, FileFailed, FileEmpty, FileStored) &&
      if records.Some? && records.value != [] then
        index.records == Upserted(old(index.records), records.value) && index.upserts == old(index.upserts) + 1
      else unchanged(index)
    ensures !UseLocal(local) && file.Some? && FilePages(file.value).Success? ==> ClientCached(cache, env)
  {
    if UseLocal(local) {
      if localPdf.None? {
        return Failed(404, LocalNotFound);
      }
      var pageTexts := KeepNonBlankPages(localPdf.value);
      var pages := if |pageTexts| > 0 then pageTexts else [""];
      var client := cache.GetPineconeClient(env);
      if client.Failure? {
        return Failed(500, LocalFailed);
      }
      var vectors := EmbedAllPages(LocalPdf, pages, embed);
      if vectors.None? {
        return Failed(500, LocalFailed);
      }
      if |vectors.value| == 0 {
        return Empty(LocalEmpty, EmptyWarning);
      }
      index.Upsert(vectors.value);
      return Stored(LocalStored);
    }

    if file.None? {
      return Failed(400, NoFile);
    }
    var f := file.value;
    var pages;
    if EndsWith(f.name, ".pdf") {
      if f.pdfPages.None? {
        return Failed(500, FileFailed);
      }
      var pageTexts, fullText := ExtractPdfPages(f.pdfPages.value);
      pages := if |pageTexts| > 0 then pageTexts else [fullText];
    } else if EndsWith(f.name, ".docx") {
      if f.docxText.None? {
        return Failed(500, FileFailed);
      }
      pages := [f.docxText.value];
    } else {
      return Failed(400, Unsupported);
    }
    var client := cache.GetPineconeClient(env);
    if client.Failure? {
      return Failed(500, FileFailed);
    }
    var vectors := EmbedAllPages(f.name, pages, embed);
    if vectors.None? {
      return Failed(500, FileFailed);
    }
    if |vectors.value| == 0 {
      return Empty(FileEmpty, EmptyWarning);
    }
    index.Upsert(vectors.value);
    return Stored(FileStored);
  }

  /** The extraction loop of an uploaded PDF: trimmed non-blank pages, and
      their texts each followed by a blank line. */
  method ExtractPdfPages(raw: seq<string>) returns (pageTexts: seq<string>, fullText: string)
    ensures pageTexts == KeptPages(raw) && fullText == FullText(pageTexts)
  {
    pageTexts, fullText := [], "";
    for i := 0 to |raw|
      invariant pageTexts == KeptPages(raw[..i]) && fullText == FullText(pageTexts)
    {
      assert raw[..i + 1][..i] == raw[..i];
      var pageText := Trim(raw[i]);
      if |pageText| > 0 {
        assert (pageTexts + [pageText])[..|pageTexts|] == pageTexts;
        pageTexts := pageTexts + [pageText];
        fullText := fullText + pageText + "\n\n";
      }
    }
    assert raw[..|raw|] == raw;
  }

  /** The page loop: chunk each page and embed each chunk, giving up at the
      first embedding that fails. */
  method EmbedAllPages(name: string, pages: seq<string>, embed: string -> Option<Vector>)
    returns (vectors: Option<seq<VectorRecord>>)
    ensures vectors == UploadRecords(name, pages, embed)
  {
    ghost var pageChunks := PageChunks(pages);
    var done: seq<VectorRecord> := [];
    for p := 0 to |pages|
      invariant AllEmbed(ChunkRefs(pageChunks[..p]), embed) && done == RecordsFor(name, pageChunks[..p], embed)
    {
      var chunks := ChunkText(pages[p], DefaultChunkSize, DefaultOverlap);
      var next := EmbedAllChunks(name, p, chunks, embed, done);
      ChunkRefsSnoc(pageChunks, p);
      if next.None? {
        PageFailureAborts(pageChunks, p, embed);
        return None;
      }
      RecordsForSnoc(name, pageChunks, p, embed);
      done := next.value;
    }
    assert pageChunks[..|pages|] == pageChunks;
    return Some(done);
  }

  /** The chunk loop of page `p`, appending to `vectors0`, giving up at the
      first embedding that fails. */
  method EmbedAllChunks(name: string, p: nat, chunks: seq<string>, embed: string -> Option<Vector>,
                        vectors0: seq<VectorRecord>)
    returns (vectors: Option<seq<VectorRecord>>)
    ensures vectors.Some? <==> AllEmbed(PageRefs(p, chunks), embed)
    ensures vectors.Some? ==> vectors.value == vectors0 + ToRecords(name, Embedded(PageRefs(p, chunks), embed))
  {
    var done := vectors0;
    ghost var refs := PageRefs(p, chunks);
    for i := 0 to |chunks|
      invariant AllEmbed(refs[..i], embed) && done == vectors0 + ToRecords(name, Embedded(refs[..i], embed))
    {
      var ref := ChunkRef(p, i, chunks[i]);
      var embedding := embed(chunks[i]);
      if embedding.None? {
        assert !AllEmbed(refs, embed) by { assert refs[i] == ref; }
        return None;
      }
      ghost var before := ToRecords(name, Embedded(refs[..i], embed));
      VisitAt(name, refs, i, embed);
      AppendAssoc(vectors0, before, [MakeRecord(name, ref, embedding.value)]);
      assert AllEmbed(refs[..i + 1], embed) by {
        forall j | 0 <= j < i + 1 ensures embed(refs[j].text).Some? {
          if j < i { assert refs[..i][j] == refs[j]; }
        }
      }
      done := done + [MakeRecord(name, ref, embedding.value)];
    }
    assert refs[..|chunks|] == refs;
    return Some(done);
  }

  lemma ChunkRefsSnoc(pageChunks: seq<seq<string>>, p: nat)
    requires p < |pageChunks|
    ensures ChunkRefs(pageChunks[..p + 1]) == ChunkRefs(pageChunks[..p]) + PageRefs(p, pageChunks[p])
  {
    assert pageChunks[..p + 1][..p] == pageChunks[..p];
  }

  /** A failing chunk on page `p` fails the whole document. */
  lemma PageFailureAborts(pageChunks: seq<seq<string>>, p: nat, embed: string -> Option<Vector>)
    requires p < |pageChunks| && !AllEmbed(PageRefs(p, pageChunks[p]), embed)
    ensures !AllEmbed(ChunkRefs(pageChunks), embed)
  {
    var refs := PageRefs(p, pageChunks[p]);
    var i :| 0 <= i < |refs| && embed(refs[i].text).None?;
    ChunkRefsShape(pageChunks);
    assert refs[i] in ChunkRefs(pageChunks);
    var k :| 0 <= k < |ChunkRefs(pageChunks)| && ChunkRefs(pageChunks)[k] == refs[i];
  }

  // ---------------------------------------------------------------- properties

  /** The request is aborted exactly when the embedding of some chunk of some
      page fails. */
  lemma AbortsIff(name: string, pages: seq<string>, embed: string -> Option<Vector>)
    ensures UploadRecords(name, pages, embed).None? <==>
      exists p, i :: 0 <= p < |pages| && 0 <= i < |Chunks(pages[p], DefaultChunkSize, DefaultOverlap)| &&
        embed(Chunks(pages[p], DefaultChunkSize, DefaultOverlap)[i]).None?
  {
    var pc := PageChunks(pages);
    var refs := ChunkRefs(pc);
    ChunkRefsShape(pc);
    if !AllEmbed(refs, embed) {
      var j :| 0 <= j < |refs| && embed(refs[j].text).None?;
      assert refs[j] in refs;
      assert pc[refs[j].page] == Chunks(pages[refs[j].page], DefaultChunkSize, DefaultOverlap);
    }
    forall p, i | 0 <= p < |pages| && 0 <= i < |Chunks(pages[p], DefaultChunkSize, DefaultOverlap)|
      ensures embed(Chunks(pages[p], DefaultChunkSize, DefaultOverlap)[i]).None? ==> !AllEmbed(refs, embed)
    {
      var r := ChunkRef(p, i, pc[p][i]);
      if embed(r.text).None? {
        assert r in refs;
        var j :| 0 <= j < |refs| && refs[j] == r;
      }
    }
  }

  /** When every embedding succeeds, every chunk gets a record: one per chunk,
      in page-then-chunk order, each carrying its chunk's embedding. */
  lemma AllChunksStored(name: string, pageChunks: seq<seq<string>>, embed: string -> Option<Vector>)
    requires AllEmbed(ChunkRefs(pageChunks), embed)
    ensures var refs, rs := ChunkRefs(pageChunks), RecordsFor(name, pageChunks, embed);
      |rs| == |refs| &&
      forall j :: 0 <= j < |refs| ==> rs[j] == MakeRecord(name, refs[j], embed(refs[j].text).value)
  {
    AllEmbeddedFull(ChunkRefs(pageChunks), embed);
  }

  /** With no failing embedding, nothing is skipped. */
  lemma {:induction false} AllEmbeddedFull(refs: seq<ChunkRef>, embed: string -> Option<Vector>)
    requires AllEmbed(refs, embed)
    ensures var es := Embedded(refs, embed);
      |es| == |refs| && forall j :: 0 <= j < |refs| ==> es[j] == (refs[j], embed(refs[j].text).value)
  {
    if refs != [] {
      var n := |refs| - 1;
      assert AllEmbed(refs[..n], embed) by {
        forall j | 0 <= j < n ensures embed(refs[..n][j].text).Some? { assert refs[..n][j] == refs[j]; }
      }
      AllEmbeddedFull(refs[..n], embed);
      assert embed(refs[n].text).Some?;
    }
  }

  /** An uploaded file whose every embedding succeeds stores what the ingesting
      route stores for the same pages. */
  lemma AgreesWithIngesting(name: string, pages: seq<string>, embed: string -> Option<Vector>)
    requires forall p, i :: 0 <= p < |pages| && 0 <= i < |Chunks(pages[p], DefaultChunkSize, DefaultOverlap)| ==>
      embed(Chunks(pages[p], DefaultChunkSize, DefaultOverlap)[i]).Some?
    ensures UploadRecords(name, pages, embed) == Some(IngestRecords(name, pages, embed))
  {
    AbortsIff(name, pages, embed);
  }

  /** A PDF or local document with no text becomes one empty page, which has
      no chunks: no record is built and the route answers that there was no
      content, without an upsert. */
  lemma NoTextNoRecords(name: string, raw: seq<string>, embed: string -> Option<Vector>)
    requires KeptPages(raw) == []
    ensures UploadRecords(name, PdfPages(raw), embed) == Some([])
    ensures UploadRecords(name, LocalPages(raw), embed) == Some([])
  {
    ChunksEmptyIff("", DefaultChunkSize, DefaultOverlap);
    assert PdfPages(raw) == LocalPages(raw) == [""];
    var pc := PageChunks([""]);
    assert pc == [[]];
    assert pc[..0] == [];
    assert ChunkRefs(pc) == [];
  }

  /** The file-type dispatch: ".pdf" first, then ".docx"; a file is always
      read as at least one page. */
  lemma Dispatch(file: UploadedFile)
    ensures EndsWith(file.name, ".pdf") && file.pdfPages.Some? ==>
      FilePages(file) == Success(PdfPages(file.pdfPages.value))
    ensures !EndsWith(file.name, ".pdf") && EndsWith(file.name, ".docx") && file.docxText.Some? ==>
      FilePages(file) == Success([file.docxText.value])
    ensures FilePages(file).Success? ==> |FilePages(file).value| >= 1
  {
    if EndsWith(file.name, ".pdf") && file.pdfPages.Some? {
      var kept := KeptPages(file.pdfPages.value);
      assert PdfPages(file.pdfPages.value) == if kept != [] then kept else [FullText(kept)];
    }
  }

  /** Any name ending neither in ".pdf" nor in ".docx", and only such a name,
      is refused with a 400 before any client is built. */
  lemma UnsupportedIff(file: UploadedFile)
    ensures FilePages(file) == Failure(Failed(400, Unsupported)) <==>
      !EndsWith(file.name, ".pdf") && !EndsWith(file.name, ".docx")
  {
  }
}
