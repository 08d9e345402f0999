/**
 * app/api/ingesting/route.js: POST ingests a PDF page by page and chunk by
 * chunk, skipping each chunk whose embedding fails, and makes one upsert;
 * GET previews the chunking of the first pages.
 */
module Ingesting {
  import opened Wrappers
  import opened Config
  import opened JsText
  import opened Embedding
  import opened Records
  import opened Pinecone

  const DefaultPdf := "who_health_monitoring_policy.pdf"
  const PreviewedPages := 3
  const IngestionFailed := "Error during ingestion"
  const NoContentMessage := "PDF processed but no text content found to ingest."
  const NoContentWarning := "The PDF may be image-based or contain no extractable text."
  const IngestedMessage := "PDF successfully ingested!"

  /** `url.searchParams.get("pdf") || "who_health_monitoring_policy.pdf"`. */
  function PdfName(param: Option<string>): string {
    if Truthy(param) then param.value else DefaultPdf
  }

  function NotFoundError(name: string): string {
    "PDF not found: " + name
  }

  // ---------------------------------------------------------------- POST, as a function

  /** The chunks of each kept page, with the default chunk size and overlap. */
  function PageChunks(pages: seq<string>): (r: seq<seq<string>>)
    ensures |r| == |pages|
    ensures forall p :: 0 <= p < |pages| ==> r[p] == Chunks(pages[p], DefaultChunkSize, DefaultOverlap)
  {
    seq(|pages|, p requires 0 <= p < |pages| => Chunks(pages[p], DefaultChunkSize, DefaultOverlap))
  }

  /** The chunks whose embedding succeeds, with their vectors, in the order visited. */
  function Embedded(refs: seq<ChunkRef>, embed: string -> Option<Vector>): seq<(ChunkRef, Vector)> {
    if refs == [] then []
    else
      var n := |refs| - 1;
      Embedded(refs[..n], embed) + EmbeddedOne(refs[n], embed)
  }

  function EmbeddedOne(r: ChunkRef, embed: string -> Option<Vector>): seq<(ChunkRef, Vector)> {
    match embed(r.text)
    case Some(v) => [(r, v)]
    case None => []
  }

  /** The records built from chunked pages `pageChunks` of document `name`. */
  function RecordsFor(name: string, pageChunks: seq<seq<string>>, embed: string -> Option<Vector>): seq<VectorRecord> {
    ToRecords(name, Embedded(ChunkRefs(pageChunks), embed))
  }

  /** The records POST builds for the kept pages of document `name`. */
  function IngestRecords(name: string, pages: seq<string>, embed: string -> Option<Vector>): seq<VectorRecord> {
    RecordsFor(name, PageChunks(pages), embed)
  }

  datatype PostReply =
    | NotFound(error: string)
    | NoContent(message: string, totalPages: int, totalChunks: int, vectorsStored: int, warning: string)
    | Ingested(message: string, totalPages: int, totalChunks: int, vectorsStored: int)
    | PostFailed(error: string, details: string)

  // ---------------------------------------------------------------- POST

  /** `POST(request)`. `document` is the text of each page of the PDF as
      extracted (`None`: no such file), `embed` is `generateEmbedding` raced
      against its 30-second timeout (`None`: it threw or timed out), `cache`
      is lib/pinecone.js's client and `index` the index it opens. */
  method Post(pdfParam: Option<string>, document: Option<seq<string>>, env: Env,
              cache: ClientCache, index: VectorIndex, embed: string -> Option<Vector>)
    returns (reply: PostReply)
    modifies cache, index
    ensures var name := PdfName(pdfParam);
      document.None? ==> reply == NotFound(NotFoundError(name)) && unchanged(cache, index)
    ensures document.Some? && !Truthy(env.pineconeApiKey) ==>
      reply == PostFailed(IngestionFailed, Pinecone.NotConfigured) && unchanged(index)
    ensures document.Some? ==> ClientCached(cache, env)
    ensures var name := PdfName(pdfParam);
      document.Some? && Truthy(env.pineconeApiKey) ==>
        var pages := KeptPages(document.value);
        var records := IngestRecords(name, pages, embed);
        if records == [] then
          reply == NoContent(NoContentMessage, |pages|, 0, 0, NoContentWarning) && unchanged(index)
        else
          reply == Ingested(IngestedMessage, |pages|, |records|, |records|) &&
          index.records == Upserted(old(index.records), records) && index.upserts == old(index.upserts) + 1
  {
    var name := PdfName(pdfParam);
    if document.None? {
      return NotFound(NotFoundError(name));
    }
    var pageTexts := KeepNonBlankPages(document.value);
    var client := cache.GetPineconeClient(env);
    if client.Failure? {
      return PostFailed(IngestionFailed, client.error);
    }
    var vectors, totalChunks := EmbedPages(name, pageTexts, embed);
    if |vectors| == 0 {
      return NoContent(NoContentMessage, |pageTexts|, 0, 0, NoContentWarning);
    }
    index.Upsert(vectors);
    return Ingested(IngestedMessage, |pageTexts|, totalChunks, |vectors|);
  }

  /** The page loop of POST: chunk each page, embed each chunk, push a record
      for each chunk whose embedding succeeds and count it. */
  method EmbedPages(name: string, pageTexts: seq<string>, embed: string -> Option<Vector>)
    returns (vectors: seq<VectorRecord>, totalChunks: nat)
    ensures vectors == IngestRecords(name, pageTexts, embed) && totalChunks == |vectors|
  {
    ghost var pageChunks := PageChunks(pageTexts);
    vectors, totalChunks := [], 0;
    for p := 0 to |pageTexts|
      invariant vectors == RecordsFor(name, pageChunks[..p], embed) && totalChunks == |vectors|
    {
      var chunks := ChunkText(pageTexts[p], DefaultChunkSize, DefaultOverlap);
      vectors, totalChunks := EmbedPage(name, p, chunks, embed, vectors, totalChunks);
      RecordsForSnoc(name, pageChunks, p, embed);
    }
    assert pageChunks[..|pageTexts|] == pageChunks;
  }

  /** The chunk loop of POST for page `p`, appending to `vectors`. */
  method EmbedPage(name: string, p: nat, chunks: seq<string>, embed: string -> Option<Vector>,
                   vectors0: seq<VectorRecord>, totalChunks0: nat)
    returns (vectors: seq<VectorRecord>, totalChunks: nat)
    ensures vectors == vectors0 + ToRecords(name, Embedded(PageRefs(p, chunks), embed))
    ensures totalChunks == totalChunks0 + (|vectors| - |vectors0|)
  {
    vectors, totalChunks := vectors0, totalChunks0;
    ghost var refs := PageRefs(p, chunks);
    for i := 0 to |chunks|
      invariant vectors == vectors0 + ToRecords(name, Embedded(refs[..i], embed))
      invariant totalChunks == totalChunks0 + (|vectors| - |vectors0|)
    {
      var ref := ChunkRef(p, i, chunks[i]);
      ghost var done := ToRecords(name, Embedded(refs[..i], embed));
      ghost var added := if embed(ref.text).Some? then [MakeRecord(name, ref, embed(ref.text).value)] else [];
      VisitAt(name, refs, i, embed);
      AppendAssoc(vectors0, done, added);
      var embedding := embed(chunks[i]);
      if embedding.Some? {
        vectors := vectors + [MakeRecord(name, ref, embedding.value)];
        totalChunks := totalChunks + 1;
      }
    }
    assert refs[..|chunks|] == refs;
  }

  /** Visiting one more chunk adds its record exactly when its embedding succeeds. */
  lemma VisitOne(name: string, visited: seq<ChunkRef>, ref: ChunkRef, embed: string -> Option<Vector>)
    ensures ToRecords(name, Embedded(visited + [ref], embed)) ==
      ToRecords(name, Embedded(visited, embed)) +
      (if embed(ref.text).Some? then [MakeRecord(name, ref, embed(ref.text).value)] else [])
  {
    assert (visited + [ref])[..|visited|] == visited;
    var es := Embedded(visited, embed);
    var one := EmbeddedOne(ref, embed);
    assert Embedded(visited + [ref], embed) == es + one;
    ToRecordsAppend(name, es, one);
  }

  /** The step of the chunk loop at chunk `i`. */
  lemma VisitAt(name: string, refs: seq<ChunkRef>, i: nat, embed: string -> Option<Vector>)
    requires i < |refs|
    ensures ToRecords(name, Embedded(refs[..i + 1], embed)) ==
      ToRecords(name, Embedded(refs[..i], embed)) +
      (if embed(refs[i].text).Some? then [MakeRecord(name, refs[i], embed(refs[i].text).value)] else [])
  {
    assert refs[..i + 1] == refs[..i] + [refs[i]];
    VisitOne(name, refs[..i], refs[i], embed);
  }

  /** One more page appends that page's records. */
  lemma RecordsForSnoc(name: string, pageChunks: seq<seq<string>>, p: nat, embed: string -> Option<Vector>)
    requires p < |pageChunks|
    ensures RecordsFor(name, pageChunks[..p + 1], embed) ==
      RecordsFor(name, pageChunks[..p], embed) + ToRecords(name, Embedded(PageRefs(p, pageChunks[p]), embed))
  {
    var init := pageChunks[..p + 1];
    assert init[..p] == pageChunks[..p];
    assert ChunkRefs(init) == ChunkRefs(pageChunks[..p]) + PageRefs(p, pageChunks[p]);
    EmbeddedAppend(ChunkRefs(pageChunks[..p]), PageRefs(p, pageChunks[p]), embed);
    ToRecordsAppend(name, Embedded(ChunkRefs(pageChunks[..p]), embed), Embedded(PageRefs(p, pageChunks[p]), embed));
  }

  lemma ToRecordsAppend(name: string, xs: seq<(ChunkRef, Vector)>, ys: seq<(ChunkRef, Vector)>)
    ensures ToRecords(name, xs + ys) == ToRecords(name, xs) + ToRecords(name, ys)
  {
    var a, b := ToRecords(name, xs + ys), ToRecords(name, xs) + ToRecords(name, ys);
    forall j | 0 <= j < |a| ensures a[j] == b[j] {
      if j < |xs| {
        assert (xs + ys)[j] == xs[j];
      } else {
        assert (xs + ys)[j] == ys[j - |xs|];
      }
    }
  }

  lemma {:induction false} EmbeddedAppend(a: seq<ChunkRef>, b: seq<ChunkRef>, embed: string -> Option<Vector>)
    ensures Embedded(a + b, embed) == Embedded(a, embed) + Embedded(b, embed)
    decreases |b|
  {
    if b == [] {
      assert a + b == a;
    } else {
      var n := |b| - 1;
      assert (a + b)[..|a| + n] == a + b[..n];
      EmbeddedAppend(a, b[..n], embed);
    }
  }

  // ---------------------------------------------------------------- POST properties

  /** A chunk is embedded exactly when it was visited and its embedding
      succeeded: a failing chunk is skipped and every other chunk still counts. */
  lemma {:induction false} EmbeddedMembers(refs: seq<ChunkRef>, embed: string -> Option<Vector>, r: ChunkRef, v: Vector)
    ensures (r, v) in Embedded(refs, embed) <==> r in refs && embed(r.text) == Some(v)
  {
    if refs != [] {
      var n := |refs| - 1;
      EmbeddedMembers(refs[..n], embed, r, v);
      assert refs == refs[..n] + [refs[n]];
    }
  }

  /** The embedded chunks keep the order in which they were visited. */
  lemma {:induction false} EmbeddedInOrder(refs: seq<ChunkRef>, embed: string -> Option<Vector>)
    requires InOrder(refs)
    ensures forall j, k :: 0 <= j < k < |Embedded(refs, embed)| ==>
      Before(Embedded(refs, embed)[j].0, Embedded(refs, embed)[k].0)
  {
    if refs != [] {
      var n := |refs| - 1;
      var init := refs[..n];
      assert InOrder(init) by {
        forall j, k | 0 <= j < k < n ensures Before(init[j], init[k]) { assert init[j] == refs[j] && init[k] == refs[k]; }
      }
      EmbeddedInOrder(init, embed);
      var es := Embedded(refs, embed);
      var a := Embedded(init, embed);
      forall j, k | 0 <= j < k < |es| ensures Before(es[j].0, es[k].0) {
        if k >= |a| && j < |a| {
          assert a[j] in a;
          EmbeddedMembers(init, embed, a[j].0, a[j].1);
          var m :| 0 <= m < n && init[m] == a[j].0;
          assert es[k].0 == refs[n];
        }
      }
    }
  }

  /** The records come in page-then-chunk order, each under its own id, as read
      back from the ids. */
  lemma RecordsInOrder(name: string, pageChunks: seq<seq<string>>, embed: string -> Option<Vector>)
    ensures var rs := RecordsFor(name, pageChunks, embed);
      forall j, k :: 0 <= j < k < |rs| ==> RecordBefore(rs[j], rs[k]) && rs[j].id != rs[k].id
  {
    var refs := ChunkRefs(pageChunks);
    ChunkRefsShape(pageChunks);
    EmbeddedInOrder(refs, embed);
    RecordOrder(name, Embedded(refs, embed));
  }

  /** POST stores the chunks of the kept pages in page-then-chunk order, each
      under its own id. */
  lemma IngestOrder(name: string, pages: seq<string>, embed: string -> Option<Vector>)
    ensures var rs := IngestRecords(name, pages, embed);
      forall j, k :: 0 <= j < k < |rs| ==> RecordBefore(rs[j], rs[k]) && rs[j].id != rs[k].id
  {
    RecordsInOrder(name, PageChunks(pages), embed);
  }

  /** A record stored under the id of chunk `i` of page `p` holds that chunk,
      its embedding and the metadata `{text, source, page: p + 1}`. */
  lemma RecordUnderId(name: string, pageChunks: seq<seq<string>>, embed: string -> Option<Vector>, p: nat, i: nat, j: int)
    requires p < |pageChunks| && i < |pageChunks[p]|
    requires var rs := RecordsFor(name, pageChunks, embed); 0 <= j < |rs| && rs[j].id == RecordId(name, p + 1, i)
    ensures var chunk := pageChunks[p][i];
      embed(chunk).Some? &&
      RecordsFor(name, pageChunks, embed)[j] == VectorRecord(RecordId(name, p + 1, i), embed(chunk).value, Metadata(chunk, name, p + 1))
  {
    var refs := ChunkRefs(pageChunks);
    var es := Embedded(refs, embed);
    assert es[j] in es;
    EmbeddedMembers(refs, embed, es[j].0, es[j].1);
    RecordIdInjective(name, es[j].0.page + 1, es[j].0.index, name, p + 1, i);
    ChunkRefsShape(pageChunks);
  }

  /** A chunk whose embedding succeeds is stored under its id. */
  lemma StoredWhenEmbedded(name: string, pageChunks: seq<seq<string>>, embed: string -> Option<Vector>, p: nat, i: nat)
    requires p < |pageChunks| && i < |pageChunks[p]| && embed(pageChunks[p][i]).Some?
    ensures var rs := RecordsFor(name, pageChunks, embed);
      exists j :: 0 <= j < |rs| && rs[j].id == RecordId(name, p + 1, i)
  {
    var refs := ChunkRefs(pageChunks);
    var es := Embedded(refs, embed);
    var ref := ChunkRef(p, i, pageChunks[p][i]);
    ChunkRefsShape(pageChunks);
    EmbeddedMembers(refs, embed, ref, embed(ref.text).value);
    var j :| 0 <= j < |es| && es[j] == (ref, embed(ref.text).value);
    assert RecordsFor(name, pageChunks, embed)[j].id == RecordId(name, p + 1, i);
  }

  /** Chunk `i` of kept page `p` is stored, under id `<name>-page-<p+1>-chunk-<i>`
      with metadata `{text: chunk, source: name, page: p+1}` and its embedding as
      values, exactly when its embedding succeeds; a failure skips that chunk only. */
  lemma IngestedChunk(name: string, pages: seq<string>, embed: string -> Option<Vector>, p: nat, i: nat)
    requires p < |pages| && i < |Chunks(pages[p], DefaultChunkSize, DefaultOverlap)|
    ensures var chunk := Chunks(pages[p], DefaultChunkSize, DefaultOverlap)[i];
      var rs := IngestRecords(name, pages, embed);
      (embed(chunk).Some? <==> exists j :: 0 <= j < |rs| && rs[j].id == RecordId(name, p + 1, i)) &&
      (forall j :: 0 <= j < |rs| && rs[j].id == RecordId(name, p + 1, i) ==>
        rs[j] == VectorRecord(RecordId(name, p + 1, i), embed(chunk).value, Metadata(chunk, name, p + 1)))
  {
    var pc := PageChunks(pages);
    assert IngestRecords(name, pages, embed) == RecordsFor(name, pc, embed);
    assert pc[p] == Chunks(pages[p], DefaultChunkSize, DefaultOverlap);
    forall j | 0 <= j < |RecordsFor(name, pc, embed)| && RecordsFor(name, pc, embed)[j].id == RecordId(name, p + 1, i)
      ensures embed(pc[p][i]).Some? &&
        RecordsFor(name, pc, embed)[j] == VectorRecord(RecordId(name, p + 1, i), embed(pc[p][i]).value, Metadata(pc[p][i], name, p + 1))
    {
      RecordUnderId(name, pc, embed, p, i, j);
    }
    if embed(pc[p][i]).Some? {
      StoredWhenEmbedded(name, pc, embed, p, i);
    }
  }

  // ---------------------------------------------------------------- GET

  datatype ChunkPreview = ChunkPreview(chunkNumber: int, chunkLength: int, chunkPreview: string)

  datatype PagePreview = PagePreview(
    pageNumber: int, pageTextLength: int, pageTextPreview: string, chunksCount: int, chunks: seq<ChunkPreview>)

  datatype DebugInfo = DebugInfo(totalPages: int, totalTextLength: int, pages: seq<PagePreview>)

  datatype GetReply = GetNotFound(error: string) | Debug(info: DebugInfo)

  /** The preview of page `index` (0-based). */
  function PagePreviewOf(pageText: string, index: nat): PagePreview {
    var chunks := Chunks(pageText, DefaultChunkSize, DefaultOverlap);
    PagePreview(index + 1, |pageText|, Preview(pageText, 200), |chunks|,
                seq(|chunks|, j requires 0 <= j < |chunks| => ChunkPreview(j + 1, |chunks[j]|, Preview(chunks[j], 100))))
  }

  /** `debugInfo` for the extracted pages and the accumulated `fullText`. */
  function DebugInfoOf(pages: seq<string>, fullText: string): DebugInfo {
    DebugInfo(|pages|, |fullText|,
              seq(Min(PreviewedPages, |pages|), i requires 0 <= i < Min(PreviewedPages, |pages|) => PagePreviewOf(pages[i], i)))
  }

  /** `GET(request)`: the pages are taken as extracted, neither trimmed nor filtered. */
  method Get(pdfParam: Option<string>, document: Option<seq<string>>) returns (reply: GetReply)
    ensures document.None? ==> reply == GetNotFound(NotFoundError(PdfName(pdfParam)))
    ensures document.Some? ==> reply == Debug(DebugInfoOf(document.value, FullText(document.value)))
  {
    var name := PdfName(pdfParam);
    if document.None? {
      return GetNotFound(NotFoundError(name));
    }
    var raw := document.value;
    var fullText := "";
    var pageTexts: seq<string> := [];
    for i := 0 to |raw|
      invariant pageTexts == raw[..i] && fullText == FullText(raw[..i])
    {
      assert raw[..i + 1][..i] == raw[..i];
      pageTexts := pageTexts + [raw[i]];
      fullText := fullText + raw[i] + "\n\n";
    }
    assert raw[..|raw|] == raw;
    return Debug(DebugInfoOf(pageTexts, fullText));
  }

  /** The preview covers at most the first three pages, numbers pages and chunks
      from 1, counts each page's chunks as `chunkText` makes them and reports
      the text length as each page's length plus 2. */
  lemma PreviewShape(pages: seq<string>)
    ensures var info := DebugInfoOf(pages, FullText(pages));
      info.totalPages == |pages| && info.totalTextLength == TotalTextLength(pages) &&
      |info.pages| == Min(3, |pages|) &&
      forall i :: 0 <= i < |info.pages| ==>
        var pp, chunks := info.pages[i], Chunks(pages[i], 800, 100);
        pp.pageNumber == i + 1 && pp.pageTextLength == |pages[i]| &&
        pp.chunksCount == |chunks| == |pp.chunks| &&
        forall j :: 0 <= j < |pp.chunks| ==> pp.chunks[j].chunkNumber == j + 1 && pp.chunks[j].chunkLength == |chunks[j]|
  {
    FullTextLength(pages);
  }
}
