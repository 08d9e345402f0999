/**
 * What both ingestion routes share: the page filter applied after text
 * extraction, the numbering of chunks by (page, chunk), and the vector
 * record with its deterministic id `<source>-page-<page>-chunk-<chunk>`.
 */
module Records {
  import opened Wrappers
  import opened JsText
  import opened Decimal
  import Embedding

  /** An embedding; its numbers are opaque to the pipeline. */
  type Vector = Embedding.Vector

  datatype Metadata = Metadata(text: string, source: string, page: nat)

  /** `{ id, values, metadata }`, the unit the vector index stores. */
  datatype VectorRecord = VectorRecord(id: string, values: Vector, metadata: Metadata)

  /** Chunk `index` (0-based) of kept page `page` (0-based), with its text. */
  datatype ChunkRef = ChunkRef(page: nat, index: nat, text: string)

  // ---------------------------------------------------------------- record ids

  const PageTag := "-page-"
  const ChunkTag := "-chunk-"

  /** `${source}-page-${page}-chunk-${chunk}`. */
  function RecordId(source: string, page: nat, chunk: nat): string {
    source + PageTag + NatToDecimal(page) + ChunkTag + NatToDecimal(chunk)
  }

  datatype IdParts = IdParts(source: string, page: nat, chunk: nat)

  /** Number of decimal digits at the end of `s`. */
  function TrailingDigits(s: string): (k: nat)
    ensures k <= |s| && AllDigits(s[|s| - k..])
    ensures k < |s| ==> !IsDigit(s[|s| - k - 1])
  {
    if s == [] || !IsDigit(s[|s| - 1]) then 0
    else
      var k := TrailingDigits(s[..|s| - 1]);
      assert s[|s| - (k + 1)..] == s[..|s| - 1][|s| - 1 - k..] + [s[|s| - 1]];
      k + 1
  }

  /** Reads an id back into its source name, page number and chunk index. */
  function ParseId(id: string): Option<IdParts> {
    var k := TrailingDigits(id);
    var rest := id[..|id| - k];
    if k == 0 || !EndsWith(rest, ChunkTag) then None
    else
      var head := rest[..|rest| - |ChunkTag|];
      var j := TrailingDigits(head);
      var prefix := head[..|head| - j];
      if j == 0 || !EndsWith(prefix, PageTag) then None
      else
        Some(IdParts(prefix[..|prefix| - |PageTag|],
                     DecimalValue(head[|head| - j..]),
                     DecimalValue(id[|id| - k..])))
  }

  lemma TrailingDigitsAfter(x: string, d: string)
    requires AllDigits(d)
    requires x != [] && !IsDigit(x[|x| - 1])
    ensures TrailingDigits(x + d) == |d|
  {
    var s := x + d;
    var k := TrailingDigits(s);
    assert s[|s| - |d| - 1] == x[|x| - 1];
    assert forall i :: 0 <= i < |d| ==> s[|x| + i] == d[i];
  }

  /** Parsing a record id gives back what it was built from. */
  lemma ParseRecordId(source: string, page: nat, chunk: nat)
    ensures ParseId(RecordId(source, page, chunk)) == Some(IdParts(source, page, chunk))
  {
    var d1, d2 := NatToDecimal(page), NatToDecimal(chunk);
    var prefix := source + PageTag;
    var head := prefix + d1;
    var rest := head + ChunkTag;
    var id := rest + d2;
    assert id == RecordId(source, page, chunk);
    TrailingDigitsAfter(rest, d2);
    assert id[..|id| - |d2|] == rest && id[|id| - |d2|..] == d2;
    assert rest[..|rest| - |ChunkTag|] == head;
    TrailingDigitsAfter(prefix, d1);
    assert head[..|head| - |d1|] == prefix && head[|head| - |d1|..] == d1;
    assert prefix[..|prefix| - |PageTag|] == source;
    assert EndsWith(rest, ChunkTag) && EndsWith(prefix, PageTag);
    DecimalRoundTrip(page);
    DecimalRoundTrip(chunk);
    assert DecimalValue(head[|head| - |d1|..]) == page && DecimalValue(id[|id| - |d2|..]) == chunk;
  }

  /** Distinct (source, page, chunk) triples give distinct ids, so a re-run
      overwrites the same keys and never collides with another chunk. */
  lemma RecordIdInjective(s1: string, p1: nat, c1: nat, s2: string, p2: nat, c2: nat)
    requires RecordId(s1, p1, c1) == RecordId(s2, p2, c2)
    ensures s1 == s2 && p1 == p2 && c1 == c2
  {
    ParseRecordId(s1, p1, c1);
    ParseRecordId(s2, p2, c2);
  }

  // ---------------------------------------------------------------- records

  /** The record both routes push for chunk `ref` of document `source`:
      1-based page in the id and the metadata, 0-based chunk index in the id. */
  function MakeRecord(source: string, ref: ChunkRef, values: Vector): VectorRecord {
    VectorRecord(RecordId(source, ref.page + 1, ref.index), values,
                 Metadata(ref.text, source, ref.page + 1))
  }

  /** A record determines the chunk, the source and the vector it was built from. */
  lemma MakeRecordInjective(s1: string, r1: ChunkRef, v1: Vector, s2: string, r2: ChunkRef, v2: Vector)
    requires MakeRecord(s1, r1, v1) == MakeRecord(s2, r2, v2)
    ensures s1 == s2 && r1 == r2 && v1 == v2
  {
    RecordIdInjective(s1, r1.page + 1, r1.index, s2, r2.page + 1, r2.index);
  }

  /** The records for embedded chunks, in the given order. */
  function ToRecords(source: string, es: seq<(ChunkRef, Vector)>): (rs: seq<VectorRecord>)
    ensures |rs| == |es|
    ensures forall j :: 0 <= j < |es| ==> rs[j] == MakeRecord(source, es[j].0, es[j].1)
  {
    seq(|es|, j requires 0 <= j < |es| => MakeRecord(source, es[j].0, es[j].1))
  }

  /** Record `a` comes before record `b` in page-then-chunk order, as read from their ids. */
  predicate RecordBefore(a: VectorRecord, b: VectorRecord) {
    match (ParseId(a.id), ParseId(b.id))
    case (Some(x), Some(y)) => x.page < y.page || (x.page == y.page && x.chunk < y.chunk)
    case _ => false
  }

  // ---------------------------------------------------------------- chunk order

  /** Page-then-chunk order. */
  predicate Before(a: ChunkRef, b: ChunkRef) {
    a.page < b.page || (a.page == b.page && a.index < b.index)
  }

  predicate InOrder(refs: seq<ChunkRef>) {
    forall j, k :: 0 <= j < k < |refs| ==> Before(refs[j], refs[k])
  }

  /** Records built from chunks in order are in order, read from their ids. */
  lemma RecordOrder(source: string, es: seq<(ChunkRef, Vector)>)
    requires forall j, k :: 0 <= j < k < |es| ==> Before(es[j].0, es[k].0)
    ensures var rs := ToRecords(source, es);
      forall j, k :: 0 <= j < k < |rs| ==> RecordBefore(rs[j], rs[k]) && rs[j].id != rs[k].id
  {
    var rs := ToRecords(source, es);
    forall j, k | 0 <= j < k < |rs| ensures RecordBefore(rs[j], rs[k]) && rs[j].id != rs[k].id {
      RecordPairOrder(source, es[j].0, es[j].1, es[k].0, es[k].1);
    }
  }

  lemma RecordPairOrder(source: string, a: ChunkRef, va: Vector, b: ChunkRef, vb: Vector)
    requires Before(a, b)
    ensures RecordBefore(MakeRecord(source, a, va), MakeRecord(source, b, vb))
    ensures MakeRecord(source, a, va).id != MakeRecord(source, b, vb).id
  {
    ParseMakeRecord(source, a, va);
    ParseMakeRecord(source, b, vb);
  }

  lemma ParseMakeRecord(source: string, r: ChunkRef, v: Vector)
    ensures ParseId(MakeRecord(source, r, v).id) == Some(IdParts(source, r.page + 1, r.index))
  {
    var id := RecordId(source, r.page + 1, r.index);
    assert MakeRecord(source, r, v).id == id;
    ParseRecordId(source, r.page + 1, r.index);
  }

  /** The chunks of one page, numbered from 0. */
  function PageRefs(page: nat, chunks: seq<string>): (r: seq<ChunkRef>)
    ensures |r| == |chunks|
    ensures forall i :: 0 <= i < |r| ==> r[i] == ChunkRef(page, i, chunks[i])
  {
    seq(|chunks|, i requires 0 <= i < |chunks| => ChunkRef(page, i, chunks[i]))
  }

  /** All chunks of all pages, page by page and, within a page, chunk by chunk:
      the order of the routes' nested `for` loops. */
  function ChunkRefs(pageChunks: seq<seq<string>>): seq<ChunkRef> {
    if pageChunks == [] then []
    else
      var n := |pageChunks| - 1;
      ChunkRefs(pageChunks[..n]) + PageRefs(n, pageChunks[n])
  }

  /** The loops visit exactly the (page, chunk) pairs that exist, each once, in
      page-then-chunk order. */
  lemma {:induction false} ChunkRefsShape(pageChunks: seq<seq<string>>)
    ensures InOrder(ChunkRefs(pageChunks))
    ensures forall r :: r in ChunkRefs(pageChunks) <==>
      r.page < |pageChunks| && r.index < |pageChunks[r.page]| && r.text == pageChunks[r.page][r.index]
  {
    if pageChunks != [] {
      var n := |pageChunks| - 1;
      var init := pageChunks[..n];
      ChunkRefsShape(init);
      var a, b := ChunkRefs(init), PageRefs(n, pageChunks[n]);
      assert ChunkRefs(pageChunks) == a + b;
      forall j, k | 0 <= j < k < |a + b| ensures Before((a + b)[j], (a + b)[k]) {
        if k >= |a| && j < |a| {
          assert a[j] in a;
        }
      }
      forall r ensures r in a + b <==>
        r.page < |pageChunks| && r.index < |pageChunks[r.page]| && r.text == pageChunks[r.page][r.index]
      {
        if r.page < n {
          assert init[r.page] == pageChunks[r.page];
        }
        if r in b {
          var i :| 0 <= i < |b| && b[i] == r;
        }
        if r.page == n && r.index < |pageChunks[n]| && r.text == pageChunks[n][r.index] {
          assert b[r.index] == r;
        }
      }
    }
  }

  // ---------------------------------------------------------------- pages

  /** The extraction loop's filter: each page's text is trimmed and kept only
      when something is left. */
  function KeptPages(raw: seq<string>): (kept: seq<string>)
    ensures |kept| <= |raw|
  {
    if raw == [] then []
    else
      var n := |raw| - 1;
      var t := Trim(raw[n]);
      if |t| > 0 then KeptPages(raw[..n]) + [t] else KeptPages(raw[..n])
  }

  /** Every kept page is non-empty and already trimmed. */
  lemma {:induction false} KeptPagesTrimmed(raw: seq<string>)
    ensures forall j :: 0 <= j < |KeptPages(raw)| ==>
      KeptPages(raw)[j] != "" && Trim(KeptPages(raw)[j]) == KeptPages(raw)[j]
  {
    if raw != [] {
      var n := |raw| - 1;
      KeptPagesTrimmed(raw[..n]);
      var t := Trim(raw[n]);
      if |t| > 0 {
        TrimIdentity(t);
      }
    }
  }

  /** The extraction loop over the pages: trims each page and keeps the non-blank ones. */
  method KeepNonBlankPages(raw: seq<string>) returns (pageTexts: seq<string>)
    ensures pageTexts == KeptPages(raw)
  {
    pageTexts := [];
    var i := 0;
    while i < |raw|
      invariant 0 <= i <= |raw|
      invariant pageTexts == KeptPages(raw[..i])
    {
      var pageText := Trim(raw[i]);
      if |pageText| > 0 {
        pageTexts := pageTexts + [pageText];
      }
      assert raw[..i + 1][..i] == raw[..i];
      i := i + 1;
    }
    assert raw[..i] == raw;
  }

  lemma {:induction false} KeptPagesAppend(a: seq<string>, b: seq<string>)
    ensures KeptPages(a + b) == KeptPages(a) + KeptPages(b)
    decreases |b|
  {
    if b != [] {
      var n := |b| - 1;
      assert (a + b)[..|a| + n] == a + b[..n];
      KeptPagesAppend(a, b[..n]);
    } else {
      assert a + b == a;
    }
  }

  /** A non-blank page is kept, trimmed, right after the pages kept before it, and a
      blank page leaves no trace: stored page numbers count the kept pages, not the
      document's pages. */
  lemma KeptPageIndex(before: seq<string>, page: string, after: seq<string>)
    ensures KeptPages(before + [page] + after) ==
      KeptPages(before) + (if AllWhitespace(page) then [] else [Trim(page)]) + KeptPages(after)
  {
    KeptPagesAppend(before, [page]);
    KeptPagesAppend(before + [page], after);
    assert [page][..0] == [];
  }

  /** A blank first page shifts the numbering: the document's second page is stored as page 1. */
  lemma BlankPageShiftsNumbering(text: string)
    requires !AllWhitespace(text)
    ensures KeptPages([" ", text]) == [Trim(text)]
  {
    var raw := [" ", text];
    assert raw[..1] == [" "] && [" "][..0] == [];
    assert IsWhitespace(' ');
    assert KeptPages(raw[..1]) == [];
  }

  /** `fullText += pageText + "\n\n"` over the given pages. */
  function FullText(pages: seq<string>): string {
    if pages == [] then "" else FullText(pages[..|pages| - 1]) + pages[|pages| - 1] + "\n\n"
  }

  /** Sum over the pages of their length plus 2, the length of `FullText`. */
  function TotalTextLength(pages: seq<string>): nat {
    if pages == [] then 0 else TotalTextLength(pages[..|pages| - 1]) + |pages[|pages| - 1]| + 2
  }

  lemma {:induction false} FullTextLength(pages: seq<string>)
    ensures |FullText(pages)| == TotalTextLength(pages)
  {
    if pages != [] {
      FullTextLength(pages[..|pages| - 1]);
    }
  }
}
