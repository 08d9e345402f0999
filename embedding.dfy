/**
 * lib/embedding.js: the word-window chunker `chunkText` and the lazily
 * loaded embedding model behind `generateEmbedding`.
 */
module Embedding {
  import opened Wrappers
  import opened JsText

  /** An embedding; its numbers come from the model and are opaque here. */
  type Vector = seq<real>

  const DefaultChunkSize := 800
  const DefaultOverlap := 100

  // ---------------------------------------------------------------- Array.prototype.slice

  /** How `slice` reads an index: negative counts from the end, then clamped to [0, len]. */
  function RelativeIndex(x: int, len: nat): (r: nat)
    ensures r <= len
    ensures 0 <= x ==> r == Min(x, len)
  {
    if x < 0 then (if len + x < 0 then 0 else len + x)
    else if x < len then x else len
  }

  /** `s.slice(from, to)`. */
  function JsSlice<T>(s: seq<T>, from: int, to: int): seq<T> {
    var a := RelativeIndex(from, |s|);
    var b := RelativeIndex(to, |s|);
    if a < b then s[a..b] else []
  }

  // ---------------------------------------------------------------- chunkText

  /** The word slices the loop visits from position `start` on, advancing by
      `step`: `words.slice(start, start + chunkSize)` at each position below
      the number of words. */
  function Slices(words: seq<string>, start: nat, chunkSize: int, step: int): seq<seq<string>>
    requires 0 < step
    decreases |words| - start
  {
    if start >= |words| then []
    else [JsSlice(words, start, start + chunkSize)] + Slices(words, start + step, chunkSize, step)
  }

  /** Each slice joined by single spaces. */
  function JoinAll(slices: seq<seq<string>>): (r: seq<string>)
    ensures |r| == |slices|
  {
    if slices == [] then [] else [Join(slices[0], " ")] + JoinAll(slices[1..])
  }

  /** The strings whose trim is not empty, in order. */
  function KeepNonBlank(chunks: seq<string>): seq<string> {
    if chunks == [] then []
    else (if NonBlank(chunks[0]) then [chunks[0]] else []) + KeepNonBlank(chunks[1..])
  }

  /** What `chunkText(text, chunkSize, overlap)` returns: the windows of
      `chunkSize` words starting every `chunkSize - overlap` words, joined by
      single spaces, those that trim to nothing dropped. */
  function Chunks(text: string, chunkSize: int, overlap: int): seq<string>
    requires overlap < chunkSize
  {
    KeepNonBlank(JoinAll(Slices(Words(text), 0, chunkSize, chunkSize - overlap)))
  }

  /** `chunkText`. The loop advances by `chunkSize - overlap`, so it ends only
      when that is positive; the source never checks it, the model requires it. */
  method ChunkText(text: string, chunkSize: int, overlap: int) returns (chunks: seq<string>)
    requires overlap < chunkSize
    ensures chunks == Chunks(text, chunkSize, overlap)
  {
    var words := Words(text);
    var step := chunkSize - overlap;
    chunks := [];
    var start: nat := 0;
    ghost var all := KeepNonBlank(JoinAll(Slices(words, start, chunkSize, step)));
    while start < |words|
      invariant chunks + KeepNonBlank(JoinAll(Slices(words, start, chunkSize, step))) == all
      decreases |words| - start
    {
      var chunk := Join(JsSlice(words, start, start + chunkSize), " ");
      var kept := if NonBlank(chunk) then [chunk] else [];
      ghost var rest := KeepNonBlank(JoinAll(Slices(words, start + step, chunkSize, step)));
      SlicesStep(words, start, chunkSize, step);
      AppendAssoc(chunks, kept, rest);
      chunks := chunks + kept;
      start := start + step;
    }
  }

  lemma AppendAssoc<T>(a: seq<T>, b: seq<T>, c: seq<T>)
    ensures a + b + c == a + (b + c)
  {
  }

  /** One iteration of the loop: the chunk at `start` (if kept), then the rest. */
  lemma SlicesStep(words: seq<string>, start: nat, chunkSize: int, step: int)
    requires 0 < step && start < |words|
    ensures var chunk := Join(JsSlice(words, start, start + chunkSize), " ");
      KeepNonBlank(JoinAll(Slices(words, start, chunkSize, step))) ==
      (if NonBlank(chunk) then [chunk] else []) + KeepNonBlank(JoinAll(Slices(words, start + step, chunkSize, step)))
  {
    var slice := JsSlice(words, start, start + chunkSize);
    var rest := Slices(words, start + step, chunkSize, step);
    assert Slices(words, start, chunkSize, step) == [slice] + rest;
    JoinAllCons(slice, rest);
    KeepNonBlankCons(Join(slice, " "), JoinAll(rest));
  }

  lemma JoinAllCons(slice: seq<string>, rest: seq<seq<string>>)
    ensures JoinAll([slice] + rest) == [Join(slice, " ")] + JoinAll(rest)
  {
    assert ([slice] + rest)[1..] == rest;
  }

  lemma KeepNonBlankCons(chunk: string, rest: seq<string>)
    ensures KeepNonBlank([chunk] + rest) == (if NonBlank(chunk) then [chunk] else []) + KeepNonBlank(rest)
  {
    assert ([chunk] + rest)[1..] == rest;
  }


  /** Number of loop iterations over `m` remaining words with stride `step`. */
  function WindowCount(m: int, step: int): nat
    requires step > 0
    decreases m
  {
    if m <= 0 then 0 else 1 + WindowCount(m - step, step)
  }

  lemma {:induction false} WindowCountBounds(m: int, step: int)
    requires step > 0 && m > 0
    ensures var k := WindowCount(m, step); k >= 1 && (k - 1) * step < m <= k * step
    decreases m
  {
    var k := WindowCount(m, step);
    if m > step {
      WindowCountBounds(m - step, step);
      assert (k - 2) * step + step == (k - 1) * step;
      assert (k - 1) * step + step == k * step;
    }
  }

  lemma DivideExactly(x: int, d: int, q: int)
    requires d > 0 && q * d <= x < q * d + d
    ensures x / d == q && x % d == x - q * d
  {
    var q' := x / d;
    assert x == q' * d + x % d;
    if q' < q {
      MulMonotone(q' + 1, q, d);
    } else if q' > q {
      MulMonotone(q + 1, q', d);
    }
  }

  lemma MulMonotone(a: int, b: int, d: int)
    requires a <= b && 0 <= d
    ensures a * d <= b * d
  {
    assert b * d - a * d == (b - a) * d;
  }


  // ---------------------------------------------------------------- chunk lemmas

  /** `JoinAll` joins each slice in place. */
  lemma {:induction false} JoinAllAt(slices: seq<seq<string>>, k: int)
    requires 0 <= k < |slices|
    ensures JoinAll(slices)[k] == Join(slices[k], " ")
  {
    if k > 0 {
      JoinAllAt(slices[1..], k - 1);
    }
  }

  /** When every string is non-blank, the guard keeps them all. */
  lemma {:induction false} KeepAll(chunks: seq<string>)
    requires forall i :: 0 <= i < |chunks| ==> NonBlank(chunks[i])
    ensures KeepNonBlank(chunks) == chunks
  {
    if chunks != [] {
      assert NonBlank(chunks[0]);
      assert forall i :: 0 <= i < |chunks| - 1 ==> chunks[1..][i] == chunks[i + 1];
      KeepAll(chunks[1..]);
    }
  }

  lemma {:induction false} SlicesCount(words: seq<string>, start: nat, chunkSize: int, step: int)
    requires 0 < step
    ensures |Slices(words, start, chunkSize, step)| == WindowCount(|words| - start, step)
    decreases |words| - start
  {
    if start < |words| {
      SlicesCount(words, start + step, chunkSize, step);
    }
  }

  /** Where window `k` starts when the first starts at `start`, advancing by `step`. */
  function WindowStart(start: int, step: int, k: nat): int
    decreases k
  {
    if k == 0 then start else WindowStart(start + step, step, k - 1)
  }

  lemma {:induction false} WindowStartIs(start: int, step: int, k: nat)
    ensures WindowStart(start, step, k) == start + k * step
    decreases k
  {
    if k > 0 {
      WindowStartIs(start + step, step, k - 1);
      assert step + (k - 1) * step == k * step;
    }
  }

  /** Slice `k` is the `slice` call at the `k`-th start, which lies inside the words. */
  lemma {:induction false} SlicesAt(words: seq<string>, start: nat, chunkSize: int, step: int, k: nat)
    requires 0 < step
    requires k < |Slices(words, start, chunkSize, step)|
    ensures var s := WindowStart(start, step, k);
      0 <= s < |words| && Slices(words, start, chunkSize, step)[k] == JsSlice(words, s, s + chunkSize)
    decreases k
  {
    var rest := Slices(words, start + step, chunkSize, step);
    assert Slices(words, start, chunkSize, step) == [JsSlice(words, start, start + chunkSize)] + rest;
    if k > 0 {
      SlicesAt(words, start + step, chunkSize, step, k - 1);
      assert Slices(words, start, chunkSize, step)[k] == rest[k - 1];
    }
  }

  /** From a position inside the words, a positive-length `slice` takes the
      words from there up to `chunkSize` later, or to the end. */
  lemma SliceInside(words: seq<string>, s: int, chunkSize: int)
    requires 0 <= s < |words| && 0 < chunkSize
    ensures JsSlice(words, s, s + chunkSize) == words[s..Min(s + chunkSize, |words|)]
  {
  }

  /** Window `k` of the words, as a plain slice: from `k * step` on. */
  lemma WindowAt(words: seq<string>, chunkSize: int, step: int, k: nat)
    requires 0 < chunkSize && 0 < step
    requires k < |Slices(words, 0, chunkSize, step)|
    ensures var s := k * step;
      0 <= s < |words| && Slices(words, 0, chunkSize, step)[k] == words[s..Min(s + chunkSize, |words|)]
  {
    SlicesAt(words, 0, chunkSize, step, k);
    WindowStartIs(0, step, k);
    SliceInside(words, k * step, chunkSize);
  }

  /** A run of words taken from words is words. */
  lemma AllWordsSlice(words: seq<string>, a: int, b: int)
    requires AllWords(words) && 0 <= a <= b <= |words|
    ensures AllWords(words[a..b])
  {
    forall i | 0 <= i < b - a ensures IsWord(words[a..b][i]) { assert words[a..b][i] == words[a + i]; }
  }

  /** Over words, with a positive chunk size, every joined window is non-blank. */
  lemma WindowNonBlank(words: seq<string>, chunkSize: int, step: int, k: nat)
    requires AllWords(words) && 0 < chunkSize && 0 < step
    requires k < |Slices(words, 0, chunkSize, step)|
    ensures NonBlank(JoinAll(Slices(words, 0, chunkSize, step))[k])
  {
    var slices := Slices(words, 0, chunkSize, step);
    WindowAt(words, chunkSize, step, k);
    JoinAllAt(slices, k);
    AllWordsSlice(words, k * step, Min(k * step + chunkSize, |words|));
    JoinOfWordsNonBlank(slices[k]);
  }

  /** Over the words of a text the trim guard drops nothing: the chunks are
      the joined windows. */
  lemma ChunksAreWindows(text: string, chunkSize: int, overlap: int)
    requires 0 < chunkSize && overlap < chunkSize
    ensures Chunks(text, chunkSize, overlap) == JoinAll(Slices(Words(text), 0, chunkSize, chunkSize - overlap))
  {
    var words, step := Words(text), chunkSize - overlap;
    var joined := JoinAll(Slices(words, 0, chunkSize, step));
    WordsAreWords(text);
    forall k | 0 <= k < |joined| ensures NonBlank(joined[k]) {
      WindowNonBlank(words, chunkSize, step, k);
    }
    KeepAll(joined);
  }

  // ---------------------------------------------------------------- chunkText properties

  /** Over a text, `chunkText` makes one chunk per stride that starts inside the text. */
  lemma ChunkWindowCount(text: string, chunkSize: int, overlap: int)
    requires 0 < chunkSize && overlap < chunkSize
    ensures |Chunks(text, chunkSize, overlap)| == WindowCount(|Words(text)|, chunkSize - overlap)
  {
    var slices := Slices(Words(text), 0, chunkSize, chunkSize - overlap);
    ChunksAreWindows(text, chunkSize, overlap);
    SlicesCount(Words(text), 0, chunkSize, chunkSize - overlap);
  }

  /** `chunkText` returns ceil(n / (chunkSize - overlap)) chunks for n words. */
  lemma ChunkCount(text: string, chunkSize: int, overlap: int)
    requires 0 < chunkSize && overlap < chunkSize
    ensures var step := chunkSize - overlap;
      |Chunks(text, chunkSize, overlap)| == (|Words(text)| + step - 1) / step
  {
    ChunkWindowCount(text, chunkSize, overlap);
    WindowCountIsCeiling(|Words(text)|, chunkSize - overlap);
  }

  lemma WindowCountIsCeiling(n: nat, step: int)
    requires 0 < step
    ensures WindowCount(n, step) == (n + step - 1) / step
  {
    if n > 0 {
      WindowCountBounds(n, step);
      DivideExactly(n + step - 1, step, WindowCount(n, step));
    } else {
      DivideExactly(n + step - 1, step, 0);
    }
  }

  /** Chunk `k` is the words from `k * (chunkSize - overlap)` up to `chunkSize`
      further (or to the end), joined by single spaces. */
  lemma ChunkAt(text: string, chunkSize: int, overlap: int, k: int)
    requires 0 < chunkSize && overlap < chunkSize
    requires 0 <= k < |Chunks(text, chunkSize, overlap)|
    ensures var w, s := Words(text), k * (chunkSize - overlap);
      0 <= s < |w| && Chunks(text, chunkSize, overlap)[k] == Join(w[s..Min(s + chunkSize, |w|)], " ")
  {
    var slices := Slices(Words(text), 0, chunkSize, chunkSize - overlap);
    ChunksAreWindows(text, chunkSize, overlap);
    JoinAllAt(slices, k);
    WindowAt(Words(text), chunkSize, chunkSize - overlap, k);
  }

  /** Splitting chunk `k` gives its words back: between 1 and `chunkSize` of them. */
  lemma ChunkWords(text: string, chunkSize: int, overlap: int, k: int)
    requires 0 < chunkSize && overlap < chunkSize
    requires 0 <= k < |Chunks(text, chunkSize, overlap)|
    ensures var w, s := Words(text), k * (chunkSize - overlap);
      0 <= s < |w| &&
      Words(Chunks(text, chunkSize, overlap)[k]) == w[s..Min(s + chunkSize, |w|)] &&
      1 <= |Words(Chunks(text, chunkSize, overlap)[k])| <= chunkSize
  {
    ChunkAt(text, chunkSize, overlap, k);
    WordsAreWords(text);
    var w, s := Words(text), k * (chunkSize - overlap);
    AllWordsSlice(w, s, Min(s + chunkSize, |w|));
    WordsOfJoin(w[s..Min(s + chunkSize, |w|)]);
  }

  /** Every chunk is non-empty and already trimmed, so the trim guard keeps it. */
  lemma ChunkTrimmed(text: string, chunkSize: int, overlap: int, k: int)
    requires 0 < chunkSize && overlap < chunkSize
    requires 0 <= k < |Chunks(text, chunkSize, overlap)|
    ensures var c := Chunks(text, chunkSize, overlap)[k]; c != "" && Trim(c) == c
  {
    ChunkAt(text, chunkSize, overlap, k);
    WordsAreWords(text);
    var w, s := Words(text), k * (chunkSize - overlap);
    AllWordsSlice(w, s, Min(s + chunkSize, |w|));
    JoinOfWordsTrimmed(w[s..Min(s + chunkSize, |w|)]);
  }

  /** A text yields no chunks exactly when it is empty or all white space. */
  lemma ChunksEmptyIff(text: string, chunkSize: int, overlap: int)
    requires 0 < chunkSize && overlap < chunkSize
    ensures Chunks(text, chunkSize, overlap) == [] <==> AllWhitespace(text)
  {
    WordsEmptyIff(text);
    ChunkWindowCount(text, chunkSize, overlap);
    if |Words(text)| > 0 {
      WindowCountBounds(|Words(text)|, chunkSize - overlap);
    }
  }

  /** When chunk `k` is full and another follows, its last `overlap` words are
      the next chunk's first `overlap` words. */
  lemma ChunkOverlap(text: string, chunkSize: int, overlap: int, k: int)
    requires 0 <= overlap < chunkSize
    requires 0 <= k && k + 1 < |Chunks(text, chunkSize, overlap)|
    requires k * (chunkSize - overlap) + chunkSize <= |Words(text)|
    ensures var cs := Chunks(text, chunkSize, overlap);
      |Words(cs[k])| == chunkSize && overlap <= |Words(cs[k + 1])| &&
      Words(cs[k])[chunkSize - overlap..] == Words(cs[k + 1])[..overlap]
  {
    var w, step := Words(text), chunkSize - overlap;
    ChunkWords(text, chunkSize, overlap, k);
    ChunkWords(text, chunkSize, overlap, k + 1);
    assert (k + 1) * step == k * step + step;
    WindowOverlap(w, k * step, chunkSize, step);
  }

  /** Two windows `step` apart share `chunkSize - step` items when the first is full. */
  lemma WindowOverlap<T>(w: seq<T>, s: int, chunkSize: int, step: int)
    requires 0 < step <= chunkSize && 0 <= s && s + chunkSize <= |w|
    ensures var a, b := w[s..Min(s + chunkSize, |w|)], w[s + step..Min(s + step + chunkSize, |w|)];
      |a| == chunkSize && chunkSize - step <= |b| && a[step..] == b[..chunkSize - step]
  {
    var a, b := w[s..Min(s + chunkSize, |w|)], w[s + step..Min(s + step + chunkSize, |w|)];
    forall i | 0 <= i < chunkSize - step ensures a[step..][i] == b[..chunkSize - step][i] {
      assert a[step + i] == w[s + step + i] == b[i];
    }
  }

  /** With a non-negative overlap every word is in some chunk: word `j` is in
      chunk `j / step`, `j % step` words after the chunk's first word. */
  lemma ChunkCoverage(text: string, chunkSize: int, overlap: int, j: int)
    requires 0 <= overlap < chunkSize
    requires 0 <= j < |Words(text)|
    ensures var step, cs := chunkSize - overlap, Chunks(text, chunkSize, overlap);
      var k := j / step;
      0 <= k < |cs| && 0 <= j - k * step < |Words(cs[k])| && Words(cs[k])[j - k * step] == Words(text)[j]
  {
    var w, step := Words(text), chunkSize - overlap;
    ChunkWindowCount(text, chunkSize, overlap);
    WindowOfPosition(j, |w|, step);
    var k := j / step;
    ChunkWords(text, chunkSize, overlap, k);
    WindowIndex(w, k * step, chunkSize, j - k * step);
  }

  lemma WindowIndex<T>(w: seq<T>, s: int, chunkSize: int, r: int)
    requires 0 <= s && 0 <= r < chunkSize && s + r < |w|
    ensures r < |w[s..Min(s + chunkSize, |w|)]| && w[s..Min(s + chunkSize, |w|)][r] == w[s + r]
  {
  }

  /** Position `j` of `n` lies `j % step` into window `j / step`, which exists. */
  lemma WindowOfPosition(j: int, n: int, step: int)
    requires 0 <= j < n && 0 < step
    ensures 0 <= j / step < WindowCount(n, step)
    ensures j == (j / step) * step + j % step && 0 <= j % step < step
  {
    WindowCountBounds(n, step);
    var count := WindowCount(n, step);
    if j / step >= count {
      MulMonotone(count, j / step, step);
    }
  }

  /** With a non-negative overlap the last chunk's window runs to the last
      word: by ChunkAt, the last chunk is the words from `s` to the end, joined. */
  lemma LastChunkReachesEnd(text: string, chunkSize: int, overlap: int)
    requires 0 <= overlap < chunkSize
    requires Chunks(text, chunkSize, overlap) != []
    ensures var s := (|Chunks(text, chunkSize, overlap)| - 1) * (chunkSize - overlap);
      0 <= s < |Words(text)| <= s + chunkSize
  {
    ChunkWindowCount(text, chunkSize, overlap);
    LastWindowEnd(|Words(text)|, chunkSize, overlap, |Chunks(text, chunkSize, overlap)| - 1);
  }

  /** The last of the windows over `n` positions starts inside and reaches position `n`. */
  lemma LastWindowEnd(n: int, chunkSize: int, overlap: int, last: int)
    requires 0 <= overlap < chunkSize && 0 <= last && last + 1 == WindowCount(n, chunkSize - overlap)
    ensures var s := last * (chunkSize - overlap); 0 <= s < n <= s + chunkSize
  {
    var step := chunkSize - overlap;
    WindowCountBounds(n, step);
    assert last * step + step == (last + 1) * step;
  }

  /** With the defaults 800 and 100, an 801-word text gives two chunks. */
  lemma EightHundredOneWords(text: string)
    requires |Words(text)| == 801
    ensures |Chunks(text, DefaultChunkSize, DefaultOverlap)| == 2
  {
    ChunkCount(text, DefaultChunkSize, DefaultOverlap);
  }

  /** With the defaults, a 1600-word text gives three chunks, starting at words
      0, 700 and 1400. */
  lemma SixteenHundredWords(text: string)
    requires |Words(text)| == 1600
    ensures var w, cs := Words(text), Chunks(text, DefaultChunkSize, DefaultOverlap);
      |cs| == 3 &&
      cs[0] == Join(w[0..800], " ") && cs[1] == Join(w[700..1500], " ") && cs[2] == Join(w[1400..1600], " ")
  {
    ChunkCount(text, DefaultChunkSize, DefaultOverlap);
    ChunkAt(text, DefaultChunkSize, DefaultOverlap, 0);
    ChunkAt(text, DefaultChunkSize, DefaultOverlap, 1);
    ChunkAt(text, DefaultChunkSize, DefaultOverlap, 2);
  }

  // ---------------------------------------------------------------- generateEmbedding

  /** A loaded feature-extraction pipeline; inference may throw (`None`). */
  class EmbeddingModel {
    const infer: string -> Option<Vector>

    constructor (infer: string -> Option<Vector>)
      ensures this.infer == infer
    {
      this.infer := infer;
    }
  }

  /** The module-level `embedder` variable of lib/embedding.js. */
  class EmbeddingCache {
    var embedder: EmbeddingModel?

    constructor ()
      ensures embedder == null
    {
      embedder := null;
    }

    /** `generateEmbedding(text)`. `load` is what loading the model would give
        if it is attempted on this call (`None`: loading throws). The model is
        loaded at most once; once loaded, later calls reuse it and ignore `load`. */
    method GenerateEmbedding(text: string, load: Option<string -> Option<Vector>>) returns (r: Option<Vector>)
      modifies this
      ensures old(embedder) != null ==> embedder == old(embedder) && r == embedder.infer(text)
      ensures old(embedder) == null && load.None? ==> embedder == null && r == None
      ensures old(embedder) == null && load.Some? ==>
        embedder != null && fresh(embedder) && embedder.infer == load.value && r == load.value(text)
    {
      if embedder == null {
        if load.None? {
          return None;
        }
        embedder := new EmbeddingModel(load.value);
      }
      r := embedder.infer(text);
    }
  }
}
