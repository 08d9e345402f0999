/**
 * The JavaScript string operations the pipeline relies on: the white-space
 * class shared by the regular expression `\s` and `String.prototype.trim`,
 * `trim`, `text.split(/\s+/).filter(w => w.length > 0)`, `Array.prototype.join`,
 * `endsWith` and `substring(0, n)`.
 */
module JsText {

  /** The characters `\s` matches and `trim` removes: WhiteSpace and LineTerminator. */
  const Whitespace: set<char> := {
    '\t', '\n', '\U{B}', '\U{C}', '\r', ' ', '\U{A0}', '\U{1680}',
    '\U{2000}', '\U{2001}', '\U{2002}', '\U{2003}', '\U{2004}', '\U{2005}',
    '\U{2006}', '\U{2007}', '\U{2008}', '\U{2009}', '\U{200A}',
    '\U{2028}', '\U{2029}', '\U{202F}', '\U{205F}', '\U{3000}', '\U{FEFF}'
  }

  predicate IsWhitespace(c: char) {
    c in Whitespace
  }

  predicate AllWhitespace(s: string) {
    forall i :: 0 <= i < |s| ==> IsWhitespace(s[i])
  }

  /** A word: a non-empty run of characters none of which is white space. */
  predicate IsWord(w: string) {
    |w| > 0 && forall i :: 0 <= i < |w| ==> !IsWhitespace(w[i])
  }

  predicate AllWords(ws: seq<string>) {
    forall i :: 0 <= i < |ws| ==> IsWord(ws[i])
  }

  function Min(a: int, b: int): int {
    if a <= b then a else b
  }

  // ---------------------------------------------------------------- trim

  /** Drops leading white space. */
  function TrimStart(s: string): (r: string)
    ensures |r| <= |s| && r == s[|s| - |r|..]
    ensures r != [] ==> !IsWhitespace(r[0])
    ensures forall i :: 0 <= i < |s| - |r| ==> IsWhitespace(s[i])
  {
    if s != [] && IsWhitespace(s[0]) then TrimStart(s[1..]) else s
  }

  /** Drops trailing white space. */
  function TrimEnd(s: string): (r: string)
    ensures |r| <= |s| && r == s[..|r|]
    ensures r != [] ==> !IsWhitespace(r[|r| - 1])
    ensures forall i :: |r| <= i < |s| ==> IsWhitespace(s[i])
  {
    if s != [] && IsWhitespace(s[|s| - 1]) then TrimEnd(s[..|s| - 1]) else s
  }

  /** `s.trim()`: what is left is empty exactly when `s` is all white space,
      and otherwise starts and ends with a character that is not. */
  function Trim(s: string): (r: string)
    ensures r == [] <==> AllWhitespace(s)
    ensures r != [] ==> !IsWhitespace(r[0]) && !IsWhitespace(r[|r| - 1])
    ensures |r| <= |s|
  {
    var t := TrimStart(s);
    var r := TrimEnd(t);
    assert r == [] ==> AllWhitespace(s) by {
      if r == [] {
        forall i | 0 <= i < |s| ensures IsWhitespace(s[i]) {
          if i >= |s| - |t| {
            assert s[i] == t[i - (|s| - |t|)];
          }
        }
      }
    }
    r
  }

  /** `trim` removes exactly the leading and the trailing white space: what is
      left is the middle of `s`, with only white space before and after it. */
  lemma TrimSlice(s: string)
    ensures exists i, j :: 0 <= i <= j <= |s| && Trim(s) == s[i..j] && AllWhitespace(s[..i]) && AllWhitespace(s[j..])
  {
    var t := TrimStart(s);
    var r := TrimEnd(t);
    var i := |s| - |t|;
    var j := i + |r|;
    TrimStartPrefix(s);
    TrimEndSuffix(t);
    assert t == s[i..];
    assert s[i..j] == r && s[j..] == t[|r|..] by {
      assert s[i..j] == t[..|r|] && s[j..] == t[|r|..];
    }
    assert 0 <= i <= j <= |s| && Trim(s) == s[i..j] && AllWhitespace(s[..i]) && AllWhitespace(s[j..]);
  }

  /** What `TrimStart` drops is white space. */
  lemma TrimStartPrefix(s: string)
    ensures AllWhitespace(s[..|s| - |TrimStart(s)|])
  {
    var before := s[..|s| - |TrimStart(s)|];
    forall k | 0 <= k < |before| ensures IsWhitespace(before[k]) {
      assert before[k] == s[k];
    }
  }

  /** What `TrimEnd` drops is white space. */
  lemma TrimEndSuffix(t: string)
    ensures AllWhitespace(t[|TrimEnd(t)|..])
  {
    var n := |TrimEnd(t)|;
    var after := t[n..];
    forall k | 0 <= k < |after| ensures IsWhitespace(after[k]) {
      assert after[k] == t[n + k];
    }
  }

  /** A string that starts and ends with non-white space is its own trim. */
  lemma TrimIdentity(s: string)
    requires s != [] && !IsWhitespace(s[0]) && !IsWhitespace(s[|s| - 1])
    ensures Trim(s) == s
  {
    assert TrimStart(s) == s;
    assert TrimEnd(s) == s;
  }

  /** Whether some character of `s` is not white space, i.e. `s.trim().length > 0`
      (NonBlankIff); the recursive form keeps the solver from unfolding `trim`. */
  function NonBlank(s: string): bool {
    s != [] && (!IsWhitespace(s[0]) || NonBlank(s[1..]))
  }

  lemma {:induction false} NonBlankIff(s: string)
    ensures NonBlank(s) <==> |Trim(s)| > 0
  {
    NonBlankNotAllWhitespace(s);
  }

  lemma {:induction false} NonBlankNotAllWhitespace(s: string)
    ensures NonBlank(s) <==> !AllWhitespace(s)
  {
    if s != [] {
      NonBlankNotAllWhitespace(s[1..]);
      if IsWhitespace(s[0]) && AllWhitespace(s[1..]) {
        forall i | 0 <= i < |s| ensures IsWhitespace(s[i]) {
          if i > 0 { assert s[i] == s[1..][i - 1]; }
        }
      }
      if !IsWhitespace(s[0]) {
        assert !AllWhitespace(s);
      }
      if !AllWhitespace(s[1..]) {
        var i :| 0 <= i < |s[1..]| && !IsWhitespace(s[1..][i]);
        assert s[i + 1] == s[1..][i];
      }
    }
  }

  // ---------------------------------------------------------------- split

  /** Length of the leading run of non-white-space characters. */
  function RunLength(s: string): (k: nat)
    ensures k <= |s|
    ensures forall i :: 0 <= i < k ==> !IsWhitespace(s[i])
    ensures k < |s| ==> IsWhitespace(s[k])
  {
    if s == [] || IsWhitespace(s[0]) then 0 else 1 + RunLength(s[1..])
  }

  /** `text.split(/\s+/).filter(word => word.length > 0)`: the maximal runs of
      non-white-space characters, in order. */
  function Words(s: string): seq<string>
    decreases |s|
  {
    if s == [] then []
    else if IsWhitespace(s[0]) then Words(s[1..])
    else
      var k := RunLength(s);
      [s[..k]] + Words(s[k..])
  }

  /** Every piece `Words` returns is a non-empty run of non-white space. */
  lemma {:induction false} WordsAreWords(s: string)
    ensures AllWords(Words(s))
    decreases |s|
  {
    if s != [] {
      if IsWhitespace(s[0]) {
        WordsAreWords(s[1..]);
      } else {
        var k := RunLength(s);
        WordsAreWords(s[k..]);
        var ws := Words(s);
        assert ws == [s[..k]] + Words(s[k..]);
        forall i | 0 <= i < |ws| ensures IsWord(ws[i]) {
          if i > 0 { assert ws[i] == Words(s[k..])[i - 1]; }
        }
      }
    }
  }

  /** `gaps[0] + words[0] + gaps[1] + ... + words[n - 1] + gaps[n]`. */
  function Interleave(gaps: seq<string>, words: seq<string>): string
    requires |gaps| == |words| + 1
    decreases |words|
  {
    if words == [] then gaps[0] else gaps[0] + words[0] + Interleave(gaps[1..], words[1..])
  }

  /** White-space gaps, not empty between two words. */
  predicate Separators(gaps: seq<string>) {
    (forall k :: 0 <= k < |gaps| ==> AllWhitespace(gaps[k])) &&
    (forall k :: 0 < k < |gaps| - 1 ==> gaps[k] != [])
  }

  /** The words are the maximal runs of non-white space of `s`: `s` is its
      words, in order, separated by non-empty white space and surrounded by
      (possibly empty) white space, so no character is lost or moved. */
  lemma {:induction false} WordsSplit(s: string)
    ensures exists gaps :: |gaps| == |Words(s)| + 1 && Separators(gaps) && Interleave(gaps, Words(s)) == s
    decreases |s|
  {
    if s == [] {
      assert Interleave([""], Words(s)) == s;
    } else if IsWhitespace(s[0]) {
      WordsSplit(s[1..]);
      var g :| |g| == |Words(s[1..])| + 1 && Separators(g) && Interleave(g, Words(s[1..])) == s[1..];
      SplitAfterSpace(s, g);
      var gaps := [[s[0]] + g[0]] + g[1..];
      assert |gaps| == |Words(s)| + 1 && Separators(gaps) && Interleave(gaps, Words(s)) == s;
    } else {
      var rest := s[RunLength(s)..];
      WordsSplit(rest);
      var g :| |g| == |Words(rest)| + 1 && Separators(g) && Interleave(g, Words(rest)) == rest;
      SplitAfterWord(s, g);
      var gaps := [""] + g;
      assert |gaps| == |Words(s)| + 1 && Separators(gaps) && Interleave(gaps, Words(s)) == s;
    }
  }

  /** The step of WordsSplit for a string that starts with white space. */
  lemma SplitAfterSpace(s: string, g: seq<string>)
    requires s != [] && IsWhitespace(s[0])
    requires |g| == |Words(s[1..])| + 1 && Separators(g) && Interleave(g, Words(s[1..])) == s[1..]
    ensures var gaps := [[s[0]] + g[0]] + g[1..];
      |gaps| == |Words(s)| + 1 && Separators(gaps) && Interleave(gaps, Words(s)) == s
  {
    var ws := Words(s[1..]);
    assert Words(s) == ws;
    GapAfterSpace(s[0], g, ws);
    assert s == [s[0]] + s[1..];
  }

  /** The step of WordsSplit for a string that starts with a word. */
  lemma SplitAfterWord(s: string, g: seq<string>)
    requires s != [] && !IsWhitespace(s[0])
    requires var rest := s[RunLength(s)..];
      |g| == |Words(rest)| + 1 && Separators(g) && Interleave(g, Words(rest)) == rest
    ensures var gaps := [""] + g;
      |gaps| == |Words(s)| + 1 && Separators(gaps) && Interleave(gaps, Words(s)) == s
  {
    var k := RunLength(s);
    var rest := s[k..];
    var ws := Words(rest);
    assert Words(s) == [s[..k]] + ws;
    WordsAreWords(rest);
    GapBeforeWord(s[..k], g, ws, rest);
    assert s == s[..k] + rest;
  }

  /** One more leading white-space character joins the first gap. */
  lemma GapAfterSpace(c: char, g: seq<string>, ws: seq<string>)
    requires IsWhitespace(c) && |g| == |ws| + 1 && Separators(g)
    ensures var gaps := [[c] + g[0]] + g[1..];
      |gaps| == |ws| + 1 && Separators(gaps) && Interleave(gaps, ws) == [c] + Interleave(g, ws)
  {
    var gaps := [[c] + g[0]] + g[1..];
    if ws != [] {
      assert gaps[1..] == g[1..];
      var tail := Interleave(g[1..], ws[1..]);
      assert Interleave(gaps, ws) == [c] + g[0] + ws[0] + tail;
      assert Interleave(g, ws) == g[0] + ws[0] + tail;
    }
    forall k | 0 <= k < |gaps| ensures AllWhitespace(gaps[k]) {
      if k == 0 {
        forall i | 0 <= i < |gaps[0]| ensures IsWhitespace(gaps[0][i]) {
          if i > 0 { assert gaps[0][i] == g[0][i - 1]; }
        }
      } else {
        assert gaps[k] == g[k];
      }
    }
    forall k | 0 < k < |gaps| - 1 ensures gaps[k] != [] {
      assert gaps[k] == g[k];
    }
  }

  /** A word in front of a split text that starts with white space (or is
      empty) opens the split with an empty gap. */
  lemma GapBeforeWord(w: string, g: seq<string>, ws: seq<string>, rest: string)
    requires IsWord(w) && AllWords(ws) && |g| == |ws| + 1 && Separators(g) && Interleave(g, ws) == rest
    requires rest != [] ==> IsWhitespace(rest[0])
    ensures var gaps := [""] + g;
      |gaps| == |[w] + ws| + 1 && Separators(gaps) && Interleave(gaps, [w] + ws) == w + rest
  {
    var gaps := [""] + g;
    var words := [w] + ws;
    assert words[1..] == ws && gaps[1..] == g;
    assert Interleave(gaps, words) == gaps[0] + words[0] + Interleave(g, ws);
    assert gaps[0] + words[0] == w;
    FirstGapNonEmpty(g, ws, rest);
    EmptyGapSeparators(g);
  }

  /** Before a first word the first gap is empty only when the text does
      not start with white space. */
  lemma FirstGapNonEmpty(g: seq<string>, ws: seq<string>, rest: string)
    requires AllWords(ws) && |g| == |ws| + 1 && Interleave(g, ws) == rest
    requires rest != [] ==> IsWhitespace(rest[0])
    ensures ws != [] ==> g[0] != []
  {
    if ws != [] && g[0] == [] {
      assert false;
    }
  }

  /** An empty gap may open a split whose first gap is non-empty. */
  lemma EmptyGapSeparators(g: seq<string>)
    requires Separators(g) && (|g| > 1 ==> g[0] != [])
    ensures Separators([""] + g)
  {
    var gaps := [""] + g;
    forall j | 0 <= j < |gaps| ensures AllWhitespace(gaps[j]) {
      if j > 0 { assert gaps[j] == g[j - 1]; }
    }
    forall j | 0 < j < |gaps| - 1 ensures gaps[j] != [] {
      assert gaps[j] == g[j - 1];
    }
  }

  // ---------------------------------------------------------------- join

  /** `ws.join(sep)`. */
  function Join(ws: seq<string>, sep: string): string {
    if |ws| == 0 then ""
    else if |ws| == 1 then ws[0]
    else ws[0] + sep + Join(ws[1..], sep)
  }

  /** Joining one more string appends the separator and the string. */
  lemma {:induction false} JoinSnoc(ws: seq<string>, w: string, sep: string)
    requires ws != []
    ensures Join(ws + [w], sep) == Join(ws, sep) + sep + w
  {
    if |ws| == 1 {
      assert ws + [w] == [ws[0], w];
    } else {
      assert (ws + [w])[1..] == ws[1..] + [w];
      JoinSnoc(ws[1..], w, sep);
    }
  }

  /** `substring(0, n) + "..."`, the preview form the routes report. */
  function Preview(s: string, n: nat): (r: string)
    ensures |r| == Min(n, |s|) + 3
    ensures r[..|r| - 3] == s[..Min(n, |s|)] && r[|r| - 3..] == "..."
  {
    s[..Min(n, |s|)] + "..."
  }

  predicate EndsWith(s: string, suffix: string) {
    |suffix| <= |s| && s[|s| - |suffix|..] == suffix
  }

  // ---------------------------------------------------------------- lemmas

  /** The words of a string are empty exactly when the string is all white space. */
  lemma {:induction false} WordsEmptyIff(s: string)
    ensures Words(s) == [] <==> AllWhitespace(s)
    decreases |s|
  {
    if s != [] && IsWhitespace(s[0]) {
      WordsEmptyIff(s[1..]);
      assert AllWhitespace(s) <==> AllWhitespace(s[1..]) by {
        if AllWhitespace(s[1..]) {
          forall i | 0 <= i < |s| ensures IsWhitespace(s[i]) {
            if i > 0 { assert s[i] == s[1..][i - 1]; }
          }
        }
      }
    }
  }

  /** A word followed by white space (or nothing) is split off as one word. */
  lemma LeadingWord(w: string, t: string)
    requires IsWord(w)
    requires t == [] || IsWhitespace(t[0])
    ensures Words(w + t) == [w] + Words(t)
  {
    var s := w + t;
    var k := RunLength(s);
    assert forall i :: 0 <= i < |w| ==> s[i] == w[i];
    assert |w| < |s| ==> s[|w|] == t[0];
    assert k == |w|;
    assert s[..k] == w && s[k..] == t;
  }

  /** Splitting words joined by single spaces gives the words back. */
  lemma {:induction false} WordsOfJoin(ws: seq<string>)
    requires AllWords(ws)
    ensures Words(Join(ws, " ")) == ws
  {
    if |ws| == 0 {
    } else if |ws| == 1 {
      LeadingWord(ws[0], []);
      assert ws[0] + [] == ws[0];
    } else {
      var rest := Join(ws[1..], " ");
      assert AllWords(ws[1..]) by {
        forall i | 0 <= i < |ws| - 1 ensures IsWord(ws[1..][i]) { assert ws[1..][i] == ws[i + 1]; }
      }
      WordsOfJoin(ws[1..]);
      LeadingWord(ws[0], " " + rest);
      assert ws[0] + " " + rest == ws[0] + (" " + rest);
      assert (" " + rest)[1..] == rest;
      assert [ws[0]] + ws[1..] == ws;
    }
  }

  /** Words joined by single spaces start and end with a word character. */
  lemma {:induction false} JoinOfWordsEnds(ws: seq<string>)
    requires ws != [] && AllWords(ws)
    ensures var s := Join(ws, " ");
      s != [] && s[0] == ws[0][0] && s[|s| - 1] == ws[|ws| - 1][|ws[|ws| - 1]| - 1]
  {
    if |ws| > 1 {
      assert AllWords(ws[1..]) by {
        forall i | 0 <= i < |ws| - 1 ensures IsWord(ws[1..][i]) { assert ws[1..][i] == ws[i + 1]; }
      }
      JoinOfWordsEnds(ws[1..]);
    }
  }

  /** Words joined by single spaces are their own trim and are not empty. */
  lemma JoinOfWordsTrimmed(ws: seq<string>)
    requires ws != [] && AllWords(ws)
    ensures Join(ws, " ") != [] && Trim(Join(ws, " ")) == Join(ws, " ")
  {
    JoinOfWordsEnds(ws);
    TrimIdentity(Join(ws, " "));
  }

  /** Words joined by single spaces are not blank. */
  lemma JoinOfWordsNonBlank(ws: seq<string>)
    requires ws != [] && AllWords(ws)
    ensures NonBlank(Join(ws, " "))
  {
    JoinOfWordsEnds(ws);
  }
}
