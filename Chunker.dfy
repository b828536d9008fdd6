/** The text chunker of the upload path (`DocumentUtils.splitText`): the extracted text is
    normalised (runs of whitespace collapsed to one space, then trimmed) and cut into
    overlapping windows of `chunkSize` characters that advance by `chunkSize - overlap`. */
module Chunker {
  import opened Wrappers

  /** The characters Java's regular-expression class `\s` matches: the space, and tab, line
      feed, vertical tab, form feed and carriage return, which are U+0009 to U+000D. */
  predicate IsRegexSpace(c: char)
  {
    c == ' ' || '\t' <= c <= '\r'
  }

  /** The characters `String.trim` removes: every code point up to and including U+0020. */
  predicate IsTrimmable(c: char)
  {
    c <= ' '
  }

  /** The characters of `s` that are not whitespace, in order. */
  function NonSpace(s: string): string
  {
    if s == [] then []
    else if IsRegexSpace(s[0]) then NonSpace(s[1..])
    else [s[0]] + NonSpace(s[1..])
  }

  /** Drops the whitespace run at the head of `s`. */
  function SkipSpaces(s: string): (r: string)
    ensures |r| <= |s|
  {
    if s != [] && IsRegexSpace(s[0]) then SkipSpaces(s[1..]) else s
  }

  /** `s.replaceAll("\\s+", " ")`: every maximal whitespace run becomes one space. */
  function CollapseSpaces(s: string): string
    decreases |s|
  {
    if s == [] then []
    else if IsRegexSpace(s[0]) then [' '] + CollapseSpaces(SkipSpaces(s[1..]))
    else [s[0]] + CollapseSpaces(s[1..])
  }

  /** `SkipSpaces` removes exactly a leading whitespace run. */
  lemma {:induction false} SkipSpacesFacts(s: string)
    ensures var r := SkipSpaces(s);
      && r == s[|s| - |r|..]
      && (forall i :: 0 <= i < |s| - |r| ==> IsRegexSpace(s[i]))
      && (r == [] || !IsRegexSpace(r[0]))
      && NonSpace(r) == NonSpace(s)
  {
    if s != [] && IsRegexSpace(s[0]) {
      SkipSpacesFacts(s[1..]);
    }
  }

  /** No whitespace but plain spaces, and never two spaces in a row. */
  predicate SingleSpaced(r: string)
  {
    && (forall i :: 0 <= i < |r| && IsRegexSpace(r[i]) ==> r[i] == ' ')
    && (forall i, j :: 0 <= i && j == i + 1 < |r| && r[i] == ' ' ==> r[j] != ' ')
  }

  /** A piece of a single-spaced text is single-spaced. */
  lemma SingleSpacedInfix(s: string, lo: nat, hi: nat)
    requires lo <= hi <= |s| && SingleSpaced(s)
    ensures SingleSpaced(s[lo..hi])
  {
    var c := s[lo..hi];
    forall j, k | 0 <= j && k == j + 1 < |c| && c[j] == ' '
      ensures c[k] != ' '
    {
      assert c[j] == s[lo + j] && c[k] == s[lo + k];
    }
    forall j | 0 <= j < |c| && IsRegexSpace(c[j])
      ensures c[j] == ' '
    {
      assert c[j] == s[lo + j];
    }
  }

  /** What collapsing guarantees: the result holds no whitespace but plain spaces, never two
      spaces in a row, is empty only for empty input, starts with a space exactly when the
      input starts with whitespace, and keeps every other character in order. */
  lemma {:induction false} CollapseSpacesShape(s: string)
    ensures var r := CollapseSpaces(s);
      && (r == [] <==> s == [])
      && (s != [] ==> (r[0] == ' ' <==> IsRegexSpace(s[0])))
      && SingleSpaced(r)
      && NonSpace(r) == NonSpace(s)
    decreases |s|
  {
    if s != [] {
      var r := CollapseSpaces(s);
      var rest, tail;
      if IsRegexSpace(s[0]) {
        rest := SkipSpaces(s[1..]);
        SkipSpacesFacts(s[1..]);
      } else {
        rest := s[1..];
      }
      CollapseSpacesShape(rest);
      tail := CollapseSpaces(rest);
      assert r == [r[0]] + tail;
      forall i, j | 0 <= i && j == i + 1 < |r| && r[i] == ' '
        ensures r[j] != ' '
      {
        if i > 0 {
          assert r[i] == tail[i - 1] && r[j] == tail[j - 1];
        }
      }
      forall i | 0 <= i < |r| && IsRegexSpace(r[i])
        ensures r[i] == ' '
      {
        if i > 0 {
          assert r[i] == tail[i - 1];
        }
      }
    }
  }

  /** Skipping a whitespace run does not reach into `b` unless all of `x` was skipped and
      `b` starts with whitespace. */
  lemma {:induction false} SkipSpacesAppend(x: string, b: string)
    requires SkipSpaces(x) != [] || b == [] || !IsRegexSpace(b[0])
    ensures SkipSpaces(x + b) == SkipSpaces(x) + b
  {
    if x != [] && IsRegexSpace(x[0]) {
      assert (x + b)[1..] == x[1..] + b;
      SkipSpacesAppend(x[1..], b);
    } else if x == [] {
      assert x + b == b;
    }
  }

  /** Collapsing works piece by piece when the seam does not fall inside a whitespace run. */
  lemma {:induction false} CollapseSpacesJoin(a: string, b: string)
    requires a == [] || b == [] || !IsRegexSpace(a[|a| - 1]) || !IsRegexSpace(b[0])
    ensures CollapseSpaces(a + b) == CollapseSpaces(a) + CollapseSpaces(b)
    decreases |a|, 1
  {
    if a == [] {
      assert a + b == b;
    } else if IsRegexSpace(a[0]) {
      CollapseJoinSpaceHead(a, b);
    } else {
      CollapseJoinCharHead(a, b);
    }
  }

  /** `CollapseSpacesJoin` for a text `a` that starts with whitespace. */
  lemma {:induction false} CollapseJoinSpaceHead(a: string, b: string)
    requires a != [] && IsRegexSpace(a[0])
    requires b == [] || !IsRegexSpace(a[|a| - 1]) || !IsRegexSpace(b[0])
    ensures CollapseSpaces(a + b) == CollapseSpaces(a) + CollapseSpaces(b)
    decreases |a|, 0
  {
    var rest := SkipRunBeforeJoin(a, b);
    calc {
      CollapseSpaces(a + b);
      { assert (a + b)[0] == a[0] && (a + b)[1..] == a[1..] + b; }
      [' '] + CollapseSpaces(rest + b);
      { CollapseSpacesJoin(rest, b); }
      [' '] + (CollapseSpaces(rest) + CollapseSpaces(b));
      ([' '] + CollapseSpaces(rest)) + CollapseSpaces(b);
      CollapseSpaces(a) + CollapseSpaces(b);
    }
  }

  /** `CollapseSpacesJoin` for a text `a` that starts with another character. */
  lemma {:induction false} CollapseJoinCharHead(a: string, b: string)
    requires a != [] && !IsRegexSpace(a[0])
    requires b == [] || !IsRegexSpace(a[|a| - 1]) || !IsRegexSpace(b[0])
    ensures CollapseSpaces(a + b) == CollapseSpaces(a) + CollapseSpaces(b)
    decreases |a|, 0
  {
    var x := a[1..];
    if x != [] {
      assert x[|x| - 1] == a[|a| - 1];
    }
    calc {
      CollapseSpaces(a + b);
      { assert (a + b)[0] == a[0] && (a + b)[1..] == x + b; }
      [a[0]] + CollapseSpaces(x + b);
      { CollapseSpacesJoin(x, b); }
      [a[0]] + (CollapseSpaces(x) + CollapseSpaces(b));
      ([a[0]] + CollapseSpaces(x)) + CollapseSpaces(b);
      CollapseSpaces(a) + CollapseSpaces(b);
    }
  }

  /** The step of `CollapseSpacesJoin` for a text `a` that starts with whitespace: the run
      skipped after its head stays inside `a`, and what is left of `a` still meets `b` at a
      seam outside any run. */
  lemma SkipRunBeforeJoin(a: string, b: string) returns (rest: string)
    requires a != [] && IsRegexSpace(a[0])
    requires b == [] || !IsRegexSpace(a[|a| - 1]) || !IsRegexSpace(b[0])
    ensures rest == SkipSpaces(a[1..]) && |rest| < |a|
    ensures SkipSpaces(a[1..] + b) == rest + b
    ensures rest == [] || b == [] || !IsRegexSpace(rest[|rest| - 1]) || !IsRegexSpace(b[0])
  {
    var x := a[1..];
    SkipSpacesFacts(x);
    rest := SkipSpaces(x);
    if rest == [] && b != [] {
      if |a| > 1 {
        assert a[|a| - 1] == x[|x| - 1];
      }
    }
    SkipSpacesAppend(x, b);
    if rest != [] {
      assert rest[|rest| - 1] == x[|x| - 1] == a[|a| - 1];
    }
  }

  /** `w` is a non-empty run of whitespace: skipping leading whitespace leaves nothing. */
  predicate IsSpaceRun(w: string)
  {
    w != [] && SkipSpaces(w) == []
  }

  /** A run is whitespace at every position. */
  lemma SpaceRunAt(w: string)
    requires IsSpaceRun(w)
    ensures forall i :: 0 <= i < |w| ==> IsRegexSpace(w[i])
  {
    SkipSpacesFacts(w);
  }

  /** A whitespace run collapses to a single space. */
  lemma CollapseRun(w: string)
    requires IsSpaceRun(w)
    ensures CollapseSpaces(w) == [' ']
  {
    assert IsRegexSpace(w[0]) && SkipSpaces(w[1..]) == [];
  }

  /** A whitespace run followed by text that does not start with whitespace collapses to
      one space followed by that text collapsed. */
  lemma CollapseRunThen(w: string, v: string)
    requires IsSpaceRun(w)
    requires v == [] || !IsRegexSpace(v[0])
    ensures CollapseSpaces(w + v) == [' '] + CollapseSpaces(v)
  {
    CollapseRun(w);
    CollapseSpacesJoin(w, v);
  }

  /** A whitespace run between two other characters becomes exactly one space, and the text
      on either side is collapsed on its own: `"a \t\n b"` gives `"a b"`, never `"ab"`. */
  lemma CollapseRunBetween(u: string, w: string, v: string)
    requires u == [] || !IsRegexSpace(u[|u| - 1])
    requires IsSpaceRun(w)
    requires v == [] || !IsRegexSpace(v[0])
    ensures CollapseSpaces(u + w + v) == CollapseSpaces(u) + [' '] + CollapseSpaces(v)
  {
    calc {
      CollapseSpaces(u + w + v);
      { assert u + w + v == u + (w + v); }
      CollapseSpaces(u + (w + v));
      { assert (w + v)[0] == w[0]; CollapseSpacesJoin(u, w + v); }
      CollapseSpaces(u) + CollapseSpaces(w + v);
      { CollapseRunThen(w, v); }
      CollapseSpaces(u) + ([' '] + CollapseSpaces(v));
    }
  }



  /** Drops the trimmable characters at the head of `s`. */
  function TrimStart(s: string): (r: string)
    ensures |r| <= |s|
  {
    if s != [] && IsTrimmable(s[0]) then TrimStart(s[1..]) else s
  }

  /** Drops the trimmable characters at the tail of `s`. */
  function TrimEnd(s: string): (r: string)
    ensures |r| <= |s|
  {
    if s != [] && IsTrimmable(s[|s| - 1]) then TrimEnd(s[..|s| - 1]) else s
  }

  /** `String.trim`. */
  function Trim(s: string): string
  {
    TrimEnd(TrimStart(s))
  }

  lemma {:induction false} TrimStartFacts(s: string)
    ensures var r := TrimStart(s);
      && r == s[|s| - |r|..]
      && (forall i :: 0 <= i < |s| - |r| ==> IsTrimmable(s[i]))
      && (r == [] || !IsTrimmable(r[0]))
  {
    if s != [] && IsTrimmable(s[0]) {
      TrimStartFacts(s[1..]);
    }
  }

  lemma {:induction false} TrimEndFacts(s: string)
    ensures var r := TrimEnd(s);
      && r == s[..|r|]
      && (forall i :: |r| <= i < |s| ==> IsTrimmable(s[i]))
      && (r == [] || !IsTrimmable(r[|r| - 1]))
  {
    if s != [] && IsTrimmable(s[|s| - 1]) {
      TrimEndFacts(s[..|s| - 1]);
    }
  }

  /** What `String.trim` returns: the infix of `s` left after cutting the characters up to
      U+0020 from both ends; it neither starts nor ends with such a character, and everything
      cut off is one. */
  lemma TrimShape(s: string)
    ensures var r, i := Trim(s), |s| - |TrimStart(s)|;
      && (r == [] || (!IsTrimmable(r[0]) && !IsTrimmable(r[|r| - 1])))
      && i + |r| <= |s| && r == s[i..i + |r|]
      && (forall j :: 0 <= j < i ==> IsTrimmable(s[j]))
      && (forall j :: i + |r| <= j < |s| ==> IsTrimmable(s[j]))
  {
    var t := TrimStart(s);
    TrimStartFacts(s);
    TrimEndFacts(t);
    var r, i := Trim(s), |s| - |t|;
    if r != [] {
      assert r[0] == t[0];
    }
    forall j | i + |r| <= j < |s|
      ensures IsTrimmable(s[j])
    {
      assert s[j] == t[j - i];
    }
  }

  /** The text the chunker cuts: `text.replaceAll("\\s+", " ").trim()`. */
  function Normalize(text: string): string
  {
    Trim(CollapseSpaces(text))
  }

  /** A normalised text has no tab, newline or other whitespace but single spaces between
      words. */
  lemma NormalizeSpaces(text: string)
    ensures SingleSpaced(Normalize(text))
  {
    var s := CollapseSpaces(text);
    CollapseSpacesShape(text);
    TrimShape(s);
    var i := |s| - |TrimStart(s)|;
    SingleSpacedInfix(s, i, i + |Trim(s)|);
  }

  /** A normalised text neither starts nor ends with a space or control character. */
  lemma NormalizeTrimmed(text: string)
    ensures var c := Normalize(text);
      c == [] || (!IsTrimmable(c[0]) && !IsTrimmable(c[|c| - 1]))
  {
    TrimShape(CollapseSpaces(text));
  }

  /** Whitespace-only text normalises to the empty string, so it yields no chunk. */
  lemma BlankNormalizesToEmpty(text: string)
    requires forall i :: 0 <= i < |text| ==> IsRegexSpace(text[i])
    ensures Normalize(text) == []
  {
    if text != [] {
      SkipSpacesFacts(text[1..]);
      assert SkipSpaces(text[1..]) == [];
      assert CollapseSpaces(text) == [' '];
    }
  }

  /** The number of windows cut from a text of length `len`: none for empty text, one when
      the text fits one window, otherwise one more than for the text after the first step.
      `ChunkCountClosedForm` gives the closed form. */
  function ChunkCount(len: nat, size: nat, step: nat): nat
    requires 0 < step <= size
  {
    if len == 0 then 0
    else if len <= size then 1
    else 1 + ChunkCount(len - step, size, step)
  }

  /** Where window k starts: k steps of `step` from the beginning of the text. */
  function WindowStart(k: nat, step: nat): nat
  {
    if k == 0 then 0 else WindowStart(k - 1, step) + step
  }

  lemma {:induction false} WindowStartIsProduct(k: nat, step: nat)
    ensures WindowStart(k, step) == k * step
  {
    if k > 0 {
      WindowStartIsProduct(k - 1, step);
    }
  }

  lemma {:induction false} WindowStartMonotone(j: nat, k: nat, step: nat)
    requires j <= k
    ensures WindowStart(j, step) <= WindowStart(k, step)
    ensures j < k ==> WindowStart(j, step) + step <= WindowStart(k, step)
  {
    if j < k {
      WindowStartMonotone(j, k - 1, step);
    }
  }

  lemma DivExact(x: int, step: int, q: int)
    requires step > 0 && q * step <= x < q * step + step
    ensures x / step == q
  {
    var d, m := x / step, x % step;
    assert x == d * step + m && 0 <= m < step;
    if d < q {
      MulMonotone(d + 1, q, step);
    } else if d > q {
      MulMonotone(q + 1, d, step);
    }
  }

  lemma MulMonotone(a: int, b: int, step: int)
    requires a <= b && step >= 0
    ensures a * step <= b * step
  {
    assert b * step - a * step == (b - a) * step;
  }

  /** What the count of windows means: the last window starts inside the text and reaches
      its end, and the window before it stopped short of the end. */
  lemma {:induction false} ChunkCountBounds(len: nat, size: nat, step: nat)
    requires 0 < step <= size
    ensures var c := ChunkCount(len, size, step);
      && (c == 0 <==> len == 0)
      && (c > 0 ==> && WindowStart(c - 1, step) < len <= WindowStart(c - 1, step) + size
                    && (c >= 2 ==> WindowStart(c - 2, step) + size < len))
  {
    if len > size {
      ChunkCountBounds(len - step, size, step);
    }
  }

  /** A window count `c` with the two stopping facts of the loop is the count of windows. */
  lemma ChunkCountFromStop(len: nat, size: nat, step: nat, c: nat)
    requires 0 < step <= size && 0 < len && c >= 1
    requires len <= WindowStart(c - 1, step) + size
    requires c >= 2 ==> WindowStart(c - 2, step) + size < len
    ensures c == ChunkCount(len, size, step)
  {
    var n := ChunkCount(len, size, step);
    ChunkCountBounds(len, size, step);
    if c < n {
      WindowStartMonotone(c - 1, n - 2, step);
    } else if c > n {
      WindowStartMonotone(n - 1, c - 2, step);
    }
  }

  /** The count in closed form: 1 when 0 < L <= chunkSize, otherwise
      1 + ceil((L - chunkSize) / step). */
  lemma ChunkCountClosedForm(len: nat, size: nat, step: nat)
    requires 0 < step <= size
    ensures ChunkCount(len, size, step)
            == if len == 0 then 0 else if len <= size then 1 else 1 + (len - size + step - 1) / step
  {
    var c := ChunkCount(len, size, step);
    ChunkCountBounds(len, size, step);
    if len > size {
      assert c >= 2;
      WindowStartIsProduct(c - 1, step);
      WindowStartIsProduct(c - 2, step);
      assert (c - 1) * step == (c - 2) * step + step;
      DivExact(len - size + step - 1, step, c - 1);
    }
  }

  /** The window of at most `size` characters of `s` that starts at `start`. */
  function Window(s: string, start: nat, size: nat): (r: string)
    requires start <= |s|
    ensures |r| == Min(size, |s| - start)
  {
    s[start..Min(start + size, |s|)]
  }

  /** The first `n` windows of `s`, window k starting at `WindowStart(k, step)`. */
  function Windows(s: string, size: nat, step: nat, n: nat): (r: seq<string>)
    requires n == 0 || WindowStart(n - 1, step) <= |s|
    ensures |r| == n
  {
    if n == 0 then [] else Windows(s, size, step, n - 1) + [Window(s, WindowStart(n - 1, step), size)]
  }

  /** The chunks of the normalised text `clean`: as many windows of `size` as `ChunkCount`
      says, advancing by `size - overlap`. */
  function Chunks(clean: string, size: nat, overlap: nat): (r: seq<string>)
    requires overlap < size
    ensures |r| == ChunkCount(|clean|, size, size - overlap)
  {
    var step := size - overlap;
    ChunkCountBounds(|clean|, size, step);
    Windows(clean, size, step, ChunkCount(|clean|, size, step))
  }

  /** `DocumentUtils.splitText`: nothing for an empty text, otherwise the windows of the
      normalised text. */
  method SplitText(text: string, chunkSize: nat, overlap: nat) returns (chunks: seq<string>)
    requires overlap < chunkSize
    ensures chunks == Chunks(Normalize(text), chunkSize, overlap)
  {
    if |text| == 0 {
      assert Normalize(text) == [];
      return [];
    }
    var clean := Normalize(text);
    chunks := SlideWindow(clean, chunkSize, overlap);
  }

  /** The loop of `splitText` over `start`, appending one window per turn and stopping after
      the window that reaches the end. */
  method SlideWindow(clean: string, chunkSize: nat, overlap: nat) returns (chunks: seq<string>)
    requires overlap < chunkSize
    ensures chunks == Chunks(clean, chunkSize, overlap)
  {
    chunks := [];
    var length := |clean|;
    var start := 0;
    ghost var step := chunkSize - overlap;
    while start < length
      invariant start == WindowStart(|chunks|, step)
      invariant |chunks| > 0 ==> start < length
      invariant |chunks| > 0 ==> WindowStart(|chunks| - 1, step) + chunkSize < length
      invariant chunks == Windows(clean, chunkSize, step, |chunks|)
      decreases length - start
    {
      var end := Min(start + chunkSize, length);
      chunks := chunks + [clean[start..end]];
      if end == length {
        ChunkCountFromStop(length, chunkSize, step, |chunks|);
        return;
      }
      start := start + (chunkSize - overlap);
    }
  }

  lemma {:induction false} WindowsAt(s: string, size: nat, step: nat, n: nat, k: nat)
    requires n == 0 || WindowStart(n - 1, step) <= |s|
    requires k < n
    ensures WindowStart(k, step) <= WindowStart(n - 1, step)
    ensures Windows(s, size, step, n)[k] == Window(s, WindowStart(k, step), size)
  {
    if k < n - 1 {
      WindowsAt(s, size, step, n - 1, k);
    }
  }

  /** Chunk k is `clean[k*step .. min(k*step + size, |clean|)]`, and it starts inside the text
      (`WindowStart(k, step)` is `k*step`, see `WindowStartIsProduct`). */
  lemma ChunkAt(clean: string, size: nat, overlap: nat, k: nat)
    requires overlap < size && k < |Chunks(clean, size, overlap)|
    ensures WindowStart(k, size - overlap) < |clean|
    ensures Chunks(clean, size, overlap)[k] == clean[WindowStart(k, size - overlap) .. Min(WindowStart(k, size - overlap) + size, |clean|)]
  {
    var step := size - overlap;
    var n := ChunkCount(|clean|, size, step);
    ChunkCountBounds(|clean|, size, step);
    WindowsAt(clean, size, step, n, k);
  }

  /** Every chunk is non-empty and at most `size` characters long. */
  lemma ChunkLengths(clean: string, size: nat, overlap: nat)
    requires overlap < size
    ensures forall k :: 0 <= k < |Chunks(clean, size, overlap)| ==> 0 < |Chunks(clean, size, overlap)[k]| <= size
  {
    forall k | 0 <= k < |Chunks(clean, size, overlap)| {
      ChunkAt(clean, size, overlap, k);
    }
  }

  /** There are no chunks exactly when the normalised text is empty, and the text itself is
      the only chunk when it fits one window. */
  lemma ChunkCountCases(clean: string, size: nat, overlap: nat)
    requires overlap < size
    ensures |Chunks(clean, size, overlap)| == 0 <==> |clean| == 0
    ensures 0 < |clean| <= size ==> Chunks(clean, size, overlap) == [clean]
  {
    if 0 < |clean| <= size {
      ChunkAt(clean, size, overlap, 0);
      assert clean[0..|clean|] == clean;
    }
  }

  /** A chunk that is not the last is a full window that stops short of the end. */
  lemma ChunkFull(clean: string, size: nat, overlap: nat, k: nat)
    requires overlap < size && k + 1 < |Chunks(clean, size, overlap)|
    ensures |Chunks(clean, size, overlap)[k]| == size
    ensures WindowStart(k, size - overlap) + size < |clean|
  {
    var step, c := size - overlap, |Chunks(clean, size, overlap)|;
    ChunkCountBounds(|clean|, size, step);
    ChunkAt(clean, size, overlap, k);
    WindowStartMonotone(k, c - 2, step);
  }

  /** All chunks but the last are full windows; the last ends exactly at the end of the text. */
  lemma ChunkEnds(clean: string, size: nat, overlap: nat)
    requires overlap < size
    ensures var chunks := Chunks(clean, size, overlap);
      && (forall k :: 0 <= k < |chunks| - 1 ==> |chunks[k]| == size)
      && (|chunks| > 0 ==> WindowStart(|chunks| - 1, size - overlap) + |chunks[|chunks| - 1]| == |clean|)
  {
    var chunks := Chunks(clean, size, overlap);
    var c := |chunks|;
    forall k | 0 <= k < c - 1
      ensures |chunks[k]| == size
    {
      ChunkFull(clean, size, overlap, k);
    }
    if c > 0 {
      ChunkCountBounds(|clean|, size, size - overlap);
      ChunkAt(clean, size, overlap, c - 1);
    }
  }

  /** Chunk k+1 begins with the last `overlap` characters of chunk k. */
  lemma {:induction false} ChunkOverlap(clean: string, size: nat, overlap: nat, k: nat)
    requires overlap < size && k + 1 < |Chunks(clean, size, overlap)|
    ensures var chunks := Chunks(clean, size, overlap);
      && |chunks[k]| == size && overlap < |chunks[k + 1]|
      && chunks[k][size - overlap..] == chunks[k + 1][..overlap]
  {
    var step := size - overlap;
    var here, stop := ChunkSpan(clean, size, overlap, k);
    var next, nextStop := ChunkSpan(clean, size, overlap, k + 1);
    assert next == here + step;
    SliceOfSlice(clean, here, stop, step);
    SlicePrefix(clean, next, nextStop, overlap);
  }

  /** Every character of the normalised text lies in some chunk, at its offset from the
      chunk's start. */
  lemma {:induction false} ChunkCoverage(clean: string, size: nat, overlap: nat, i: nat)
    requires overlap < size && i < |clean|
    ensures var chunks, step := Chunks(clean, size, overlap), size - overlap;
      exists k :: && 0 <= k < |chunks|
                  && WindowStart(k, step) <= i < WindowStart(k, step) + |chunks[k]|
                  && chunks[k][i - WindowStart(k, step)] == clean[i]
  {
    var chunks := Chunks(clean, size, overlap);
    var step, c := size - overlap, |chunks|;
    ChunkCountBounds(|clean|, size, step);
    var k := CoveringWindow(i, step, c, |clean|, size);
    ChunkAt(clean, size, overlap, k);
    assert WindowStart(k, step) <= i < WindowStart(k, step) + |chunks[k]|;
  }

  /** The first window, among the first `c`, that reaches past position `i`. */
  lemma {:induction false} CoveringWindow(i: nat, step: nat, c: nat, len: nat, size: nat) returns (k: nat)
    requires 0 < step <= size && i < len && c > 0
    requires len <= WindowStart(c - 1, step) + size
    ensures k < c && WindowStart(k, step) <= i
    ensures i < Min(WindowStart(k, step) + size, len)
  {
    k := 0;
    while k < c - 1 && WindowStart(k + 1, step) <= i
      invariant k < c && WindowStart(k, step) <= i
      decreases c - k
    {
      k := k + 1;
    }
  }

  /** Gluing the chunks back together, each chunk after the first without its leading
      `overlap` characters. */
  function Reassemble(chunks: seq<string>, overlap: nat): string
  {
    Joined(chunks, |chunks|, overlap)
  }

  /** The first `m` chunks glued together. */
  function Joined(chunks: seq<string>, m: nat, overlap: nat): string
    requires m <= |chunks|
  {
    if m == 0 then []
    else if m == 1 then chunks[0]
    else Joined(chunks, m - 1, overlap) + chunks[m - 1][Min(overlap, |chunks[m - 1]|)..]
  }

  /** The chunking loses and duplicates nothing: dropping each overlap and concatenating the
      chunks gives back the normalised text. */
  lemma {:induction false} ReassembleChunks(clean: string, size: nat, overlap: nat)
    requires overlap < size
    ensures Reassemble(Chunks(clean, size, overlap), overlap) == clean
  {
    var chunks := Chunks(clean, size, overlap);
    var c := |chunks|;
    if c > 0 {
      ChunkEnds(clean, size, overlap);
      ReassemblePrefix(clean, size, overlap, c);
    } else {
      ChunkCountCases(clean, size, overlap);
    }
  }

  lemma {:induction false} ReassemblePrefix(clean: string, size: nat, overlap: nat, m: nat)
    requires overlap < size && 1 <= m <= |Chunks(clean, size, overlap)|
    ensures var chunks := Chunks(clean, size, overlap);
      && WindowStart(m - 1, size - overlap) + |chunks[m - 1]| <= |clean|
      && Joined(chunks, m, overlap) == clean[..WindowStart(m - 1, size - overlap) + |chunks[m - 1]|]
  {
    var here, stop := ChunkSpan(clean, size, overlap, m - 1);
    if m > 1 {
      ReassemblePrefix(clean, size, overlap, m - 1);
      ReassembleNext(clean, size, overlap, m);
    }
  }

  /** The step of `ReassemblePrefix`: gluing on chunk m-1 extends the text to its end. */
  lemma ReassembleNext(clean: string, size: nat, overlap: nat, m: nat)
    requires overlap < size && 2 <= m <= |Chunks(clean, size, overlap)|
    requires var chunks := Chunks(clean, size, overlap);
      && WindowStart(m - 2, size - overlap) + |chunks[m - 2]| <= |clean|
      && Joined(chunks, m - 1, overlap) == clean[..WindowStart(m - 2, size - overlap) + |chunks[m - 2]|]
    ensures var chunks := Chunks(clean, size, overlap);
      && WindowStart(m - 1, size - overlap) + |chunks[m - 1]| <= |clean|
      && Joined(chunks, m, overlap) == clean[..WindowStart(m - 1, size - overlap) + |chunks[m - 1]|]
  {
    var here, stop := ChunkSpan(clean, size, overlap, m - 1);
    var prev, glued := ChunkSpan(clean, size, overlap, m - 2);
    assert here == prev + (size - overlap);
    JoinStep(clean, Chunks(clean, size, overlap), m, overlap, here, stop);
  }

  /** Chunk k as a slice `clean[start..stop]` of the text; a chunk that is not the last is a
      full window ending before the text does. */
  lemma ChunkSpan(clean: string, size: nat, overlap: nat, k: nat) returns (start: nat, stop: nat)
    requires overlap < size && k < |Chunks(clean, size, overlap)|
    ensures start == WindowStart(k, size - overlap) && start < stop == Min(start + size, |clean|)
    ensures Chunks(clean, size, overlap)[k] == clean[start..stop]
    ensures k + 1 < |Chunks(clean, size, overlap)| ==> stop == start + size < |clean|
  {
    ChunkAt(clean, size, overlap, k);
    start := WindowStart(k, size - overlap);
    stop := Min(start + size, |clean|);
    if k + 1 < |Chunks(clean, size, overlap)| {
      ChunkFull(clean, size, overlap, k);
    }
  }

  /** Gluing on a chunk that continues the text `overlap` characters before the end of what
      is glued so far extends the glued text to the chunk's end. */
  lemma JoinStep(clean: string, chunks: seq<string>, m: nat, overlap: nat, here: nat, stop: nat)
    requires 2 <= m <= |chunks|
    requires here + overlap < stop <= |clean|
    requires Joined(chunks, m - 1, overlap) == clean[..here + overlap]
    requires chunks[m - 1] == clean[here..stop]
    ensures Joined(chunks, m, overlap) == clean[..stop]
  {
    SliceOfSlice(clean, here, stop, overlap);
    SliceJoin(clean, here + overlap, stop);
  }

  lemma SliceOfSlice(s: string, lo: nat, hi: nat, k: nat)
    requires lo + k <= hi <= |s|
    ensures s[lo..hi][k..] == s[lo + k..hi]
  {
  }

  lemma SlicePrefix(s: string, lo: nat, hi: nat, k: nat)
    requires lo + k <= hi <= |s|
    ensures s[lo..hi][..k] == s[lo..lo + k]
  {
  }

  lemma SliceJoin(s: string, a: nat, b: nat)
    requires a <= b <= |s|
    ensures s[..a] + s[a..b] == s[..b]
  {
  }

  /** The worked example: "ABCDEFGHIJ" with windows of 4 overlapping by 1 gives exactly the
      chunks "ABCD", "DEFG", "GHIJ". */
  lemma SplitExample()
    ensures Chunks("ABCDEFGHIJ", 4, 1) == ["ABCD", "DEFG", "GHIJ"]
  {
    var clean := "ABCDEFGHIJ";
    assert ChunkCount(10, 4, 3) == 3;
    assert WindowStart(1, 3) == 3 && WindowStart(2, 3) == 6;
    assert Window(clean, 0, 4) == "ABCD" && Window(clean, 3, 4) == "DEFG" && Window(clean, 6, 4) == "GHIJ";
    assert Windows(clean, 4, 3, 1) == ["ABCD"];
    assert Windows(clean, 4, 3, 2) == ["ABCD", "DEFG"];
  }
}
