/** JSX text ranges put in order (`normalizeRanges`) and the lexing windows cut from them (`windowsOf`). */
module Windows {

  datatype TextRange = TextRange(pos: nat, end: nat)

  datatype LexWindow = LexWindow(pos: nat, end: nat, jsxText: bool)

  ghost predicate InBounds(ranges: seq<TextRange>, n: nat) {
    forall k :: 0 <= k < |ranges| ==> ranges[k].pos <= ranges[k].end <= n
  }

  /** Offset `i` lies in one of the ranges. */
  ghost predicate InRanges(ranges: seq<TextRange>, i: nat) {
    ranges != [] && (Last(ranges).pos <= i < Last(ranges).end || InRanges(Front(ranges), i))
  }

  /** Each range starts strictly after the one before it has ended. */
  ghost predicate Separated(ranges: seq<TextRange>) {
    forall k :: 0 < k < |ranges| ==> ranges[k - 1].end < ranges[k].pos
  }

  /** The ranges come in order and overlap nowhere; they may touch. */
  ghost predicate Disjoint(ranges: seq<TextRange>) {
    forall k :: 0 < k < |ranges| ==> ranges[k - 1].end <= ranges[k].pos
  }

  ghost predicate SortedByPos(ranges: seq<TextRange>) {
    forall k :: 0 < k < |ranges| ==> ranges[k - 1].pos <= ranges[k].pos
  }

  function Last<T>(s: seq<T>): T
    requires s != []
  {
    s[|s| - 1]
  }

  function Front<T>(s: seq<T>): seq<T>
    requires s != []
  {
    s[..|s| - 1]
  }

  /** `[...ranges].sort((a, b) => a.pos - b.pos)`, the library's stable sort. */
  function SortByPos(ranges: seq<TextRange>): seq<TextRange> {
    if ranges == [] then [] else InsertByPos(SortByPos(Front(ranges)), Last(ranges))
  }

  /** `r` goes after every range that starts no later than it does. */
  function InsertByPos(sorted: seq<TextRange>, r: TextRange): seq<TextRange> {
    if sorted == [] || Last(sorted).pos <= r.pos then sorted + [r]
    else InsertByPos(Front(sorted), r) + [Last(sorted)]
  }

  /** One turn of the fusing loop over the sorted ranges. */
  function Fuse(merged: seq<TextRange>, range: TextRange): seq<TextRange> {
    if merged == [] || range.pos > Last(merged).end then merged + [range]
    else if range.end > Last(merged).end then Front(merged) + [TextRange(Last(merged).pos, range.end)]
    else merged
  }

  function FuseAll(sorted: seq<TextRange>): seq<TextRange> {
    if sorted == [] then [] else Fuse(FuseAll(Front(sorted)), Last(sorted))
  }

  function Normalized(ranges: seq<TextRange>): seq<TextRange> {
    FuseAll(SortByPos(ranges))
  }

  /** Sorts, then fuses every touching or overlapping pair. */
  method NormalizeRanges(ranges: seq<TextRange>) returns (merged: seq<TextRange>)
    ensures merged == Normalized(ranges)
  {
    var sorted := SortByPos(ranges);
    merged := [];
    for k := 0 to |sorted|
      invariant merged == FuseAll(sorted[..k])
    {
      assert Front(sorted[..k + 1]) == sorted[..k];
      var range := sorted[k];
      var m := |merged| - 1;
      if merged == [] || range.pos > merged[m].end {
        merged := merged + [range];
      } else if range.end > merged[m].end {
        merged := merged[..m] + [TextRange(merged[m].pos, range.end)];
      }
    }
    assert sorted[..|sorted|] == sorted;
  }

  lemma RangeAppended(ranges: seq<TextRange>, r: TextRange)
    ensures Front(ranges + [r]) == ranges && Last(ranges + [r]) == r
  {
  }

  lemma {:induction false} InsertSorts(sorted: seq<TextRange>, r: TextRange, n: nat)
    requires SortedByPos(sorted) && InBounds(sorted, n) && r.pos <= r.end <= n
    ensures var out := InsertByPos(sorted, r);
            && SortedByPos(out) && InBounds(out, n)
            && Last(out) == if sorted == [] || Last(sorted).pos <= r.pos then r else Last(sorted)
  {
    if sorted != [] && r.pos < Last(sorted).pos {
      InsertSorts(Front(sorted), r, n);
    }
  }

  lemma {:induction false} InsertAdds(sorted: seq<TextRange>, r: TextRange, i: nat)
    ensures InRanges(InsertByPos(sorted, r), i) <==> InRanges(sorted, i) || r.pos <= i < r.end
  {
    if sorted == [] || Last(sorted).pos <= r.pos {
      RangeAppended(sorted, r);
    } else {
      InsertAdds(Front(sorted), r, i);
      RangeAppended(InsertByPos(Front(sorted), r), Last(sorted));
    }
  }

  lemma {:induction false} SortSorts(ranges: seq<TextRange>, n: nat, i: nat)
    requires InBounds(ranges, n)
    ensures var sorted := SortByPos(ranges);
            && SortedByPos(sorted) && InBounds(sorted, n)
            && (InRanges(sorted, i) <==> InRanges(ranges, i))
  {
    if ranges != [] {
      SortSorts(Front(ranges), n, i);
      InsertSorts(SortByPos(Front(ranges)), Last(ranges), n);
      InsertAdds(SortByPos(Front(ranges)), Last(ranges), i);
    }
  }

  lemma FuseKeeps(merged: seq<TextRange>, range: TextRange, n: nat, i: nat)
    requires InBounds(merged, n) && Separated(merged) && range.pos <= range.end <= n
    requires merged != [] ==> Last(merged).pos <= range.pos
    ensures var out := Fuse(merged, range);
            && InBounds(out, n) && Separated(out) && out != [] && Last(out).pos <= range.pos
            && (InRanges(out, i) <==> InRanges(merged, i) || range.pos <= i < range.end)
  {
    if merged == [] || range.pos > Last(merged).end {
      RangeAppended(merged, range);
    } else {
      RangeAppended(Front(merged), TextRange(Last(merged).pos, range.end));
    }
  }

  lemma {:induction false} FuseAllKeeps(sorted: seq<TextRange>, n: nat, i: nat)
    requires SortedByPos(sorted) && InBounds(sorted, n)
    ensures var out := FuseAll(sorted);
            && InBounds(out, n) && Separated(out)
            && (sorted != [] ==> out != [] && Last(out).pos <= Last(sorted).pos)
            && (InRanges(out, i) <==> InRanges(sorted, i))
  {
    if sorted != [] {
      FuseAllKeeps(Front(sorted), n, i);
      FuseKeeps(FuseAll(Front(sorted)), Last(sorted), n, i);
    }
  }

  /**
   Normalized ranges lie in order with a gap between any two, as the walk over them relies on, and
   neither gain nor lose an offset of JSX text.
   */
  lemma NormalizedKeeps(ranges: seq<TextRange>, n: nat, i: nat)
    requires InBounds(ranges, n)
    ensures InBounds(Normalized(ranges), n) && Separated(Normalized(ranges))
    ensures InRanges(Normalized(ranges), i) <==> InRanges(ranges, i)
  {
    SortSorts(ranges, n, i);
    FuseAllKeeps(SortByPos(ranges), n, i);
  }

  // ----- Windows -----

  /** The windows lie end to end from `lo` to `hi`; no code window is empty or stands behind another. */
  ghost predicate Chain(windows: seq<LexWindow>, lo: nat, hi: nat) {
    if windows == [] then lo == hi
    else
      var last := Last(windows);
      && last.pos <= last.end == hi && MayFollow(Front(windows), last)
      && Chain(Front(windows), lo, last.pos)
  }

  ghost predicate MayFollow(windows: seq<LexWindow>, w: LexWindow) {
    w.jsxText || (w.pos < w.end && (windows == [] || Last(windows).jsxText))
  }

  /** The windows marked as JSX text, as ranges. */
  ghost function TextWindows(windows: seq<LexWindow>): seq<TextRange> {
    if windows == [] then []
    else
      var last := Last(windows);
      TextWindows(Front(windows)) + if last.jsxText then [TextRange(last.pos, last.end)] else []
  }

  /** The windows cut so far, up to `at`, for the ranges walked so far. */
  ghost predicate CutSoFar(windows: seq<LexWindow>, at: nat, walked: seq<TextRange>) {
    Chain(windows, 0, at) && TextWindows(windows) == walked
  }

  /** The code in front of a range, when there is any, and the range. */
  method CutRange(windows0: seq<LexWindow>, at: nat, range: TextRange, ghost walked: seq<TextRange>)
    returns (windows: seq<LexWindow>)
    requires CutSoFar(windows0, at, walked) && (windows0 == [] || Last(windows0).jsxText)
    requires at <= range.pos <= range.end
    ensures CutSoFar(windows, range.end, walked + [range]) && windows != [] && Last(windows).jsxText
  {
    windows := windows0;
    if range.pos > at {
      windows := windows + [LexWindow(at, range.pos, false)];
    }
    windows := windows + [LexWindow(range.pos, range.end, true)];
  }

  /** The windows partition the source, and their text windows are exactly the given ranges. */
  method WindowsOf(n: nat, ranges: seq<TextRange>) returns (windows: seq<LexWindow>)
    requires InBounds(ranges, n) && Disjoint(ranges)
    ensures Chain(windows, 0, n) && TextWindows(windows) == ranges
    ensures ranges == [] ==> |windows| <= 1
  {
    windows := [];
    var at: nat := 0;
    for k := 0 to |ranges|
      invariant at == if k == 0 then 0 else ranges[k - 1].end
      invariant at <= n && CutSoFar(windows, at, ranges[..k])
      invariant windows == [] || Last(windows).jsxText
      invariant ranges == [] ==> windows == []
    {
      windows := CutRange(windows, at, ranges[k], ranges[..k]);
      assert ranges[..k + 1] == ranges[..k] + [ranges[k]];
      at := ranges[k].end;
    }
    assert ranges[..|ranges|] == ranges;
    if at < n {
      windows := windows + [LexWindow(at, n, false)];
    }
  }

  /** Consecutive windows share their boundary, and all lie within the chain. */
  lemma {:induction false} ChainLinks(windows: seq<LexWindow>, lo: nat, hi: nat, k: nat)
    requires Chain(windows, lo, hi) && k < |windows|
    ensures lo <= windows[k].pos <= windows[k].end <= hi
    ensures windows[k].jsxText || windows[k].pos < windows[k].end
    ensures windows[k].pos == if k == 0 then lo else windows[k - 1].end
    ensures k + 1 == |windows| ==> windows[k].end == hi
  {
    var front := Front(windows);
    if k < |front| {
      ChainLinks(front, lo, Last(windows).pos, k);
    } else if k > 0 {
      ChainLinks(front, lo, windows[k].pos, k - 1);
    }
  }

  /** What the last window says about the ranges. */
  lemma LastText(windows: seq<LexWindow>, lo: nat, hi: nat)
    requires Chain(windows, lo, hi) && windows != []
    ensures var x, texts := Last(windows), TextWindows(windows);
            if x.jsxText then texts == TextWindows(Front(windows)) + [TextRange(x.pos, hi)]
            else
              && texts == TextWindows(Front(windows)) && x.pos < x.end == hi
              && if Front(windows) == [] then texts == [] && x.pos == lo
                 else texts != [] && Last(texts).end == x.pos
  {
    if !Last(windows).jsxText && Front(windows) != [] {
      var front := Front(windows);
      RangeAppended(TextWindows(Front(front)), TextRange(Last(front).pos, Last(front).end));
    }
  }

  /** There is only one way to cut a source at given ranges. */
  lemma {:induction false} WindowsAreUnique(a: seq<LexWindow>, b: seq<LexWindow>, lo: nat, hi: nat)
    requires Chain(a, lo, hi) && Chain(b, lo, hi) && TextWindows(a) == TextWindows(b)
    ensures a == b
    decreases |a|
  {
    if a != [] {
      LastText(a, lo, hi);
    }
    if b != [] {
      LastText(b, lo, hi);
    }
    if a != [] && b != [] {
      SameLast(a, b, lo, hi);
      WindowsAreUnique(Front(a), Front(b), lo, Last(a).pos);
      assert a == Front(a) + [Last(a)] && b == Front(b) + [Last(b)];
    }
  }

  lemma SameLast(a: seq<LexWindow>, b: seq<LexWindow>, lo: nat, hi: nat)
    requires Chain(a, lo, hi) && Chain(b, lo, hi) && a != [] && b != [] && TextWindows(a) == TextWindows(b)
    ensures Last(a) == Last(b) && TextWindows(Front(a)) == TextWindows(Front(b))
  {
    LastText(a, lo, hi);
    LastText(b, lo, hi);
    if Last(a).jsxText {
      RangeAppended(TextWindows(Front(a)), TextRange(Last(a).pos, hi));
    }
    if Last(b).jsxText {
      RangeAppended(TextWindows(Front(b)), TextRange(Last(b).pos, hi));
    }
  }

  /** Offset `i` lies in a window marked as JSX text. */
  ghost predicate InTextWindow(windows: seq<LexWindow>, i: nat) {
    windows != [] &&
    ((Last(windows).jsxText && Last(windows).pos <= i < Last(windows).end) || InTextWindow(Front(windows), i))
  }

  /** Read through the windows, an offset is JSX text exactly when a range holds it. */
  lemma {:induction false} TextWindowsHold(windows: seq<LexWindow>, i: nat)
    ensures InRanges(TextWindows(windows), i) <==> InTextWindow(windows, i)
  {
    if windows != [] {
      TextWindowsHold(Front(windows), i);
      if Last(windows).jsxText {
        RangeAppended(TextWindows(Front(windows)), TextRange(Last(windows).pos, Last(windows).end));
      } else {
        assert TextWindows(windows) == TextWindows(Front(windows));
      }
    }
  }
}
