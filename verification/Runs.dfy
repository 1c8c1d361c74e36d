/** How the terminal engine cuts a row of cells into runs (`render`). */
module Runs {

  datatype Cell = Cell(ch: char, fg: string, bg: string, bold: bool, blink: bool)

  /** A run covers the cells `[lo, hi)` and shows their characters. */
  datatype Run = Run(lo: nat, hi: nat, str: string)

  /** Glyphs that are drawn stretched. */
  type Special = char -> bool

  function Flag(b: bool): string {
    if b then "1" else "0"
  }

  function StyleKey(c: Cell): string {
    c.fg + "|" + c.bg + "|" + Flag(c.bold) + "|" + Flag(c.blink)
  }

  /** Whether cell `c` may join a run that starts with `first`. */
  predicate Joins(special: Special, first: Cell, c: Cell) {
    && StyleKey(c) == StyleKey(first)
    && if special(first.ch) then c.ch == first.ch else !special(c.ch)
  }

  function Chars(line: seq<Cell>, lo: nat, hi: nat): (s: string)
    requires lo <= hi <= |line|
    ensures |s| == hi - lo && forall k :: 0 <= k < |s| ==> s[k] == line[lo + k].ch
    decreases hi - lo
  {
    if lo == hi then "" else [line[lo].ch] + Chars(line, lo + 1, hi)
  }

  /** A run shows its cells, all of which join its first one, while the cell behind it does not. */
  ghost predicate IsRun(line: seq<Cell>, special: Special, r: Run) {
    && r.lo < r.hi <= |line| && r.str == Chars(line, r.lo, r.hi)
    && (forall k :: r.lo <= k < r.hi ==> Joins(special, line[r.lo], line[k]))
    && (r.hi < |line| ==> !Joins(special, line[r.lo], line[r.hi]))
  }

  /** The runs lie end to end from cell `from` to the end of the row. */
  ghost predicate IsCut(line: seq<Cell>, special: Special, runs: seq<Run>, from: nat)
    decreases |runs|
  {
    if runs == [] then from == |line|
    else runs[0].lo == from && IsRun(line, special, runs[0]) && IsCut(line, special, runs[1..], runs[0].hi)
  }

  /** The runs lie end to end from the first cell to cell `to`. */
  ghost predicate CutUpTo(line: seq<Cell>, special: Special, runs: seq<Run>, to: nat)
    decreases |runs|
  {
    if runs == [] then to == 0
    else
      var last := runs[|runs| - 1];
      last.hi == to && IsRun(line, special, last) && CutUpTo(line, special, runs[..|runs| - 1], last.lo)
  }

  lemma RunMoves(front: seq<Run>, last: Run, rest: seq<Run>)
    ensures ([last] + rest)[0] == last && ([last] + rest)[1..] == rest
    ensures front + ([last] + rest) == front + [last] + rest
  {
  }

  lemma {:induction false} CutsMeet(line: seq<Cell>, special: Special, runs: seq<Run>, x: nat, rest: seq<Run>)
    requires CutUpTo(line, special, runs, x) && IsCut(line, special, rest, x)
    ensures IsCut(line, special, runs + rest, 0)
    decreases |runs|
  {
    if runs == [] {
      assert runs + rest == rest;
    } else {
      var front, last := runs[..|runs| - 1], runs[|runs| - 1];
      RunMoves(front, last, rest);
      CutsMeet(line, special, front, last.lo, [last] + rest);
      assert runs == front + [last];
    }
  }

  /** The end of the run that starts at cell `x`. */
  method RunEnd(line: seq<Cell>, special: Special, x: nat) returns (end: nat)
    requires x < |line|
    ensures x < end <= |line|
    ensures forall k :: x <= k < end ==> Joins(special, line[x], line[k])
    ensures end < |line| ==> !Joins(special, line[x], line[end])
  {
    var c := line[x];
    var sk := StyleKey(c);
    end := x + 1;
    if special(c.ch) {
      while end < |line| && line[end].ch == c.ch && StyleKey(line[end]) == sk
        invariant x < end <= |line| && forall k :: x <= k < end ==> Joins(special, c, line[k])
      {
        end := end + 1;
      }
    } else {
      while end < |line| && !special(line[end].ch) && StyleKey(line[end]) == sk
        invariant x < end <= |line| && forall k :: x <= k < end ==> Joins(special, c, line[k])
      {
        end := end + 1;
      }
    }
  }

  /** The loop over one row. */
  method CutRow(line: seq<Cell>, special: Special) returns (cells: seq<Run>)
    ensures IsCut(line, special, cells, 0)
  {
    cells := [];
    var x: nat := 0;
    while x < |line|
      invariant x <= |line| && CutUpTo(line, special, cells, x)
      decreases |line| - x
    {
      var end := RunEnd(line, special, x);
      var r := Run(x, end, Chars(line, x, end));
      assert (cells + [r])[..|cells|] == cells;
      cells := cells + [r];
      x := end;
    }
    CutsMeet(line, special, cells, x, []);
    assert cells + [] == cells;
  }

  /** There is only one such cut, so the loop's is the one. */
  lemma {:induction false} CutIsUnique(line: seq<Cell>, special: Special, a: seq<Run>, b: seq<Run>, from: nat)
    requires IsCut(line, special, a, from) && IsCut(line, special, b, from)
    ensures a == b
    decreases |a|
  {
    if a != [] && b != [] {
      CutIsUnique(line, special, a[1..], b[1..], a[0].hi);
      assert a == [a[0]] + a[1..] && b == [b[0]] + b[1..];
    }
  }

  function Joined(runs: seq<Run>): string {
    if runs == [] then "" else runs[0].str + Joined(runs[1..])
  }

  lemma CharsMeet(line: seq<Cell>, lo: nat, mid: nat, hi: nat)
    requires lo <= mid <= hi <= |line|
    ensures Chars(line, lo, mid) + Chars(line, mid, hi) == Chars(line, lo, hi)
  {
  }

  /** The runs' texts, put together, are the row's characters. */
  lemma {:induction false} CutShowsTheRow(line: seq<Cell>, special: Special, runs: seq<Run>, from: nat)
    requires from <= |line| && IsCut(line, special, runs, from)
    ensures Joined(runs) == Chars(line, from, |line|)
    decreases |runs|
  {
    if runs != [] {
      CutShowsTheRow(line, special, runs[1..], runs[0].hi);
      CharsMeet(line, from, runs[0].hi, |line|);
    }
  }

  /** For colours without a bar, one style key is one style: foreground, background, weight and blinking. */
  lemma StyleKeyIsInjective(a: Cell, b: Cell)
    requires '|' !in a.fg && '|' !in a.bg && '|' !in b.fg && '|' !in b.bg
    ensures StyleKey(a) == StyleKey(b) <==> a.fg == b.fg && a.bg == b.bg && a.bold == b.bold && a.blink == b.blink
  {
    if StyleKey(a) == StyleKey(b) {
      KeyParts(a);
      KeyParts(b);
      FirstBar(a.fg, Tail(a), b.fg, Tail(b));
      FirstBar(a.bg, Flags(a), b.bg, Flags(b));
      FirstBar(Flag(a.bold), Flag(a.blink), Flag(b.bold), Flag(b.blink));
    }
  }

  /** No colour of the row holds a bar. */
  ghost predicate PlainColours(line: seq<Cell>) {
    forall k :: 0 <= k < |line| ==> '|' !in line[k].fg && '|' !in line[k].bg
  }

  /** Two cells are drawn alike: one style, and one glyph if either is drawn stretched. */
  ghost predicate Alike(special: Special, a: Cell, b: Cell) {
    && a.fg == b.fg && a.bg == b.bg && a.bold == b.bold && a.blink == b.blink
    && (special(a.ch) || special(b.ch) ==> a.ch == b.ch)
  }

  /** A run holds cells drawn alike, all of them: the cell behind it is drawn otherwise than its first. */
  lemma RunIsUniformAndMaximal(line: seq<Cell>, special: Special, r: Run, k: nat)
    requires PlainColours(line) && IsRun(line, special, r) && r.lo <= k <= r.hi && k < |line|
    ensures Alike(special, line[r.lo], line[k]) <==> k < r.hi
  {
    StyleKeyIsInjective(line[r.lo], line[k]);
  }

  function Flags(c: Cell): string {
    Flag(c.bold) + "|" + Flag(c.blink)
  }

  function Tail(c: Cell): string {
    c.bg + "|" + Flags(c)
  }

  lemma KeyParts(c: Cell)
    ensures StyleKey(c) == c.fg + "|" + Tail(c)
  {
  }

  lemma FirstBarAt(a: string, rest: string, i: nat)
    requires '|' !in a && i < |a + "|" + rest|
    ensures (a + "|" + rest)[|a|] == '|'
    ensures i < |a| ==> (a + "|" + rest)[i] != '|'
  {
    if i < |a| {
      assert (a + "|" + rest)[i] == a[i];
    }
  }

  lemma FirstBar(a: string, restA: string, b: string, restB: string)
    requires a + "|" + restA == b + "|" + restB && '|' !in a && '|' !in b
    ensures a == b && restA == restB
  {
    var s, t := a + "|" + restA, b + "|" + restB;
    FirstBarAt(a, restA, |b|);
    FirstBarAt(b, restB, |a|);
    assert s[..|a|] == a && t[..|b|] == b && s[|a| + 1..] == restA && t[|b| + 1..] == restB;
  }
}
