/** Greedy word wrapping of the terminal engine: `wrapLines` and `explicitLines`. */
module Wrap {

  import opened Text

  // ----- Wrapping -----

  /** The lines packed from `words` behind the line `cur` under construction. */
  function Pack(words: seq<string>, cur: string, width: nat): seq<string>
    decreases |words|
  {
    if words == [] then if cur == "" then [] else [cur]
    else if cur == "" then Pack(words[1..], words[0], width)
    else if |cur + " " + words[0]| <= width then Pack(words[1..], cur + " " + words[0], width)
    else [cur] + Pack(words[1..], words[0], width)
  }

  /** One line cut into rows of at most `width` characters. */
  function Chop(line: string, width: nat): seq<string>
    requires width >= 1
    decreases |line|
  {
    if |line| > width then [line[..width]] + Chop(line[width..], width) else [line]
  }

  function ChopAll(lines: seq<string>, width: nat): seq<string>
    requires width >= 1
  {
    if lines == [] then [] else Chop(lines[0], width) + ChopAll(lines[1..], width)
  }

  function Wrapped(str: string, width: nat): seq<string>
    requires width >= 1
  {
    var out := ChopAll(Pack(Split(str, ' '), "", width), width);
    if out == [] then [""] else out
  }

  /** The first half of `wrapLines`: words gathered into lines. */
  method PackWords(words: seq<string>, width: nat) returns (lines: seq<string>)
    ensures lines == Pack(words, "", width)
  {
    lines := [];
    var cur := "";
    for k := 0 to |words|
      invariant Pack(words, "", width) == lines + Pack(words[k..], cur, width)
    {
      var w := words[k];
      assert words[k..][1..] == words[k + 1..];
      if cur == "" {
        cur := w;
      } else if |cur + " " + w| <= width {
        cur := cur + " " + w;
      } else {
        lines := lines + [cur];
        cur := w;
      }
    }
    if cur != "" {
      lines := lines + [cur];
    }
  }

  lemma ChopMoves(out: seq<string>, l: string, width: nat, rest: seq<string>)
    requires 1 <= width < |l|
    ensures out + (Chop(l, width) + rest) == (out + [l[..width]]) + (Chop(l[width..], width) + rest)
  {
  }

  /** The second half: lines longer than the width cut into rows. */
  method ChopLines(lines: seq<string>, width: nat) returns (out: seq<string>)
    requires width >= 1
    ensures out == ChopAll(lines, width)
  {
    out := [];
    for k := 0 to |lines|
      invariant ChopAll(lines, width) == out + ChopAll(lines[k..], width)
    {
      assert lines[k..][1..] == lines[k + 1..];
      var l := lines[k];
      ghost var rest := ChopAll(lines[k + 1..], width);
      while |l| > width
        invariant ChopAll(lines, width) == out + (Chop(l, width) + rest)
        decreases |l|
      {
        ChopMoves(out, l, width, rest);
        out := out + [l[..width]];
        l := l[width..];
      }
      out := out + [l];
    }
  }

  /** `wrapLines`. */
  method WrapLines(str: string, width: nat) returns (rows: seq<string>)
    requires width >= 1
    ensures rows == Wrapped(str, width)
  {
    var lines := PackWords(Split(str, ' '), width);
    rows := ChopLines(lines, width);
    if rows == [] {
      rows := [""];
    }
  }

  /** `explicitLines` over the paragraphs of a text. */
  function Explicit(paras: seq<string>, width: nat): seq<string>
    requires width >= 1
  {
    if paras == [] then [] else Wrapped(paras[0], width) + Explicit(paras[1..], width)
  }

  method ExplicitLines(text: string, width: nat) returns (out: seq<string>)
    requires width >= 1
    ensures out == Explicit(Split(text, '\n'), width)
  {
    var paras := Split(text, '\n');
    out := [];
    for k := 0 to |paras|
      invariant Explicit(paras, width) == out + Explicit(paras[k..], width)
    {
      assert paras[k..][1..] == paras[k + 1..];
      var rows := WrapLines(paras[k], width);
      out := out + rows;
    }
  }

  // ----- Nothing but spaces is lost -----

  /** The characters other than the space. */
  function Ink(s: string): string {
    if s == "" then "" else (if s[0] == ' ' then "" else [s[0]]) + Ink(s[1..])
  }

  function InkOf(rows: seq<string>): string {
    if rows == [] then "" else Ink(rows[0]) + InkOf(rows[1..])
  }

  lemma {:induction false} InkConcat(a: string, b: string)
    ensures Ink(a + b) == Ink(a) + Ink(b)
  {
    if a == "" {
      assert a + b == b;
    } else {
      assert (a + b)[1..] == a[1..] + b;
      InkConcat(a[1..], b);
    }
  }

  lemma {:induction false} InkOfConcat(a: seq<string>, b: seq<string>)
    ensures InkOf(a + b) == InkOf(a) + InkOf(b)
  {
    if a == [] {
      assert a + b == b;
    } else {
      assert (a + b)[1..] == a[1..] + b;
      InkOfConcat(a[1..], b);
    }
  }

  lemma {:induction false} SplitKeepsInk(s: string)
    ensures InkOf(Split(s, ' ')) == Ink(s)
  {
    if s != "" {
      SplitKeepsInk(s[1..]);
      var rest := Split(s[1..], ' ');
      var parts := Split(s, ' ');
      if s[0] == ' ' {
        assert parts[1..] == rest;
      } else {
        assert parts[1..] == rest[1..] && parts[0][1..] == rest[0];
      }
    }
  }

  lemma {:induction false} PackKeepsInk(words: seq<string>, cur: string, width: nat)
    ensures InkOf(Pack(words, cur, width)) == Ink(cur) + InkOf(words)
    decreases |words|
  {
    if words != [] {
      var w := words[0];
      if cur != "" && |cur + " " + w| <= width {
        InkConcat(cur, " ");
        InkConcat(cur + " ", w);
        PackKeepsInk(words[1..], cur + " " + w, width);
      } else {
        PackKeepsInk(words[1..], w, width);
      }
    }
  }

  lemma {:induction false} ChopKeepsInk(line: string, width: nat)
    requires width >= 1
    ensures InkOf(Chop(line, width)) == Ink(line)
    decreases |line|
  {
    if |line| > width {
      assert line == line[..width] + line[width..];
      InkConcat(line[..width], line[width..]);
      ChopKeepsInk(line[width..], width);
    }
  }

  lemma {:induction false} ChopAllKeepsInk(lines: seq<string>, width: nat)
    requires width >= 1
    ensures InkOf(ChopAll(lines, width)) == InkOf(lines)
  {
    if lines != [] {
      ChopKeepsInk(lines[0], width);
      ChopAllKeepsInk(lines[1..], width);
      InkOfConcat(Chop(lines[0], width), ChopAll(lines[1..], width));
    }
  }

  /** Every character but the spaces survives wrapping, in order. */
  lemma WrappingKeepsInk(str: string, width: nat)
    requires width >= 1
    ensures InkOf(Wrapped(str, width)) == Ink(str)
  {
    var words := Split(str, ' ');
    SplitKeepsInk(str);
    PackKeepsInk(words, "", width);
    ChopAllKeepsInk(Pack(words, "", width), width);
  }

  // ----- Rows fit, and only a blank text gives an empty row -----

  /** A line is short or holds no space, and starts with something to see. */
  ghost predicate Line(s: string, width: nat) {
    s != "" && s[0] != ' ' && (|s| <= width || ' ' !in s)
  }

  ghost predicate Row(s: string, width: nat) {
    s != "" && s[0] != ' ' && |s| <= width
  }

  lemma {:induction false} PackedLines(words: seq<string>, cur: string, width: nat)
    requires forall w :: w in words ==> ' ' !in w
    requires cur == "" || Line(cur, width)
    ensures forall l :: l in Pack(words, cur, width) ==> Line(l, width)
    decreases |words|
  {
    if words != [] {
      var w := words[0];
      assert w in words;
      if cur != "" && |cur + " " + w| <= width {
        PackedLines(words[1..], cur + " " + w, width);
      } else {
        PackedLines(words[1..], w, width);
      }
    }
  }

  lemma {:induction false} ChoppedRows(line: string, width: nat)
    requires width >= 1 && Line(line, width)
    ensures forall r :: r in Chop(line, width) ==> Row(r, width)
    decreases |line|
  {
    if |line| > width {
      assert line[width] in line && line[0] in line;
      assert forall c :: c in line[width..] ==> c in line;
      ChoppedRows(line[width..], width);
    }
  }

  lemma {:induction false} AllChoppedRows(lines: seq<string>, width: nat)
    requires width >= 1 && forall l :: l in lines ==> Line(l, width)
    ensures forall r :: r in ChopAll(lines, width) ==> Row(r, width)
  {
    if lines != [] {
      assert lines[0] in lines;
      ChoppedRows(lines[0], width);
      AllChoppedRows(lines[1..], width);
    }
  }

  /**
   A text with something to see wraps into rows that fit the width and start with a character to see;
   any other text wraps into one empty row.
   */
  lemma WrappedRows(str: string, width: nat)
    requires width >= 1
    ensures Ink(str) == "" <==> Wrapped(str, width) == [""]
    ensures Ink(str) != "" ==> forall r :: r in Wrapped(str, width) ==> Row(r, width)
  {
    var words := Split(str, ' ');
    var out := ChopAll(Pack(words, "", width), width);
    JoinSplit(str, ' ');
    PackedLines(words, "", width);
    AllChoppedRows(Pack(words, "", width), width);
    WrappingKeepsInk(str, width);
    if out != [] {
      assert Row(out[0], width);
      assert Ink(out[0]) != "";
    }
  }

  // ----- Blank rows are blank paragraphs -----

  function Blanks(rows: seq<string>): nat {
    if rows == [] then 0 else (if rows[0] == "" then 1 else 0) + Blanks(rows[1..])
  }

  function BlankParagraphs(paras: seq<string>): nat {
    if paras == [] then 0 else (if Ink(paras[0]) == "" then 1 else 0) + BlankParagraphs(paras[1..])
  }

  lemma {:induction false} BlanksConcat(a: seq<string>, b: seq<string>)
    ensures Blanks(a + b) == Blanks(a) + Blanks(b)
  {
    if a == [] {
      assert a + b == b;
    } else {
      assert (a + b)[1..] == a[1..] + b;
      BlanksConcat(a[1..], b);
    }
  }

  lemma {:induction false} NoBlanks(rows: seq<string>)
    requires forall r :: r in rows ==> r != ""
    ensures Blanks(rows) == 0
  {
    if rows != [] {
      assert rows[0] in rows && forall r :: r in rows[1..] ==> r in rows;
      NoBlanks(rows[1..]);
    }
  }

  /** Wrapping adds no empty row: there are as many as paragraphs with nothing to see. */
  lemma {:induction false} BlankRowsAreBlankParagraphs(paras: seq<string>, width: nat)
    requires width >= 1
    ensures Blanks(Explicit(paras, width)) == BlankParagraphs(paras)
  {
    if paras != [] {
      var rows := Wrapped(paras[0], width);
      WrappedRows(paras[0], width);
      if Ink(paras[0]) == "" {
        assert Blanks([""]) == 1 + Blanks([""][1..]);
      } else {
        NoBlanks(rows);
      }
      BlankRowsAreBlankParagraphs(paras[1..], width);
      BlanksConcat(rows, Explicit(paras[1..], width));
    }
  }

  /** A text of one space has no newline in it and yet gives a blank row. */
  lemma SpaceGivesBlankRow(width: nat)
    requires width >= 1
    ensures '\n' !in " " && Explicit(Split(" ", '\n'), width) == [""]
  {
    assert Ink(" ") == "" by {
      assert " "[1..] == "";
    }
    WrappedRows(" ", width);
    assert " "[1..] == "" && Split(" "[1..], '\n') == [""] && [' '] + "" == " ";
    assert Split(" ", '\n') == [" "];
    assert Explicit([" "], width) == Wrapped(" ", width) + Explicit([" "][1..], width);
  }

  /** The rows of a paragraph stand together, behind those of the paragraphs before it. */
  lemma {:induction false} ParagraphRows(before: seq<string>, para: string, after: seq<string>, width: nat)
    requires width >= 1
    ensures Explicit(before + [para] + after, width) ==
            Explicit(before, width) + (Wrapped(para, width) + Explicit(after, width))
  {
    var paras := before + [para] + after;
    if before == [] {
      assert paras[0] == para && paras[1..] == after;
    } else {
      assert paras[0] == before[0] && paras[1..] == before[1..] + [para] + after;
      ParagraphRows(before[1..], para, after, width);
    }
  }

  // ----- Greedy filling is optimal -----

  /** Words with something in them, as single spaces between them leave. */
  ghost predicate Words(words: seq<string>) {
    words == [] || (words[0] != "" && Words(words[1..]))
  }

  lemma {:induction false} WordsConcat(a: seq<string>, b: seq<string>)
    ensures Words(a + b) <==> Words(a) && Words(b)
  {
    if a == [] {
      assert a + b == b;
    } else {
      assert (a + b)[1..] == a[1..] + b;
      WordsConcat(a[1..], b);
    }
  }

  function Concat(groups: seq<seq<string>>): seq<string> {
    if groups == [] then [] else groups[0] + Concat(groups[1..])
  }

  /** `groups` breaks the words of `Concat(groups)` into lines that fit. */
  ghost predicate Breaks(groups: seq<seq<string>>, width: nat) {
    groups == [] ||
    (groups[0] != [] && Words(groups[0]) && |Join(groups[0], ' ')| <= width && Breaks(groups[1..], width))
  }

  /** A longer line under construction never helps, and costs at most one line. */
  lemma {:induction false} ShorterLineIsNoWorse(words: seq<string>, cur: string, cur': string, width: nat)
    requires Words(words) && cur != "" && cur' != ""
    ensures |Pack(words, cur, width)| <= |Pack(words, cur', width)| + 1
    ensures |cur| <= |cur'| ==> |Pack(words, cur, width)| <= |Pack(words, cur', width)|
    decreases |words|
  {
    if words != [] {
      var w := words[0];
      var next := if |cur + " " + w| <= width then cur + " " + w else w;
      var next' := if |cur' + " " + w| <= width then cur' + " " + w else w;
      ShorterLineIsNoWorse(words[1..], next, next', width);
      ShorterLineIsNoWorse(words[1..], w, next', width);
    }
  }

  lemma JoinMerges(cur: string, w: string, g: seq<string>)
    ensures Join([cur] + ([w] + g), ' ') == Join([cur + " " + w] + g, ' ')
    ensures |Join([cur] + g, ' ')| >= |cur|
  {
    assert ([cur] + ([w] + g))[1..] == [w] + g;
    assert ([w] + g)[1..] == g && ([cur + " " + w] + g)[1..] == g;
    if g != [] {
      var tail := [' '] + Join(g, ' ');
      assert Join([w] + g, ' ') == w + [' '] + Join(g, ' ') == w + tail;
      assert Join([cur + " " + w] + g, ' ') == cur + " " + w + [' '] + Join(g, ' ') == cur + " " + w + tail;
      assert cur + [' '] + (w + tail) == cur + " " + w + tail;
    }
    assert ([cur] + g)[1..] == g;
  }

  /** Words that fit on the line under construction are all put on it. */
  lemma {:induction false} FittingWordsShareALine(g: seq<string>, rest: seq<string>, cur: string, width: nat)
    requires Words(g) && cur != "" && |Join([cur] + g, ' ')| <= width
    ensures Pack(g + rest, cur, width) == Pack(rest, Join([cur] + g, ' '), width)
    decreases |g|
  {
    if g == [] {
      assert g + rest == rest && [cur] + g == [cur];
    } else {
      var next := cur + " " + g[0];
      assert (g + rest)[1..] == g[1..] + rest && g == [g[0]] + g[1..];
      JoinMerges(cur, g[0], g[1..]);
      JoinMerges(next, g[0], g[1..]);
      FittingWordsShareALine(g[1..], rest, next, width);
    }
  }

  /** Whatever words make up the first line of a breaking, filling the rest costs the greedy way one line less. */
  lemma OneLineAtATime(g: seq<string>, rest: seq<string>, width: nat)
    requires Words(g) && Words(rest) && g != [] && |Join(g, ' ')| <= width
    ensures |Pack(g + rest, "", width)| <= 1 + |Pack(rest, "", width)|
  {
    var line := Join(g, ' ');
    assert (g + rest)[1..] == g[1..] + rest && g == [g[0]] + g[1..];
    FittingWordsShareALine(g[1..], rest, g[0], width);
    JoinMerges(g[0], "", g[1..]);
    if rest != [] && |line + " " + rest[0]| <= width {
      ShorterLineIsNoWorse(rest[1..], line + " " + rest[0], rest[0], width);
    }
  }

  lemma {:induction false} BreaksWords(groups: seq<seq<string>>, width: nat)
    requires Breaks(groups, width)
    ensures Words(Concat(groups))
  {
    if groups != [] {
      BreaksWords(groups[1..], width);
      WordsConcat(groups[0], Concat(groups[1..]));
    }
  }

  /** Greedy filling uses no more lines than any way to break the same words into lines that fit. */
  lemma {:induction false} GreedyIsOptimal(groups: seq<seq<string>>, width: nat)
    requires Breaks(groups, width)
    ensures |Pack(Concat(groups), "", width)| <= |groups|
    decreases |groups|
  {
    if groups != [] {
      BreaksWords(groups[1..], width);
      OneLineAtATime(groups[0], Concat(groups[1..]), width);
      GreedyIsOptimal(groups[1..], width);
    }
  }

  // ----- The greedy lines are themselves such a breaking -----

  /** How the greedy filling groups the words, `group` being on the line under construction. */
  ghost function Groups(words: seq<string>, group: seq<string>, width: nat): seq<seq<string>>
    decreases |words|
  {
    if words == [] then if group == [] then [] else [group]
    else if group == [] || |Join(group, ' ') + " " + words[0]| <= width
    then Groups(words[1..], group + [words[0]], width)
    else [group] + Groups(words[1..], [words[0]], width)
  }

  ghost function JoinEach(groups: seq<seq<string>>): seq<string> {
    if groups == [] then [] else [Join(groups[0], ' ')] + JoinEach(groups[1..])
  }

  ghost predicate Short(words: seq<string>, width: nat) {
    words == [] || (|words[0]| <= width && Short(words[1..], width))
  }

  lemma {:induction false} JoinAppended(g: seq<string>, w: string)
    requires g != []
    ensures Join(g + [w], ' ') == Join(g, ' ') + " " + w
  {
    assert (g + [w])[1..] == g[1..] + [w];
    if |g| > 1 {
      JoinAppended(g[1..], w);
      assert g[0] + [' '] + (Join(g[1..], ' ') + " " + w) == g[0] + [' '] + Join(g[1..], ' ') + " " + w;
    }
  }

  /** The greedy lines are the words of one breaking, joined; so no breaking does better and one does as well. */
  lemma {:induction false} GreedyBreaks(words: seq<string>, group: seq<string>, width: nat)
    requires Words(words) && Words(group) && Short(words, width)
    requires group != [] ==> |Join(group, ' ')| <= width && Join(group, ' ') != ""
    ensures var groups := Groups(words, group, width);
            && Breaks(groups, width) && Concat(groups) == group + words
            && JoinEach(groups) == Pack(words, Join(group, ' '), width)
    decreases |words|
  {
    if words == [] {
      if group != [] {
        assert [group][1..] == [] && Concat([group]) == group + Concat([]);
      }
    } else {
      var w, rest := words[0], words[1..];
      assert words == [w] + rest;
      if group == [] {
        assert group + [w] == [w] && Words([w]);
        GreedyBreaks(rest, [w], width);
      } else if |Join(group, ' ') + " " + w| <= width {
        JoinAppended(group, w);
        WordsConcat(group, [w]);
        assert group + words == (group + [w]) + rest;
        GreedyBreaks(rest, group + [w], width);
      } else {
        GreedyBreaks(rest, [w], width);
        assert ([group] + Groups(rest, [w], width))[1..] == Groups(rest, [w], width);
      }
    }
  }

  lemma {:induction false} ShortLinesStay(lines: seq<string>, width: nat)
    requires width >= 1 && Short(lines, width)
    ensures ChopAll(lines, width) == lines
  {
    if lines != [] {
      ShortLinesStay(lines[1..], width);
    }
  }

  lemma {:induction false} BreaksAreShort(groups: seq<seq<string>>, width: nat)
    requires Breaks(groups, width)
    ensures Short(JoinEach(groups), width)
  {
    if groups != [] {
      BreaksAreShort(groups[1..], width);
    }
  }

  /**
   For single-spaced text of words no wider than the rows, the rows are a breaking of its words, and no
   breaking of them has fewer lines.
   */
  lemma WrappingIsOptimal(str: string, width: nat, groups: seq<seq<string>>)
    requires width >= 1 && Words(Split(str, ' ')) && Short(Split(str, ' '), width)
    requires Breaks(groups, width) && Concat(groups) == Split(str, ' ')
    ensures |Wrapped(str, width)| <= |groups|
    ensures var best := Groups(Split(str, ' '), [], width);
            Breaks(best, width) && Concat(best) == Split(str, ' ') && Wrapped(str, width) == JoinEach(best)
  {
    var words := Split(str, ' ');
    GreedyIsOptimal(groups, width);
    GreedyBreaks(words, [], width);
    BreaksAreShort(Groups(words, [], width), width);
    ShortLinesStay(Pack(words, "", width), width);
    assert [] + words == words;
  }
}
