/** Where `wrapLines` breaks a text, read off the text itself: the one layout with the properties below. */
module WrapLayout {
  import opened Text
  import opened Wrap

  predicate Blank(s: string) {
    forall k :: 0 <= k < |s| ==> s[k] == ' '
  }

  /** How many characters stand in front of the first space. */
  function WordLen(s: string): (n: nat)
    ensures n <= |s| && (forall k :: 0 <= k < n ==> s[k] != ' ') && (n < |s| ==> s[n] == ' ')
  {
    if s == "" || s[0] == ' ' then 0 else 1 + WordLen(s[1..])
  }

  /** The text starts with the first line, and the rest of it is laid out behind that line. */
  ghost predicate Starts(s: string, lines: seq<string>, width: nat)
    decreases |lines|, 1
  {
    lines != [] && Line(lines[0], width) && lines[0] <= s && Behind(s[|lines[0]|..], |lines[0]|, lines[1..], width)
  }

  /**
   What follows a line of `n` characters. The next line starts at the next word, which did not fit; one space goes
   between, and more only where the line could not have taken them. Spaces at the end are kept in the same way.
   */
  ghost predicate Behind(rest: string, n: nat, lines: seq<string>, width: nat)
    decreases |lines|, 2
  {
    if lines == [] then Blank(rest) && (rest == "" || n >= width)
    else exists g: nat :: 1 <= g <= |rest| && Gap(rest, g, n, width) && Starts(rest[g..], lines, width)
  }

  ghost predicate Gap(rest: string, g: nat, n: nat, width: nat)
    requires g <= |rest|
  {
    Blank(rest[..g]) && (g == 1 || n >= width) && n + 1 + WordLen(rest[g..]) > width
  }

  /** A text laid out in lines: spaces in front are left out, and text with nothing but spaces has no line. */
  ghost predicate Laid(s: string, lines: seq<string>, width: nat) {
    if lines == [] then Blank(s)
    else exists k: nat :: k <= |s| && Blank(s[..k]) && Starts(s[k..], lines, width)
  }

  // ----- The lines are laid out so -----

  /** The words behind a line under construction, as the text has them. */
  function Tail(words: seq<string>): string {
    if words == [] then "" else " " + Join(words, ' ')
  }

  lemma JoinTail(words: seq<string>)
    requires words != []
    ensures Join(words, ' ') == words[0] + Tail(words[1..])
  {
    Regroup(words[0], " ", Join(words[1..], ' '));
  }

  lemma {:induction false} NoSpaceWord(w: string, rest: string)
    requires ' ' !in w && (rest == "" || rest[0] == ' ')
    ensures WordLen(w + rest) == |w|
  {
    if w == "" {
      assert w + rest == rest;
    } else {
      assert (w + rest)[1..] == w[1..] + rest && w[0] in w;
      NoSpaceWord(w[1..], rest);
    }
  }

  ghost predicate NoSpaces(words: seq<string>) {
    forall w :: w in words ==> ' ' !in w
  }

  lemma StartsWith(cur: string, rest: string, lines: seq<string>, width: nat)
    requires Line(cur, width) && Behind(rest, |cur|, lines, width)
    ensures Starts(cur + rest, [cur] + lines, width)
  {
    assert (cur + rest)[|cur|..] == rest && ([cur] + lines)[1..] == lines;
  }

  lemma TailOfSpaces(words: seq<string>)
    requires words != [] && words[0] == ""
    ensures Tail(words) == if words[1..] == [] then " " else "  " + Join(words[1..], ' ')
  {
    JoinTail(words);
  }

  lemma TailGrows(cur: string, words: seq<string>)
    requires words != []
    ensures cur + Tail(words) == (cur + " " + words[0]) + Tail(words[1..])
  {
    JoinTail(words);
  }

  /** A line that ends in front of a word that does not fit. */
  lemma BreakBefore(cur: string, words: seq<string>, lines: seq<string>, width: nat)
    requires Line(cur, width) && words != [] && ' ' !in words[0] && words[0] != ""
    requires |cur| + 1 + |words[0]| > width && Starts(Join(words, ' '), lines, width)
    ensures Starts(cur + Tail(words), [cur] + lines, width)
  {
    var rest := Tail(words);
    JoinTail(words);
    NoSpaceWord(words[0], Tail(words[1..]));
    assert rest[1..] == Join(words, ' ') && rest[..1] == " ";
    assert Gap(rest, 1, |cur|, width);
    StartsWith(cur, rest, lines, width);
  }

  lemma SpacesInFront(pre: string, more: string, k: nat)
    requires k <= |more| && Blank(pre) && Blank(more[..k])
    ensures (pre + more)[|pre| + k..] == more[k..] && Blank((pre + more)[..|pre| + k])
  {
    assert (pre + more)[..|pre| + k] == pre + more[..k];
  }

  /** What follows a line with no room for a space, when the text goes on with two of them. */
  lemma BehindSpaces(n: nat, more: string, lines: seq<string>, width: nat)
    requires n + 1 > width && Laid(more, lines, width)
    ensures Behind("  " + more, n, lines, width)
  {
    var rest := "  " + more;
    if lines != [] {
      var k: nat :| k <= |more| && Blank(more[..k]) && Starts(more[k..], lines, width);
      SpacesInFront("  ", more, k);
      assert Gap(rest, 2 + k, n, width);
    }
  }

  /** A line that ends in front of spaces it has no room for. */
  lemma BreakAtSpaces(cur: string, words: seq<string>, lines: seq<string>, width: nat)
    requires Line(cur, width) && |cur| + 1 > width && words != [] && words[0] == ""
    requires Laid(Join(words[1..], ' '), lines, width) && (words[1..] == [] ==> lines == [])
    ensures Starts(cur + Tail(words), [cur] + lines, width)
  {
    TailOfSpaces(words);
    if words[1..] != [] {
      BehindSpaces(|cur|, Join(words[1..], ' '), lines, width);
    }
    StartsWith(cur, Tail(words), lines, width);
  }

  /** A space in front of a text changes none of its lines. */
  lemma SpaceBefore(more: string, lines: seq<string>, width: nat)
    requires Laid(more, lines, width)
    ensures Laid(" " + more, lines, width)
  {
    if lines != [] {
      var k: nat :| k <= |more| && Blank(more[..k]) && Starts(more[k..], lines, width);
      SpacesInFront(" ", more, k);
    }
  }

  lemma {:induction false} PackStarts(words: seq<string>, cur: string, width: nat)
    requires NoSpaces(words) && Line(cur, width)
    ensures Starts(cur + Tail(words), Pack(words, cur, width), width)
    decreases |words|, 1
  {
    if words == [] {
      assert cur + "" == cur && [cur][1..] == [] && cur[|cur|..] == "";
    } else {
      var w := words[0];
      assert w in words && NoSpaces(words[1..]);
      if |cur + " " + w| <= width {
        TailGrows(cur, words);
        PackStarts(words[1..], cur + " " + w, width);
      } else if w == "" {
        PackLays(words[1..], width);
        BreakAtSpaces(cur, words, Pack(words[1..], "", width), width);
      } else {
        PackStarts(words[1..], w, width);
        JoinTail(words);
        BreakBefore(cur, words, Pack(words[1..], w, width), width);
      }
    }
  }

  lemma {:induction false} PackLays(words: seq<string>, width: nat)
    requires NoSpaces(words)
    ensures Laid(Join(words, ' '), Pack(words, "", width), width)
    decreases |words|, 0
  {
    if words != [] {
      var s, lines := Join(words, ' '), Pack(words, "", width);
      assert words[0] in words && NoSpaces(words[1..]);
      JoinTail(words);
      if words[0] != "" {
        PackStarts(words[1..], words[0], width);
        assert s[0..] == s && s[..0] == "";
      } else {
        PackLays(words[1..], width);
        SpaceBefore(Join(words[1..], ' '), lines, width);
        assert s == Tail(words[1..]);
      }
    }
  }

  /** The lines of any text are laid out so. */
  lemma LinesAreLaid(str: string, width: nat)
    ensures Laid(str, Pack(Split(str, ' '), "", width), width)
  {
    JoinSplit(str, ' ');
    PackLays(Split(str, ' '), width);
  }

  // ----- and no other lines are -----

  /** A line that takes a space takes the whole word behind it. */
  lemma WordIsNotCut(s: string, n: nat, b: seq<string>, width: nat)
    requires Starts(s, b, width) && n < |b[0]| && s[n] == ' ' && n + 1 <= |s|
    ensures |b[0]| >= n + 1 + WordLen(s[n + 1..])
  {
    var m := |b[0]|;
    if m < |s| {
      assert m > n ==> s[m] == s[n + 1..][m - n - 1];
    }
  }

  /** Of two first lines none is the longer: the other would have had room for what it takes. */
  lemma FirstLineTakesAll(s: string, a: seq<string>, b: seq<string>, width: nat)
    requires Starts(s, a, width) && Starts(s, b, width)
    ensures |b[0]| <= |a[0]|
  {
    var n, rest := |a[0]|, s[|a[0]|..];
    if n < |b[0]| {
      assert b[0][n] == s[n] == rest[0] == ' ';
      if a[1..] != [] {
        var g: nat :| 1 <= g <= |rest| && Gap(rest, g, n, width) && Starts(rest[g..], a[1..], width);
        if g == 1 {
          assert rest[1..] == s[n + 1..];
          WordIsNotCut(s, n, b, width);
        }
      }
    }
  }

  lemma BlankFront(s: string, k: nat, j: nat)
    requires j < k <= |s| && Blank(s[..k])
    ensures s[j] == ' '
  {
    assert s[..k][j] == s[j];
  }

  lemma SameBlanks(s: string, j: nat, k: nat)
    requires j <= |s| && k <= |s| && Blank(s[..j]) && Blank(s[..k])
    requires j < |s| && s[j] != ' ' && k < |s| && s[k] != ' '
    ensures j == k
  {
    if j < k {
      BlankFront(s, k, j);
    } else if k < j {
      BlankFront(s, j, k);
    }
  }

  lemma {:induction false} StartsOnce(s: string, a: seq<string>, b: seq<string>, width: nat)
    requires Starts(s, a, width) && Starts(s, b, width)
    ensures a == b
    decreases |a|, 0
  {
    FirstLineTakesAll(s, a, b, width);
    FirstLineTakesAll(s, b, a, width);
    assert a[0] == s[..|a[0]|] == b[0];
    BehindOnce(s[|a[0]|..], |a[0]|, a[1..], b[1..], width);
    assert a == [a[0]] + a[1..] && b == [b[0]] + b[1..];
  }

  lemma {:induction false} BehindOnce(rest: string, n: nat, a: seq<string>, b: seq<string>, width: nat)
    requires Behind(rest, n, a, width) && Behind(rest, n, b, width)
    ensures a == b
    decreases |a|, 1
  {
    if a != [] && b != [] {
      var g: nat :| 1 <= g <= |rest| && Gap(rest, g, n, width) && Starts(rest[g..], a, width);
      var h: nat :| 1 <= h <= |rest| && Gap(rest, h, n, width) && Starts(rest[h..], b, width);
      assert rest[g..][0] == rest[g] && rest[h..][0] == rest[h];
      SameBlanks(rest, g, h);
      StartsOnce(rest[g..], a, b, width);
    } else if a != [] {
      BlankStartsNothing(rest, n, a, width);
    } else if b != [] {
      BlankStartsNothing(rest, n, b, width);
    }
  }

  lemma BlankStartsNothing(rest: string, n: nat, lines: seq<string>, width: nat)
    requires lines != [] && Behind(rest, n, lines, width)
    ensures !Blank(rest)
  {
    var g: nat :| 1 <= g <= |rest| && Gap(rest, g, n, width) && Starts(rest[g..], lines, width);
    assert rest[g..][0] == rest[g];
  }

  /** So the lines of a text are these and no others. */
  lemma LayoutIsUnique(str: string, lines: seq<string>, width: nat)
    ensures Laid(str, lines, width) <==> lines == Pack(Split(str, ' '), "", width)
  {
    LinesAreLaid(str, width);
    var packed := Pack(Split(str, ' '), "", width);
    if Laid(str, lines, width) {
      LaidOnce(str, lines, packed, width);
    }
  }

  lemma LaidIsNotBlank(s: string, lines: seq<string>, width: nat)
    requires Laid(s, lines, width) && lines != []
    ensures !Blank(s)
  {
    var k: nat :| k <= |s| && Blank(s[..k]) && Starts(s[k..], lines, width);
    assert s[k..][0] == s[k];
  }

  lemma LaidOnce(s: string, a: seq<string>, b: seq<string>, width: nat)
    requires Laid(s, a, width) && Laid(s, b, width)
    ensures a == b
  {
    if a != [] && b != [] {
      var j: nat :| j <= |s| && Blank(s[..j]) && Starts(s[j..], a, width);
      var k: nat :| k <= |s| && Blank(s[..k]) && Starts(s[k..], b, width);
      assert s[j..][0] == s[j] && s[k..][0] == s[k];
      SameBlanks(s, j, k);
      StartsOnce(s[j..], a, b, width);
    } else if a != [] {
      LaidIsNotBlank(s, a, width);
    } else if b != [] {
      LaidIsNotBlank(s, b, width);
    }
  }

  // ----- Rows -----

  function Concat(rows: seq<string>): string {
    if rows == [] then "" else rows[0] + Concat(rows[1..])
  }

  /** A line is cut into full rows and what is left over, and loses nothing. */
  lemma {:induction false} CutsAreFull(line: string, width: nat)
    requires width >= 1
    ensures var rows := Chop(line, width);
            && Concat(rows) == line && rows != []
            && (forall k :: 0 <= k < |rows| - 1 ==> |rows[k]| == width)
            && |rows[|rows| - 1]| <= width && (line != "" ==> rows[|rows| - 1] != "")
    decreases |line|
  {
    if |line| > width {
      CutsAreFull(line[width..], width);
      assert Chop(line, width)[1..] == Chop(line[width..], width);
      assert line == line[..width] + line[width..];
    } else {
      assert [line][1..] == [] && line + "" == line;
    }
  }

  /** The rows of a line stand together, between those of the lines around it. */
  lemma {:induction false} RowsOfLine(before: seq<string>, line: string, after: seq<string>, width: nat)
    requires width >= 1
    ensures ChopAll(before + [line] + after, width) ==
            ChopAll(before, width) + (Chop(line, width) + ChopAll(after, width))
  {
    var lines := before + [line] + after;
    if before == [] {
      assert lines[0] == line && lines[1..] == after;
    } else {
      assert lines[0] == before[0] && lines[1..] == before[1..] + [line] + after;
      RowsOfLine(before[1..], line, after, width);
    }
  }

  /** A text that fits is left as it is, spaces within it and behind it included. */
  lemma FittingTextStays(str: string, width: nat)
    requires width >= 1 && str != "" && str[0] != ' ' && |str| <= width
    ensures Wrapped(str, width) == [str]
  {
    assert [str][1..] == [] && str[|str|..] == "" && str[0..] == str && str[..0] == "";
    assert Behind("", |str|, [], width) && Starts(str, [str], width);
    LayoutIsUnique(str, [str], width);
    assert ChopAll([str], width) == Chop(str, width) + ChopAll([], width);
  }
}
