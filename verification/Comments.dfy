/** The comment stripper of the declaration generator: `stripComments`. */
module Comments {
  import opened Text

  // ----- The reference: one character at a time -----

  /** `Slash` and `Star` have just read the first half of a delimiter. */
  datatype Mode = Code | Slash | LineComment | Block | Star

  function Next(m: Mode, c: char): Mode {
    match m
    case Code => if c == '/' then Slash else Code
    case Slash => if c == '/' then LineComment else if c == '*' then Block else Code
    case LineComment => LineComment
    case Block => if c == '*' then Star else Block
    case Star => if c == '/' then Code else if c == '*' then Star else Block
  }

  /** What is known to be code once `c` is read: a slash is held back until the character after it is. */
  function Emit(m: Mode, c: char): string {
    match m
    case Code => if c == '/' then "" else [c]
    case Slash => if c == '/' || c == '*' then "" else ['/', c]
    case _ => ""
  }

  /** The end of a line settles a slash held back, ends a line comment, and parts a star from a slash. */
  function Flush(m: Mode): string {
    if m.Slash? then "/" else ""
  }

  function EndLine(m: Mode): Mode {
    if m.Block? || m.Star? then Block else Code
  }

  /** The automaton over one line, from index `i` on. */
  function LineCode(m: Mode, line: string, i: nat): string
    requires i <= |line|
    decreases |line| - i
  {
    if i == |line| then Flush(m) else Emit(m, line[i]) + LineCode(Next(m, line[i]), line, i + 1)
  }

  function LineMode(m: Mode, line: string, i: nat): Mode
    requires i <= |line|
    decreases |line| - i
  {
    if i == |line| then EndLine(m) else LineMode(Next(m, line[i]), line, i + 1)
  }

  /** The automaton over a whole text, newlines kept. */
  function TextCode(m: Mode, text: string): string
    decreases |text|
  {
    if text == "" then Flush(m)
    else if text[0] == '\n' then Flush(m) + ['\n'] + TextCode(EndLine(m), text[1..])
    else Emit(m, text[0]) + TextCode(Next(m, text[0]), text[1..])
  }

  // ----- Where the automaton jumps -----

  /** A slash not followed by a slash or a star is code. */
  lemma SlashLapses(line: string, j: nat)
    requires j <= |line| && (j == |line| || (line[j] != '/' && line[j] != '*'))
    ensures LineCode(Slash, line, j) == "/" + LineCode(Code, line, j)
    ensures LineMode(Slash, line, j) == LineMode(Code, line, j)
  {
  }

  lemma {:induction false} LineCommentRuns(line: string, i: nat)
    requires i <= |line|
    ensures LineCode(LineComment, line, i) == "" && LineMode(LineComment, line, i) == Code
    decreases |line| - i
  {
    if i < |line| {
      LineCommentRuns(line, i + 1);
    }
  }

  /** How a search for a two-character delimiter moves on by one character. */
  lemma IndexStep(line: string, a: char, b: char, i: nat)
    requires i <= |line|
    ensures IndexOf(line, [a, b], i) ==
            if i + 1 < |line| && line[i] == a && line[i + 1] == b then Some(i)
            else if i < |line| then IndexOf(line, [a, b], i + 1) else None
  {
    if i + 1 < |line| {
      assert line[i..i + 2] == [line[i], line[i + 1]];
    }
  }

  ghost predicate BlockJump(line: string, i: nat, close: Option<nat>)
    requires i <= |line|
  {
    match close
    case None => LineCode(Block, line, i) == "" && LineMode(Block, line, i) == Block
    case Some(e) =>
      && i <= e && e + 2 <= |line|
      && LineCode(Block, line, i) == LineCode(Code, line, e + 2)
      && LineMode(Block, line, i) == LineMode(Code, line, e + 2)
  }

  /** Inside a block comment, a character that starts no closing delimiter changes nothing. */
  lemma BlockStep(line: string, i: nat)
    requires i < |line| && !(i + 1 < |line| && line[i] == '*' && line[i + 1] == '/')
    ensures LineCode(Block, line, i) == LineCode(Block, line, i + 1)
    ensures LineMode(Block, line, i) == LineMode(Block, line, i + 1)
  {
    if line[i] == '*' {
    }
  }

  /** Inside a block comment the automaton is silent up to the first closing delimiter. */
  lemma {:induction false} BlockRuns(line: string, i: nat)
    requires i <= |line|
    ensures BlockJump(line, i, IndexOf(line, "*/", i))
    decreases |line| - i
  {
    IndexStep(line, '*', '/', i);
    if i < |line| && !(i + 1 < |line| && line[i] == '*' && line[i + 1] == '/') {
      BlockRuns(line, i + 1);
      BlockStep(line, i);
    }
  }

  ghost predicate CodeJump(line: string, i: nat, block: Option<nat>, lineComment: Option<nat>)
    requires i <= |line|
  {
    if lineComment.Some? && (block.None? || lineComment.value < block.value) then
      && i <= lineComment.value < |line|
      && LineCode(Code, line, i) == line[i..lineComment.value] && LineMode(Code, line, i) == Code
    else if block.None? then
      LineCode(Code, line, i) == line[i..] && LineMode(Code, line, i) == Code
    else
      && i <= block.value && block.value + 2 <= |line|
      && LineCode(Code, line, i) == line[i..block.value] + LineCode(Block, line, block.value + 2)
      && LineMode(Code, line, i) == LineMode(Block, line, block.value + 2)
  }

  /** A character of code that opens no comment is copied. */
  lemma CodeStep(line: string, i: nat)
    requires i < |line|
    requires !(i + 1 < |line| && line[i] == '/' && (line[i + 1] == '/' || line[i + 1] == '*'))
    ensures LineCode(Code, line, i) == [line[i]] + LineCode(Code, line, i + 1)
    ensures LineMode(Code, line, i) == LineMode(Code, line, i + 1)
  {
    if line[i] == '/' {
      SlashLapses(line, i + 1);
    }
  }

  lemma SliceExtends(line: string, i: nat, e: nat, rest: string)
    requires i < e <= |line|
    ensures line[i..e] == [line[i]] + line[i + 1..e]
    ensures [line[i]] + (line[i + 1..e] + rest) == line[i..e] + rest
  {
  }

  lemma CodeJumpExtends(line: string, i: nat, block: Option<nat>, lineComment: Option<nat>)
    requires i < |line| && CodeJump(line, i + 1, block, lineComment)
    requires LineCode(Code, line, i) == [line[i]] + LineCode(Code, line, i + 1)
    requires LineMode(Code, line, i) == LineMode(Code, line, i + 1)
    ensures CodeJump(line, i, block, lineComment)
  {
    if lineComment.Some? && (block.None? || lineComment.value < block.value) {
      SliceExtends(line, i, lineComment.value, "");
    } else if block.None? {
      SliceExtends(line, i, |line|, "");
    } else {
      SliceExtends(line, i, block.value, LineCode(Block, line, block.value + 2));
    }
  }

  /** A comment that opens at once. */
  lemma OpensHere(line: string, i: nat)
    requires i + 1 < |line| && line[i] == '/'
    ensures line[i + 1] == '/' ==> LineCode(Code, line, i) == "" && LineMode(Code, line, i) == Code
    ensures line[i + 1] == '*' ==>
              && LineCode(Code, line, i) == LineCode(Block, line, i + 2)
              && LineMode(Code, line, i) == LineMode(Block, line, i + 2)
  {
    LineCommentRuns(line, i + 2);
    assert LineCode(Code, line, i) == LineCode(Slash, line, i + 1);
    assert LineMode(Code, line, i) == LineMode(Slash, line, i + 1);
  }

  /** Outside comments the automaton copies up to the first opening delimiter of either kind. */
  lemma {:induction false} CodeRuns(line: string, i: nat)
    requires i <= |line|
    ensures CodeJump(line, i, IndexOf(line, "/*", i), IndexOf(line, "//", i))
    decreases |line| - i
  {
    IndexStep(line, '/', '*', i);
    IndexStep(line, '/', '/', i);
    if i + 1 < |line| && line[i] == '/' && (line[i + 1] == '/' || line[i + 1] == '*') {
      OpensHere(line, i);
      assert line[i..i] == "";
    } else if i < |line| {
      CodeRuns(line, i + 1);
      CodeStep(line, i);
      CodeJumpExtends(line, i, IndexOf(line, "/*", i + 1), IndexOf(line, "//", i + 1));
    }
  }

  // ----- The stripper -----

  /** The stripped lines, by the automaton. */
  function Stripped(lines: seq<string>, m: Mode): seq<string> {
    if lines == [] then [] else [LineCode(m, lines[0], 0)] + Stripped(lines[1..], LineMode(m, lines[0], 0))
  }

  function ModeOf(inBlock: bool): Mode {
    if inBlock then Block else Code
  }

  /** Inside a block comment: on to the delimiter that closes it, or to the end of the line. */
  method SkipBlock(line: string, i: nat) returns (next: nat, closed: bool)
    requires i < |line|
    ensures i < next <= |line|
    ensures closed ==>
              && LineCode(Block, line, i) == LineCode(Code, line, next)
              && LineMode(Block, line, i) == LineMode(Code, line, next)
    ensures !closed ==> LineCode(Block, line, i) == "" && LineMode(Block, line, i) == Block
  {
    BlockRuns(line, i);
    var end := IndexOf(line, "*/", i);
    if end.None? {
      return |line|, false;
    }
    return end.value + 2, true;
  }

  /** Outside comments: the code up to the comment that opens first, or to the end of the line. */
  method TakeCode(line: string, i: nat) returns (code: string, next: nat, opens: bool)
    requires i < |line|
    ensures i < next <= |line|
    ensures opens ==>
              && LineCode(Code, line, i) == code + LineCode(Block, line, next)
              && LineMode(Code, line, i) == LineMode(Block, line, next)
    ensures !opens ==> LineCode(Code, line, i) == code && LineMode(Code, line, i) == Code
  {
    CodeRuns(line, i);
    var block := IndexOf(line, "/*", i);
    var lineComment := IndexOf(line, "//", i);
    if lineComment.Some? && (block.None? || lineComment.value < block.value) {
      return line[i..lineComment.value], |line|, false;
    }
    if block.None? {
      return line[i..], |line|, false;
    }
    return line[i..block.value], block.value + 2, true;
  }

  /** One turn of the outer loop: a line is stripped by jumping from delimiter to delimiter. */
  method StripLine(line: string, inBlock0: bool) returns (code: string, inBlock: bool)
    ensures code == LineCode(ModeOf(inBlock0), line, 0)
    ensures ModeOf(inBlock) == LineMode(ModeOf(inBlock0), line, 0)
  {
    inBlock, code := inBlock0, "";
    var i: nat := 0;
    ghost var whole, after := LineCode(ModeOf(inBlock0), line, 0), LineMode(ModeOf(inBlock0), line, 0);
    while i < |line|
      invariant i <= |line|
      invariant whole == code + LineCode(ModeOf(inBlock), line, i)
      invariant after == LineMode(ModeOf(inBlock), line, i)
      decreases |line| - i
    {
      if inBlock {
        var next, closed := SkipBlock(line, i);
        if !closed {
          return;
        }
        inBlock, i := false, next;
        continue;
      }
      var piece, next, opens := TakeCode(line, i);
      code := code + piece;
      if !opens {
        return;
      }
      inBlock, i := true, next;
    }
  }

  method StripComments(lines: seq<string>) returns (out: seq<string>)
    ensures out == Stripped(lines, Code)
  {
    out := [];
    var inBlock := false;
    for k := 0 to |lines|
      invariant out + Stripped(lines[k..], ModeOf(inBlock)) == Stripped(lines, Code)
    {
      assert lines[k..][1..] == lines[k + 1..];
      var code;
      code, inBlock := StripLine(lines[k], inBlock);
      out := out + [code];
    }
  }

  // ----- Over the whole text -----

  lemma {:induction false} LastLineRuns(m: Mode, line: string, i: nat)
    requires i <= |line| && '\n' !in line
    ensures TextCode(m, line[i..]) == LineCode(m, line, i)
    decreases |line| - i
  {
    if i < |line| {
      assert line[i] in line;
      LastLineRuns(Next(m, line[i]), line, i + 1);
      assert line[i..] == [line[i]] + line[i + 1..];
    }
  }

  lemma {:induction false} LineRuns(m: Mode, line: string, i: nat, rest: string)
    requires i <= |line| && '\n' !in line
    ensures TextCode(m, line[i..] + (['\n'] + rest)) ==
            LineCode(m, line, i) + (['\n'] + TextCode(LineMode(m, line, i), rest))
    decreases |line| - i
  {
    var end := ['\n'] + rest;
    if i == |line| {
      EndRuns(m, rest);
      assert line[i..] + end == end;
    } else {
      var c, tail := line[i], line[i + 1..];
      assert c in line && line[i..][0] == c && line[i..][1..] == tail;
      LineRuns(Next(m, c), line, i + 1, rest);
      FirstAndRest(line[i..], end);
      Regroup(Emit(m, c), LineCode(Next(m, c), line, i + 1), ['\n'] + TextCode(LineMode(m, line, i), rest));
    }
  }

  lemma EndRuns(m: Mode, rest: string)
    ensures TextCode(m, ['\n'] + rest) == Flush(m) + (['\n'] + TextCode(EndLine(m), rest))
  {
    assert (['\n'] + rest)[1..] == rest;
  }

  lemma JoinMore(parts: seq<string>)
    requires |parts| > 1
    ensures Join(parts, '\n') == parts[0] + (['\n'] + Join(parts[1..], '\n'))
  {
  }

  lemma {:induction false} LinesRun(lines: seq<string>, m: Mode)
    requires lines != [] && forall l :: l in lines ==> '\n' !in l
    ensures Join(Stripped(lines, m), '\n') == TextCode(m, Join(lines, '\n'))
  {
    var line := lines[0];
    assert line in lines && line[0..] == line;
    if |lines| == 1 {
      LastLineRuns(m, line, 0);
    } else {
      var m' := LineMode(m, line, 0);
      LineRuns(m, line, 0, Join(lines[1..], '\n'));
      LinesRun(lines[1..], m');
      JoinMore(lines);
      assert Stripped(lines, m)[1..] == Stripped(lines[1..], m') && Stripped(lines[1..], m') != [];
      JoinMore(Stripped(lines, m));
    }
  }

  /**
   Stripping the lines of a text and joining what is left is one run of the automaton over the text,
   block comments across lines included, and each line gives exactly one line.
   */
  lemma StrippingIsOneRun(text: string)
    ensures Join(Stripped(Split(text, '\n'), Code), '\n') == TextCode(Code, text)
    ensures |Stripped(Split(text, '\n'), Code)| == |Split(text, '\n')|
  {
    JoinSplit(text, '\n');
    LinesRun(Split(text, '\n'), Code);
    OnePerLine(Split(text, '\n'), Code);
  }

  lemma {:induction false} OnePerLine(lines: seq<string>, m: Mode)
    ensures |Stripped(lines, m)| == |lines|
  {
    if lines != [] {
      OnePerLine(lines[1..], LineMode(m, lines[0], 0));
    }
  }

  // ----- What is stripped, in the text's own terms -----

  /** Text without a slash is code. */
  lemma {:induction false} CodeStays(code: string, rest: string)
    requires '/' !in code
    ensures TextCode(Code, code + rest) == code + TextCode(Code, rest)
  {
    if code == "" {
      assert code + rest == rest;
    } else {
      assert code[0] in code && (code + rest)[1..] == code[1..] + rest;
      CodeStays(code[1..], rest);
    }
  }

  /** So is a slash that opens nothing. */
  lemma LoneSlashStays(c: char, rest: string)
    requires c != '/' && c != '*' && c != '\n'
    ensures TextCode(Code, "/" + ([c] + rest)) == "/" + ([c] + TextCode(Code, rest))
  {
    Regroup("/", [c], TextCode(Code, rest));
    assert Emit(Slash, c) == "/" + [c];
  }

  function Newlines(s: string): string {
    if s == "" then "" else (if s[0] == '\n' then "\n" else "") + Newlines(s[1..])
  }

  /** The text closes no block comment. */
  ghost predicate ClosesNothing(body: string) {
    forall k :: 0 < k < |body| ==> !(body[k - 1] == '*' && body[k] == '/')
  }

  lemma CloserEnds(m: Mode, rest: string)
    requires m.Block? || m.Star?
    ensures TextCode(m, "*/" + rest) == TextCode(Code, rest)
  {
    assert "*/" + rest == ['*'] + ("/" + rest);
  }

  lemma {:induction false} BodyVanishes(m: Mode, body: string, rest: string)
    requires ClosesNothing(body) && (m.Block? || (m.Star? && (body == "" || body[0] != '/')))
    ensures TextCode(m, body + ("*/" + rest)) == Newlines(body) + TextCode(Code, rest)
    decreases |body|
  {
    var end := "*/" + rest;
    if body == "" {
      CloserEnds(m, rest);
      assert body + end == end;
    } else {
      var c, more := body[0], body[1..];
      BodyVanishes(if c == '*' then Star else Block, more, rest);
      FirstAndRest(body, end);
      Regroup(if c == '\n' then "\n" else "", Newlines(more), TextCode(Code, rest));
    }
  }

  /** A block comment leaves the newlines within it, however many lines it spans. */
  lemma BlockCommentVanishes(code: string, body: string, rest: string)
    requires '/' !in code && ClosesNothing(body)
    ensures TextCode(Code, code + ("/*" + (body + ("*/" + rest)))) == code + Newlines(body) + TextCode(Code, rest)
  {
    var inside := body + ("*/" + rest);
    CodeStays(code, "/*" + inside);
    assert ("/*" + inside)[1..] == "*" + inside && ("*" + inside)[1..] == inside;
    assert TextCode(Code, "/*" + inside) == TextCode(Slash, "*" + inside) == TextCode(Block, inside);
    BodyVanishes(Block, body, rest);
  }

  /** A line comment vanishes up to the newline that ends it. */
  lemma LineCommentVanishes(code: string, body: string, rest: string)
    requires '/' !in code && '\n' !in body
    ensures TextCode(Code, code + ("//" + (body + ("\n" + rest)))) == code + "\n" + TextCode(Code, rest)
    ensures TextCode(Code, code + ("//" + body)) == code
  {
    var inside := body + ("\n" + rest);
    CodeStays(code, "//" + inside);
    CodeStays(code, "//" + body);
    assert ("//" + inside)[1..] == "/" + inside && ("/" + inside)[1..] == inside;
    assert ("//" + body)[1..] == "/" + body && ("/" + body)[1..] == body;
    assert TextCode(Code, "//" + inside) == TextCode(Slash, "/" + inside) == TextCode(LineComment, inside);
    assert TextCode(Code, "//" + body) == TextCode(Slash, "/" + body) == TextCode(LineComment, body);
    LineBodyVanishes(body, rest);
  }

  lemma {:induction false} LineBodyVanishes(body: string, rest: string)
    requires '\n' !in body
    ensures TextCode(LineComment, body + ("\n" + rest)) == "\n" + TextCode(Code, rest)
    ensures TextCode(LineComment, body) == ""
  {
    if body == "" {
      assert body + ("\n" + rest) == "\n" + rest && ("\n" + rest)[1..] == rest;
    } else {
      assert body[0] in body && (body + ("\n" + rest))[1..] == body[1..] + ("\n" + rest);
      LineBodyVanishes(body[1..], rest);
    }
  }
}
