/** Two sources at which the lexer does what its comments do not say. */
module LexerCases {
  import opened Text
  import opened Coverage
  import opened Windows
  import opened LexerTrace
  import opened Lexer

  /** A scanner that reaches the end of every span but one. */
  function Only(at: nat, to: nat, a: Answer): Scanner {
    (call: nat, pos: nat, end: nat) => if pos == at && end == to then a else Answer(EndOfFile, end, end, false, "")
  }

  // ----- A comment into a window -----

  const CROSSED := "///*\nx*/`"

  /** The backtick that opens an unterminated template. */
  const BACKTICK := Answer(NoSubstitutionTemplateLiteral, 8, 9, true, "")

  /** Seen from the first window a line comment ends at the newline; seen from the second a block comment does not. */
  lemma CrossedPieces()
    ensures Accounted(CROSSED, 0, 2) && Accounted(CROSSED, 2, 2)
    ensures Accounted(CROSSED, 2, 8) && Unaccounted(CROSSED, 0, 8) == Some(5)
  {
    var s := CROSSED;
    assert s[0..2] == "//" && s[2..4] == "/*" && s[4..6] == "\nx" && s[5..7] == "x*" && s[6..8] == "*/";
    assert s[2..3] == "/" && s[3..4] == "*" && s[4..5] == "\n";
    assert IndexOf(s, "*/", 4) == Some(6) && IndexOf(s, "\n", 2) == Some(4);
    assert PieceEnd(s, 2, 8) == Some(8) && PieceEnd(s, 0, 8) == Some(5) && PieceEnd(s, 0, 2) == Some(5);
    assert PieceEnd(s, 5, 8) == None;
  }

  const CODE := LexWindow(0, 2, false)

  const TEXT := LexWindow(2, 9, true)

  lemma CrossedWindows(windows: seq<LexWindow>)
    requires Chain(windows, 0, |CROSSED|) && TextWindows(windows) == Normalized([TextRange(2, 9)])
    ensures windows == [CODE, TEXT]
  {
    var r, cut := TextRange(2, 9), [CODE, TEXT];
    assert Front([r]) == [] && SortByPos([r]) == [r] && Normalized([r]) == [r];
    assert Front(cut) == [CODE] && Front([CODE]) == [];
    assert TextWindows([CODE]) == [];
    assert Chain(cut, 0, 9) && TextWindows(cut) == [r];
    WindowsAreUnique(windows, cut, 0, 9);
  }

  /** The one call the first window takes. */
  const FIRST := Turn(Ask(0, 0, CODE), 2, 2, Ended)

  lemma CrossedIsRefused()
    ensures Refused(CROSSED, Only(2, 9, BACKTICK), [CODE, TEXT], [FIRST], 5)
  {
    var scan, windows := Only(2, 9, BACKTICK), [CODE, TEXT];
    CrossedPieces();
    var turns := Take(CROSSED, scan, windows, [], [], 0, 0, 0, 0, 0, FIRST);
    assert turns == [FIRST];
    assert Reply(scan, NextAsk(windows, turns)) == BACKTICK;
  }

  /**
   A careful scanner can be refused: cut at offset 2, the source above is, at offset 5, whatever trace one
   follows. A comment runs from the first window into the second, which is lexed as if it did not.
   */
  lemma CommentIntoWindowIsRefused(windows: seq<LexWindow>, turns: seq<Turn>)
    requires Chain(windows, 0, |CROSSED|) && TextWindows(windows) == Normalized([TextRange(2, 9)])
    requires Traced(CROSSED, Only(2, 9, BACKTICK), windows, turns)
    ensures Bounded(Only(2, 9, BACKTICK)) && Careful(Only(2, 9, BACKTICK), CROSSED)
    ensures Done(turns) < |windows|
    ensures forall o :: Refused(CROSSED, Only(2, 9, BACKTICK), windows, turns, o) ==> o == 5
  {
    CrossedPieces();
    CrossedWindows(windows);
    CrossedIsRefused();
    RefusalIsFinal(CROSSED, Only(2, 9, BACKTICK), windows, [FIRST], 5, turns);
  }

  // ----- A character that opens nothing -----

  const HASH := LexWindow(0, 1, false)

  /** The scanner stalls at the `#`. */
  const STALLED := Answer(Kind.Other(0), 0, 0, false, "")

  const HASH_TURNS := [
    Turn(Ask(0, 0, HASH), 0, 1, Passed), Turn(Ask(1, 1, HASH), 1, 1, Repeated), Turn(Ask(2, 1, HASH), 1, 1, Ended)]

  /**
   A lone `#` is lexed in three calls, and at the second the lexer rewinds past it as text that would be
   swallowed, though it opens nothing.
   */
  lemma HashIsRewoundPast()
    ensures var scan := Only(0, 1, STALLED);
            && Bounded(scan) && Traced("#", scan, [HASH], HASH_TURNS) && Done(HASH_TURNS) == 1
            && Swallowing("#", Reply(scan, HASH_TURNS[1].ask), Reached(scan, HASH_TURNS[..1])) == Some(0)
  {
    var scan := Only(0, 1, STALLED);
    var one := Take("#", scan, [HASH], [], [], 0, 0, 0, 0, 0, HASH_TURNS[0]);
    var two := Take("#", scan, [HASH], one, [], 1, 1, 0, 1, 0, HASH_TURNS[1]);
    var three := Take("#", scan, [HASH], two, [], 2, 1, 0, 1, 1, HASH_TURNS[2]);
    assert one == HASH_TURNS[..1] && three == HASH_TURNS;
  }
}
