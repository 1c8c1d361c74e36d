/**
 Traces of the Gate's windowed, rewinding lexer: what it made of each answer of its scanner.

 The scanner it drives is any function of the call number, the position and the window's end, so what is
 proved holds for every scanner, stateful or not, that stays inside the window it was pointed at.
 */
module LexerTrace {
  import opened Text
  import opened Coverage
  import opened Windows

  // ----- What the scanner answers -----

  datatype Kind =
    | EndOfFile
    | StringLiteral
    | NumericLiteral
    | Identifier
    | RegularExpressionLiteral
    | NoSubstitutionTemplateLiteral
    | TemplateHead
    | TemplateMiddle
    | TemplateTail
    | Trivia(code: nat)
    | Other(code: nat)

  /** `OPAQUE_KINDS`: kinds that take an arbitrary span as one unit. */
  predicate Opaque(kind: Kind) {
    || kind.StringLiteral? || kind.NoSubstitutionTemplateLiteral? || kind.TemplateHead?
    || kind.TemplateMiddle? || kind.TemplateTail? || kind.RegularExpressionLiteral?
  }

  /** Kinds whose cooked value a token keeps. */
  predicate KeepsValue(kind: Kind) {
    kind.StringLiteral? || kind.NumericLiteral? || kind.Identifier? || kind.NoSubstitutionTemplateLiteral?
  }

  datatype Answer = Answer(kind: Kind, start: nat, end: nat, unterminated: bool, value: string)

  type Scanner = (nat, nat, nat) -> Answer

  /** One call made to the scanner. */
  datatype Ask = Ask(call: nat, pos: nat, window: LexWindow)

  function Reply(scan: Scanner, ask: Ask): Answer {
    scan(ask.call, ask.pos, ask.window.end)
  }

  /** A scanner never leaves the span it was given, and only end-of-file starts at the span's end. */
  ghost predicate Bounded(scan: Scanner) {
    forall call: nat, pos: nat, end: nat :: pos <= end ==>
      var a := scan(call, pos, end);
      pos <= a.start <= a.end <= end && (a.kind.EndOfFile? <==> a.start == end)
  }

  /** A literal with no closing delimiter. */
  predicate Unterminated(a: Answer) {
    Opaque(a.kind) && a.unterminated
  }

  /** A token that took no characters although more follow. */
  predicate Stalled(a: Answer) {
    !a.kind.EndOfFile? && a.end == a.start
  }

  /** The answers that never become a token. */
  predicate Declined(a: Answer) {
    Unterminated(a) || a.kind.Trivia? || Stalled(a)
  }

  /**
   A scanner that skips, before a token, only text that is accounted for, and stalls only where nothing
   accounted for starts. What it skips before end-of-file is not restricted.
   */
  ghost predicate Careful(scan: Scanner, source: string) {
    forall call: nat, pos: nat, end: nat :: pos <= end <= |source| ==>
      var a := scan(call, pos, end);
      !a.kind.EndOfFile? ==>
        && a.start <= |source| && Accounted(source, pos, a.start)
        && (Stalled(a) && !Unterminated(a) && !a.kind.Trivia? ==> Rejected(source, a.start))
  }

  // ----- What the lexer makes of a source -----

  datatype Tok = Tok(kind: Kind, value: string, pos: nat)

  function TokOf(a: Answer): Tok {
    Tok(a.kind, if KeepsValue(a.kind) then a.value else "", a.start)
  }

  // ----- The trace of a run: what each call of the scanner led to -----

  datatype Outcome = Token | Passed | Repeated | Ended

  /**
   One call of the scanner. It skipped `[ask.pos, mid)`; `[mid, hi)` is the token it gave, or the one
   character passed. A call is repeated when the character that stalled is looked at again, and the last
   call of a window ends it.
   */
  datatype Turn = Turn(ask: Ask, mid: nat, hi: nat, outcome: Outcome)

  /** A zero-width token at `at`, which moves the scanner but not what counts as reached. */
  predicate StallAt(a: Answer, at: nat) {
    at == a.start && Stalled(a) && !Unterminated(a) && !a.kind.Trivia?
  }

  /** Where a token, or the scanner's own skipping, would swallow text. */
  ghost function Swallowing(source: string, a: Answer, reached: nat): (r: Option<nat>)
    requires a.start <= |source|
    ensures r.Some? ==> r.value <= a.start
  {
    if Unterminated(a) then Some(a.start) else Unaccounted(source, reached, a.start)
  }

  /**
   What a call may lead to. Text is skipped only if the coverage rule accepts it; a character is passed only
   where that rule first rejects the skipped text, or where the scanner declined to give a token.
   */
  ghost predicate Legal(source: string, a: Answer, covered: nat, reached: nat, t: Turn) {
    && t.ask.window.pos <= t.ask.pos <= t.mid <= t.hi <= t.ask.window.end <= |source| && t.mid <= a.start <= |source|
    && match t.outcome
       case Token =>
         && t.mid == a.start < a.end == t.hi && !a.kind.EndOfFile? && !Declined(a)
         && Accounted(source, covered, t.mid) && Accounted(source, reached, t.mid)
       case Passed =>
         t.hi == t.mid + 1 &&
         if t.mid == a.start then
           Declined(a) && Accounted(source, if Unterminated(a) then covered else reached, t.mid)
         else
           || (!Unterminated(a) && Unaccounted(source, reached, a.start) == Some(t.mid)
               && Accounted(source, covered, t.mid))
           || (!Declined(a) && Accounted(source, reached, a.start)
               && Unaccounted(source, covered, a.start) == Some(t.mid))
       case Repeated =>
         && t.mid == t.hi == t.ask.pos == reached + 1
         && !Unterminated(a) && Unaccounted(source, reached, a.start) == Some(reached)
       case Ended =>
         && a.kind.EndOfFile? && t.mid == t.hi == t.ask.window.end == a.start
         && Accounted(source, covered, t.mid) && Accounted(source, reached, t.mid)
  }

  /** The source is refused: text would be swallowed at a place behind text that nothing accounts for. */
  ghost predicate Hidden(source: string, a: Answer, covered: nat, reached: nat, offset: nat) {
    a.start <= |source| &&
    match Swallowing(source, a, reached)
    case None => false
    case Some(at) => covered < at && Unaccounted(source, covered, at) == Some(offset)
  }

  ghost function Back(turns: seq<Turn>): Turn
    requires turns != []
  {
    turns[|turns| - 1]
  }

  ghost function Before(turns: seq<Turn>): seq<Turn>
    requires turns != []
  {
    turns[..|turns| - 1]
  }

  /** Where the next call asks. */
  ghost function End(turns: seq<Turn>): nat {
    if turns == [] then 0 else Back(turns).hi
  }

  /** How many windows have ended. */
  ghost function Done(turns: seq<Turn>): nat {
    if turns == [] then 0 else Done(Before(turns)) + if Back(turns).outcome.Ended? then 1 else 0
  }

  /** The cursor `covered`, which the end of a window leaves where it was. */
  ghost function Covered(turns: seq<Turn>): nat {
    if turns == [] then 0 else if Back(turns).outcome.Ended? then Covered(Before(turns)) else Back(turns).hi
  }

  /** The cursor `reached`, which a stalled token leaves one character behind. */
  ghost function Reached(scan: Scanner, turns: seq<Turn>): nat {
    if turns == [] then 0
    else
      var t := Back(turns);
      if t.outcome.Passed? && StallAt(Reply(scan, t.ask), t.mid) then t.mid else t.hi
  }

  /** The question that follows these turns. */
  ghost function NextAsk(windows: seq<LexWindow>, turns: seq<Turn>): Ask
    requires Done(turns) < |windows|
  {
    Ask(|turns|, End(turns), windows[Done(turns)])
  }

  /** One turn for each call of the scanner, asked where the turn before ended, window after window. */
  ghost predicate Traced(source: string, scan: Scanner, windows: seq<LexWindow>, turns: seq<Turn>) {
    turns == [] ||
    var before, t := Before(turns), Back(turns);
    Traced(source, scan, windows, before) && Follows(source, scan, windows, before, t)
  }

  /** The turn asks what follows the turns before it, and is what the answer may lead to. */
  ghost predicate Follows(source: string, scan: Scanner, windows: seq<LexWindow>, before: seq<Turn>, t: Turn) {
    && Done(before) < |windows| && t.ask == NextAsk(windows, before)
    && Legal(source, Reply(scan, t.ask), Covered(before), Reached(scan, before), t)
  }

  /** The tokens of a trace, in order. */
  ghost function Emitted(scan: Scanner, turns: seq<Turn>): seq<Tok> {
    if turns == [] then []
    else Emitted(scan, Before(turns)) + if Back(turns).outcome.Token? then [TokOf(Reply(scan, Back(turns).ask))] else []
  }

  // ----- What a trace gives its reader -----

  /** Each turn stands on the trace before it. */
  lemma {:induction false} TurnStands(source: string, scan: Scanner, windows: seq<LexWindow>, turns: seq<Turn>, k: nat)
    requires Traced(source, scan, windows, turns) && k < |turns|
    ensures Traced(source, scan, windows, turns[..k]) && Follows(source, scan, windows, turns[..k], turns[k])
  {
    PrefixOfFront(turns, k);
    if k < |turns| - 1 {
      TurnStands(source, scan, windows, Before(turns), k);
    }
  }

  lemma PrefixOfFront(turns: seq<Turn>, k: nat)
    requires k < |turns|
    ensures Before(turns)[..k] == turns[..k]
    ensures k < |turns| - 1 ==> Before(turns)[k] == turns[k]
    ensures k == |turns| - 1 ==> turns[..k] == Before(turns) && turns[k] == Back(turns)
  {
  }

  lemma PrefixGrows(short: seq<Turn>, long: seq<Turn>)
    requires 0 < |short| <= |long| && Before(short) == long[..|short| - 1] && Back(short) == long[|short| - 1]
    ensures short == long[..|short|]
  {
    assert short == Before(short) + [Back(short)];
  }

  /** The cursors of a trace never pass its end, and only the two cases above leave them behind it. */
  lemma {:induction false} CursorsOfTrace(source: string, scan: Scanner, windows: seq<LexWindow>, turns: seq<Turn>)
    requires Traced(source, scan, windows, turns)
    ensures Covered(turns) <= End(turns) <= |source| && Reached(scan, turns) <= End(turns) <= Reached(scan, turns) + 1
    ensures Reached(scan, turns) < End(turns) ==> Covered(turns) == End(turns)
    ensures Covered(turns) < End(turns) ==> Back(turns).outcome.Ended?
    ensures Reached(scan, turns) < End(turns) ==>
              Back(turns).outcome.Passed? && StallAt(Reply(scan, Back(turns).ask), Back(turns).mid)
  {
    if turns != [] {
      CursorsOfTrace(source, scan, windows, Before(turns));
    }
  }

  /** Every offset of the source lies in one of the turns: no span is dropped. */
  lemma {:induction false} EveryOffsetIsAccountedFor(
    source: string, scan: Scanner, windows: seq<LexWindow>, turns: seq<Turn>, i: nat)
    requires Traced(source, scan, windows, turns) && i < End(turns)
    ensures exists k :: 0 <= k < |turns| && turns[k].ask.pos <= i < turns[k].hi
  {
    if i < Back(turns).ask.pos {
      var front := Before(turns);
      EveryOffsetIsAccountedFor(source, scan, windows, front, i);
      var k :| 0 <= k < |front| && front[k].ask.pos <= i < front[k].hi;
      assert turns[k] == front[k];
    }
  }

  /** Offset `i` is part of an emitted token. */
  ghost predicate InToken(turns: seq<Turn>, i: nat) {
    turns != [] &&
    ((Back(turns).outcome.Token? && Back(turns).mid <= i < Back(turns).hi) || InToken(Before(turns), i))
  }

  /** Offset `i` is a single character the lexer was rewound past. */
  ghost predicate IsPassed(turns: seq<Turn>, i: nat) {
    turns != [] && ((Back(turns).outcome.Passed? && Back(turns).mid == i) || IsPassed(Before(turns), i))
  }

  /** The scanner stalled at offset `i`. */
  ghost predicate IsStalled(scan: Scanner, turns: seq<Turn>, i: nat) {
    turns != [] &&
    var t := Back(turns);
    (t.outcome.Passed? && t.mid == i && StallAt(Reply(scan, t.ask), i)) || IsStalled(scan, Before(turns), i)
  }

  /** No token holds offset `c`, nor was the lexer rewound past it except by a stall. */
  ghost predicate Untouched(scan: Scanner, turns: seq<Turn>, c: nat) {
    !InToken(turns, c) && (IsPassed(turns, c) ==> IsStalled(scan, turns, c))
  }

  /** Whitespace, or text of a comment or shebang that starts where nothing was lexed. */
  ghost predicate Unseen(source: string, scan: Scanner, turns: seq<Turn>, i: nat) {
    i < |source| &&
    (IsSpace(source[i]) || exists c: nat :: c <= i && CommentCovers(source, c, i) && Untouched(scan, turns, c))
  }

  /** No token and no passed character stands at or past the cursors, but for the one that stalled. */
  lemma {:induction false} UntouchedAhead(
    source: string, scan: Scanner, windows: seq<LexWindow>, turns: seq<Turn>, c: nat)
    requires Traced(source, scan, windows, turns) && (Covered(turns) <= c || Reached(scan, turns) <= c)
    ensures Untouched(scan, turns, c)
    ensures Covered(turns) <= c ==> !IsPassed(turns, c)
  {
    if turns != [] {
      CursorsOfTrace(source, scan, windows, Before(turns));
      UntouchedAhead(source, scan, windows, Before(turns), c);
    }
  }

  /** What the last call skipped is unseen. */
  lemma SkippedIsUnseen(source: string, scan: Scanner, windows: seq<LexWindow>, turns: seq<Turn>, i: nat)
    requires Traced(source, scan, windows, turns) && turns != [] && Back(turns).ask.pos <= i < Back(turns).mid
    ensures Unseen(source, scan, turns, i)
  {
    var before, t := Before(turns), Back(turns);
    var covered, reached := Covered(before), Reached(scan, before);
    CursorsOfTrace(source, scan, windows, before);
    if Unaccounted(source, reached, Reply(scan, t.ask).start) == Some(t.mid) {
      UnaccountedIsFirst(source, reached, Reply(scan, t.ask).start);
    }
    if Unaccounted(source, covered, Reply(scan, t.ask).start) == Some(t.mid) {
      UnaccountedIsFirst(source, covered, Reply(scan, t.ask).start);
    }
    var from := if Accounted(source, covered, t.mid) then covered else reached;
    AccountedIsInert(source, from, t.mid, i);
    if !IsSpace(source[i]) {
      var c: nat :| from <= c <= i && CommentCovers(source, c, i);
      UntouchedAhead(source, scan, windows, before, c);
      assert Untouched(scan, turns, c);
    }
  }

  /**
   An offset in no token and not passed is text nobody executes: whitespace, or inside a comment or shebang
   that itself starts outside every token, and not at a character rewound past unless the scanner stalled there.
   */
  lemma {:induction false} UnlexedTextIsInert(
    source: string, scan: Scanner, windows: seq<LexWindow>, turns: seq<Turn>, i: nat)
    requires Traced(source, scan, windows, turns) && i < End(turns)
    requires !InToken(turns, i) && !IsPassed(turns, i)
    ensures Unseen(source, scan, turns, i)
  {
    var before, t := Before(turns), Back(turns);
    if i < t.ask.pos {
      UnlexedTextIsInert(source, scan, windows, before, i);
      if !IsSpace(source[i]) {
        var c: nat :| c <= i && CommentCovers(source, c, i) && Untouched(scan, before, c);
        assert Untouched(scan, turns, c);
      }
    } else {
      SkippedIsUnseen(source, scan, windows, turns, i);
    }
  }

  /**
   A token the scanner gives is kept, whole, when the coverage rule accepts what it skipped. Both cursors are
   the place it was asked at unless the turn before ended a window or stalled.
   */
  lemma NoTokenIsDropped(source: string, scan: Scanner, windows: seq<LexWindow>, turns: seq<Turn>, k: nat)
    requires Traced(source, scan, windows, turns) && k < |turns|
    requires var a := Reply(scan, turns[k].ask);
             && !a.kind.EndOfFile? && !Declined(a) && a.start <= |source|
             && Accounted(source, Covered(turns[..k]), a.start) && Accounted(source, Reached(scan, turns[..k]), a.start)
    ensures var a := Reply(scan, turns[k].ask);
            turns[k] == Turn(turns[k].ask, a.start, a.end, Token)
  {
    TurnStands(source, scan, windows, turns, k);
  }

  /** A character is passed only where the coverage rule rejects it or the scanner declined to give a token. */
  lemma PassedForAReason(source: string, scan: Scanner, windows: seq<LexWindow>, turns: seq<Turn>, k: nat)
    requires Traced(source, scan, windows, turns) && k < |turns| && turns[k].outcome.Passed?
    ensures var a := Reply(scan, turns[k].ask);
            if turns[k].mid < a.start then StartsNothing(source, turns[k].mid)
            else turns[k].mid == a.start && Declined(a)
  {
    TurnStands(source, scan, windows, turns, k);
    var a, before := Reply(scan, turns[k].ask), turns[..k];
    if turns[k].mid < a.start {
      if Unaccounted(source, Reached(scan, before), a.start) == Some(turns[k].mid) {
        UnaccountedIsFirst(source, Reached(scan, before), a.start);
      } else {
        UnaccountedIsFirst(source, Covered(before), a.start);
      }
    }
  }

  lemma {:induction false} EndGrows(source: string, scan: Scanner, windows: seq<LexWindow>, turns: seq<Turn>, j: nat)
    requires Traced(source, scan, windows, turns) && j < |turns|
    ensures turns[j].hi <= End(turns) <= |source|
  {
    if j < |turns| - 1 {
      EndGrows(source, scan, windows, Before(turns), j);
    }
  }

  /** The turns overlap nowhere, and each token is a non-empty stretch of one window. */
  lemma TurnsAreDisjoint(source: string, scan: Scanner, windows: seq<LexWindow>, turns: seq<Turn>, j: nat, k: nat)
    requires Traced(source, scan, windows, turns) && j <= k < |turns|
    ensures turns[j].ask.pos <= turns[j].mid <= turns[j].hi <= End(turns) <= |source|
    ensures turns[j].outcome.Token? ==> turns[j].mid < turns[j].hi
    ensures turns[j].ask.window in windows
            && turns[j].ask.window.pos <= turns[j].ask.pos && turns[j].hi <= turns[j].ask.window.end
    ensures j < k ==> turns[j].hi <= turns[k].ask.pos
  {
    TurnStands(source, scan, windows, turns, j);
    EndGrows(source, scan, windows, turns, j);
    if j < k {
      TurnStands(source, scan, windows, turns, k);
      EndGrows(source, scan, windows, turns[..k], j);
    }
  }

  ghost predicate Increasing(toks: seq<Tok>, n: nat) {
    && (forall j :: 0 <= j < |toks| ==> toks[j].pos < n)
    && forall j, k :: 0 <= j < k < |toks| ==> toks[j].pos < toks[k].pos
  }

  /** Positions strictly increase whatever was rewound, and there are no more tokens than characters. */
  lemma {:induction false} TokensIncrease(source: string, scan: Scanner, windows: seq<LexWindow>, turns: seq<Turn>)
    requires Traced(source, scan, windows, turns)
    ensures |Emitted(scan, turns)| <= End(turns) && Increasing(Emitted(scan, turns), End(turns))
  {
    if turns != [] {
      TokensIncrease(source, scan, windows, Before(turns));
    }
  }

  /** The scanner is called at most twice for each character and once more for each window. */
  lemma {:induction false} CallsAreBounded(source: string, scan: Scanner, windows: seq<LexWindow>, turns: seq<Turn>)
    requires Traced(source, scan, windows, turns)
    ensures |turns| + End(turns) - Reached(scan, turns) <= 2 * End(turns) + Done(turns)
  {
    if turns != [] {
      CursorsOfTrace(source, scan, windows, turns);
      CursorsOfTrace(source, scan, windows, Before(turns));
      CallsAreBounded(source, scan, windows, Before(turns));
    }
  }

  // ----- There is only one trace -----

  lemma TurnIsForced(source: string, a: Answer, covered: nat, reached: nat, t: Turn, u: Turn)
    requires Legal(source, a, covered, reached, t) && Legal(source, a, covered, reached, u) && t.ask == u.ask
    ensures t == u
  {
    if Unaccounted(source, reached, a.start).Some? {
      UnaccountedIsFirst(source, reached, a.start);
    }
  }

  lemma HiddenHasNoTurn(source: string, a: Answer, covered: nat, reached: nat, offset: nat, t: Turn)
    requires Hidden(source, a, covered, reached, offset)
    requires reached < t.ask.pos ==> covered == t.ask.pos
    ensures !Legal(source, a, covered, reached, t)
  {
    if Unaccounted(source, reached, a.start).Some? {
      UnaccountedIsFirst(source, reached, a.start);
    }
  }

  lemma NextTurnIsForced(source: string, scan: Scanner, windows: seq<LexWindow>, short: seq<Turn>, long: seq<Turn>)
    requires Traced(source, scan, windows, short) && Traced(source, scan, windows, long)
    requires 0 < |short| <= |long| && Before(short) == long[..|short| - 1]
    ensures Back(short) == long[|short| - 1]
  {
    var before, t := Before(short), long[|short| - 1];
    TurnStands(source, scan, windows, long, |short| - 1);
    TurnIsForced(source, Reply(scan, t.ask), Covered(before), Reached(scan, before), Back(short), t);
  }

  /** Of two traces of one source one is a prefix of the other: the scanner decides what becomes of the source. */
  lemma {:induction false} TraceIsUnique(
    source: string, scan: Scanner, windows: seq<LexWindow>, short: seq<Turn>, long: seq<Turn>)
    requires Traced(source, scan, windows, short) && Traced(source, scan, windows, long) && |short| <= |long|
    ensures short == long[..|short|]
  {
    if short != [] {
      TraceIsUnique(source, scan, windows, Before(short), long);
      NextTurnIsForced(source, scan, windows, short, long);
      PrefixGrows(short, long);
    }
  }

  /** The trace goes no further: the answer to its next question has the source refused at `offset`. */
  ghost predicate Refused(source: string, scan: Scanner, windows: seq<LexWindow>, turns: seq<Turn>, offset: nat) {
    && Traced(source, scan, windows, turns) && Done(turns) < |windows|
    && Hidden(source, Reply(scan, NextAsk(windows, turns)), Covered(turns), Reached(scan, turns), offset)
  }

  /** No trace goes further than one that is refused: a source is refused or lexed, never both. */
  lemma RefusalIsFinal(source: string, scan: Scanner, windows: seq<LexWindow>,
                       refused: seq<Turn>, offset: nat, turns: seq<Turn>)
    requires Refused(source, scan, windows, refused, offset) && Traced(source, scan, windows, turns)
    ensures |turns| <= |refused| && Done(turns) < |windows|
    ensures forall o :: Refused(source, scan, windows, turns, o) ==> turns == refused && o == offset
  {
    var n, m := |refused|, |turns|;
    if n < m {
      TraceIsUnique(source, scan, windows, refused, turns);
      TurnStands(source, scan, windows, turns, n);
      CursorsOfTrace(source, scan, windows, refused);
      HiddenHasNoTurn(source, Reply(scan, turns[n].ask), Covered(refused), Reached(scan, refused), offset, turns[n]);
    } else {
      TraceIsUnique(source, scan, windows, turns, refused);
      if m < n {
        TurnStands(source, scan, windows, refused, m);
        CursorsOfTrace(source, scan, windows, turns);
        forall o
          ensures !Refused(source, scan, windows, turns, o)
        {
          if Refused(source, scan, windows, turns, o) {
            HiddenHasNoTurn(source, Reply(scan, refused[m].ask), Covered(turns), Reached(scan, turns), o, refused[m]);
          }
        }
      } else {
        assert turns == refused;
      }
    }
  }
}
