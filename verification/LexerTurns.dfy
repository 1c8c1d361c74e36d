/**
 What each answer of the scanner leads to, read off the answer itself and the turns before it: a second account
 of the lexer's turns, which uses neither its cursors nor its classes of token kinds.
 */
module LexerTurns {
  import opened Text
  import opened Coverage
  import opened Windows
  import opened LexerTrace
  import opened Lexer

  /** A literal of one of the six kinds that ends without its closing delimiter. */
  ghost predicate OpenLiteral(a: Answer) {
    match a.kind
    case StringLiteral => a.unterminated
    case NoSubstitutionTemplateLiteral => a.unterminated
    case TemplateHead => a.unterminated
    case TemplateMiddle => a.unterminated
    case TemplateTail => a.unterminated
    case RegularExpressionLiteral => a.unterminated
    case _ => false
  }

  /** The last token or passed character ends at `from`; 0 when there is none yet. */
  ghost predicate LexedUpTo(turns: seq<Turn>, from: nat) {
    || (from == 0 && forall j :: 0 <= j < |turns| ==> !Lexes(turns[j]))
    || exists j :: 0 <= j < |turns| && Lexes(turns[j]) && turns[j].hi == from
                   && forall i :: j < i < |turns| ==> !Lexes(turns[i])
  }

  ghost predicate Lexes(t: Turn) {
    t.outcome.Token? || t.outcome.Passed?
  }

  /** The turn before gave a zero-width token, and its character alone was passed. */
  ghost predicate BehindStall(scan: Scanner, turns: seq<Turn>) {
    turns != [] &&
    var t := turns[|turns| - 1];
    var a := Reply(scan, t.ask);
    t.outcome.Passed? && t.mid == a.start == a.end && !a.kind.Trivia? && !OpenLiteral(a)
  }

  /** Where the scanner's skipping is looked at from: where it was asked, or the stalled character before. */
  ghost function LooksFrom(scan: Scanner, turns: seq<Turn>, pos: nat): nat {
    if BehindStall(scan, turns) && pos > 0 then pos - 1 else pos
  }

  lemma {:induction false} CoveredIsLexedUpTo(
    source: string, scan: Scanner, windows: seq<LexWindow>, turns: seq<Turn>, from: nat)
    requires Traced(source, scan, windows, turns) && LexedUpTo(turns, from)
    ensures Covered(turns) == from
  {
    if turns != [] && !Lexes(Back(turns)) {
      var before := Before(turns);
      CursorsOfTrace(source, scan, windows, before);
      if j :| 0 <= j < |turns| && Lexes(turns[j]) && turns[j].hi == from
              && forall i :: j < i < |turns| ==> !Lexes(turns[i]) {
        assert before[j] == turns[j] && forall i :: j < i < |before| ==> before[i] == turns[i];
      } else {
        assert forall j :: 0 <= j < |before| ==> before[j] == turns[j];
      }
      CoveredIsLexedUpTo(source, scan, windows, before, from);
    }
  }

  lemma ReachedIsLooksFrom(source: string, scan: Scanner, windows: seq<LexWindow>, turns: seq<Turn>)
    requires Traced(source, scan, windows, turns)
    ensures Reached(scan, turns) == LooksFrom(scan, turns, End(turns))
  {
    if turns != [] {
      var t := Back(turns);
      assert OpenLiteral(Reply(scan, t.ask)) <==> Unterminated(Reply(scan, t.ask));
    }
  }

  /**
   What a call leads to, case by case. An open literal is rewound to one character past its start. So is text the
   scanner skipped and the coverage rule rejects; if that is the stalled character again, the call is repeated.
   Trivia and zero-width tokens are passed by one character. The rest is the end of the window or a token, unless
   the stretch since the last token or passed character holds text that nothing accounts for.
   */
  ghost function TurnFor(source: string, ask: Ask, a: Answer, from: nat, looks: nat): Turn
    requires a.start <= |source|
  {
    var skipped, gap := Unaccounted(source, looks, a.start), Unaccounted(source, from, a.start);
    if OpenLiteral(a) then Turn(ask, a.start, a.start + 1, Passed)
    else if skipped.Some? then
      if skipped.value < ask.pos then Turn(ask, ask.pos, ask.pos, Repeated)
      else Turn(ask, skipped.value, skipped.value + 1, Passed)
    else if a.kind.Trivia? || (a.start == a.end && !a.kind.EndOfFile?) then Turn(ask, a.start, a.start + 1, Passed)
    else if gap.Some? then Turn(ask, gap.value, gap.value + 1, Passed)
    else if a.kind.EndOfFile? then Turn(ask, a.start, a.start, Ended)
    else Turn(ask, a.start, a.end, Token)
  }

  lemma LegalIsForced(source: string, a: Answer, covered: nat, reached: nat, t: Turn)
    requires Legal(source, a, covered, reached, t) && reached <= t.ask.pos <= reached + 1
    ensures a.start <= |source| && t == TurnFor(source, t.ask, a, covered, reached)
  {
    assert OpenLiteral(a) <==> Unterminated(a);
    var skipped := Unaccounted(source, reached, a.start);
    if t.outcome.Passed? && t.mid < a.start {
      assert skipped == Some(t.mid) || (skipped.None? && Unaccounted(source, covered, a.start) == Some(t.mid));
    }
  }

  /** Each turn of a run is the one its answer leads to. */
  lemma OutcomeOfTurn(source: string, scan: Scanner, windows: seq<LexWindow>, turns: seq<Turn>, k: nat, from: nat)
    requires Traced(source, scan, windows, turns) && k < |turns| && LexedUpTo(turns[..k], from)
    ensures var ask := turns[k].ask;
            && Reply(scan, ask).start <= |source|
            && turns[k] == TurnFor(source, ask, Reply(scan, ask), from, LooksFrom(scan, turns[..k], ask.pos))
  {
    var before := turns[..k];
    TurnStands(source, scan, windows, turns, k);
    CoveredIsLexedUpTo(source, scan, windows, before, from);
    ReachedIsLooksFrom(source, scan, windows, before);
    CursorsOfTrace(source, scan, windows, before);
    LegalIsForced(source, Reply(scan, turns[k].ask), from, Reached(scan, before), turns[k]);
  }

  /** Every turn has such a stretch behind it. */
  lemma {:induction false} LexedUpToSomewhere(turns: seq<Turn>) returns (from: nat)
    ensures LexedUpTo(turns, from)
  {
    from := 0;
    if turns != [] {
      var m := |turns| - 1;
      if Lexes(turns[m]) {
        from := turns[m].hi;
      } else {
        from := LexedUpToSomewhere(turns[..m]);
        if j :| 0 <= j < m && Lexes(turns[j]) && turns[j].hi == from
                && forall i :: j < i < m ==> !Lexes(turns[..m][i]) {
          assert forall i :: j < i < |turns| ==> !Lexes(turns[i]);
        } else {
          assert forall i :: 0 <= i < m ==> turns[..m][i] == turns[i];
        }
      }
    }
  }

  // ----- No token hides text -----

  /** A token is never a literal left open, trivia, the end of a span or empty. */
  lemma TokensAreClosed(source: string, scan: Scanner, windows: seq<LexWindow>, turns: seq<Turn>, k: nat)
    requires Traced(source, scan, windows, turns) && k < |turns| && turns[k].outcome.Token?
    ensures var a := Reply(scan, turns[k].ask);
            && !a.kind.EndOfFile? && !a.kind.Trivia? && a.start < a.end
            && (a.unterminated ==>
                  && !a.kind.StringLiteral? && !a.kind.NoSubstitutionTemplateLiteral? && !a.kind.TemplateHead?
                  && !a.kind.TemplateMiddle? && !a.kind.TemplateTail? && !a.kind.RegularExpressionLiteral?)
  {
    TurnStands(source, scan, windows, turns, k);
  }

  /** A literal left open is always rewound to one character past its start, unless the source is refused there. */
  lemma OpenLiteralsAreRewound(source: string, scan: Scanner, windows: seq<LexWindow>, turns: seq<Turn>, k: nat)
    requires Traced(source, scan, windows, turns) && k < |turns|
    requires var a := Reply(scan, turns[k].ask);
             && a.unterminated
             && (a.kind.StringLiteral? || a.kind.NoSubstitutionTemplateLiteral? || a.kind.TemplateHead?
                 || a.kind.TemplateMiddle? || a.kind.TemplateTail? || a.kind.RegularExpressionLiteral?)
    ensures var a := Reply(scan, turns[k].ask);
            turns[k] == Turn(turns[k].ask, a.start, a.start + 1, Passed)
  {
    TurnStands(source, scan, windows, turns, k);
  }

  /**
   Between the last token or passed character and a token, or the end of a window, the coverage rule accepts the
   whole stretch, and so it does from where the scanner was asked.
   */
  lemma GapsAreAccounted(source: string, scan: Scanner, windows: seq<LexWindow>, turns: seq<Turn>, k: nat, from: nat)
    requires Traced(source, scan, windows, turns) && k < |turns| && LexedUpTo(turns[..k], from)
    requires turns[k].outcome.Token? || turns[k].outcome.Ended?
    ensures turns[k].mid <= |source| && Accounted(source, from, turns[k].mid)
    ensures Accounted(source, LooksFrom(scan, turns[..k], turns[k].ask.pos), turns[k].mid)
  {
    TurnStands(source, scan, windows, turns, k);
    OutcomeOfTurn(source, scan, windows, turns, k, from);
  }

  /** How many turns gave a token. */
  ghost function TokenCount(turns: seq<Turn>): nat {
    if turns == [] then 0
    else TokenCount(turns[..|turns| - 1]) + if turns[|turns| - 1].outcome.Token? then 1 else 0
  }

  /** The tokens emitted are the answers kept, one each: kind, start, and the value of four kinds only. */
  lemma {:induction false} TokensAreAnswers(
    source: string, scan: Scanner, windows: seq<LexWindow>, turns: seq<Turn>, k: nat)
    requires Traced(source, scan, windows, turns) && k < |turns|
    ensures |Emitted(scan, turns)| == TokenCount(turns) && TokenCount(turns[..k]) <= TokenCount(turns)
    ensures turns[k].outcome.Token? ==>
              var a, n := Reply(scan, turns[k].ask), TokenCount(turns[..k]);
              && n < |Emitted(scan, turns)|
              && var tok := Emitted(scan, turns)[n];
                 && tok.kind == a.kind && tok.pos == a.start == turns[k].mid
                 && tok.value == match a.kind
                                 case StringLiteral => a.value
                                 case NumericLiteral => a.value
                                 case Identifier => a.value
                                 case NoSubstitutionTemplateLiteral => a.value
                                 case _ => ""
  {
    var front := Before(turns);
    if k < |front| {
      TokensAreAnswers(source, scan, windows, front, k);
      assert front[..k] == turns[..k];
    } else if front != [] {
      TokensAreAnswers(source, scan, windows, front, 0);
    }
  }

  // ----- Refusals -----

  /** Where the text begins that the answer would swallow. */
  ghost function SwallowedFrom(source: string, a: Answer, looks: nat): Option<nat>
    requires a.start <= |source|
  {
    if OpenLiteral(a) then Some(a.start) else Unaccounted(source, looks, a.start)
  }

  /** A source is refused exactly where text would be swallowed behind text that nothing accounts for. */
  lemma RefusedIff(source: string, scan: Scanner, windows: seq<LexWindow>, turns: seq<Turn>, from: nat, offset: nat)
    requires Traced(source, scan, windows, turns) && Done(turns) < |windows| && LexedUpTo(turns, from)
    requires Reply(scan, NextAsk(windows, turns)).start <= |source|
    ensures Refused(source, scan, windows, turns, offset) <==>
            var a := Reply(scan, NextAsk(windows, turns));
            match SwallowedFrom(source, a, LooksFrom(scan, turns, End(turns)))
            case None => false
            case Some(at) => from < at && Unaccounted(source, from, at) == Some(offset)
  {
    var a := Reply(scan, NextAsk(windows, turns));
    CoveredIsLexedUpTo(source, scan, windows, turns, from);
    ReachedIsLooksFrom(source, scan, windows, turns);
    assert OpenLiteral(a) <==> Unterminated(a);
  }

  lemma AnswerIsTaken(source: string, a: Answer, covered: nat, reached: nat, ask: Ask)
    requires ask.window.pos <= ask.pos <= a.start <= a.end <= ask.window.end <= |source|
    requires a.kind.EndOfFile? <==> a.start == ask.window.end
    requires covered <= ask.pos && reached <= ask.pos <= reached + 1 && (reached < ask.pos ==> covered == ask.pos)
    requires Accounted(source, covered, ask.pos)
    requires forall offset :: !Hidden(source, a, covered, reached, offset)
    ensures Legal(source, a, covered, reached, TurnFor(source, ask, a, covered, reached))
  {
    assert OpenLiteral(a) <==> Unterminated(a);
    SwallowedIsAccounted(source, a, covered, reached);
    GapIsAhead(source, covered, ask.pos, a.start);
    var skipped := Unaccounted(source, reached, a.start);
    if skipped.Some? && skipped.value < ask.pos {
      assert skipped.value == reached;
    }
  }

  /** Where nothing is hidden, the text in front of what would be swallowed is accounted for. */
  lemma SwallowedIsAccounted(source: string, a: Answer, covered: nat, reached: nat)
    requires a.start <= |source| && forall offset :: !Hidden(source, a, covered, reached, offset)
    ensures var at := Swallowing(source, a, reached); at.Some? ==> Accounted(source, covered, at.value)
  {
    var at := Swallowing(source, a, reached);
    if at.Some? && Unaccounted(source, covered, at.value).Some? {
      assert Hidden(source, a, covered, reached, Unaccounted(source, covered, at.value).value);
    }
  }

  lemma GapIsAhead(source: string, covered: nat, pos: nat, to: nat)
    requires covered <= pos <= |source| && to <= |source| && Accounted(source, covered, pos)
    ensures var gap := Unaccounted(source, covered, to); gap.Some? ==> pos <= gap.value
  {
    var gap := Unaccounted(source, covered, to);
    if gap.Some? {
      UnaccountedIsFirst(source, covered, to);
      if gap.value < pos {
        AccountedPrefix(source, covered, gap.value + 1, pos);
      }
    }
  }

  /** An answer inside its window either is taken, as the one turn it leads to, or has the source refused. */
  lemma TakenOrRefused(source: string, scan: Scanner, windows: seq<LexWindow>, turns: seq<Turn>, from: nat)
    requires Bounded(scan) && Chain(windows, 0, |source|) && LexedUpTo(turns, from)
    requires Traced(source, scan, windows, turns) && Done(turns) < |windows|
    ensures var ask := NextAsk(windows, turns);
            && Reply(scan, ask).start <= |source|
            && ((exists offset :: Refused(source, scan, windows, turns, offset))
                || Follows(source, scan, windows, turns,
                           TurnFor(source, ask, Reply(scan, ask), from, LooksFrom(scan, turns, ask.pos))))
  {
    var ask := NextAsk(windows, turns);
    var a := Reply(scan, ask);
    NextAskIsInWindow(source, scan, windows, turns);
    CursorsOfTrace(source, scan, windows, turns);
    CoveredIsAccounted(source, scan, windows, turns);
    CoveredIsLexedUpTo(source, scan, windows, turns, from);
    ReachedIsLooksFrom(source, scan, windows, turns);
    assert a == scan(ask.call, ask.pos, ask.window.end);
    if forall offset :: !Refused(source, scan, windows, turns, offset) {
      forall offset
        ensures !Hidden(source, a, from, Reached(scan, turns), offset)
      {
        assert !Refused(source, scan, windows, turns, offset);
      }
      AnswerIsTaken(source, a, from, Reached(scan, turns), ask);
    }
  }
}
