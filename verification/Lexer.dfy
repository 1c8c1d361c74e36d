/** The Gate's windowed, rewinding lexer (`tokenize`, `lexWindow`). */
module Lexer {
  import opened Text
  import opened Coverage
  import opened Windows
  import opened LexerTrace

  // ----- The lexer -----

  function Max(a: nat, b: nat): nat {
    if a < b then b else a
  }

  /** The trace reaches `pos` after `calls` calls and `done` windows, and holds exactly the tokens emitted so far. */
  ghost predicate Record(source: string, scan: Scanner, windows: seq<LexWindow>, turns: seq<Turn>,
                         toks: seq<Tok>, calls: nat, pos: nat, done: nat)
  {
    && Traced(source, scan, windows, turns) && |turns| == calls && End(turns) == pos && Done(turns) == done
    && toks == Emitted(scan, turns)
  }

  /** The cursors are those of the trace. */
  ghost predicate CursorsAre(scan: Scanner, turns: seq<Turn>, covered: nat, reached: nat) {
    covered == Covered(turns) && reached == Reached(scan, turns)
  }

  /** The trace and its record with one more turn. */
  lemma Take(source: string, scan: Scanner, windows: seq<LexWindow>, turns: seq<Turn>, toks: seq<Tok>,
             calls: nat, pos: nat, done: nat, covered: nat, reached: nat, t: Turn)
    returns (more: seq<Turn>)
    requires Record(source, scan, windows, turns, toks, calls, pos, done) && CursorsAre(scan, turns, covered, reached)
    requires done < |windows| && t.ask == Ask(calls, pos, windows[done])
    requires Legal(source, Reply(scan, t.ask), covered, reached, t)
    ensures more == turns + [t]
    ensures Record(source, scan, windows, more,
                   toks + (if t.outcome.Token? then [TokOf(Reply(scan, t.ask))] else []), calls + 1, t.hi,
                   done + if t.outcome.Ended? then 1 else 0)
    ensures CursorsAre(scan, more, if t.outcome.Ended? then covered else t.hi,
                       if t.outcome.Passed? && StallAt(Reply(scan, t.ask), t.mid) then t.mid else t.hi)
  {
    more := turns + [t];
    assert Before(more) == turns;
  }

  /**
   The cursors whenever the lexer is about to scan: `reached` lags the scanner by at most the one
   character of a stalled token, and `covered` lags only at the entry of a window.
   */
  ghost predicate Cursors(window: LexWindow, entry: nat, covered: nat, reached: nat, pos: nat) {
    && window.pos <= reached <= pos <= reached + 1 && pos <= window.end
    && (covered == pos || covered == entry <= pos == reached == window.pos)
  }

  /** Looking from `covered`, the coverage rule rejects only offsets the scanner has not gone past. */
  lemma RejectedAhead(source: string, window: LexWindow, entry: nat, covered: nat, reached: nat, pos: nat, to: nat)
    requires Cursors(window, entry, covered, reached, pos) && window.end <= |source| && to <= |source|
    requires entry <= window.pos && Accounted(source, entry, window.pos)
    requires Unaccounted(source, covered, to).Some?
    ensures var at := Unaccounted(source, covered, to).value;
            pos <= at < to && Rejected(source, at) && Accounted(source, covered, at)
  {
    UnaccountedIsFirst(source, covered, to);
    var at := Unaccounted(source, covered, to).value;
    if at < pos {
      AccountedPrefix(source, covered, at + 1, pos);
    }
  }

  /**
   With a careful scanner, in a window that no comment enters from before it, text the scanner is
   rewound to is always accounted for from `covered`: the lexer has nothing to refuse.
   */
  lemma RewindIsAccounted(source: string, scan: Scanner, window: LexWindow, entry: nat,
                          covered: nat, reached: nat, pos: nat, call: nat)
    requires Bounded(scan) && Careful(scan, source)
    requires Cursors(window, entry, covered, reached, pos) && window.end <= |source|
    requires entry == window.pos || (entry < window.pos && NothingCrosses(source, window.pos))
    requires Accounted(source, entry, window.pos)
    requires reached < pos ==> Rejected(source, reached)
    requires var s := Swallowing(source, scan(call, pos, window.end), reached);
             s.Some? && covered < s.value
    ensures Accounted(source, covered, Swallowing(source, scan(call, pos, window.end), reached).value)
  {
    var a := scan(call, pos, window.end);
    var at := Swallowing(source, a, reached).value;
    if !Unterminated(a) {
      UnaccountedIsFirst(source, reached, a.start);
      if reached < pos {
        RejectedAtOnce(source, reached, a.start);
      }
    }
    if covered != pos {
      AccountingRestarts(source, covered, pos, at);
    }
  }

  // ----- Where a careful scanner can be refused -----

  /** The text that `covered` has been left in front of is accounted for. */
  lemma CoveredIsAccounted(source: string, scan: Scanner, windows: seq<LexWindow>, turns: seq<Turn>)
    requires Traced(source, scan, windows, turns)
    ensures End(turns) <= |source| && Accounted(source, Covered(turns), End(turns))
  {
    CursorsOfTrace(source, scan, windows, turns);
  }

  /** The next question is asked inside its window. */
  lemma NextAskIsInWindow(source: string, scan: Scanner, windows: seq<LexWindow>, turns: seq<Turn>)
    requires Chain(windows, 0, |source|) && Traced(source, scan, windows, turns) && Done(turns) < |windows|
    ensures var ask := NextAsk(windows, turns);
            && ask.window.pos <= ask.pos <= ask.window.end <= |source|
            && (turns == [] || Back(turns).outcome.Ended? ==> ask.pos == ask.window.pos)
  {
    ChainLinks(windows, 0, |source|, Done(turns));
  }

  /** A careful scanner is not refused where `covered` has kept up. */
  lemma RefusedOnlyBehind(source: string, scan: Scanner, windows: seq<LexWindow>, turns: seq<Turn>, offset: nat)
    requires Bounded(scan) && Careful(scan, source) && Chain(windows, 0, |source|)
    requires Refused(source, scan, windows, turns, offset)
    ensures Covered(turns) < End(turns)
  {
    var ask := NextAsk(windows, turns);
    var a, covered, reached := Reply(scan, ask), Covered(turns), Reached(scan, turns);
    CursorsOfTrace(source, scan, windows, turns);
    NextAskIsInWindow(source, scan, windows, turns);
    assert a == scan(ask.call, ask.pos, ask.window.end);
    if covered == End(turns) && !Unterminated(a) {
      UnaccountedIsFirst(source, reached, a.start);
      if reached < End(turns) {
        RejectedAtOnce(source, reached, a.start);
      }
    }
  }

  /**
   A careful scanner is refused only at the first question of a window, when `covered` was left behind in a
   window before it, and only where comment-shaped text runs across the start of this one.
   */
  lemma RefusedOnlyAtEntry(source: string, scan: Scanner, windows: seq<LexWindow>, turns: seq<Turn>, offset: nat)
    requires Bounded(scan) && Careful(scan, source) && Chain(windows, 0, |source|)
    requires Refused(source, scan, windows, turns, offset)
    ensures turns != [] && Back(turns).outcome.Ended?
    ensures Covered(turns) < End(turns) == windows[Done(turns)].pos <= |source|
    ensures !NothingCrosses(source, End(turns))
  {
    var ask := NextAsk(windows, turns);
    RefusedOnlyBehind(source, scan, windows, turns, offset);
    CursorsOfTrace(source, scan, windows, turns);
    NextAskIsInWindow(source, scan, windows, turns);
    CoveredIsAccounted(source, scan, windows, turns);
    if NothingCrosses(source, End(turns)) {
      RewindIsAccounted(source, scan, ask.window, Covered(turns), Covered(turns), End(turns), End(turns), ask.call);
    }
  }

  /** A careful scanner, in a window that no comment enters from before it. */
  ghost predicate Clean(source: string, scan: Scanner, window: LexWindow, entry: nat)
    requires window.pos <= |source|
  {
    Careful(scan, source) && (entry == window.pos || NothingCrosses(source, window.pos))
  }

  /** What one turn of the loop of `lexWindow` decides about the scanner's answer. */
  datatype Verdict =
    | Refuse(offset: nat)   // nothing accounts for this offset
    | Finish                // the window is lexed
    | Rewind(at: nat)       // scan again from one character past `at`
    | Advance               // a stalled token: scan again from one character past its start
    | Keep                  // a token

  ghost function TurnOf(v: Verdict, ask: Ask, a: Answer): Turn {
    match v
    case Rewind(at) => if at < ask.pos then Turn(ask, ask.pos, ask.pos, Repeated) else Turn(ask, at, at + 1, Passed)
    case Advance => Turn(ask, a.start, a.start + 1, Passed)
    case Keep => Turn(ask, a.start, a.end, Token)
    case _ => Turn(ask, a.start, a.start, Ended)
  }

  /** The first question of one turn: whether this answer would swallow text, and from where on. */
  method FindSwallowing(source: string, window: LexWindow, a: Answer, reached: nat) returns (swallowing: Option<nat>)
    requires a.start <= a.end <= window.end <= |source| && (a.kind.EndOfFile? <==> a.start == window.end)
    ensures swallowing == Swallowing(source, a, reached)
    ensures swallowing.Some? && !Unterminated(a) ==>
              reached <= swallowing.value < a.start && Rejected(source, swallowing.value)
  {
    if Unterminated(a) {
      return Some(a.start);
    }
    swallowing := FirstUnaccountedOffset(source, reached, if a.kind.EndOfFile? then window.end else a.start);
    if swallowing.Some? {
      UnaccountedIsFirst(source, reached, a.start);
    }
  }

  /** The branches past that question, taken when nothing was swallowed. */
  method JudgeKept(source: string, window: LexWindow, a: Answer, covered: nat, reached: nat, guard: nat, cap: nat,
                   ghost entry: nat, ghost ask: Ask)
    returns (v: Verdict)
    requires ask.window == window && window.end <= |source| && entry <= window.pos && guard <= cap
    requires ask.pos <= a.start <= a.end <= window.end && (a.kind.EndOfFile? <==> a.start == window.end)
    requires Cursors(window, entry, covered, reached, ask.pos) && Accounted(source, entry, window.pos)
    requires Swallowing(source, a, reached).None?
    ensures !v.Refuse? && Legal(source, a, covered, reached, TurnOf(v, ask, a))
    ensures v.Finish? ==> a.kind.EndOfFile?
    ensures v.Rewind? ==> reached <= v.at < window.end && !StallAt(a, v.at)
    ensures v.Advance? ==> StallAt(a, a.start)
  {
    if a.kind.EndOfFile? {
      var tail := FirstUnaccountedOffset(source, covered, window.end);
      if tail.Some? {
        RejectedAhead(source, window, entry, covered, reached, ask.pos, window.end);
        return Rewind(tail.value);
      }
      return Finish;
    }
    if a.kind.Trivia? {
      return Rewind(a.start);
    }
    if a.end == a.start {
      return Advance;
    }
    if guard > cap {
      // The refusal over too many tokens cannot be reached.
      assert false;
    }
    if a.start > covered {
      var gap := FirstUnaccountedOffset(source, covered, a.start);
      if gap.Some? {
        RejectedAhead(source, window, entry, covered, reached, ask.pos, a.start);
        return Rewind(gap.value);
      }
    }
    return Keep;
  }

  /** The branches of one turn, in the order the lexer takes them. */
  method Judge(source: string, window: LexWindow, a: Answer, covered: nat, reached: nat, guard: nat, cap: nat,
               ghost entry: nat, ghost ask: Ask)
    returns (v: Verdict)
    requires ask.window == window && window.end <= |source| && entry <= window.pos && guard <= cap
    requires ask.pos <= a.start <= a.end <= window.end && (a.kind.EndOfFile? <==> a.start == window.end)
    requires Cursors(window, entry, covered, reached, ask.pos) && Accounted(source, entry, window.pos)
    ensures v.Refuse? ==> Hidden(source, a, covered, reached, v.offset)
    ensures !v.Refuse? ==> Legal(source, a, covered, reached, TurnOf(v, ask, a))
    ensures v.Finish? ==> a.kind.EndOfFile?
    ensures v.Rewind? ==> reached <= v.at < window.end && !StallAt(a, v.at)
    ensures v.Advance? ==> StallAt(a, a.start)
  {
    var swallowing := FindSwallowing(source, window, a, reached);
    if swallowing.Some? {
      if swallowing.value > covered {
        var gap := FirstUnaccountedOffset(source, covered, swallowing.value);
        if gap.Some? {
          return Refuse(gap.value);
        }
      }
      return Rewind(swallowing.value);
    }
    v := JudgeKept(source, window, a, covered, reached, guard, cap, entry, ask);
  }

  /** A careful scanner is refused nothing in a window no comment enters. */
  lemma CleanIsNotHidden(source: string, scan: Scanner, ask: Ask, entry: nat, covered: nat, reached: nat, offset: nat)
    requires Bounded(scan) && Cursors(ask.window, entry, covered, reached, ask.pos) && ask.window.end <= |source|
    requires entry <= ask.window.pos && Accounted(source, entry, ask.window.pos)
    requires reached < ask.pos ==> Rejected(source, reached)
    requires Clean(source, scan, ask.window, entry)
    ensures !Hidden(source, Reply(scan, ask), covered, reached, offset)
  {
    if Hidden(source, Reply(scan, ask), covered, reached, offset) {
      RewindIsAccounted(source, scan, ask.window, entry, covered, reached, ask.pos, ask.call);
    }
  }

  /** A careful scanner stalls only where nothing accounted for starts. */
  lemma StallIsRejected(source: string, scan: Scanner, ask: Ask, entry: nat)
    requires ask.pos <= ask.window.end <= |source| && ask.window.pos <= |source|
    requires StallAt(Reply(scan, ask), Reply(scan, ask).start)
    ensures Clean(source, scan, ask.window, entry) ==> Rejected(source, Reply(scan, ask).start)
  {
    assert Reply(scan, ask) == scan(ask.call, ask.pos, ask.window.end);
  }

  datatype Lexed = SourceStreamTruncated(offset: nat) | Lexed(covered: nat, guard: nat)

  /** What the loop of `lexWindow` carries from one turn to the next, in the window it is in. */
  ghost predicate Underway(source: string, scan: Scanner, windows: seq<LexWindow>, turns: seq<Turn>, toks: seq<Tok>,
                           calls: nat, done: nat, entry: nat, covered: nat, reached: nat, pos: nat)
  {
    && done < |windows| && Cursors(windows[done], entry, covered, reached, pos)
    && Record(source, scan, windows, turns, toks, calls, pos, done) && CursorsAre(scan, turns, covered, reached)
  }

  /** What each branch does to the cursors and the tokens. */
  method MoveOn(v: Verdict, a: Answer, toks0: seq<Tok>, guard0: nat, covered0: nat, reached0: nat, pos0: nat,
                ghost ask: Ask)
    returns (toks: seq<Tok>, guard: nat, covered: nat, reached: nat, pos: nat)
    requires ask.pos == pos0 <= a.start <= a.end && reached0 <= pos0 <= reached0 + 1 && covered0 <= pos0
    requires v.Rewind? ==> reached0 <= v.at && (v.at < pos0 ==> covered0 <= reached0 + 1)
    requires v.Advance? ==> a.start == a.end
    ensures var t := TurnOf(v, ask, a);
            && toks == toks0 + (if v.Keep? then [TokOf(a)] else []) && guard == guard0 + |toks| - |toks0|
            && (v.Refuse? || v.Finish? ==> covered == covered0 && reached == reached0 && pos == pos0)
            && (!v.Refuse? && !v.Finish? ==>
                  covered == t.hi && pos == t.hi && reached == if v.Advance? then t.mid else t.hi)
  {
    toks, guard, covered, reached, pos := toks0, guard0, covered0, reached0, pos0;
    match v {
      case Rewind(at) =>
        covered := Max(covered, at + 1);
        pos, reached := at + 1, at + 1;
      case Advance =>
        covered := Max(covered, a.start + 1);
        reached := Max(reached, a.end);
        pos := a.start + 1;
      case Keep =>
        covered := Max(covered, a.end);
        reached := Max(reached, a.end);
        guard := guard + 1;
        toks := toks + [TokOf(a)];
        pos := a.end;
      case _ =>
    }
  }

  /** One turn: the scanner is asked, and the cursors and tokens are moved on as its answer is judged. */
  method TakeTurn(scan: Scanner, source: string, window: LexWindow, toks0: seq<Tok>, guard0: nat, cap: nat,
                  calls: nat, covered0: nat, reached0: nat, pos0: nat,
                  ghost windows: seq<LexWindow>, ghost turns0: seq<Turn>, ghost done: nat, ghost entry: nat)
    returns (v: Verdict, toks: seq<Tok>, guard: nat, covered: nat, reached: nat, pos: nat, ghost turns: seq<Turn>)
    requires Bounded(scan) && cap == |source| + 1 && guard0 == |toks0|
    requires Underway(source, scan, windows, turns0, toks0, calls, done, entry, covered0, reached0, pos0)
    requires windows[done] == window && window.end <= |source| && entry <= window.pos
    requires Accounted(source, entry, window.pos)
    ensures v.Refuse? ==>
              && turns == turns0
              && Hidden(source, Reply(scan, Ask(calls, pos0, window)), covered0, reached0, v.offset)
    ensures v.Finish? ==>
              && Accounted(source, covered, window.end) && entry <= covered <= window.end && guard == |toks|
              && Record(source, scan, windows, turns, toks, calls + 1, window.end, done + 1)
              && CursorsAre(scan, turns, covered, window.end)
    ensures !v.Refuse? && !v.Finish? ==>
              && Underway(source, scan, windows, turns, toks, calls + 1, done, entry, covered, reached, pos)
              && guard == |toks| && reached0 <= reached && (reached == reached0 ==> pos0 < pos)
    ensures !v.Refuse? && !v.Finish? && reached < pos ==>
              var a := Reply(scan, Ask(calls, pos0, window)); a.start == reached && StallAt(a, a.start)
  {
    ghost var ask := Ask(calls, pos0, window);
    TokensIncrease(source, scan, windows, turns0);
    var a := scan(calls, pos0, window.end);
    v := Judge(source, window, a, covered0, reached0, guard0, cap, entry, ask);
    toks, guard, covered, reached, pos := MoveOn(v, a, toks0, guard0, covered0, reached0, pos0, ask);
    turns := turns0;
    if !v.Refuse? {
      turns := Take(source, scan, windows, turns, toks0, calls, pos0, done, covered0, reached0, TurnOf(v, ask, a));
    }
  }

  /** Lexes one window, the `done`th, to its end, appending to `toks`. */
  method LexWindow(scan: Scanner, source: string, window: LexWindow, toks0: seq<Tok>, covered0: nat, guard0: nat,
                   cap: nat, calls0: nat, ghost windows: seq<LexWindow>, ghost turns0: seq<Turn>, ghost done: nat)
    returns (r: Lexed, toks: seq<Tok>, calls: nat, ghost turns: seq<Turn>)
    requires Bounded(scan) && cap == |source| + 1
    requires covered0 <= window.pos <= window.end <= |source| && Accounted(source, covered0, window.pos)
    requires done < |windows| && windows[done] == window && guard0 == |toks0|
    requires Record(source, scan, windows, turns0, toks0, calls0, window.pos, done)
    requires CursorsAre(scan, turns0, covered0, window.pos)
    ensures r.Lexed? ==>
              && covered0 <= r.covered <= window.end && Accounted(source, r.covered, window.end)
              && Record(source, scan, windows, turns, toks, calls, window.end, done + 1) && r.guard == |toks|
              && CursorsAre(scan, turns, r.covered, window.end)
    ensures r.SourceStreamTruncated? ==> Refused(source, scan, windows, turns, r.offset)
    ensures Clean(source, scan, window, covered0) ==> r.Lexed?
  {
    toks, calls, turns := toks0, calls0, turns0;
    var covered: nat, guard: nat := covered0, guard0;
    var pos: nat, reached: nat := window.pos, window.pos;
    ghost var clean := Clean(source, scan, window, covered0);
    while true
      invariant Underway(source, scan, windows, turns, toks, calls, done, covered0, covered, reached, pos)
      invariant guard == |toks| && (clean && reached < pos ==> Rejected(source, reached))
      decreases window.end - reached, window.end - pos
    {
      ghost var ask, covered', reached' := Ask(calls, pos, window), covered, reached;
      var v;
      v, toks, guard, covered, reached, pos, turns :=
        TakeTurn(scan, source, window, toks, guard, cap, calls, covered, reached, pos, windows, turns, done, covered0);
      calls := calls + 1;
      match v {
        case Refuse(offset) =>
          if clean {
            CleanIsNotHidden(source, scan, ask, covered0, covered', reached', offset);
          }
          return SourceStreamTruncated(offset), toks, calls, turns;
        case Finish =>
          return Lexed(covered, guard), toks, calls, turns;
        case _ =>
          if reached < pos {
            StallIsRejected(source, scan, ask, covered0);
          }
      }
    }
  }

  datatype Tokenized = Truncated(offset: nat) | Tokens(toks: seq<Tok>)

  /** The windows are entered without a comment reaching into any of them from before. */
  ghost predicate NoCommentCrosses(source: string, windows: seq<LexWindow>) {
    forall k :: 0 < k < |windows| && windows[k].pos <= |source| ==> NothingCrosses(source, windows[k].pos)
  }

  /** No comment enters any window but possibly the first. */
  ghost predicate Undisturbed(source: string, scan: Scanner, windows: seq<LexWindow>) {
    Careful(scan, source) && (NoCommentCrosses(source, windows) || |windows| <= 1)
  }

  method CutSource(source: string, ranges: seq<TextRange>) returns (windows: seq<LexWindow>)
    requires InBounds(ranges, |source|)
    ensures Chain(windows, 0, |source|) && TextWindows(windows) == Normalized(ranges)
    ensures ranges == [] ==> |windows| <= 1
  {
    var merged := NormalizeRanges(ranges);
    NormalizedKeeps(ranges, |source|, 0);
    windows := WindowsOf(|source|, merged);
  }

  /**
   Tokenizes a source around the JSX text ranges read from it.

   On success there is a trace through every window, one turn for each call of the scanner, that covers the
   source end to end, and the tokens are the trace's tokens, at strictly increasing positions. A refusal comes
   only where the trace goes no further, and a careful scanner meets none unless a comment runs across the
   start of a window.
   */
  method Tokenize(scan: Scanner, source: string, ranges: seq<TextRange>)
    returns (r: Tokenized, ghost windows: seq<LexWindow>, ghost turns: seq<Turn>)
    requires Bounded(scan) && InBounds(ranges, |source|)
    ensures Chain(windows, 0, |source|) && TextWindows(windows) == Normalized(ranges)
    ensures r.Tokens? ==>
              Record(source, scan, windows, turns, r.toks, |turns|, |source|, |windows|)
    ensures r.Tokens? ==> |r.toks| <= |source| && Increasing(r.toks, |source|)
    ensures r.Truncated? ==> Refused(source, scan, windows, turns, r.offset)
    ensures Careful(scan, source) && NoCommentCrosses(source, windows) ==> r.Tokens?
    ensures Careful(scan, source) && ranges == [] ==> r.Tokens?
  {
    var cut := CutSource(source, ranges);
    windows, turns := cut, [];
    var toks: seq<Tok> := [];
    var covered: nat, guard: nat, calls: nat, at: nat := 0, 0, 0, 0;
    ghost var undisturbed := Undisturbed(source, scan, cut);
    for k := 0 to |cut|
      invariant at == if k == 0 then 0 else cut[k - 1].end
      invariant covered <= at <= |source| && Accounted(source, covered, at)
      invariant Record(source, scan, windows, turns, toks, calls, at, k) && guard == |toks|
      invariant CursorsAre(scan, turns, covered, at)
    {
      ChainLinks(cut, 0, |source|, k);
      var window := cut[k];
      if undisturbed {
      }
      var lexed: Lexed;
      lexed, toks, calls, turns :=
        LexWindow(scan, source, window, toks, covered, guard, |source| + 1, calls, windows, turns, k);
      if lexed.SourceStreamTruncated? {
        return Truncated(lexed.offset), windows, turns;
      }
      covered, guard, at := lexed.covered, lexed.guard, window.end;
    }
    if cut != [] {
      ChainLinks(cut, 0, |source|, |cut| - 1);
    }
    var gap := FirstUnaccountedOffset(source, covered, |source|);
    if gap.Some? {
      // The last window ended with its tail accounted for.
      assert false;
    }
    TokensIncrease(source, scan, windows, turns);
    return Tokens(toks), windows, turns;
  }
}
