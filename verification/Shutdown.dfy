/** The one shutdown path of the interactive application (`startShutdownPath` and what it awaits). */
module Shutdown {
  import opened Text

  datatype Effect =
    | Dispose
    | Subscribe
    | Unsubscribe
    | DispatchCancel(turnId: string)
    | CloseShell
    | ReportFatal
    | Exit
    | MarkClosed

  /** Where the one shutdown is: not started, or awaiting something. */
  datatype Phase = Idle | AwaitDispatch | AwaitSettled | AwaitShell | Done

  /** What the peek at the live turn finds when the shutdown starts, and whether the wait can subscribe. */
  datatype Peek = NoTurn | Running(turnId: string, subscribeFails: bool)

  datatype TurnEvent = Completed | FailedTurn | Cancelled | OtherKind

  /** Everything that can happen to the path, in any order and any number of times. */
  datatype Input =
    | CloseRequested(peek: Peek)          // a signal, the UI's exit request or a call of `close()`
    | DispatchAnswered                    // `turn.cancel` resolved, whatever with
    | TurnEvents(kind: TurnEvent, turnId: string)
    | TimerFires
    | ShellReleased(failed: bool)

  datatype State = State(
    phase: Phase,
    turnId: Option<string>,   // the turn being cancelled
    settled: bool,            // the wait for its terminal event is over
    subscribed: bool,         // the wait's own subscription is live
    timer: bool,              // and so is its timer
    log: seq<Effect>)

  const INITIAL := State(Idle, None, false, false, false, [])

  predicate Names(s: State, kind: TurnEvent, turnId: string) {
    !kind.OtherKind? && s.turnId == Some(turnId)
  }

  /** The wait is over: its timer is cleared, its subscription released. */
  function Settle(s: State): State {
    if s.subscribed then
      s.(settled := true, timer := false, subscribed := false, log := s.log + [Unsubscribe])
    else s
  }

  /** The shutdown goes on once both the dispatch has answered and the wait is over. */
  function Proceed(s: State): State {
    if s.phase.AwaitSettled? && s.settled then s.(phase := AwaitShell, log := s.log + [CloseShell]) else s
  }

  /** One event of the shutdown path. */
  function Next(s: State, input: Input): State {
    match input
    case CloseRequested(peek) =>
      if !s.phase.Idle? then s
      else if peek.NoTurn? then s.(phase := AwaitShell, log := s.log + [Dispose, CloseShell])
      else if peek.subscribeFails then
        s.(phase := AwaitDispatch, turnId := Some(peek.turnId), settled := true,
           log := s.log + [Dispose, DispatchCancel(peek.turnId)])
      else
        s.(phase := AwaitDispatch, turnId := Some(peek.turnId), subscribed := true, timer := true,
           log := s.log + [Dispose, Subscribe, DispatchCancel(peek.turnId)])
    case DispatchAnswered =>
      if s.phase.AwaitDispatch? then Proceed(s.(phase := AwaitSettled)) else s
    case TurnEvents(kind, turnId) =>
      if s.subscribed && Names(s, kind, turnId) then Proceed(Settle(s)) else s
    case TimerFires =>
      if s.timer then Proceed(Settle(s)) else s
    case ShellReleased(failed) =>
      if s.phase.AwaitShell? then
        s.(phase := Done, log := s.log + (if failed then [ReportFatal] else []) + [Exit, MarkClosed])
      else s
  }

  /** The path itself, updated in place. */
  class ShutdownPath {
    var phase: Phase
    var turnId: Option<string>
    var settled: bool
    var subscribed: bool
    var timer: bool
    var log: seq<Effect>

    function Now(): State
      reads this
    {
      State(phase, turnId, settled, subscribed, timer, log)
    }

    ghost predicate Valid()
      reads this
    {
      Sound(Now())
    }

    constructor ()
      ensures Valid() && Now() == INITIAL
    {
      phase, turnId, settled, subscribed, timer, log := Idle, None, false, false, false, [];
    }

    /** `close()`: the first call starts the one shutdown, every later one only shares it. */
    method Close(peek: Peek)
      requires Valid()
      modifies this
      ensures Valid() && old(log) <= log && Dispose in log
      ensures old(phase).Idle? ==> log == match peek
                                          case NoTurn => [Dispose, CloseShell]
                                          case Running(id, true) => [Dispose, DispatchCancel(id)]
                                          case Running(id, false) => [Dispose, Subscribe, DispatchCancel(id)]
      ensures old(phase).Idle? && peek.Running? ==> (subscribed && timer <==> !peek.subscribeFails)
      ensures old(Dispose in log) ==> Now() == old(Now())
      ensures Now() == Next(old(Now()), CloseRequested(peek))
    {
      CloseKeepsOrder(Now(), peek);
      if !phase.Idle? {
        return;
      }
      Start(peek);
    }

    /** The one shutdown, up to the first thing it awaits. */
    method Start(peek: Peek)
      requires phase.Idle?
      modifies this
      ensures Now() == Next(old(Now()), CloseRequested(peek))
    {
      log := log + [Dispose];
      match peek {
        case NoTurn =>
          phase, log := AwaitShell, log + [CloseShell];
        case Running(id, subscribeFails) =>
          turnId := Some(id);
          if subscribeFails {
            settled := true;
          } else {
            subscribed, timer, log := true, true, log + [Subscribe];
          }
          phase, log := AwaitDispatch, log + [DispatchCancel(id)];
      }
    }

    /** The awaited `turn.cancel` answers. */
    method AnswerDispatch()
      requires Valid()
      modifies this
      ensures Valid() && old(log) <= log
      ensures CloseShell in log <==> old(CloseShell in log) || (old(phase).AwaitDispatch? && settled)
      ensures Now() == Next(old(Now()), DispatchAnswered)
    {
      StepKeepsOrder(Now(), DispatchAnswered);
      if phase.AwaitDispatch? {
        phase := AwaitSettled;
        GoOn();
      }
    }

    /** The wait's handler of Kernel events. */
    method HandleTurnEvent(kind: TurnEvent, id: string)
      requires Valid()
      modifies this
      ensures Valid() && old(log) <= log
      ensures Unsubscribe in log <==>
              old(Unsubscribe in log) || (old(subscribed) && !kind.OtherKind? && old(turnId) == Some(id))
      ensures CloseShell in log <==>
              old(CloseShell in log) || (old(phase).AwaitSettled? && !kind.OtherKind? && old(turnId) == Some(id))
      ensures Now() == Next(old(Now()), TurnEvents(kind, id))
    {
      StepKeepsOrder(Now(), TurnEvents(kind, id));
      if !subscribed || kind.OtherKind? || turnId != Some(id) {
        return;
      }
      EndWait();
      GoOn();
    }

    method FireTimer()
      requires Valid()
      modifies this
      ensures Valid() && old(log) <= log
      ensures CloseShell in log <==> old(CloseShell in log) || old(phase).AwaitSettled?
      ensures !timer && !subscribed && (Unsubscribe in log <==> old(Unsubscribe in log) || old(subscribed))
      ensures Now() == Next(old(Now()), TimerFires)
    {
      StepKeepsOrder(Now(), TimerFires);
      if timer {
        EndWait();
        GoOn();
      }
    }

    method ReleaseShell(failed: bool)
      requires Valid()
      modifies this
      ensures Valid() && old(log) <= log
      ensures old(phase).AwaitShell? ==> Exit in log && MarkClosed in log && (ReportFatal in log <==> failed)
      ensures !old(phase).AwaitShell? ==> Now() == old(Now())
      ensures Now() == Next(old(Now()), ShellReleased(failed))
    {
      StepKeepsOrder(Now(), ShellReleased(failed));
      ReleaseLogs(Now(), failed);
      if phase.AwaitShell? {
        Leave(failed);
      }
    }

    /** What follows the release of the shell. */
    method Leave(failed: bool)
      requires phase.AwaitShell?
      modifies this
      ensures Now() == Next(old(Now()), ShellReleased(failed))
    {
      if failed {
        log := log + [ReportFatal];
      }
      log := log + [Exit];
      phase, log := Done, log + [MarkClosed];
    }

    method EndWait()
      modifies this
      ensures Now() == Settle(old(Now()))
    {
      if subscribed {
        settled, timer, subscribed, log := true, false, false, log + [Unsubscribe];
      }
    }

    method GoOn()
      modifies this
      ensures Now() == Proceed(old(Now()))
    {
      if phase.AwaitSettled? && settled {
        phase, log := AwaitShell, log + [CloseShell];
      }
    }
  }

  // ----- Over every run -----

  function Run(s: State, inputs: seq<Input>): State
    decreases |inputs|
  {
    if inputs == [] then s else Run(Next(s, inputs[0]), inputs[1..])
  }

  /** The order in which the effects may happen. */
  function Rank(e: Effect): nat {
    match e
    case Dispose => 0
    case Subscribe => 1
    case DispatchCancel(_) => 2
    case Unsubscribe => 3
    case CloseShell => 4
    case ReportFatal => 5
    case Exit => 6
    case MarkClosed => 7
  }

  /** Each effect happens at most once, and none before one that must precede it. */
  ghost predicate Ordered(log: seq<Effect>) {
    forall i, j :: 0 <= i < j < |log| ==> Rank(log[i]) < Rank(log[j])
  }

  ghost predicate Below(log: seq<Effect>, rank: nat) {
    forall i :: 0 <= i < |log| ==> Rank(log[i]) < rank
  }

  /** What has happened by each phase, and that nothing that belongs later has. */
  ghost predicate InOrder(s: State) {
    && Ordered(s.log)
    && Below(s.log, match s.phase
                    case Idle => 0
                    case AwaitDispatch => if s.subscribed then 3 else 4
                    case AwaitSettled => if s.subscribed then 3 else 4
                    case AwaitShell => 5
                    case Done => 8)
    && (if s.phase.Idle? then s == INITIAL else Dispose in s.log)
    && (s.turnId.Some? ==> DispatchCancel(s.turnId.value) in s.log)
    && (Subscribe in s.log ==> s.subscribed || Unsubscribe in s.log)
    && (s.phase.AwaitShell? || s.phase.Done? ==> CloseShell in s.log)
    && (s.phase.Done? ==> Exit in s.log && MarkClosed in s.log)
    && (s.phase.AwaitDispatch? || s.phase.AwaitSettled? ==> s.turnId.Some?)
    && (s.phase.AwaitSettled? ==> !s.settled)
  }

  /** The wait holds a live subscription and a timer exactly until it is over, and never past the shell's close. */
  ghost predicate WaitIsBounded(s: State) {
    && s.subscribed == s.timer
    && (s.phase.AwaitDispatch? || s.phase.AwaitSettled? ==> s.settled != s.subscribed)
    && (s.phase.AwaitShell? || s.phase.Done? || s.phase.Idle? ==> !s.timer)
  }

  ghost predicate Sound(s: State) {
    InOrder(s) && WaitIsBounded(s)
  }

  lemma OneMore(log: seq<Effect>, e: Effect)
    requires Ordered(log) && Below(log, Rank(e))
    ensures Ordered(log + [e]) && Below(log + [e], Rank(e) + 1)
    ensures e in log + [e] && forall x :: x in log ==> x in log + [e]
    ensures forall x :: x in log + [e] ==> x in log || x == e
  {
  }

  lemma SettleKeepsOrder(s: State)
    requires Sound(s) && s.subscribed
    ensures Sound(Proceed(Settle(s)))
  {
    OneMore(s.log, Unsubscribe);
    if s.phase.AwaitSettled? {
      OneMore(s.log + [Unsubscribe], CloseShell);
    }
  }

  lemma CloseWithoutTurn(s: State)
    requires Sound(s) && s.phase.Idle?
    ensures Sound(Next(s, CloseRequested(NoTurn)))
  {
    OneMore([], Dispose);
    OneMore([Dispose], CloseShell);
    assert s.log + [Dispose, CloseShell] == [Dispose] + [CloseShell];
  }

  lemma CloseWithoutWait(s: State, id: string)
    requires Sound(s) && s.phase.Idle?
    ensures Sound(Next(s, CloseRequested(Running(id, true))))
  {
    OneMore([], Dispose);
    OneMore([Dispose], DispatchCancel(id));
    assert s.log + [Dispose, DispatchCancel(id)] == [Dispose] + [DispatchCancel(id)];
  }

  lemma CloseWithWait(s: State, id: string)
    requires Sound(s) && s.phase.Idle?
    ensures Sound(Next(s, CloseRequested(Running(id, false))))
  {
    OneMore([], Dispose);
    OneMore([Dispose], Subscribe);
    OneMore([Dispose] + [Subscribe], DispatchCancel(id));
    assert s.log + [Dispose, Subscribe, DispatchCancel(id)] == [Dispose] + [Subscribe] + [DispatchCancel(id)];
  }

  lemma CloseKeepsOrder(s: State, peek: Peek)
    requires Sound(s)
    ensures Sound(Next(s, CloseRequested(peek)))
  {
    if s.phase.Idle? {
      match peek
      case NoTurn => CloseWithoutTurn(s);
      case Running(id, subscribeFails) =>
        if subscribeFails {
          CloseWithoutWait(s, id);
        } else {
          CloseWithWait(s, id);
        }
    }
  }

  lemma ReleaseKeepsOrder(s: State, failed: bool)
    requires Sound(s) && s.phase.AwaitShell?
    ensures Sound(Next(s, ShellReleased(failed)))
  {
    var reported := s.log + if failed then [ReportFatal] else [];
    LastTwo(reported);
    assert Next(s, ShellReleased(failed)).log == reported + [Exit, MarkClosed];
  }

  lemma LastTwo(log: seq<Effect>)
    requires Ordered(log) && Below(log, Rank(Exit))
    ensures Ordered(log + [Exit, MarkClosed]) && Below(log + [Exit, MarkClosed], 8)
    ensures forall x :: x in log || x == Exit || x == MarkClosed <==> x in log + [Exit, MarkClosed]
  {
    OneMore(log, Exit);
    OneMore(log + [Exit], MarkClosed);
    assert log + [Exit, MarkClosed] == log + [Exit] + [MarkClosed];
  }

  lemma StepKeepsOrder(s: State, input: Input)
    requires Sound(s)
    ensures Sound(Next(s, input))
  {
    match input
    case CloseRequested(peek) => CloseKeepsOrder(s, peek);
    case DispatchAnswered =>
      if s.phase.AwaitDispatch? && s.settled {
        OneMore(s.log, CloseShell);
      }
    case TurnEvents(_, _) =>
      if s.subscribed {
        SettleKeepsOrder(s);
      }
    case TimerFires =>
      if s.timer {
        SettleKeepsOrder(s);
      }
    case ShellReleased(failed) =>
      if s.phase.AwaitShell? {
        ReleaseKeepsOrder(s, failed);
      }
  }

  /** What the shell's answer logs: a failure is reported, and then the process is left. */
  lemma ReleaseLogs(s: State, failed: bool)
    requires Sound(s)
    ensures var end := Next(s, ShellReleased(failed));
            && s.log <= end.log
            && (s.phase.AwaitShell? ==>
                  Exit in end.log && MarkClosed in end.log && (ReportFatal in end.log <==> failed))
            && (!s.phase.AwaitShell? ==> end == s)
  {
    if s.phase.AwaitShell? {
      assert forall e :: e in s.log ==> Rank(e) < 5;
    }
  }

  /**
   In every interleaving of signals, exit requests, `close()` calls, answers, events and timers: disposing,
   cancelling, the shell's close and the exit happen at most once each and in that order, and the wait's
   subscription is released once, before the shell is closed.
   */
  lemma {:induction false} EveryRunIsInOrder(s: State, inputs: seq<Input>)
    requires Sound(s)
    ensures Sound(Run(s, inputs))
    decreases |inputs|
  {
    if inputs != [] {
      StepKeepsOrder(s, inputs[0]);
      EveryRunIsInOrder(Next(s, inputs[0]), inputs[1..]);
    }
  }

  /** Nothing returns a started shutdown to where it had not started. */
  lemma {:induction false} StartedStays(s: State, inputs: seq<Input>)
    requires !s.phase.Idle? || exists i :: i in inputs && i.CloseRequested?
    ensures !Run(s, inputs).phase.Idle?
    decreases |inputs|
  {
    if inputs != [] {
      assert inputs == [inputs[0]] + inputs[1..];
      StartedStays(Next(s, inputs[0]), inputs[1..]);
    }
  }

  /**
   Closing again, by whatever source and at whatever moment, leaves the whole run as it would have been:
   the same effects in the same order.
   */
  lemma ClosingIsIdempotent(before: seq<Input>, again: Peek, after: seq<Input>)
    requires exists i :: i in before && i.CloseRequested?
    ensures Run(INITIAL, before + ([CloseRequested(again)] + after)) == Run(INITIAL, before + after)
  {
    RunConcat(INITIAL, before, [CloseRequested(again)] + after);
    RunConcat(INITIAL, before, after);
    StartedStays(INITIAL, before);
    assert ([CloseRequested(again)] + after)[1..] == after;
  }

  // ----- The whole of what a run does -----

  /** What the first request to close found. */
  function FirstPeek(inputs: seq<Input>): Option<Peek> {
    if inputs == [] then None
    else if inputs[0].CloseRequested? then Some(inputs[0].peek)
    else FirstPeek(inputs[1..])
  }

  /** The shell could be released, or could not. */
  ghost predicate Left(s: State, before: seq<Effect>) {
    s.phase.Done? && (s.log == before + [Exit, MarkClosed] || s.log == before + [ReportFatal, Exit, MarkClosed])
  }

  /** The shell is being closed, or has been. */
  ghost predicate Closing(s: State, before: seq<Effect>) {
    !s.subscribed && !s.timer && ((s.phase.AwaitShell? && s.log == before) || Left(s, before))
  }

  /** Everything a shutdown may have done, and in which order, by what its first request found. */
  ghost predicate Goes(s: State, peek: Peek, answered: bool) {
    match peek
    case NoTurn => Closing(s, [Dispose, CloseShell])
    case Running(id, true) =>
      if !answered then
        s.phase.AwaitDispatch? && s.settled && !s.subscribed && !s.timer && s.log == [Dispose, DispatchCancel(id)]
      else Closing(s, [Dispose, DispatchCancel(id), CloseShell])
    case Running(id, false) =>
      var waiting := [Dispose, Subscribe, DispatchCancel(id)];
      if s.subscribed then
        && s.turnId == Some(id) && s.timer && !s.settled && s.log == waiting
        && (if answered then s.phase.AwaitSettled? else s.phase.AwaitDispatch?)
      else if !answered then s.phase.AwaitDispatch? && s.settled && !s.timer && s.log == waiting + [Unsubscribe]
      else Closing(s, [Dispose, Subscribe, DispatchCancel(id), Unsubscribe, CloseShell])
  }

  lemma {:induction false} GoesOn(s: State, peek: Peek, answered: bool, inputs: seq<Input>)
    requires Goes(s, peek, answered)
    ensures Goes(Run(s, inputs), peek, answered || (DispatchAnswered in inputs && peek.Running?))
    decreases |inputs|
  {
    if inputs != [] {
      assert inputs == [inputs[0]] + inputs[1..];
      GoesOn(Next(s, inputs[0]), peek, answered || (inputs[0].DispatchAnswered? && peek.Running?), inputs[1..]);
    }
  }

  /**
   In every interleaving, a run does nothing before the first request to close, and then what that request's
   finding asks for: with a running turn it is subscribed to, cancelled and waited for before the shell is closed.
   */
  lemma {:induction false} RunGoes(inputs: seq<Input>) returns (answered: bool)
    ensures answered ==> DispatchAnswered in inputs
    ensures match FirstPeek(inputs)
            case None => Run(INITIAL, inputs) == INITIAL
            case Some(peek) => Goes(Run(INITIAL, inputs), peek, answered)
    decreases |inputs|
  {
    answered := false;
    if inputs != [] {
      assert inputs == [inputs[0]] + inputs[1..];
      if inputs[0].CloseRequested? {
        var peek := inputs[0].peek;
        assert Goes(Next(INITIAL, inputs[0]), peek, false);
        GoesOn(Next(INITIAL, inputs[0]), peek, false, inputs[1..]);
        answered := DispatchAnswered in inputs[1..] && peek.Running?;
      } else {
        answered := RunGoes(inputs[1..]);
      }
    }
  }

  /** The shell of a running turn is closed only after the turn's cancel was dispatched and answered. */
  lemma TurnIsCancelledFirst(inputs: seq<Input>)
    requires FirstPeek(inputs).Some? && FirstPeek(inputs).value.Running?
    ensures var end, id := Run(INITIAL, inputs), FirstPeek(inputs).value.turnId;
            && DispatchCancel(id) in end.log
            && (CloseShell in end.log ==> DispatchAnswered in inputs)
            && (CloseShell in end.log && Subscribe in end.log ==> Unsubscribe in end.log)
  {
    var answered := RunGoes(inputs);
  }

  // ----- Whether the shutdown ends -----

  /** However events and timers arrive, a shutdown whose cancel dispatch is never answered never closes the shell. */
  lemma {:induction false} UnansweredDispatchHangs(s: State, inputs: seq<Input>)
    requires s.phase.AwaitDispatch? && Sound(s) && DispatchAnswered !in inputs
    ensures var end := Run(s, inputs);
            end.phase.AwaitDispatch? && CloseShell !in end.log && Exit !in end.log
    decreases |inputs|
  {
    if inputs != [] {
      assert inputs[0] in inputs;
      StepKeepsOrder(s, inputs[0]);
      UnansweredDispatchHangs(Next(s, inputs[0]), inputs[1..]);
    }
  }

  /** Once answered, the dispatch is never awaited again. */
  lemma {:induction false} AnsweredIsPast(s: State, inputs: seq<Input>)
    requires !s.phase.Idle? && Sound(s) && (s.phase.AwaitDispatch? ==> DispatchAnswered in inputs)
    ensures var end := Run(s, inputs);
            Sound(end) && !end.phase.Idle? && !end.phase.AwaitDispatch?
    decreases |inputs|
  {
    if inputs != [] {
      StepKeepsOrder(s, inputs[0]);
      AnsweredIsPast(Next(s, inputs[0]), inputs[1..]);
    }
  }

  lemma {:induction false} RunConcat(s: State, a: seq<Input>, b: seq<Input>)
    ensures Run(s, a + b) == Run(Run(s, a), b)
    decreases |a|
  {
    if a == [] {
      assert a + b == b;
    } else {
      assert (a + b)[1..] == a[1..] + b;
      RunConcat(Next(s, a[0]), a[1..], b);
    }
  }

  lemma RunTwo(s: State, a: Input, b: Input)
    ensures Run(s, [a, b]) == Next(Next(s, a), b)
  {
    assert [a, b][1..] == [b] && [b][1..] == [];
    assert Run(s, [a, b]) == Run(Next(s, a), [b]) == Run(Next(Next(s, a), b), []);
  }

  /**
   A shutdown that had a turn to cancel ends, its timer and the shell's answer having come, exactly when the
   cancel dispatch was answered: the bound on the wait does not bound the dispatch in front of it.
   */
  lemma EndsIffDispatchAnswered(s: State, inputs: seq<Input>, failed: bool)
    requires s.phase.AwaitDispatch? && Sound(s)
    ensures var end := Run(s, inputs + [TimerFires, ShellReleased(failed)]);
            (end.phase.Done? <==> DispatchAnswered in inputs) && (Exit in end.log <==> DispatchAnswered in inputs)
  {
    var last := [TimerFires, ShellReleased(failed)];
    if DispatchAnswered in inputs {
      var mid := Run(s, inputs);
      AnsweredIsPast(s, inputs);
      RunConcat(s, inputs, last);
      RunTwo(mid, TimerFires, ShellReleased(failed));
    } else {
      UnansweredDispatchHangs(s, inputs + last);
    }
  }
}
