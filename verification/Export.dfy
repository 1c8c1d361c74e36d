/** The headless export driver (`runExport`) over everything its environment may do while it waits. */
module Export {
  import opened Text
  import opened Events

  // ----- The environment -----

  /** While the driver awaits an event, envelopes arrive and the wait's timer may fire. */
  datatype Input = Arrives(e: Envelope) | Timer

  datatype Dispatched = Accepted | Rejected(code: string) | Failed(message: string)

  /** One environment: what the subscription and each of the driver's four awaits bring, in order. */
  datatype Script = Script(
    subscribeError: Option<string>,
    bootstrap: seq<Envelope>,
    duringOpen: seq<Envelope>, open: Dispatched, openWait: seq<Input>,
    duringExport: seq<Envelope>, exported: Dispatched, terminalWait: seq<Input>)
  {
    /** Everything delivered by the time the driver has its answer to `project.open`. */
    function BeforeExport(): seq<Envelope> {
      bootstrap + duringOpen + Arrivals(openWait)
    }

    function BeforeTerminal(): seq<Envelope> {
      BeforeExport() + duringExport
    }

    function Delivered(): seq<Envelope> {
      BeforeTerminal() + Arrivals(terminalWait)
    }
  }

  function Arrivals(inputs: seq<Input>): seq<Envelope> {
    if inputs == [] then []
    else
      var m := |inputs| - 1;
      Arrivals(inputs[..m]) + if inputs[m].Arrives? then [inputs[m].e] else []
  }

  /** The timer fires while nothing delivered so far, before or during the wait, matches. */
  predicate TimesOut(before: seq<Envelope>, inputs: seq<Input>, p: Predicate) {
    inputs != [] &&
    var m := |inputs| - 1;
    || TimesOut(before, inputs[..m], p)
    || (inputs[m].Timer? && FirstMatch(before + Arrivals(inputs[..m]), p).None?)
  }

  /** The wait never settles: nothing delivered before or during it matches, and its timer does not fire. */
  predicate NeverSettles(before: seq<Envelope>, inputs: seq<Input>, p: Predicate) {
    FirstMatch(before + Arrivals(inputs), p).None? && Timer !in inputs
  }

  /** Without a match a wait times out exactly if its timer fires at all. */
  lemma {:induction false} TimerDecides(before: seq<Envelope>, inputs: seq<Input>, p: Predicate)
    ensures TimesOut(before, inputs, p) ==> Timer in inputs
    ensures FirstMatch(before + Arrivals(inputs), p).None? ==> (TimesOut(before, inputs, p) <==> Timer in inputs)
    decreases |inputs|
  {
    if inputs != [] {
      var m := |inputs| - 1;
      TimerDecides(before, inputs[..m], p);
      assert inputs == inputs[..m] + [inputs[m]];
      var more := if inputs[m].Arrives? then [inputs[m].e] else [];
      assert before + Arrivals(inputs) == (before + Arrivals(inputs[..m])) + more;
      FirstMatchGrows(before + Arrivals(inputs[..m]), more, p);
    }
  }

  // ----- What the driver looks for -----

  predicate IsProjectOpenSettled(e: Envelope) {
    && e.StateChanged? && e.modelId == "kernel.project.state"
    && (e.action == "kernel.project.finishOpen" || e.action == "kernel.project.blockOpen")
  }

  predicate IsExportTerminal(e: Envelope) {
    e.ExportCompleted? || e.ExportFailed?
  }

  datatype Refusal = Untrusted | TurnRunning | ZeroPages | Code(code: string)

  function RefusalForCode(code: string): Refusal {
    if code == "PROJECT_UNTRUSTED" then Untrusted
    else if code == "TURN_RUNNING" || code == "TURN_ALREADY_ACTIVE" then TurnRunning
    else if code == "NO_PAGES" then ZeroPages
    else Code(code)
  }

  datatype Fault =
    | Subscribe(message: string)
    | Open(result: Dispatched)
    | OpenBlocked
    | Dispatch(message: string)
    | TimedOutWaiting
    | ExportFault(failure: Option<string>)
    | NoGeneration

  /** `Waiting` stands for an environment that ends before the driver does. */
  datatype Outcome = Exported(generationId: string) | Refused(why: Refusal) | DriverError(fault: Fault) | Waiting

  // ----- The driver -----

  /** Feeds one await's inputs to the tracker; wait `id` is what the driver awaits. */
  method Await(tracker: EventTracker, id: nat, inputs: seq<Input>)
    requires tracker.Valid() && id < |tracker.waits|
    requires !tracker.waits[id].status.TimedOut?
    modifies tracker
    ensures tracker.Valid() && |tracker.waits| == |old(tracker.waits)|
    ensures tracker.history == old(tracker.history) + Arrivals(inputs) && tracker.closes == old(tracker.closes)
    ensures tracker.waits[id].p == old(tracker.waits[id].p)
    ensures tracker.waits[id].status.TimedOut? <==>
            TimesOut(old(tracker.history), inputs, old(tracker.waits[id].p))
  {
    for k := 0 to |inputs|
      invariant tracker.Valid() && |tracker.waits| == |old(tracker.waits)|
      invariant tracker.history == old(tracker.history) + Arrivals(inputs[..k])
      invariant tracker.closes == old(tracker.closes)
      invariant tracker.waits[id].p == old(tracker.waits[id].p)
      invariant tracker.waits[id].status.TimedOut? <==>
                TimesOut(old(tracker.history), inputs[..k], old(tracker.waits[id].p))
    {
      assert inputs[..k + 1][..k] == inputs[..k];
      match inputs[k] {
        case Arrives(e) => tracker.Handle(e);
        case Timer =>
          assert Honest(tracker.history, tracker.waits[id]);
          tracker.Expire(id);
      }
    }
    assert inputs[..|inputs|] == inputs;
  }

  method Receive(tracker: EventTracker, envelopes: seq<Envelope>)
    requires tracker.Valid()
    modifies tracker
    ensures tracker.Valid() && |tracker.waits| == |old(tracker.waits)|
    ensures tracker.history == old(tracker.history) + envelopes && tracker.closes == old(tracker.closes)
  {
    for k := 0 to |envelopes|
      invariant tracker.Valid() && |tracker.waits| == |old(tracker.waits)|
      invariant tracker.history == old(tracker.history) + envelopes[..k] && tracker.closes == old(tracker.closes)
    {
      assert envelopes[..k + 1] == envelopes[..k] + [envelopes[k]];
      tracker.Handle(envelopes[k]);
    }
    assert envelopes[..|envelopes|] == envelopes;
  }

  /** The wait for the opening to settle runs out. */
  predicate OpenTimesOut(script: Script) {
    TimesOut(script.bootstrap + script.duringOpen, script.openWait, IsProjectOpenSettled)
  }

  /** So does the wait for the export's terminal event. */
  predicate TerminalTimesOut(script: Script) {
    TimesOut(script.BeforeTerminal(), script.terminalWait, IsExportTerminal)
  }

  predicate OpenNeverSettles(script: Script) {
    NeverSettles(script.bootstrap + script.duringOpen, script.openWait, IsProjectOpenSettled)
  }

  predicate TerminalNeverSettles(script: Script) {
    NeverSettles(script.BeforeTerminal(), script.terminalWait, IsExportTerminal)
  }

  /** The first event that settled the opening, in time, says that it failed. */
  predicate Blocked(script: Script) {
    !OpenTimesOut(script) &&
    var settled := FirstMatch(script.BeforeExport(), IsProjectOpenSettled);
    settled.Some? && settled.value.action == "kernel.project.blockOpen"
  }

  /** The first event that settled the opening, in time, is one the driver goes on after. */
  predicate Opened(script: Script) {
    !OpenTimesOut(script) &&
    var settled := FirstMatch(script.BeforeExport(), IsProjectOpenSettled);
    settled.Some? && settled.value.action == "kernel.project.finishOpen"
  }

  /** The wait for the opening to settle; `None` when the driver goes on. */
  method AwaitOpened(tracker: EventTracker, script: Script) returns (stopped: Option<Outcome>)
    requires tracker.Valid() && tracker.history == script.bootstrap + script.duringOpen && tracker.closes == 0
    modifies tracker
    ensures tracker.Valid() && tracker.history == script.BeforeExport()
    ensures stopped.None? <==> Opened(script)
    ensures stopped.Some? ==>
              stopped.value == if OpenTimesOut(script) then DriverError(TimedOutWaiting)
                               else if Blocked(script) then DriverError(OpenBlocked) else Waiting
    ensures tracker.closes == if stopped.None? || stopped.value.Waiting? then 0 else 1
    ensures stopped == Some(Waiting) <==> OpenNeverSettles(script)
  {
    var openWait := tracker.WaitFor(IsProjectOpenSettled);
    Await(tracker, openWait, script.openWait);
    assert Honest(tracker.history, tracker.waits[openWait]);
    TimerDecides(script.bootstrap + script.duringOpen, script.openWait, IsProjectOpenSettled);
    match tracker.waits[openWait].status {
      case Pending =>
        return Some(Waiting);
      case TimedOut(_) =>
        tracker.Close();
        return Some(DriverError(TimedOutWaiting));
      case Resolved(e) =>
        if e.action == "kernel.project.blockOpen" {
          tracker.Close();
          return Some(DriverError(OpenBlocked));
        }
    }
    return None;
  }

  /** What the first terminal event of everything delivered says, if it comes in time. */
  function Concluded(script: Script): Outcome {
    if TerminalTimesOut(script) then DriverError(TimedOutWaiting)
    else
      match FirstMatch(script.Delivered(), IsExportTerminal)
      case None => Waiting
      case Some(e) =>
        if e.ExportFailed? then DriverError(ExportFault(e.failure))
        else if e.generationId.None? then DriverError(NoGeneration)
        else Exported(e.generationId.value)
  }

  /** The driver's wait for the opening to settle begins. */
  predicate AwaitsOpening(script: Script) {
    script.subscribeError.None? && script.open.Accepted?
  }

  /** The project opened, the export was accepted and there are pages to export. */
  predicate Started(script: Script) {
    && AwaitsOpening(script) && Opened(script)
    && script.exported.Accepted? && PagesAfter(script.BeforeTerminal()) > 0
  }

  /** The wait for the export's terminal event, and the outcome read off it. */
  method AwaitTerminal(tracker: EventTracker, script: Script) returns (r: Outcome)
    requires tracker.Valid() && tracker.history == script.BeforeTerminal() && tracker.closes == 0
    modifies tracker
    ensures tracker.closes == if r.Waiting? then 0 else 1
    ensures r == Concluded(script) && (r.Waiting? <==> TerminalNeverSettles(script))
  {
    var terminalWait := tracker.WaitFor(IsExportTerminal);
    Await(tracker, terminalWait, script.terminalWait);
    assert Honest(tracker.history, tracker.waits[terminalWait]);
    TimerDecides(script.BeforeTerminal(), script.terminalWait, IsExportTerminal);
    if tracker.waits[terminalWait].status.Pending? {
      return Waiting;
    }
    tracker.Close();
    match tracker.waits[terminalWait].status {
      case TimedOut(_) =>
        return DriverError(TimedOutWaiting);
      case Resolved(e) =>
        if e.ExportFailed? {
          return DriverError(ExportFault(e.failure));
        }
        if e.generationId.None? {
          return DriverError(NoGeneration);
        }
        return Exported(e.generationId.value);
    }
  }

  /**
   Whatever is delivered while the driver waits, an export that started is reported as the first terminal
   event of the whole delivery sequence says, unless the wait ran out before any; every other outcome comes
   exactly in the case it names. The driver goes on waiting only while it awaits an event that never comes with
   a timer that never fires, and the subscription is released exactly once on every path that ends.
   */
  method RunExport(script: Script) returns (r: Outcome, closes: nat)
    ensures closes == if script.subscribeError.Some? || r.Waiting? then 0 else 1
    ensures Started(script) ==> r == Concluded(script)
    ensures r.Exported? ==>
              && Started(script)
              && var terminal := FirstMatch(script.Delivered(), IsExportTerminal);
                 && terminal.Some? && terminal.value.ExportCompleted?
                 && terminal.value.generationId == Some(r.generationId)
    ensures r.Waiting? <==>
              || (AwaitsOpening(script) && OpenNeverSettles(script))
              || (Started(script) && TerminalNeverSettles(script))
    ensures r == DriverError(TimedOutWaiting) <==>
              || (AwaitsOpening(script) && OpenTimesOut(script))
              || (Started(script) && TerminalTimesOut(script))
    ensures r.Refused? <==>
              && AwaitsOpening(script) && Opened(script)
              && (script.exported.Rejected?
                  || (script.exported.Accepted? && PagesAfter(script.BeforeTerminal()) == 0))
    ensures r.Refused? ==> r.why == match script.exported
                                    case Rejected(code) => RefusalForCode(code)
                                    case _ => ZeroPages
    ensures script.subscribeError.Some? ==> r == DriverError(Subscribe(script.subscribeError.value))
    ensures script.subscribeError.None? && !script.open.Accepted? ==> r == DriverError(Open(script.open))
    ensures r == DriverError(OpenBlocked) <==> AwaitsOpening(script) && Blocked(script)
    ensures AwaitsOpening(script) && Opened(script) && script.exported.Failed? ==>
              r == DriverError(Dispatch(script.exported.message))
    ensures r.DriverError? ==>
              match r.fault
              case Subscribe(_) => script.subscribeError.Some?
              case Open(_) => script.subscribeError.None? && !script.open.Accepted?
              case Dispatch(_) => AwaitsOpening(script) && Opened(script) && script.exported.Failed?
              case ExportFault(_) => Started(script)
              case NoGeneration => Started(script)
              case _ => true
  {
    if script.subscribeError.Some? {
      return DriverError(Subscribe(script.subscribeError.value)), 0;
    }
    var tracker := new EventTracker();
    Receive(tracker, script.bootstrap);
    Receive(tracker, script.duringOpen);
    if !script.open.Accepted? {
      tracker.Close();
      return DriverError(Open(script.open)), tracker.closes;
    }
    var stopped := AwaitOpened(tracker, script);
    if stopped.Some? {
      return stopped.value, tracker.closes;
    }
    Receive(tracker, script.duringExport);
    match script.exported {
      case Failed(message) =>
        tracker.Close();
        return DriverError(Dispatch(message)), tracker.closes;
      case Rejected(code) =>
        tracker.Close();
        return Refused(RefusalForCode(code)), tracker.closes;
      case Accepted =>
    }
    if tracker.pages == 0 {
      tracker.Close();
      return Refused(ZeroPages), tracker.closes;
    }
    r := AwaitTerminal(tracker, script);
    closes := tracker.closes;
  }

  // ----- Whose terminal event is reported -----

  /** Where the first match stands. */
  function FirstIndex(history: seq<Envelope>, p: Predicate): (r: Option<nat>)
    ensures r.Some? ==> r.value < |history| && FirstMatch(history, p) == Some(history[r.value])
    ensures r.None? ==> FirstMatch(history, p).None?
  {
    if history == [] then None
    else if p(history[0]) then Some(0)
    else
      match FirstIndex(history[1..], p)
      case None => None
      case Some(k) => Some(k + 1)
  }

  lemma {:induction false} FirstIndexGrows(history: seq<Envelope>, more: seq<Envelope>, p: Predicate)
    ensures FirstIndex(history + more, p) ==
            match FirstIndex(history, p)
            case Some(k) => Some(k)
            case None =>
              match FirstIndex(more, p)
              case Some(k) => Some(|history| + k)
              case None => None
  {
    if history == [] {
      assert history + more == more;
    } else {
      assert (history + more)[1..] == history[1..] + more;
      FirstIndexGrows(history[1..], more, p);
    }
  }

  /**
   The generation a successful export names is that of a completion delivered after the dispatch exactly when no
   terminal event had been delivered before: the driver searches the whole history, whichever export it ended.
   */
  lemma ReportedEventIsNewIff(script: Script)
    requires Started(script) && Concluded(script).Exported?
    ensures FirstIndex(script.Delivered(), IsExportTerminal).Some?
    ensures var k, all := FirstIndex(script.Delivered(), IsExportTerminal).value, script.Delivered();
            && all[k].ExportCompleted? && all[k].generationId == Some(Concluded(script).generationId)
            && (k >= |script.BeforeExport()| <==> FirstMatch(script.BeforeExport(), IsExportTerminal).None?)
  {
    var before, later := script.BeforeExport(), script.duringExport + Arrivals(script.terminalWait);
    assert script.Delivered() == before + later;
    FirstIndexGrows(before, later, IsExportTerminal);
  }

  /** An export that ended before this one was dispatched, in the events of the opening. */
  const STALE := Script(
    None, [DescriptorsChanged("1", 1), ExportCompleted("2", Some("old"))],
    [StateChanged("3", "kernel.project.state", "kernel.project.finishOpen")], Accepted, [],
    [], Accepted, [Arrives(ExportCompleted("4", Some("new")))])

  /** With such an event the driver reports the old generation though its own export completed with another. */
  lemma StaleCompletionIsReported()
    ensures Started(STALE) && Concluded(STALE) == Exported("old")
    ensures ExportCompleted("4", Some("new")) in STALE.Delivered()
  {
    var opening := STALE.bootstrap + STALE.duringOpen;
    assert STALE.BeforeExport() == opening == STALE.BeforeTerminal();
    assert opening[1..] == [opening[1], opening[2]] && opening[1..][1..] == [opening[2]];
    assert opening[..2] == STALE.bootstrap && STALE.bootstrap[..1] == [opening[0]];
    assert FirstMatch([opening[2]], IsProjectOpenSettled) == Some(opening[2]);
    assert FirstMatch(opening[1..], IsProjectOpenSettled) == FirstMatch([opening[2]], IsProjectOpenSettled);
    assert FirstMatch(opening, IsProjectOpenSettled) == FirstMatch(opening[1..], IsProjectOpenSettled);
    assert PagesAfter(opening) == PagesAfter(STALE.bootstrap) == PagesAfter([opening[0]]) == 1;
    assert FirstMatch(opening, IsExportTerminal) == Some(opening[1]);
    FirstMatchGrows(opening, Arrivals(STALE.terminalWait), IsExportTerminal);
    TimerDecides(opening, STALE.openWait, IsProjectOpenSettled);
    TimerDecides(opening, STALE.terminalWait, IsExportTerminal);
    assert Arrivals(STALE.terminalWait) == [ExportCompleted("4", Some("new"))] by {
      assert STALE.terminalWait[..0] == [];
    }
  }
}
