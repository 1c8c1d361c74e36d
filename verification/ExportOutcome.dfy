/** What a headless export reports, read off the events by their kinds and the order they came in. */
module ExportOutcome {
  import opened Text
  import opened Events
  import opened Export

  /** The project's opening has ended, well or badly. */
  ghost predicate Settles(e: Envelope) {
    match e
    case StateChanged(_, model, action) =>
      model == "kernel.project.state" && (action == "kernel.project.finishOpen" || action == "kernel.project.blockOpen")
    case _ => false
  }

  /** The export has ended, well or badly. */
  ghost predicate Concludes(e: Envelope) {
    match e
    case ExportCompleted(_, _) => true
    case ExportFailed(_, _) => true
    case _ => false
  }

  /** The first of these events stands at index `k`. */
  ghost predicate FirstAt(history: seq<Envelope>, p: Envelope -> bool, k: nat) {
    k < |history| && p(history[k]) && forall j :: 0 <= j < k ==> !p(history[j])
  }

  /** The timer fires at a step of the wait before which none of these events has come, in the wait or before it. */
  ghost predicate RunsOut(before: seq<Envelope>, inputs: seq<Input>, p: Envelope -> bool) {
    exists m :: 0 <= m < |inputs| && inputs[m] == Timer && NoneIn(before + Arrivals(inputs[..m]), p)
  }

  ghost predicate NoneIn(history: seq<Envelope>, p: Envelope -> bool) {
    forall j :: 0 <= j < |history| ==> !p(history[j])
  }

  lemma ArrivalsAre(inputs: seq<Input>, e: Envelope)
    ensures Arrivals([]) == [] && Arrivals(inputs + [Arrives(e)]) == Arrivals(inputs) + [e]
    ensures Arrivals(inputs + [Timer]) == Arrivals(inputs)
  {
    assert (inputs + [Arrives(e)])[..|inputs|] == inputs && (inputs + [Timer])[..|inputs|] == inputs;
  }

  lemma {:induction false} RunsOutIs(before: seq<Envelope>, inputs: seq<Input>, p: Envelope -> bool)
    ensures TimesOut(before, inputs, p) <==> RunsOut(before, inputs, p)
    decreases |inputs|
  {
    if inputs != [] {
      var m := |inputs| - 1;
      var front := inputs[..m];
      RunsOutIs(before, front, p);
      FirstMatchIs(before + Arrivals(front), p);
      assert forall k :: 0 <= k < m ==> front[..k] == inputs[..k] && front[k] == inputs[k];
      if TimesOut(before, front, p) {
        var k :| 0 <= k < |front| && front[k] == Timer && NoneIn(before + Arrivals(front[..k]), p);
        assert inputs[k] == Timer && NoneIn(before + Arrivals(inputs[..k]), p);
      }
      if RunsOut(before, inputs, p) {
        var k :| 0 <= k < |inputs| && inputs[k] == Timer && NoneIn(before + Arrivals(inputs[..k]), p);
        assert k < m ==> front[k] == Timer && NoneIn(before + Arrivals(front[..k]), p);
      }
    }
  }

  lemma SamePredicate(before: seq<Envelope>, inputs: seq<Input>, p: Envelope -> bool, q: Envelope -> bool)
    requires forall e :: p(e) <==> q(e)
    ensures TimesOut(before, inputs, p) <==> RunsOut(before, inputs, q)
    ensures NeverSettles(before, inputs, p) <==> NoneIn(before + Arrivals(inputs), q) && Timer !in inputs
  {
    RunsOutIs(before, inputs, p);
    FirstMatchIs(before + Arrivals(inputs), p);
    forall m | 0 <= m <= |inputs|
      ensures NoneIn(before + Arrivals(inputs[..m]), p) <==> NoneIn(before + Arrivals(inputs[..m]), q)
    {
    }
    assert inputs[..|inputs|] == inputs;
  }

  // ----- The waits -----

  /** The two waits run out, and never settle, exactly so. */
  lemma WaitsAre(script: Script)
    ensures OpenTimesOut(script) <==> RunsOut(script.bootstrap + script.duringOpen, script.openWait, Settles)
    ensures TerminalTimesOut(script) <==> RunsOut(script.BeforeTerminal(), script.terminalWait, Concludes)
    ensures OpenNeverSettles(script) <==> NoneIn(script.BeforeExport(), Settles) && Timer !in script.openWait
    ensures TerminalNeverSettles(script) <==> NoneIn(script.Delivered(), Concludes) && Timer !in script.terminalWait
  {
    forall e
      ensures (IsProjectOpenSettled(e) <==> Settles(e)) && (IsExportTerminal(e) <==> Concludes(e))
    {
    }
    SamePredicate(script.bootstrap + script.duringOpen, script.openWait, IsProjectOpenSettled, Settles);
    SamePredicate(script.BeforeTerminal(), script.terminalWait, IsExportTerminal, Concludes);
  }

  lemma {:induction false} FirstAtIs(history: seq<Envelope>, p: Envelope -> bool, q: Envelope -> bool)
    requires forall e :: p(e) <==> q(e)
    ensures FirstMatch(history, p).None? <==> NoneIn(history, q)
    ensures forall k: nat :: FirstAt(history, q, k) ==> FirstMatch(history, p) == Some(history[k])
    ensures FirstMatch(history, p).Some? ==> exists k: nat :: FirstAt(history, q, k)
  {
    FirstMatchIs(history, p);
    var index := FirstIndex(history, p);
    if index.Some? {
      var k := index.value;
      FirstIndexIsFirst(history, p);
      assert FirstAt(history, q, k);
    }
  }

  lemma {:induction false} FirstIndexIsFirst(history: seq<Envelope>, p: Envelope -> bool)
    ensures var r := FirstIndex(history, p); r.Some? ==> FirstAt(history, p, r.value)
  {
    if history != [] && !p(history[0]) {
      FirstIndexIsFirst(history[1..], p);
      assert forall j :: 0 < j < |history| ==> history[j] == history[1..][j - 1];
    }
  }

  // ----- The opening -----

  /** The opening went well, or badly, exactly if the first event that settled it, in time, says so. */
  lemma OpeningIs(script: Script)
    ensures var inTime := !RunsOut(script.bootstrap + script.duringOpen, script.openWait, Settles);
            var all := script.BeforeExport();
            && (Opened(script) <==> inTime && exists k: nat :: FirstAt(all, Settles, k)
                                                             && all[k].action == "kernel.project.finishOpen")
            && (Blocked(script) <==> inTime && exists k: nat :: FirstAt(all, Settles, k)
                                                              && all[k].action == "kernel.project.blockOpen")
  {
    WaitsAre(script);
    forall e
      ensures IsProjectOpenSettled(e) <==> Settles(e)
    {
    }
    FirstAtIs(script.BeforeExport(), IsProjectOpenSettled, Settles);
  }

  /** An export has started exactly if everything in front of its wait went well and some page is left to export. */
  lemma StartIs(script: Script)
    ensures Started(script) <==>
            && script.subscribeError == None && script.open == Accepted && Opened(script)
            && script.exported == Accepted && PagesAfter(script.BeforeTerminal()) != 0
  {
  }

  // ----- The end -----

  /** What an event that ends the export says. */
  ghost function Says(e: Envelope): Outcome {
    match e
    case ExportCompleted(_, Some(generation)) => Exported(generation)
    case ExportCompleted(_, None) => DriverError(NoGeneration)
    case ExportFailed(_, failure) => DriverError(ExportFault(failure))
    case _ => Waiting
  }

  /**
   A started export is timed out exactly if the timer fired before any completion or failure had come; else it ends
   as the first of them says, and goes on waiting if there is none.
   */
  lemma ConclusionIs(script: Script)
    ensures var all, late := script.Delivered(), RunsOut(script.BeforeTerminal(), script.terminalWait, Concludes);
            && (late ==> Concluded(script) == DriverError(TimedOutWaiting))
            && (!late ==> forall k: nat :: FirstAt(all, Concludes, k) ==> Concluded(script) == Says(all[k]))
            && (!late && NoneIn(all, Concludes) ==> Concluded(script) == Waiting)
  {
    WaitsAre(script);
    forall e
      ensures IsExportTerminal(e) <==> Concludes(e)
    {
    }
    FirstAtIs(script.Delivered(), IsExportTerminal, Concludes);
  }

  /** So each way to end comes from an event of its own kind, the first of either kind, and from no other. */
  lemma EndsIff(script: Script, failure: Option<string>, generation: string)
    requires !RunsOut(script.BeforeTerminal(), script.terminalWait, Concludes)
    ensures var all := script.Delivered();
            && (Concluded(script) == DriverError(ExportFault(failure)) <==>
                exists k: nat :: FirstAt(all, Concludes, k) && all[k].ExportFailed? && all[k].failure == failure)
            && (Concluded(script) == Exported(generation) <==>
                exists k: nat :: FirstAt(all, Concludes, k)
                                 && all[k].ExportCompleted? && all[k].generationId == Some(generation))
            && (Concluded(script) == DriverError(NoGeneration) <==>
                exists k: nat :: FirstAt(all, Concludes, k) && all[k].ExportCompleted? && all[k].generationId == None)
  {
    ConclusionIs(script);
    forall e
      ensures IsExportTerminal(e) <==> Concludes(e)
    {
    }
    FirstAtIs(script.Delivered(), IsExportTerminal, Concludes);
  }

  // ----- Refusals -----

  /** The codes that have a refusal of their own; every other code is named as it is. */
  lemma RefusalsAre(code: string)
    ensures RefusalForCode("PROJECT_UNTRUSTED") == Untrusted
    ensures RefusalForCode("TURN_RUNNING") == TurnRunning && RefusalForCode("TURN_ALREADY_ACTIVE") == TurnRunning
    ensures RefusalForCode("NO_PAGES") == ZeroPages
    ensures code !in {"PROJECT_UNTRUSTED", "TURN_RUNNING", "TURN_ALREADY_ACTIVE", "NO_PAGES"} ==>
              RefusalForCode(code) == Code(code)
  {
  }
}
