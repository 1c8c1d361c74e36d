/** The replay-tolerant event wait of the headless export driver (`createEventTracker`). */
module Events {
  import opened Text

  datatype Envelope =
    | Snapshot(revision: string, pageCount: nat)
    | DescriptorsChanged(revision: string, pageCount: nat)
    | StateChanged(revision: string, modelId: string, action: string)
    | ExportCompleted(revision: string, generationId: Option<string>)
    | ExportFailed(revision: string, failure: Option<string>)
    | Other(revision: string)

  type Predicate = Envelope -> bool

  /** `history.find(p)`. */
  function FirstMatch(history: seq<Envelope>, p: Predicate): (r: Option<Envelope>)
    ensures r.Some? ==> p(r.value)
  {
    if history == [] then None
    else if p(history[0]) then Some(history[0])
    else FirstMatch(history[1..], p)
  }

  /** What is delivered later changes no first match and only supplies one that was missing. */
  lemma {:induction false} FirstMatchGrows(history: seq<Envelope>, more: seq<Envelope>, p: Predicate)
    ensures FirstMatch(history + more, p) ==
            if FirstMatch(history, p).Some? then FirstMatch(history, p) else FirstMatch(more, p)
  {
    if history == [] {
      assert history + more == more;
    } else {
      assert (history + more)[1..] == history[1..] + more;
      FirstMatchGrows(history[1..], more, p);
    }
  }

  /** The revision and page count a reader of the whole delivery sequence would name. */
  function RevisionAfter(history: seq<Envelope>): string {
    if history == [] then "0" else history[|history| - 1].revision
  }

  function PagesAfter(history: seq<Envelope>): nat {
    if history == [] then 0
    else
      var last := history[|history| - 1];
      if last.Snapshot? || last.DescriptorsChanged? then last.pageCount else PagesAfter(history[..|history| - 1])
  }

  /** The first match is the first that matches. */
  lemma {:induction false} FirstMatchIs(history: seq<Envelope>, p: Predicate)
    ensures FirstMatch(history, p).None? <==> forall k :: 0 <= k < |history| ==> !p(history[k])
    ensures forall k :: 0 <= k < |history| && p(history[k]) && (forall j :: 0 <= j < k ==> !p(history[j])) ==>
              FirstMatch(history, p) == Some(history[k])
  {
    if history != [] {
      FirstMatchIs(history[1..], p);
      assert forall k :: 0 < k < |history| ==> history[k] == history[1..][k - 1];
      if !p(history[0]) && forall k :: 0 <= k < |history[1..]| ==> !p(history[1..][k]) {
        assert forall k :: 0 < k < |history| ==> !p(history[k]);
      }
      forall k | 0 <= k < |history| && p(history[k]) && forall j :: 0 <= j < k ==> !p(history[j])
        ensures FirstMatch(history, p) == Some(history[k])
      {
        if k > 0 {
          assert forall j :: 0 <= j < k - 1 ==> history[1..][j] == history[j + 1];
        }
      }
    }
  }

  /** The revision is the last envelope's; the page count is that of the last snapshot or change of descriptors. */
  lemma {:induction false} CountsAreTheLatest(history: seq<Envelope>, k: nat)
    requires forall j :: k < j < |history| ==> !history[j].Snapshot? && !history[j].DescriptorsChanged?
    ensures RevisionAfter(history) == if history == [] then "0" else history[|history| - 1].revision
    ensures k < |history| && history[k].Snapshot? ==> PagesAfter(history) == history[k].pageCount
    ensures k < |history| && history[k].DescriptorsChanged? ==> PagesAfter(history) == history[k].pageCount
    ensures k == 0 && (history != [] ==> !history[0].Snapshot? && !history[0].DescriptorsChanged?) ==>
              PagesAfter(history) == 0
  {
    if history != [] && k < |history| - 1 {
      CountsAreTheLatest(history[..|history| - 1], k);
    }
  }

  // ----- Waiters -----

  /** A wait is in the `waiters` set while pending; `seen` counts what was delivered before its timer fired. */
  datatype Status = Pending | Resolved(e: Envelope) | TimedOut(seen: nat)

  datatype Wait = Wait(p: Predicate, status: Status)

  /** What a wait's status says about the whole delivery sequence. */
  ghost predicate Honest(history: seq<Envelope>, w: Wait) {
    match w.status
    case Pending => FirstMatch(history, w.p).None?
    case Resolved(e) => FirstMatch(history, w.p) == Some(e)
    case TimedOut(seen) => seen <= |history| && FirstMatch(history[..seen], w.p).None?
  }

  ghost predicate AllHonest(history: seq<Envelope>, waits: seq<Wait>) {
    forall k :: 0 <= k < |waits| ==> Honest(history, waits[k])
  }

  /** A delivery settles the pending waits it matches and no other. */
  function Notify(w: Wait, e: Envelope): Wait {
    if w.status.Pending? && w.p(e) then w.(status := Resolved(e)) else w
  }

  function NotifyAll(waits: seq<Wait>, e: Envelope): (out: seq<Wait>)
    ensures |out| == |waits| && forall k :: 0 <= k < |waits| ==> out[k] == Notify(waits[k], e)
  {
    if waits == [] then [] else [Notify(waits[0], e)] + NotifyAll(waits[1..], e)
  }

  /** Armed before or after the matching delivery, a wait ends up with the first match of all deliveries. */
  function Arm(history: seq<Envelope>, p: Predicate): Wait {
    match FirstMatch(history, p)
    case Some(e) => Wait(p, Resolved(e))
    case None => Wait(p, Pending)
  }

  /** The timer of a settled wait has been cleared. */
  function Expired(w: Wait, seen: nat): Wait {
    if w.status.Pending? then w.(status := TimedOut(seen)) else w
  }

  lemma NotifyKeepsHonest(history: seq<Envelope>, w: Wait, e: Envelope)
    requires Honest(history, w)
    ensures Honest(history + [e], Notify(w, e))
  {
    FirstMatchGrows(history, [e], w.p);
    assert [e][1..] == [];
    match w.status
    case TimedOut(seen) => assert (history + [e])[..seen] == history[..seen];
    case _ =>
  }

  class EventTracker {
    var revision: string
    var pages: nat
    var history: seq<Envelope>
    var waits: seq<Wait>
    var closes: nat

    ghost predicate Valid()
      reads this
    {
      revision == RevisionAfter(history) && pages == PagesAfter(history) && AllHonest(history, waits)
    }

    constructor ()
      ensures Valid() && history == [] && waits == [] && closes == 0
    {
      revision, pages, history, waits, closes := "0", 0, [], [], 0;
    }

    /** One delivered envelope: recorded, then shown to every pending waiter. */
    method Handle(e: Envelope)
      requires Valid()
      modifies this
      ensures Valid()
      ensures history == old(history) + [e] && waits == NotifyAll(old(waits), e) && closes == old(closes)
    {
      revision := e.revision;
      if e.Snapshot? {
        pages := e.pageCount;
      }
      if e.DescriptorsChanged? {
        pages := e.pageCount;
      }
      history := history + [e];
      assert history[..|history| - 1] == old(history);
      for k := 0 to |waits|
        invariant |waits| == |old(waits)|
        invariant forall j :: 0 <= j < k ==> waits[j] == Notify(old(waits)[j], e)
        invariant forall j :: k <= j < |waits| ==> waits[j] == old(waits)[j]
        invariant history == old(history) + [e] && closes == old(closes)
        invariant revision == RevisionAfter(history) && pages == PagesAfter(history)
      {
        if waits[k].status.Pending? && waits[k].p(e) {
          waits := waits[k := waits[k].(status := Resolved(e))];
        }
      }
      forall k | 0 <= k < |waits|
        ensures Honest(history, waits[k])
      {
        NotifyKeepsHonest(old(history), old(waits)[k], e);
      }
    }

    /** Arms a wait: the history is searched first, and only then a waiter is left behind. */
    method WaitFor(p: Predicate) returns (id: nat)
      requires Valid()
      modifies this
      ensures Valid()
      ensures id == |old(waits)| && waits == old(waits) + [Arm(history, p)]
      ensures history == old(history) && closes == old(closes)
    {
      id := |waits|;
      var already := FirstMatch(history, p);
      if already.Some? {
        waits := waits + [Wait(p, Resolved(already.value))];
      } else {
        waits := waits + [Wait(p, Pending)];
      }
    }

    /** The timer of wait `id` fires. */
    method Expire(id: nat)
      requires Valid() && id < |waits|
      modifies this
      ensures Valid()
      ensures waits == old(waits)[id := Expired(old(waits)[id], |history|)]
      ensures history == old(history) && closes == old(closes)
    {
      if waits[id].status.Pending? {
        waits := waits[id := waits[id].(status := TimedOut(|history|))];
        assert history[..|history|] == history;
      }
    }

    /** Releases the Kernel subscription. */
    method Close()
      requires Valid()
      modifies this`closes
      ensures Valid() && closes == old(closes) + 1
    {
      closes := closes + 1;
    }
  }

  // ----- Over every run -----

  datatype Step = Deliver(e: Envelope) | ArmWait(p: Predicate) | TimerFires(id: nat)

  /** What the tracker remembers, as a value. */
  datatype Tracker = Tracker(history: seq<Envelope>, waits: seq<Wait>)

  function After(t: Tracker, step: Step): Tracker {
    match step
    case Deliver(e) => Tracker(t.history + [e], NotifyAll(t.waits, e))
    case ArmWait(p) => Tracker(t.history, t.waits + [Arm(t.history, p)])
    case TimerFires(id) =>
      if id < |t.waits| then t.(waits := t.waits[id := Expired(t.waits[id], |t.history|)]) else t
  }

  function Run(t: Tracker, steps: seq<Step>): Tracker
    decreases |steps|
  {
    if steps == [] then t else Run(After(t, steps[0]), steps[1..])
  }

  lemma StepKeepsHonest(t: Tracker, step: Step)
    requires AllHonest(t.history, t.waits)
    ensures AllHonest(After(t, step).history, After(t, step).waits)
  {
    match step
    case Deliver(e) =>
      forall k | 0 <= k < |t.waits| {
        NotifyKeepsHonest(t.history, t.waits[k], e);
      }
    case TimerFires(_) => assert t.history[..|t.history|] == t.history;
    case ArmWait(_) =>
  }

  /**
   In every interleaving of deliveries, waits and timers: a wait that resolved holds the first match of
   the whole delivery sequence, one that timed out had no match by then, one still pending has none yet.
   */
  lemma {:induction false} EveryRunIsHonest(t: Tracker, steps: seq<Step>)
    requires AllHonest(t.history, t.waits)
    ensures AllHonest(Run(t, steps).history, Run(t, steps).waits)
    decreases |steps|
  {
    if steps != [] {
      StepKeepsHonest(t, steps[0]);
      EveryRunIsHonest(After(t, steps[0]), steps[1..]);
    }
  }

  lemma {:induction false} RunAppended(t: Tracker, steps: seq<Step>, step: Step)
    ensures Run(t, steps + [step]) == After(Run(t, steps), step)
    decreases |steps|
  {
    if steps == [] {
      assert steps + [step] == [step] && [step][1..] == [];
    } else {
      assert (steps + [step])[1..] == steps[1..] + [step];
      RunAppended(After(t, steps[0]), steps[1..], step);
    }
  }

  /** The timer of wait `id` fires at step `k`, the deliveries before it holding no match. */
  ghost predicate FiresUnmatched(t: Tracker, steps: seq<Step>, id: nat, k: nat, seen: nat, p: Predicate)
    requires k < |steps|
  {
    && steps[k] == TimerFires(id) && |Run(t, steps[..k]).history| == seen
    && FirstMatch(Run(t, steps[..k]).history, p).None?
  }

  /**
   A wait that timed out did so when its own timer fired, and of all that had been delivered by that moment
   nothing matched.
   */
  lemma {:induction false} TimedOutByItsTimer(t: Tracker, steps: seq<Step>, id: nat)
    requires AllHonest(t.history, t.waits) && (id < |t.waits| ==> !t.waits[id].status.TimedOut?)
    requires id < |Run(t, steps).waits| && Run(t, steps).waits[id].status.TimedOut?
    ensures var w := Run(t, steps).waits[id];
            exists k :: 0 <= k < |steps| && FiresUnmatched(t, steps, id, k, w.status.seen, w.p)
    decreases |steps|
  {
    if steps != [] {
      var m := |steps| - 1;
      var front, last := steps[..m], steps[m];
      var mid := Run(t, front);
      assert steps == front + [last];
      RunAppended(t, front, last);
      EveryRunIsHonest(t, front);
      var w := Run(t, steps).waits[id];
      if id < |mid.waits| && mid.waits[id].status.TimedOut? {
        TimedOutByItsTimer(t, front, id);
        var k :| 0 <= k < |front| && FiresUnmatched(t, front, id, k, w.status.seen, w.p);
        assert front[..k] == steps[..k];
        assert FiresUnmatched(t, steps, id, k, w.status.seen, w.p);
      } else {
        assert Honest(mid.history, mid.waits[id]);
        assert FiresUnmatched(t, steps, id, m, w.status.seen, w.p);
      }
    }
  }

  /** A wait settles at most once: whatever follows, its outcome stays. */
  lemma {:induction false} SettledStays(t: Tracker, steps: seq<Step>, id: nat)
    requires id < |t.waits| && !t.waits[id].status.Pending?
    ensures id < |Run(t, steps).waits| && Run(t, steps).waits[id] == t.waits[id]
    decreases |steps|
  {
    if steps != [] {
      SettledStays(After(t, steps[0]), steps[1..], id);
    }
  }
}
