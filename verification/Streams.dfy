/** The stream tracker of the template runtime (`createStreamTracker`), whose entries expire lazily. */
module Streams {
  import opened Text

  /** A clock that never runs backwards. */
  class Clock {
    var now: int

    constructor (start: int)
      ensures now == start
    {
      now := start;
    }

    method Now() returns (t: int)
      modifies this
      ensures old(now) <= t == now
    {
      var passed :| passed >= 0;
      now := now + passed;
      t := now;
    }
  }

  /** The latest counted push for each name: when it was streaming, or that it had stopped. Nothing is deleted. */
  type Log = map<string, Option<int>>

  ghost predicate Live(log: Log, name: string, now: int, staleMs: int) {
    name in log && log[name].Some? && now - log[name].value <= staleMs
  }

  /** The lazily thinned map and the log agree on everything that is not yet stale. */
  ghost predicate Agrees(since: map<string, int>, log: Log, now: int, staleMs: int) {
    && (forall n :: n in since ==> n in log && log[n] == Some(since[n]))
    && (forall n :: n in log && n !in since && log[n].Some? ==> !Live(log, n, now, staleMs))
  }

  /** What has agreed goes on agreeing while time passes between two calls. */
  lemma AgreesLater(since: map<string, int>, log: Log, now: int, later: int, staleMs: int)
    requires Agrees(since, log, now, staleMs) && now <= later
    ensures Agrees(since, log, later, staleMs)
  {
    forall n | n in log && n !in since && log[n].Some?
      ensures !Live(log, n, later, staleMs)
    {
      assert !Live(log, n, now, staleMs);
    }
  }

  class StreamTracker {
    const staleMs: int
    const clock: Clock
    var since: map<string, int>
    ghost var log: Log

    ghost predicate Valid()
      reads this, clock
    {
      Agrees(since, log, clock.now, staleMs)
    }

    constructor (clock: Clock, staleMs: int)
      ensures Valid() && this.clock == clock && this.staleMs == staleMs && log == map[]
    {
      this.clock, this.staleMs := clock, staleMs;
      since, log := map[], map[];
    }

    /** A push counts unless it comes from the model's own view. */
    method Push(name: string, streaming: bool, viewportKey: string)
      requires Valid()
      modifies this, clock
      ensures Valid() && old(clock.now) <= clock.now
      ensures log == if viewportKey == "dc-model" then old(log)
                     else old(log)[name := if streaming then Some(clock.now) else None]
    {
      if viewportKey == "dc-model" {
        return;
      }
      if streaming {
        var t := clock.Now();
        since := since[name := t];
        log := log[name := Some(t)];
      } else {
        since := since - {name};
        log := log[name := None];
      }
    }

    /** The name's latest counted push was streaming and is not stale; forgetting stale entries shows nowhere. */
    method LiveOne(name: string) returns (live: bool)
      requires Valid()
      modifies this, clock
      ensures Valid() && old(clock.now) <= clock.now && log == old(log)
      ensures live <==> name in log && log[name].Some? && clock.now - log[name].value <= staleMs
      ensures since.Keys <= old(since).Keys
    {
      if name !in since {
        return false;
      }
      var t := since[name];
      var now := clock.Now();
      if now - t > staleMs {
        since := since - {name};
        return false;
      }
      return true;
    }

    /** Whether any name at all is live, the clock being read anew for each. */
    method LiveAny() returns (live: bool)
      requires Valid()
      modifies this, clock
      ensures Valid() && old(clock.now) <= clock.now && log == old(log)
      ensures live <==> exists name :: name in log && log[name].Some? && clock.now - log[name].value <= staleMs
    {
      var names := since.Keys;
      ghost var asked := since.Keys;
      while names != {}
        invariant Valid() && old(clock.now) <= clock.now && log == old(log)
        invariant names <= asked && since.Keys <= asked
        invariant forall n :: n in asked && n !in names ==> !Live(log, n, clock.now, staleMs)
        decreases names
      {
        var n :| n in names;
        names := names - {n};
        var one := LiveOne(n);
        if one {
          return true;
        }
      }
      return false;
    }
  }
}
