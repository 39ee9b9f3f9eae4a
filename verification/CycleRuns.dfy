/** What ties the refresh service to the publish protocol: a cycle commits what a run of the protocol commits. */
module CycleRuns {
  import opened Prelude
  import opened Schema
  import opened Realtime
  import opened Commits
  import opened Refresh
  import opened Realisation
  import Protocol

  /** Everything that a cycle commits, in order. */
  function LogOf(c: Cycle): seq<Commit> { c.ensured + c.installs + c.overlays }

  // ---------------------------------------------------------------- the three parts of the log

  lemma {:induction false} ProvidersStay(t: Tables, log: seq<Commit>)
    ensures t.providers.Keys <= Replay(t, log).providers.Keys
  {
    hide Apply;
    if log != [] {
      ProvidersStay(t, log[..|log| - 1]);
      Protocol.ProvidersStay(Replay(t, log[..|log| - 1]), log[|log| - 1]);
    }
  }

  /** Ensuring providers is always possible. */
  lemma EnsuredReachable(zone: Zone, t: Tables, log: seq<Commit>, from: int)
    requires forall c :: c in log ==> c.EnsureCommit?
    ensures ReachableLog(zone, t, log, from)
  {
    hide Replay;
    forall i | 0 <= i < |log| ensures log[i].EnsureCommit? {
      assert log[i] in log;
    }
  }

  /** So is installing schedules for providers that have their row. */
  lemma InstallsReachable(zone: Zone, t: Tables, log: seq<Commit>, from: int)
    requires DistinctInstalls(log) && InTimeOrder(log)
    requires forall c :: c in log ==> c.slug in t.providers && from <= c.now
    ensures ReachableLog(zone, t, log, from)
  {
    hide Replay, StaticRowsOf, InTimeOrder;
    forall i | 0 <= i < |log|
      ensures Admissible(zone, Replay(t, log[..i]), log[i]) && Reachable(zone, Replay(t, log[..i]), log[i])
    {
      assert log[i] in log;
      ProvidersStay(t, log[..i]);
    }
  }

  /** So is writing overlays from delays that arrive. */
  lemma OverlaysReachable(zone: Zone, slugs: set<Slug>, world: Slug -> World, t: Tables, log: seq<Commit>, from: int,
                          to: int)
    requires AdmissibleLog(zone, t, log) && OverlaysOf(zone, slugs, world, from, to, log)
    ensures ReachableLog(zone, t, log, from)
  {
    hide Replay, Admissible, InTimeOrder, LogSlugs, Representable;
    forall i | 0 <= i < |log|
      ensures Reachable(zone, Replay(t, log[..i]), log[i]) && StampTime(log[i]) == Some(log[i].now)
    {
      assert log[i] in log;
    }
    forall i | 0 <= i < |log| ensures from <= log[i].now {
      assert log[i] in log;
    }
  }

  // ---------------------------------------------------------------- put together

  /** Logs one after another, the later one not stamped before a time at which the earlier one was over. */
  lemma {:induction false} ReachableConcat(zone: Zone, t: Tables, a: seq<Commit>, b: seq<Commit>, from: int, mid: int)
    requires ReachableLog(zone, t, a, from) && ReachableLog(zone, Replay(t, a), b, mid) && from <= mid &&
             NotAfter(a, mid)
    ensures ReachableLog(zone, t, a + b, from) && Replay(t, a + b) == Replay(Replay(t, a), b)
  {
    hide Admissible, Apply, Reachable, ReachableLog, NotAfter;
    if b == [] {
      assert a + b == a;
    } else {
      var n := |b| - 1;
      PrefixReachable(zone, Replay(t, a), b, mid);
      LastReachable(zone, Replay(t, a), a, b, mid);
      ReachableConcat(zone, t, a, b[..n], from, mid);
      assert a + b == (a + b[..n]) + [b[n]];
      ReachableNext(zone, t, a + b[..n], from, b[n]);
      ReplayNext(t, a + b[..n], b[n]);
    }
  }

  /** What comes last in b is stamped no earlier than what comes before it. */
  lemma LastReachable(zone: Zone, t: Tables, a: seq<Commit>, b: seq<Commit>, mid: int)
    requires ReachableLog(zone, t, b, mid) && b != [] && NotAfter(a, mid)
    ensures var n := |b| - 1;
      Admissible(zone, Replay(t, b[..n]), b[n]) && Reachable(zone, Replay(t, b[..n]), b[n]) &&
      (StampTime(b[n]).Some? ==> mid <= StampTime(b[n]).value && NotAfter(a + b[..n], StampTime(b[n]).value))
  {
    hide Admissible, Replay, Reachable, AdmissibleLog;
    AdmissiblePrefix(zone, t, b, |b| - 1);
  }

  lemma NotAfterConcat(a: seq<Commit>, b: seq<Commit>, early: int, late: int)
    requires NotAfter(a, early) && NotAfter(b, late) && early <= late
    ensures NotAfter(a + b, late)
  {
  }

  lemma CycleParts(zone: Zone, interval: int, slugs: set<Slug>, c: Cycle)
    requires CycleFine(zone, interval, slugs, c)
    ensures c.mid == Replay(c.before, c.ensured) && c.afterStatic == Replay(c.mid, c.installs) &&
            c.after == Replay(c.afterStatic, c.overlays)
    ensures c.start <= c.staticEnd <= c.end
    ensures ReachableLog(zone, c.before, c.ensured, c.start) && NotAfter(c.ensured, c.start)
    ensures ReachableLog(zone, c.mid, c.installs, c.start) && NotAfter(c.installs, c.staticEnd)
    ensures ReachableLog(zone, c.afterStatic, c.overlays, c.staticEnd) && NotAfter(c.overlays, c.end)
  {
    hide StaticOf, OverlayOf, StampOf, IsDue, Replay, AdmissibleLog, DistinctInstalls, InTimeOrder, BuiltRows, Builds,
         DelaysArrive, AuxiliaryArrives, ReachableLog;
    EnsuredReachable(zone, c.before, c.ensured, c.start);
    InstallsReachable(zone, c.mid, c.installs, c.start);
    OverlaysReachable(zone, slugs, c.world, c.afterStatic, c.overlays, c.staticEnd, c.end);
    forall i | 0 <= i < |c.ensured| ensures c.ensured[i].EnsureCommit? { assert c.ensured[i] in c.ensured; }
    forall i | 0 <= i < |c.installs| ensures c.installs[i].now <= c.staticEnd { assert c.installs[i] in c.installs; }
    forall i | 0 <= i < |c.overlays| ensures c.overlays[i].RefreshCommit? && c.overlays[i].now <= c.end {
      assert c.overlays[i] in c.overlays;
    }
  }

  /**
   * A cycle of the refresh service is a run of the protocol: from the same tables at the same time some interleaving
   * of statements commits exactly the cycle's transactions, one after another, and ends in the same tables. So all
   * that is proved of every run holds of what readers can see during the cycle.
   */
  lemma CycleHasARun(zone: Zone, interval: int, slugs: set<Slug>, c: Cycle) returns (run: seq<Protocol.System>)
    requires CycleFine(zone, interval, slugs, c)
    ensures Protocol.IsRun(zone, run) && run[0].db == c.before && run[0].clock == c.start
    ensures Last(run).log == LogOf(c) && Last(run).db == c.after
  {
    hide CycleFine, ReachableLog, Replay, NotAfter;
    CycleParts(zone, interval, slugs, c);
    NotAfterConcat(c.ensured, c.installs, c.start, c.staticEnd);
    ReachableConcat(zone, c.before, c.ensured, c.installs, c.start, c.start);
    ReachableConcat(zone, c.before, c.ensured + c.installs, c.overlays, c.start, c.staticEnd);
    run := EveryLogHasARun(zone, c.before, LogOf(c), c.start);
  }
}
