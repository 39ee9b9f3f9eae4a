/**
 * The converse of serialisability: every admissible log of transactions, stamped in order, is what some run of the
 * publish protocol commits, statement by statement.
 */
module Realisation {
  import opened Prelude
  import Calendar
  import opened Schema
  import opened Observations
  import opened Realtime
  import opened Commits
  import opened Protocol
  import Predictions

  /** Consecutive states of the protocol. */
  ghost predicate IsPath(zone: Zone, path: seq<System>) {
    path != [] && forall i :: 0 <= i < |path| - 1 ==> Next(zone, path[i], path[i + 1])
  }

  function Last(path: seq<System>): System
    requires path != []
  {
    path[|path| - 1]
  }

  lemma OneStep(zone: Zone, s: System, s': System)
    requires Next(zone, s, s')
    ensures IsPath(zone, [s, s'])
  {
    hide Next;
  }

  lemma Join(zone: Zone, a: seq<System>, b: seq<System>)
    requires IsPath(zone, a) && IsPath(zone, b) && Last(a) == b[0]
    ensures IsPath(zone, a + b[1..]) && (a + b[1..])[0] == a[0] && Last(a + b[1..]) == Last(b)
  {
    hide Next;
    var path := a + b[1..];
    forall i | 0 <= i < |path| - 1 ensures Next(zone, path[i], path[i + 1]) {
      if i < |a| - 1 {
        assert path[i] == a[i] && path[i + 1] == a[i + 1];
      } else {
        assert path[i] == b[i - |a| + 1] && path[i + 1] == b[i - |a| + 1 + 1];
      }
    }
  }

  lemma {:induction false} PathsKeepInv(zone: Zone, init: Tables, path: seq<System>)
    requires IsPath(zone, path) && Inv(zone, init, path[0])
    ensures Inv(zone, init, Last(path))
  {
    hide Inv, Next;
    if |path| > 1 {
      var n := |path| - 1;
      assert IsPath(zone, path[..n]);
      PathsKeepInv(zone, init, path[..n]);
      assert Next(zone, path[n - 1], path[n - 1 + 1]);
      NextKeepsInv(zone, init, path[n - 1], path[n]);
    }
  }

  /** From s the path ends in a state with nobody at work and one more transaction committed. */
  ghost predicate Achieves(zone: Zone, path: seq<System>, s: System, c: Commit) {
    IsPath(zone, path) && path[0] == s && Last(path).holder.None? && Last(path).log == s.log + [c]
  }

  // ---------------------------------------------------------------- a writer's steps to its end

  /** A task that holds the lock and has promised a transaction commits it. */
  lemma {:induction false} Finish(zone: Zone, init: Tables, s: System, c: Commit) returns (path: seq<System>)
    requires Inv(zone, init, s) && s.holder.Some? && s.holder.value in s.tasks
    requires Promise(s.tasks[s.holder.value], s.clock) == Some(c)
    ensures Achieves(zone, path, s, c) && Last(path).clock == s.clock
    decreases if s.holder.Some? && s.holder.value in s.tasks then StepsLeft(s.tasks[s.holder.value]) else 0
  {
    hide Inv, Next, Promise, StepsLeft;
    var s' := HolderCanProceed(zone, init, s);
    OneStep(zone, s, s');
    path := [s, s'];
    if s'.holder.Some? {
      NextKeepsInv(zone, init, s, s');
      var rest := Finish(zone, init, s', c);
      Join(zone, path, rest);
      path := path + rest[1..];
    }
  }

  lemma {:induction false} SomeTaskId(used: set<TaskId>) returns (bound: nat)
    ensures forall id :: id in used ==> id.number < bound
  {
    if used == {} {
      bound := 0;
    } else {
      var id :| id in used;
      var below := SomeTaskId(used - {id});
      bound := if id.number < below then below else id.number + 1;
    }
  }

  /** Time passes and a new task appears. */
  lemma Begin(zone: Zone, s: System, now: int, task: Task) returns (path: seq<System>, id: TaskId)
    requires s.holder.None? && s.clock <= now
    requires match task
             case InstallTask(slug, rows, phase) =>
               phase.InstallWaiting? && StaticRowsOf(rows, slug) && slug in s.db.providers
             case RefreshTask(_, _, phase) => phase.RefreshWaiting?
    ensures IsPath(zone, path) && path[0] == s && id !in s.tasks
    ensures Last(path) == WithTask(s.(clock := now), id, task)
  {
    var bound := SomeTaskId(s.tasks.Keys);
    id := TaskId(bound);
    var later := s.(clock := now);
    var spawned := WithTask(later, id, task);
    assert Tick(s, later);
    assert id !in s.tasks;
    assert Spawn(later, spawned, id, task);
    OneStep(zone, s, later);
    OneStep(zone, later, spawned);
    Join(zone, [s, later], [later, spawned]);
    path := [s, later] + [later, spawned][1..];
  }

  lemma InstallRun(zone: Zone, init: Tables, s: System, c: Commit) returns (path: seq<System>)
    requires Inv(zone, init, s) && s.holder.None? && c.InstallCommit? && s.clock <= c.now
    requires StaticRowsOf(c.rows, c.slug) && c.slug in s.db.providers
    ensures Achieves(zone, path, s, c) && Last(path).clock == c.now
  {
    hide Inv, Next, StaticRowsOf;
    var task := InstallTask(c.slug, c.rows, InstallWaiting);
    var begun, id := Begin(zone, s, c.now, task);
    var waiting := Last(begun);
    var started := WithTask(waiting, id, task.(install := Copying(0))).(holder := Some(id), work := waiting.db);
    AcquireStep(zone, waiting, started, id);
    OneStep(zone, waiting, started);
    Join(zone, begun, [waiting, started]);
    path := begun + [waiting, started][1..];
    PathsKeepInv(zone, init, path);
    var rest := Finish(zone, init, started, c);
    Join(zone, path, rest);
    path := path + rest[1..];
  }

  lemma AcquireStep(zone: Zone, s: System, s': System, id: TaskId)
    requires AcquireInstall(s, s', id)
    ensures Next(zone, s, s')
  {
  }

  lemma EnsureRun(zone: Zone, s: System, c: Commit) returns (path: seq<System>)
    requires s.holder.None? && c.EnsureCommit?
    ensures Achieves(zone, path, s, c) && Last(path).clock == s.clock
  {
    var s' := s.(db := Ensured(s.db, c.slug, c.city), log := s.log + [c]);
    assert Ensure(s, s', c.slug, c.city);
    OneStep(zone, s, s');
    path := [s, s'];
  }

  // ---------------------------------------------------------------- a realtime refresh

  /** The window of any representable predictions. */
  lemma WindowExists(zone: Zone, estimated: map<Key, int>) returns (low: Calendar.Day, high: Calendar.Day)
    requires Representable(zone, estimated)
    ensures IsWindow(zone, estimated, low, high)
  {
    hide LocalDay;
    if estimated == map[] {
      low, high := 2, 1;
    } else {
      var k :| k in estimated;
      var first, last := Extremes(zone, estimated, estimated.Keys);
      low, high := LocalDay(zone, estimated[first]) - 1, LocalDay(zone, estimated[last]) + 1;
    }
  }

  lemma {:induction false} Extremes(zone: Zone, estimated: map<Key, int>, keys: set<Key>)
      returns (first: Key, last: Key)
    requires keys <= estimated.Keys && keys != {}
    ensures first in keys && last in keys
    ensures forall k :: k in keys ==>
              LocalDay(zone, estimated[first]) <= LocalDay(zone, estimated[k]) <= LocalDay(zone, estimated[last])
  {
    hide LocalDay;
    var k :| k in keys;
    first, last := k, k;
    if keys != {k} {
      assert keys - {k} != {} by { assert keys == (keys - {k}) + {k}; }
      first, last := Extremes(zone, estimated, keys - {k});
      if LocalDay(zone, estimated[k]) < LocalDay(zone, estimated[first]) { first := k; }
      if LocalDay(zone, estimated[last]) < LocalDay(zone, estimated[k]) { last := k; }
    }
  }

  /** The rows of one batch are what its SELECT returns. */
  lemma BatchRowsAreSelected(t: Tables, slug: Slug, zone: Zone, estimated: map<Key, int>, batch: seq<string>,
                             low: Calendar.Day, high: Calendar.Day, rows: seq<Occurrence>)
    requires IsWindow(zone, estimated, low, high) && IsBatchRows(t, slug, zone, estimated, batch, rows)
    ensures Enumerates(rows, Occurrences(t, slug, Elements(batch), low, high))
  {
    hide IsScheduled, InReach;
    forall o ensures o in rows <==> o in Occurrences(t, slug, Elements(batch), low, high) {
      OccurrenceMeaning(t, slug, Elements(batch), low, high, o);
    }
  }

  /** s, with the refresh having read the first k lists. */
  ghost predicate HasRead(zone: Zone, s: System, id: TaskId, lists: seq<seq<Occurrence>>, k: nat) {
    s.holder == Some(id) && id in s.tasks && s.tasks[id].RefreshTask? && s.tasks[id].refresh.Selecting? &&
      k <= |lists| &&
    var task := s.tasks[id];
    var p := task.refresh;
    p.next == k && |lists| == |p.batches| && IsWindow(zone, Gather(task.feeds).estimated, p.low, p.high) &&
    p.candidates == ScanAll(zone, Gather(task.feeds).estimated, lists[..k]) &&
    AreBatchRows(s.db, task.slug, zone, Gather(task.feeds).estimated, p.batches, lists)
  }

  /** The refresh reads the given lists, batch after batch. */
  lemma {:induction false} SelectRun(zone: Zone, s: System, id: TaskId, lists: seq<seq<Occurrence>>, k: nat)
      returns (path: seq<System>)
    requires HasRead(zone, s, id, lists, k)
    ensures IsPath(zone, path) && path[0] == s && HasRead(zone, Last(path), id, lists, |lists|)
    ensures var s' := Last(path);
      s'.log == s.log && s'.clock == s.clock && s'.db == s.db &&
      s'.tasks[id].slug == s.tasks[id].slug && s'.tasks[id].feeds == s.tasks[id].feeds
    decreases |lists| - k
  {
    hide Next, IsWindow, Gather, Scan, IsBatchRows;
    if k == |lists| {
      path := [s];
    } else {
      var s' := SelectNext(zone, s, id, lists, k);
      OneStep(zone, s, s');
      var rest := SelectRun(zone, s', id, lists, k + 1);
      Join(zone, [s, s'], rest);
      path := [s, s'] + rest[1..];
    }
  }

  lemma SelectNext(zone: Zone, s: System, id: TaskId, lists: seq<seq<Occurrence>>, k: nat) returns (s': System)
    requires HasRead(zone, s, id, lists, k) && k < |lists|
    ensures Next(zone, s, s') && HasRead(zone, s', id, lists, k + 1)
    ensures s'.log == s.log && s'.clock == s.clock && s'.db == s.db
    ensures s'.tasks[id].slug == s.tasks[id].slug && s'.tasks[id].feeds == s.tasks[id].feeds
  {
    hide Gather, Scan, IsBatchRows, InReach, Occurrences;
    var task := s.tasks[id];
    var p := task.refresh;
    var estimated := Gather(task.feeds).estimated;
    BatchRowsAreSelected(s.db, task.slug, zone, estimated, p.batches[k], p.low, p.high, lists[k]);
    assert lists[..k + 1][..k] == lists[..k];
    s' := WithTask(s, id, task.(refresh := Selecting(k + 1, p.batches, p.low, p.high,
      Scan(zone, estimated, p.candidates, lists[k]))));
    assert Select(zone, s, s', id, lists[k]);
  }

  /** The feeds of a refresh can be read, and then it may commit any admissible overlay. */
  ghost predicate Readable(zone: Zone, feeds: seq<FeedMessage>) {
    (forall m :: m in feeds ==> HasHeader(m)) && Representable(zone, Gather(feeds).estimated)
  }

  lemma RefreshRun(zone: Zone, init: Tables, s: System, c: Commit) returns (path: seq<System>)
    requires Inv(zone, init, s) && s.holder.None? && c.RefreshCommit? && s.clock <= c.now
    requires Admissible(zone, s.db, c) && Readable(zone, c.feeds)
    ensures Achieves(zone, path, s, c) && Last(path).clock == c.now
  {
    hide Inv, Next, Gather, NearestDelays, RowsOf, DelaysOf, IsWindow, Cover, Readable, HasRead;
    var g := Gather(c.feeds);
    var nearest :| NearestDelays(s.db, c.slug, zone, g.estimated, nearest) &&
      c.overlay == RowsOf(c.slug, nearest + g.delays, g.cancelled, g.skipped);
    var begun, id := Begin(zone, s, c.now, RefreshTask(c.slug, c.feeds, RefreshWaiting));
    var started, lists := StartReading(zone, Last(begun), id, nearest);
    OneStep(zone, Last(begun), started);
    Join(zone, begun, [Last(begun), started]);
    path := begun + [Last(begun), started][1..];
    var reading := SelectRun(zone, started, id, lists, 0);
    Join(zone, path, reading);
    path := path + reading[1..];
    var read := Last(path);
    var writing := BeginWriting(zone, read, id, lists, c);
    OneStep(zone, read, writing);
    Join(zone, path, [read, writing]);
    path := path + [read, writing][1..];
    PathsKeepInv(zone, init, path);
    var rest := Finish(zone, init, writing, c);
    Join(zone, path, rest);
    path := path + rest[1..];
  }

  /** The lock is taken, with batches and row orders that lead to the given delays. */
  lemma StartReading(zone: Zone, s: System, id: TaskId, nearest: map<Key, int>)
      returns (s': System, lists: seq<seq<Occurrence>>)
    requires s.holder.None? && id in s.tasks && s.tasks[id].RefreshTask? && s.tasks[id].refresh.RefreshWaiting?
    requires Readable(zone, s.tasks[id].feeds)
    requires NearestDelays(s.db, s.tasks[id].slug, zone, Gather(s.tasks[id].feeds).estimated, nearest)
    ensures Next(zone, s, s') && HasRead(zone, s', id, lists, 0)
    ensures s'.log == s.log && s'.clock == s.clock && s'.db == s.db
    ensures s'.tasks[id].slug == s.tasks[id].slug && s'.tasks[id].feeds == s.tasks[id].feeds
    ensures nearest == DelaysOf(Gather(s.tasks[id].feeds).estimated,
                                ScanAll(zone, Gather(s.tasks[id].feeds).estimated, lists))
  {
    hide Gather, NearestDelays, DelaysOf, IsWindow, Scan, IsBatchRows, Batches, Representable;
    var task := s.tasks[id];
    var estimated := Gather(task.feeds).estimated;
    Predictions.NearestAreOutcomes(s.db, task.slug, zone, estimated, 500, nearest);
    var trips;
    trips, lists :|
      Enumerates(trips, TripsOf(estimated)) &&
      AreBatchRows(s.db, task.slug, zone, estimated, Batches(trips, 500), lists) &&
      nearest == DelaysOf(estimated, ScanAll(zone, estimated, lists));
    var batches := Batches(trips, 500);
    BatchesAreCover(estimated, trips);
    var low, high := WindowExists(zone, estimated);
    s' := WithTask(s, id, task.(refresh := Selecting(0, batches, low, high, map[]))).(holder := Some(id));
    assert lists[..0] == [];
    assert AcquireRefresh(zone, s, s', id, batches, low, high);
  }

  lemma BatchesAreCover(estimated: map<Key, int>, trips: seq<string>)
    requires Enumerates(trips, TripsOf(estimated))
    ensures Cover(Batches(trips, 500), estimated)
  {
    hide Batches, TripsOf;
    forall trip ensures trip in TripsOf(estimated) <==>
        exists i :: 0 <= i < |Batches(trips, 500)| && trip in Batches(trips, 500)[i] {
      BatchesCover(trips, 500, trip);
    }
  }

  lemma BeginWriting(zone: Zone, s: System, id: TaskId, lists: seq<seq<Occurrence>>, c: Commit) returns (s': System)
    requires HasRead(zone, s, id, lists, |lists|) && c.RefreshCommit? && s.clock == c.now
    requires s.tasks[id].slug == c.slug && s.tasks[id].feeds == c.feeds
    requires var g := Gather(c.feeds);
      c.overlay == RowsOf(c.slug, DelaysOf(g.estimated, ScanAll(zone, g.estimated, lists)) + g.delays, g.cancelled,
                          g.skipped)
    ensures Next(zone, s, s') && s'.holder == Some(id) && id in s'.tasks && s'.log == s.log && s'.clock == s.clock
    ensures Promise(s'.tasks[id], s'.clock) == Some(c)
  {
    hide Gather, DelaysOf, RowsOf, IsWindow, ScanAll;
    assert lists[..|lists|] == lists;
    s' := WithTask(s, id, s.tasks[id].(refresh := Writing(0, c.overlay))).(work := s.db);
    assert BeginOverlay(s, s', id);
  }

  // ---------------------------------------------------------------- whole logs

  /** What the protocol asks of a transaction besides being admissible. */
  ghost predicate Reachable(zone: Zone, t: Tables, c: Commit) {
    match c
    case InstallCommit(slug, _, _) => slug in t.providers
    case RefreshCommit(_, feeds, _, _) => Readable(zone, feeds)
    case EnsureCommit(_, _) => true
  }

  ghost predicate ReachableLog(zone: Zone, init: Tables, log: seq<Commit>, from: int) {
    AdmissibleLog(zone, init, log) && InTimeOrder(log) &&
    (forall i :: 0 <= i < |log| ==> Reachable(zone, Replay(init, log[..i]), log[i])) &&
    forall i :: 0 <= i < |log| && StampTime(log[i]).Some? ==> from <= StampTime(log[i]).value
  }

  /** The time of the last stamp, or from. */
  function LastTime(log: seq<Commit>, from: int): int {
    if log == [] then from
    else
      match StampTime(log[|log| - 1])
      case Some(t) => t
      case None => LastTime(log[..|log| - 1], from)
  }

  lemma {:induction false} LastTimeIsEarlier(log: seq<Commit>, from: int, n: nat)
    requires InTimeOrder(log) && n < |log| && StampTime(log[n]).Some?
    requires forall i :: 0 <= i < |log| && StampTime(log[i]).Some? ==> from <= StampTime(log[i]).value
    ensures forall m :: 0 <= m <= n ==> LastTime(log[..m], from) <= StampTime(log[n]).value
  {
    forall m | 0 <= m <= n ensures LastTime(log[..m], from) <= StampTime(log[n]).value {
      LastTimeAtMost(log, from, m, StampTime(log[n]).value);
    }
  }

  lemma {:induction false} LastTimeAtMost(log: seq<Commit>, from: int, m: nat, bound: int)
    requires m <= |log| && from <= bound
    requires forall i :: 0 <= i < m && StampTime(log[i]).Some? ==> StampTime(log[i]).value <= bound
    ensures LastTime(log[..m], from) <= bound
    decreases m
  {
    if m > 0 {
      assert log[..m][..m - 1] == log[..m - 1] && log[..m][m - 1] == log[m - 1];
      LastTimeAtMost(log, from, m - 1, bound);
    }
  }

  /** One more transaction for a run that has committed the log so far. */
  lemma OneMore(zone: Zone, init: Tables, s: System, c: Commit) returns (path: seq<System>)
    requires Inv(zone, init, s) && s.holder.None?
    requires Admissible(zone, s.db, c) && Reachable(zone, s.db, c) &&
             (StampTime(c).Some? ==> s.clock <= StampTime(c).value)
    ensures Achieves(zone, path, s, c)
    ensures Last(path).clock == if StampTime(c).Some? then StampTime(c).value else s.clock
  {
    hide Inv, Next, Achieves, Readable;
    match c
    case InstallCommit(_, _, _) => path := InstallRun(zone, init, s, c);
    case RefreshCommit(_, _, _, _) => path := RefreshRun(zone, init, s, c);
    case EnsureCommit(_, _) => path := EnsureRun(zone, s, c);
  }

  /** Every reachable log of transactions is committed by some run of the protocol. */
  lemma {:induction false} EveryLogHasARun(zone: Zone, init: Tables, log: seq<Commit>, from: int)
      returns (run: seq<System>)
    requires ReachableLog(zone, init, log, from)
    ensures IsRun(zone, run) && run[0].db == init && run[0].clock == from
    ensures var s := Last(run);
      s.log == log && s.db == Replay(init, log) && s.holder.None? && s.clock == LastTime(log, from)
  {
    hide Next, Admissible, Replay, Reachable, Inv;
    if log == [] {
      var s := System(init, None, init, map[], from, [], []);
      run := [s];
      assert Init(s);
      assert Replay(init, []) == init by { EmptyReplay(init); }
    } else {
      var n := |log| - 1;
      PrefixReachable(zone, init, log, from);
      run := EveryLogHasARun(zone, init, log[..n], from);
      RunsKeepInv(zone, run, |run| - 1);
      AdmissiblePrefix(zone, init, log, n);
      if StampTime(log[n]).Some? { LastTimeIsEarlier(log, from, n); }
      var path := OneMore(zone, init, Last(run), log[n]);
      Join(zone, run, path);
      run := run + path[1..];
      assert log == log[..n] + [log[n]];
      Serialisable(zone, run, |run| - 1);
    }
  }

  lemma EmptyReplay(init: Tables)
    ensures Replay(init, []) == init
  {
  }

  lemma PrefixReachable(zone: Zone, init: Tables, log: seq<Commit>, from: int)
    requires ReachableLog(zone, init, log, from) && log != []
    ensures ReachableLog(zone, init, log[..|log| - 1], from)
  {
    hide Admissible, Replay, Reachable;
    var n := |log| - 1;
    AdmissiblePrefix(zone, init, log, n);
    forall i | 0 <= i < n ensures Reachable(zone, Replay(init, log[..n][..i]), log[..n][i]) {
      assert log[..n][..i] == log[..i];
    }
  }

  // ---------------------------------------------------------------- and no other logs

  ghost predicate NotAfter(log: seq<Commit>, time: int) {
    forall i :: 0 <= i < |log| && StampTime(log[i]).Some? ==> StampTime(log[i]).value <= time
  }

  /** A stamp of the holder is no earlier than those committed. */
  ghost predicate IsCurrent(s: System, from: int, now: int) { NotAfter(s.log, now) && from <= now <= s.clock }

  /** The holder has read what can be read, and what it has stamped is current. */
  ghost predicate HolderInOrder(zone: Zone, from: int, s: System) {
    s.holder.Some? && s.holder.value in s.tasks ==>
      match s.tasks[s.holder.value]
      case InstallTask(_, _, phase) => phase.InstallStamped? ==> IsCurrent(s, from, phase.now)
      case RefreshTask(_, feeds, phase) =>
        Readable(zone, feeds) && (phase.RefreshStamped? ==> IsCurrent(s, from, phase.now))
  }

  ghost predicate Ordered(zone: Zone, init: Tables, from: int, s: System) {
    from <= s.clock && NotAfter(s.log, s.clock) && ReachableLog(zone, init, s.log, from) && HolderInOrder(zone, from, s)
  }

  lemma ReachableNext(zone: Zone, init: Tables, log: seq<Commit>, from: int, c: Commit)
    requires ReachableLog(zone, init, log, from) && Admissible(zone, Replay(init, log), c) &&
             Reachable(zone, Replay(init, log), c)
    requires StampTime(c).Some? ==> from <= StampTime(c).value && NotAfter(log, StampTime(c).value)
    ensures ReachableLog(zone, init, log + [c], from)
  {
    hide Admissible, Replay, Reachable, AdmissibleLog;
    AdmissibleNext(zone, init, log, c);
    var after := log + [c];
    forall i | 0 <= i < |after| ensures Reachable(zone, Replay(init, after[..i]), after[i]) {
      if i < |log| { assert after[..i] == log[..i]; } else { assert after[..i] == log; }
    }
  }

  /** A commit of the holder keeps the order. */
  lemma CommitInOrder(zone: Zone, init: Tables, from: int, s: System, s': System, c: Commit)
    requires Ordered(zone, init, from, s) && HistoryFine(zone, init, s) && HistoryFine(zone, init, s')
    requires s'.log == s.log + [c] && s'.clock == s.clock && s'.holder.None? && Reachable(zone, s.db, c)
    requires StampTime(c).Some? ==> IsCurrent(s, from, StampTime(c).value)
    ensures Ordered(zone, init, from, s')
  {
    hide Admissible, Replay, Reachable, ReachableLog;
    assert s'.log[..|s.log|] == s.log && s'.log[|s.log|] == c;
    AdmissiblePrefix(zone, init, s'.log, |s.log|);
    ReachableNext(zone, init, s.log, from, c);
  }

  lemma InstallStepsInOrder(zone: Zone, init: Tables, from: int, s: System, s': System, id: TaskId)
    requires Inv(zone, init, s) && Inv(zone, init, s') && Ordered(zone, init, from, s)
    requires AcquireInstall(s, s', id) || Copy(s, s', id) || StampInstall(s, s', id) || CommitInstall(s, s', id)
    ensures Ordered(zone, init, from, s')
  {
    hide InstallStatement, Progress, StaticRowsOf, HistoryFine, ReadsFine, ReachableLog, NotAfter, Readable;
    if CommitInstall(s, s', id) {
      var task := s.tasks[id];
      CommitInOrder(zone, init, from, s, s', InstallCommit(task.slug, task.rows, task.install.now));
    }
  }

  lemma RefreshStepsInOrder(zone: Zone, init: Tables, from: int, s: System, s': System, id: TaskId)
    requires Inv(zone, init, s) && Inv(zone, init, s') && Ordered(zone, init, from, s)
    requires (exists rows :: Select(zone, s, s', id, rows)) || BeginOverlay(s, s', id) || WriteOverlayRow(s, s', id) ||
             StampRefresh(s, s', id) || CommitRefresh(s, s', id)
    ensures Ordered(zone, init, from, s')
  {
    hide OverlayStatement, Progress, StaticRowsOf, HistoryFine, ReadsFine, ReachableLog, NotAfter, Readable, Gather,
         Scan, Occurrences, RowsOf, DelaysOf;
    if CommitRefresh(s, s', id) {
      var task := s.tasks[id];
      CommitInOrder(zone, init, from, s, s',
                    RefreshCommit(task.slug, task.feeds, task.refresh.overlay, task.refresh.now));
    }
  }

  /** A window exists only around predictions that the calendar can name. */
  lemma WindowIsRepresentable(zone: Zone, estimated: map<Key, int>, low: Calendar.Day, high: Calendar.Day)
    requires IsWindow(zone, estimated, low, high)
    ensures Representable(zone, estimated)
  {
    hide LocalDay;
    forall k | k in estimated ensures 2 <= LocalDay(zone, estimated[k]) <= Calendar.MAX_DAY - 1 {
      assert InReach(zone, estimated, LocalDay(zone, estimated[k]) - 1);
      assert InReach(zone, estimated, LocalDay(zone, estimated[k]) + 1);
    }
  }

  lemma AcquireRefreshInOrder(zone: Zone, init: Tables, from: int, s: System, s': System, id: TaskId,
                              batches: seq<seq<string>>, low: Calendar.Day, high: Calendar.Day)
    requires Ordered(zone, init, from, s) && AcquireRefresh(zone, s, s', id, batches, low, high)
    ensures Ordered(zone, init, from, s')
  {
    hide ReachableLog, NotAfter, Gather, IsWindow, Cover, Representable;
    WindowIsRepresentable(zone, Gather(s.tasks[id].feeds).estimated, low, high);
  }

  lemma OtherStepsInOrder(zone: Zone, init: Tables, from: int, s: System, s': System)
    requires Inv(zone, init, s) && Ordered(zone, init, from, s)
    requires (exists id, task :: Spawn(s, s', id, task)) || (exists id :: Rollback(s, s', id)) ||
             (exists id :: GiveUp(s, s', id)) || Read(s, s') || Tick(s, s')
    ensures Ordered(zone, init, from, s')
  {
    hide Progress, StaticRowsOf, HistoryFine, ReadsFine, ReachableLog, Readable;
  }

  lemma EnsureInOrder(zone: Zone, init: Tables, from: int, s: System, s': System, slug: Slug, city: string)
    requires Inv(zone, init, s) && Inv(zone, init, s') && Ordered(zone, init, from, s) && Ensure(s, s', slug, city)
    ensures Ordered(zone, init, from, s')
  {
    hide Progress, HistoryFine, ReadsFine, ReachableLog, NotAfter, Readable;
    CommitInOrder(zone, init, from, s, s', EnsureCommit(slug, city));
  }

  lemma NextKeepsOrder(zone: Zone, init: Tables, from: int, s: System, s': System)
    requires Inv(zone, init, s) && Ordered(zone, init, from, s) && Next(zone, s, s')
    ensures Ordered(zone, init, from, s')
  {
    NextKeepsInv(zone, init, s, s');
    hide Inv, Ordered, Spawn, AcquireInstall, Copy, StampInstall, CommitInstall, AcquireRefresh, Select, BeginOverlay,
         WriteOverlayRow, StampRefresh, CommitRefresh, Rollback, GiveUp, Ensure, Read, Tick;
    if id :| AcquireInstall(s, s', id) || Copy(s, s', id) || StampInstall(s, s', id) || CommitInstall(s, s', id) {
      InstallStepsInOrder(zone, init, from, s, s', id);
    } else if id, batches, low, high :| AcquireRefresh(zone, s, s', id, batches, low, high) {
      AcquireRefreshInOrder(zone, init, from, s, s', id, batches, low, high);
    } else if id, rows :| Select(zone, s, s', id, rows) {
      RefreshStepsInOrder(zone, init, from, s, s', id);
    } else if id :| (BeginOverlay(s, s', id) || WriteOverlayRow(s, s', id) || StampRefresh(s, s', id) ||
                     CommitRefresh(s, s', id)) {
      RefreshStepsInOrder(zone, init, from, s, s', id);
    } else if slug, city :| Ensure(s, s', slug, city) {
      EnsureInOrder(zone, init, from, s, s', slug, city);
    } else {
      OtherStepsInOrder(zone, init, from, s, s');
    }
  }

  lemma {:induction false} RunsKeepOrder(zone: Zone, run: seq<System>, i: nat)
    requires IsRun(zone, run) && i < |run|
    ensures Ordered(zone, run[0].db, run[0].clock, run[i])
    decreases i
  {
    hide Next, Inv;
    if i == 0 {
      NothingOrdered(zone, run[0]);
    } else {
      hide Ordered;
      RunsKeepOrder(zone, run, i - 1);
      RunsKeepInv(zone, run, i - 1);
      assert Next(zone, run[i - 1], run[i - 1 + 1]);
      NextKeepsOrder(zone, run[0].db, run[0].clock, run[i - 1], run[i]);
    }
  }

  lemma NothingOrdered(zone: Zone, s: System)
    requires Init(s)
    ensures Ordered(zone, s.db, s.clock, s)
  {
  }

  /** The log is committed by some run from these tables at this time. */
  ghost predicate IsCommitted(zone: Zone, init: Tables, log: seq<Commit>, from: int) {
    exists run: seq<System> :: IsRun(zone, run) && run[0].db == init && run[0].clock == from && Last(run).log == log
  }

  /**
   * What the protocol can commit, over all its runs, are exactly the logs of admissible transactions, stamped in
   * order, with schedules for known providers and overlays from messages that can be read.
   */
  lemma CommittedExactly(zone: Zone, init: Tables, log: seq<Commit>, from: int)
    ensures IsCommitted(zone, init, log, from) <==> ReachableLog(zone, init, log, from)
  {
    hide Next, Init, ReachableLog;
    if run: seq<System> :| IsRun(zone, run) && run[0].db == init && run[0].clock == from && Last(run).log == log {
      RunsKeepOrder(zone, run, |run| - 1);
    }
    if ReachableLog(zone, init, log, from) {
      var run := EveryLogHasARun(zone, init, log, from);
    }
  }
}
