/** What every run of the manager keeps, within one session and across crashes. */
module Runs {
  import opened CText
  import opened Cgroups
  import opened Table
  import opened StateFile
  import opened Lifecycle
  import Shutdown

  /** One call into the manager, with the outside answers it gets. `DoCleanup` ends a
      session, `DoShutdown` is the signal handler's way to end it, and `DoRetire` is the
      handler's direct change of one CREATED entry. */
  datatype Step =
    | DoCreate(c: Config, e: Env)
    | DoStart(arg: string, e: Env)
    | DoStop(arg: string, e: Env)
    | DoDestroy(arg: string, eStop: Env, e: Env)
    | DoRun(c: Config, eCreate: Env, e: Env)
    | DoRetire(i: nat, e: Env)
    | DoCleanup(now: int64, saves: bool)
    | DoShutdown(start: int64, es1: seq<Env>, es2: seq<Env>, es3: seq<Env>, end: int64, saves: bool)
    | DoRestart(capacity: nat, p: Probe, saves: bool)

  function Retire(w: World, i: nat, e: Env): (r: World) {
    if i < |w.table| && w.table[i].state == CREATED
    then w.(table := w.table[i := Stopped(w.table[i], e.now)]) else w
  }

  /** The handler got an answer for every entry in each of its passes. */
  predicate Answered(t: seq<Info>, s: Step) {
    s.DoShutdown? ==> |t| <= |s.es1| && |t| <= |s.es2| && |t| <= |s.es3|
  }

  function Outcome(w: World, s: Step): (r: (World, bool)) {
    match s
    case DoCreate(c, e) => Create(w, c, e)
    case DoStart(arg, e) => Start(w, arg, e)
    case DoStop(arg, e) => Stop(w, arg, e)
    case DoDestroy(arg, eStop, e) => Destroy(w, arg, eStop, e)
    case DoRun(c, eCreate, e) => Run(w, c, eCreate, e)
    case DoRetire(i, e) => (Retire(w, i, e), true)
    case DoCleanup(_, saves) => (Save(w, saves), true)
    case DoShutdown(_, es1, es2, es3, _, saves) =>
      if Answered(w.table, s) then (Shutdown.ShutdownAll(w, es1, es2, es3, saves), true) else (w, false)
    case DoRestart(capacity, p, saves) => (Restart(w, capacity, p, saves), true)
  }

  function Apply(w: World, s: Step): (r: World) { Outcome(w, s).0 }

  function ApplyAll(w: World, steps: seq<Step>): (r: World)
    decreases |steps|
  {
    if steps == [] then w else ApplyAll(Apply(w, steps[0]), steps[1..])
  }

  /** The first and the last clock reading of a step. */
  function FirstTime(s: Step): (t: int64) {
    match s
    case DoDestroy(_, eStop, _) => eStop.now
    case DoRun(_, eCreate, _) => eCreate.now
    case DoRestart(_, p, _) => p.now
    case DoCleanup(now, _) => now
    case DoShutdown(start, _, _, _, _, _) => start
    case _ => s.e.now
  }

  function LastTime(s: Step): (t: int64) {
    match s
    case DoRestart(_, p, _) => p.now
    case DoCleanup(now, _) => now
    case DoShutdown(_, _, _, _, end, _) => end
    case _ => s.e.now
  }

  /** The clock is positive and never goes back; a spawn answers -1 or a positive pid. */
  ghost predicate Plausible(s: Step, clock: int64) {
    clock <= FirstTime(s) <= LastTime(s) &&
    match s
    case DoRestart(_, _, _) => true
    case DoCleanup(_, _) => true
    case DoShutdown(start, es1, es2, es3, end, _) =>
      Shutdown.Timely(es1, start, end) && Shutdown.Timely(es2, start, end) && Shutdown.Timely(es3, start, end)
    case _ => Answers(s.e)
  }

  // ------------------------------------------------------ lifecycle invariant

  ghost predicate EntryOk(e: Info, clock: int64) {
    && 0 < e.createdAt <= clock
    && e.pid >= 0 && (e.pid == 0 <==> e.startedAt == 0)
    && (e.state == CREATED || e.state == RUNNING || e.state == STOPPED)
    && (e.state == CREATED ==> e.pid == 0 && e.startedAt == 0 && e.stoppedAt == 0)
    && (e.state == RUNNING ==> e.pid > 0 && e.createdAt <= e.startedAt <= clock && e.stoppedAt == 0)
    && (e.state == STOPPED ==> e.createdAt <= e.stoppedAt <= clock)
    && (e.startedAt != 0 ==> e.createdAt <= e.startedAt)
    && (e.startedAt != 0 && e.stoppedAt != 0 ==> e.startedAt <= e.stoppedAt)
  }

  ghost predicate TableOk(t: seq<Info>, clock: int64) {
    UniqueIds(t) && forall i :: 0 <= i < |t| ==> EntryOk(t[i], clock)
  }

  lemma TableAppend(t: seq<Info>, e: Info, clock: int64, clock': int64)
    requires TableOk(t, clock) && clock <= clock' && EntryOk(e, clock') && Find(t, e.id).None?
    ensures TableOk(t + [e], clock')
  {
  }

  lemma TableUpdate(t: seq<Info>, i: nat, e: Info, clock: int64, clock': int64)
    requires TableOk(t, clock) && clock <= clock' && i < |t| && e.id == t[i].id && EntryOk(e, clock')
    ensures TableOk(t[i := e], clock')
  {
  }

  lemma TableRemove(t: seq<Info>, id: string, clock: int64, clock': int64)
    requires TableOk(t, clock) && clock <= clock'
    ensures TableOk(Removed(t, id), clock')
  {
    hide Find, EntryOk;
    forall i | 0 <= i < |t|
      ensures EntryOk(t[i], clock')
    {
      EntryLater(t[i], clock, clock');
    }
  }

  lemma EntryLater(e: Info, clock: int64, clock': int64)
    requires EntryOk(e, clock) && clock <= clock'
    ensures EntryOk(e, clock')
  {
  }

  lemma EntryStopped(e: Info, clock: int64, now: int64, clock': int64)
    requires EntryOk(e, clock) && clock <= now <= clock' && (e.state == CREATED || e.state == RUNNING)
    ensures EntryOk(Stopped(e, now), clock')
  {
  }

  lemma ShutdownOk(t: seq<Info>, t': seq<Info>, clock: int64, start: int64, end: int64)
    requires TableOk(t, clock) && clock <= start <= end && Shutdown.StoppedWithin(t, t', start, end)
    ensures TableOk(t', end)
  {
    hide EntryOk;
    forall i | 0 <= i < |t|
      ensures EntryOk(t'[i], end)
    {
      if t'[i] == t[i] {
        EntryLater(t[i], clock, end);
      } else {
        EntryStopped(t[i], clock, t'[i].stoppedAt, end);
      }
    }
  }

  lemma StopOk(w: World, arg: string, e: Env, clock: int64)
    requires TableOk(w.table, clock) && clock <= e.now
    ensures TableOk(Stop(w, arg, e).0.table, e.now)
  {
  }

  lemma DestroyOk(w: World, arg: string, eStop: Env, e: Env, clock: int64)
    requires TableOk(w.table, clock) && clock <= eStop.now <= e.now
    ensures TableOk(Destroy(w, arg, eStop, e).0.table, e.now)
  {
    hide Lookup, PrintState, Stop, Removed, DestroyCgroup;
    var r := Lookup(w.table, arg);
    if r.Some? {
      var id := w.table[r.value].id;
      StopOk(w, id, eStop, clock);
      TableRemove(w.table, arg, clock, e.now);
      TableRemove(Stop(w, id, eStop).0.table, arg, eStop.now, e.now);
    }
  }

  lemma CreateOk(w: World, c: Config, e: Env, clock: int64)
    requires TableOk(w.table, clock) && 0 < clock <= e.now
    ensures TableOk(Create(w, c, e).0.table, e.now)
  {
    hide Find, PrintState, CreateCgroup, DestroyCgroup, NextId;
    var id := ChosenId(w, c);
    if Create(w, c, e).1 {
      TableAppend(w.table, NewInfo(id, c, e.now), clock, e.now);
    }
  }

  lemma RunOk(w: World, c: Config, eCreate: Env, e: Env, clock: int64)
    requires TableOk(w.table, clock) && 0 < clock <= eCreate.now <= e.now && Answers(e)
    ensures TableOk(Run(w, c, eCreate, e).0.table, e.now)
  {
    hide Find, PrintState, Create, Destroy, NextId;
    var id := ChosenId(w, c);
    var c1 := c.(id := Some(id));
    var w1 := Create(w, c1, eCreate).0;
    CreateOk(w, c1, eCreate, clock);
    DestroyOk(w1, id, e, e, eCreate.now);
    var r := Find(w1.table, id);
    if Create(w, c1, eCreate).1 && r.Some? && e.spawned > 0 {
      CreatedLast(w, c1, eCreate);
      var entry := w1.table[r.value].(pid := e.spawned, state := RUNNING, startedAt := e.now);
      TableUpdate(w1.table, r.value, entry, eCreate.now, e.now);
    }
  }

  /** After a successful creation the chosen id leads to the new entry. */
  lemma CreatedLast(w: World, c: Config, e: Env)
    requires Create(w, c, e).1 && c.id.Some?
    ensures var w1 := Create(w, c, e).0;
      && w1.table == w.table + [NewInfo(c.id.value, c, e.now)]
      && Find(w1.table, c.id.value) == Some(|w.table|)
      && Lookup(w1.table, c.id.value) == Some(|w.table|)
      && Find(w.table, c.id.value).None?
  {
  }

  lemma StartOk(w: World, arg: string, e: Env, clock: int64)
    requires TableOk(w.table, clock) && 0 < clock <= e.now && Answers(e)
    ensures TableOk(Start(w, arg, e).0.table, e.now)
  {
  }

  lemma RetireOk(w: World, i: nat, e: Env, clock: int64)
    requires TableOk(w.table, clock) && clock <= e.now
    ensures TableOk(Retire(w, i, e).table, e.now)
  {
    hide EntryOk;
    TableLater(w.table, clock, e.now);
    if i < |w.table| && w.table[i].state == CREATED {
      EntryStopped(w.table[i], clock, e.now, e.now);
      TableUpdate(w.table, i, Stopped(w.table[i], e.now), clock, e.now);
    }
  }

  /** Every call keeps ids distinct and every entry in a legal stage of its life. */
  lemma StepKeepsTable(w: World, s: Step, clock: int64)
    requires !s.DoRestart? && TableOk(w.table, clock) && clock > 0 && Plausible(s, clock)
    ensures TableOk(Apply(w, s).table, LastTime(s))
  {
    hide Create, Start, Stop, Destroy, Run, PrintState, TableOk;
    hide Shutdown.ShutdownAll, Shutdown.StoppedWithin, Shutdown.Timely;
    match s
    case DoCreate(c, e) => CreateOk(w, c, e, clock);
    case DoStart(arg, e) => StartOk(w, arg, e, clock);
    case DoStop(arg, e) => StopOk(w, arg, e, clock);
    case DoDestroy(arg, eStop, e) => DestroyOk(w, arg, eStop, e, clock);
    case DoRun(c, eCreate, e) => RunOk(w, c, eCreate, e, clock);
    case DoRetire(i, e) =>
      RetireOk(w, i, e, clock);
    case DoCleanup(now, _) => TableLater(w.table, clock, now);
    case DoShutdown(start, es1, es2, es3, end, saves) =>
      TableLater(w.table, clock, end);
      if Answered(w.table, s) {
        Shutdown.ShutdownWithin(w, es1, es2, es3, saves, start, end);
        ShutdownOk(w.table, Apply(w, s).table, clock, start, end);
      }
  }

  lemma TableLater(t: seq<Info>, clock: int64, clock': int64)
    requires TableOk(t, clock) && clock <= clock'
    ensures TableOk(t, clock')
  {
    hide EntryOk;
    forall i | 0 <= i < |t|
      ensures EntryOk(t[i], clock')
    {
      EntryLater(t[i], clock, clock');
    }
  }

  ghost predicate PlausibleSession(steps: seq<Step>, clock: int64) {
    steps != [] ==>
      !steps[0].DoRestart? && Plausible(steps[0], clock) && PlausibleSession(steps[1..], LastTime(steps[0]))
  }

  function EndTime(steps: seq<Step>, clock: int64): (t: int64) {
    if steps == [] then clock else EndTime(steps[1..], LastTime(steps[0]))
  }

  /** The lifecycle invariant of every session, whatever ids and arguments are used
      and whatever the kernel, the allocator and the disk answer. */
  lemma {:induction false} SessionKeepsTable(w: World, steps: seq<Step>, clock: int64)
    requires TableOk(w.table, clock) && clock > 0 && PlausibleSession(steps, clock)
    ensures TableOk(ApplyAll(w, steps).table, EndTime(steps, clock))
    decreases |steps|
  {
    hide Apply, EntryOk;
    if steps != [] {
      StepKeepsTable(w, steps[0], clock);
      SessionKeepsTable(Apply(w, steps[0]), steps[1..], LastTime(steps[0]));
    }
  }

  /** In every state of every session the pid of an entry that does not run is 0 exactly
      when it was never started: stopping keeps the pid. */
  lemma NotRunningPidIff(w: World, steps: seq<Step>, clock: int64, i: nat)
    requires TableOk(w.table, clock) && clock > 0 && PlausibleSession(steps, clock)
    requires i < |ApplyAll(w, steps).table| && ApplyAll(w, steps).table[i].state != RUNNING
    ensures var e := ApplyAll(w, steps).table[i]; e.pid == 0 <==> e.startedAt == 0
    ensures ApplyAll(w, steps).table[i].state == CREATED ==> ApplyAll(w, steps).table[i].pid == 0
  {
    SessionKeepsTable(w, steps, clock);
  }

  // ------------------------------------------------------- legal transitions

  /** One entry before and after a call: unchanged, started, stopped, or retired. Starting
      sets pid, state and times; stopping and retiring set only state and stop time. */
  ghost predicate Moves(e: Info, e': Info) {
    || e' == e
    || (CanStart(e) && e' == e.(pid := e'.pid, state := RUNNING, startedAt := e'.startedAt, stoppedAt := 0))
    || ((e.state == RUNNING || e.state == CREATED) && e' == e.(state := STOPPED, stoppedAt := e'.stoppedAt))
  }

  /** An entry the call made, under the id chosen and the configuration it was given. */
  ghost predicate Made(e: Info, id: string, c: Config, state: int32, now: int64) {
    && e.id == id && e.config.Some? && e.config.value == CopyConfig(c.(id := e.config.value.id))
    && e.createdAt == now && e.state == state && e.stoppedAt == 0
  }

  /** Every entry keeps its place and moves legally, and at most one of them moves. */
  ghost predicate InPlace(t: seq<Info>, t': seq<Info>) {
    && |t| <= |t'|
    && (forall i :: 0 <= i < |t| ==> Moves(t[i], t'[i]))
    && (forall i, j :: 0 <= i < j < |t| ==> t'[i] == t[i] || t'[j] == t[j])
  }

  /** At most one entry, a running one, is stopped. */
  ghost predicate OneStopped(t: seq<Info>, t': seq<Info>) {
    && |t'| == |t| && InPlace(t, t')
    && forall i :: 0 <= i < |t| && t'[i] != t[i] ==> t[i].state == RUNNING && t'[i].state == STOPPED
  }

  /** The first entry with the id is gone, if there is one, and the rest moved up. */
  ghost predicate FirstGone(t: seq<Info>, t': seq<Info>, id: string) {
    match Find(t, id)
    case None => t' == t
    case Some(k) => |t'| == |t| - 1 && (forall j :: 0 <= j < |t'| ==> t'[j] == t[if j < k then j else j + 1])
  }

  /** At most one stop, then at most the removal of the first entry with the id. */
  ghost predicate StoppedThenGone(t: seq<Info>, t': seq<Info>, id: string) {
    exists t1 :: OneStopped(t, t1) && FirstGone(t1, t', id)
  }

  lemma UpdateInPlace(t: seq<Info>, i: nat, e: Info)
    requires i < |t| && Moves(t[i], e)
    ensures InPlace(t, t[i := e])
  {
  }

  lemma StopMoves(w: World, arg: string, e: Env)
    ensures OneStopped(w.table, Stop(w, arg, e).0.table)
  {
    hide Lookup, PrintState;
    var r := Lookup(w.table, arg);
    if r.Some? && w.table[r.value].state == RUNNING {
      UpdateInPlace(w.table, r.value, Stopped(w.table[r.value], e.now));
    }
  }

  lemma RemovedFirst(t: seq<Info>, id: string)
    ensures FirstGone(t, Removed(t, id), id)
  {
  }

  /** Destroying stops at most one entry, in place, and then removes at most the first
      entry that has the argument for its id; when it fails it changes nothing. */
  lemma DestroyMoves(w: World, arg: string, eStop: Env, e: Env)
    ensures var (w', ok) := Destroy(w, arg, eStop, e);
      if ok then StoppedThenGone(w.table, w'.table, arg) else w'.table == w.table
  {
    hide Lookup, PrintState, Stop, DestroyCgroup, Removed, FirstGone;
    var r := Lookup(w.table, arg);
    if r.Some? {
      var id := w.table[r.value].id;
      StopMoves(w, id, eStop);
      assert OneStopped(w.table, w.table);
      var t1 := if w.table[r.value].state == RUNNING then Stop(w, id, eStop).0.table else w.table;
      RemovedFirst(t1, arg);
    }
  }

  lemma StartMoves(w: World, arg: string, e: Env)
    ensures InPlace(w.table, Start(w, arg, e).0.table) && |Start(w, arg, e).0.table| == |w.table|
  {
    hide Lookup, PrintState, CreateCgroup, Spawn;
    var r := Lookup(w.table, arg);
    if r.Some? && CanStart(w.table[r.value]) {
      var entry := w.table[r.value];
      UpdateInPlace(w.table, r.value, Started(entry, Spawn(entry.config.value, e), e.now));
    }
  }

  lemma CreateMoves(w: World, c: Config, e: Env)
    ensures var (w', ok) := Create(w, c, e);
      if ok then |w'.table| == |w.table| + 1 && w'.table[..|w.table|] == w.table
        && Made(w'.table[|w.table|], ChosenId(w, c), c, CREATED, e.now)
      else w'.table == w.table
  {
    hide Find, PrintState, CreateCgroup, DestroyCgroup, NextId;
  }

  lemma RunMoves(w: World, c: Config, eCreate: Env, e: Env)
    ensures var (w', ok) := Run(w, c, eCreate, e);
      if ok then |w'.table| == |w.table| + 1 && w'.table[..|w.table|] == w.table
        && Made(w'.table[|w.table|], ChosenId(w, c), c, RUNNING, eCreate.now)
      else w'.table == w.table
  {
    hide PrintState, Find, Lookup, CreateCgroup, DestroyCgroup, NextId, Removed;
    var c1 := c.(id := Some(ChosenId(w, c)));
    if Create(w, c1, eCreate).1 {
      CreatedLast(w, c1, eCreate);
      RemovedAppended(w.table, NewInfo(c1.id.value, c1, eCreate.now));
    }
  }

  lemma PrefixInPlace(t: seq<Info>, t': seq<Info>)
    requires |t| <= |t'| && t'[..|t|] == t
    ensures InPlace(t, t')
  {
    assert forall i :: 0 <= i < |t| ==> t'[i] == t'[..|t|][i];
  }

  /** Every call but destroy, shutdown and restart leaves every entry in its place, moving at most
      one along a legal edge; it adds an entry exactly when it is a successful create or
      run, last, under the chosen id and the given configuration, CREATED or RUNNING. */
  lemma StepMoves(w: World, s: Step)
    requires !s.DoRestart? && !s.DoDestroy? && !s.DoShutdown?
    ensures var (w', ok) := Outcome(w, s);
      var made := (s.DoCreate? || s.DoRun?) && ok;
      && InPlace(w.table, w'.table)
      && |w'.table| == |w.table| + (if made then 1 else 0)
      && (made ==>
           Made(w'.table[|w.table|], ChosenId(w, s.c), s.c, if s.DoRun? then RUNNING else CREATED, FirstTime(s)))
  {
    hide Create, Start, Stop, Run, Made, Moves, PrintState, ChosenId;
    assert w.table[..|w.table|] == w.table;
    PrefixInPlace(w.table, w.table);
    match s
    case DoCreate(c, e) =>
      CreateMoves(w, c, e);
      PrefixInPlace(w.table, Create(w, c, e).0.table);
    case DoStart(arg, e) => StartMoves(w, arg, e);
    case DoStop(arg, e) => StopMoves(w, arg, e);
    case DoCleanup(_, _) =>
    case DoRun(c, eCreate, e) =>
      RunMoves(w, c, eCreate, e);
      PrefixInPlace(w.table, Run(w, c, eCreate, e).0.table);
    case DoRetire(i, e) =>
      if i < |w.table| && w.table[i].state == CREATED {
        RetireMoves(w.table[i], e.now);
        UpdateInPlace(w.table, i, Stopped(w.table[i], e.now));
      }
  }

  lemma RetireMoves(e: Info, now: int64)
    requires e.state == CREATED
    ensures Moves(e, Stopped(e, now))
  {
  }

  /** Shutdown leaves every entry in its place, unchanged or stopped from CREATED or RUNNING. */
  lemma ShutdownMoves(w: World, s: Step)
    requires s.DoShutdown?
    ensures var t' := Apply(w, s).table;
      && |t'| == |w.table|
      && forall i :: 0 <= i < |t'| ==> Moves(w.table[i], t'[i]) && (t'[i] == w.table[i] || t'[i].state == STOPPED)
  {
    hide Shutdown.ShutdownAll;
    if Answered(w.table, s) {
      Shutdown.ShutdownWithin(w, s.es1, s.es2, s.es3, s.saves, LONG_MIN, LONG_MAX);
    }
  }
}
