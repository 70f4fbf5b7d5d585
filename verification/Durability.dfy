/** Crash consistency: what a crash at any boundary between calls leaves behind. */
module Durability {
  import opened CText
  import opened Cgroups
  import opened Table
  import opened StateFile
  import opened Lifecycle
  import opened Runs
  import Shutdown

  /** The manager's state with the history that matters across crashes: the table the
      state file shows, and the recorded pids that restarts found dead. */
  datatype History = History(w: World, clock: int64, shown: seq<Info>, gone: set<int32>)

  function RunningPids(t: seq<Info>): (pids: set<int32>) { set e <- t | e.state == RUNNING :: e.pid }

  function Next(h: History, s: Step): (r: History) {
    var (w, ok) := Outcome(h.w, s);
    var spawned := if (s.DoStart? || s.DoRun?) && ok then {s.e.spawned} else {};
    var dead := if s.DoRestart? then RunningPids(h.shown) - s.p.alive else {};
    var shown := if w.file == Some(PrintState(w.table)) then w.table else h.shown;
    History(w, LastTime(s), shown, h.gone + dead - spawned)
  }

  function NextAll(h: History, steps: seq<Step>): (r: History)
    decreases |steps|
  {
    if steps == [] then h else NextAll(Next(h, steps[0]), steps[1..])
  }

  /** Ids come from the manager below the `int` limit, or are chosen to load as they are. */
  ghost predicate GoodName(w: World, c: Config) {
    match c.id
    case Some(id) => LoadableId(id)
    case None => MaxId(w.table) < INT_MAX
  }

  /** State-file writes succeed and names are good; the pids alive at a restart are arbitrary. */
  ghost predicate Admissible(h: History, s: Step) {
    Plausible(s, h.clock) &&
    match s
    case DoCreate(c, e) => GoodName(h.w, c) && e.saves
    case DoStart(_, e) => e.saves
    case DoStop(_, e) => e.saves
    case DoDestroy(_, eStop, e) => eStop.saves && e.saves
    case DoRun(c, eCreate, e) => GoodName(h.w, c) && eCreate.saves && e.saves
    case DoRetire(_, _) => false
    case DoCleanup(_, saves) => saves
    case DoShutdown(_, _, _, _, _, saves) => saves && Answered(h.w.table, s)
    case DoRestart(_, _, saves) => saves
  }

  ghost predicate AllAdmissible(h: History, steps: seq<Step>)
    decreases |steps|
  {
    steps != [] ==> Admissible(h, steps[0]) && AllAdmissible(Next(h, steps[0]), steps[1..])
  }

  // ------------------------------------------------------------ write-through

  /** Either nothing observable by a load changed, or the file shows the new table;
      after a spawn it always does. */
  lemma StepWritesThrough(h: History, s: Step)
    requires Admissible(h, s) && !s.DoRestart?
    ensures var (w', ok) := Outcome(h.w, s);
      && ((w'.table == h.w.table && w'.file == h.w.file) || w'.file == Some(PrintState(w'.table)))
      && ((s.DoStart? || s.DoRun?) && ok ==> w'.file == Some(PrintState(w'.table)))
  {
    hide PrintState, Lookup, Find, CreateCgroup, DestroyCgroup, NextId, GoodName, Removed, Shutdown.Pass;
  }

  // ------------------------------------------------------------------ tables

  ghost predicate Loadable(t: seq<Info>) { forall i :: 0 <= i < |t| ==> LoadableId(t[i].id) }

  /** A table as the manager builds it under good names. */
  ghost predicate Sound(t: seq<Info>, clock: int64) { TableOk(t, clock) && Loadable(t) }

  lemma {:induction false} KeptUnique(t: seq<Info>, p: Probe)
    requires UniqueIds(t)
    ensures UniqueIds(Kept(t, p))
  {
    if t != [] {
      var t0, e := t[..|t| - 1], t[|t| - 1];
      KeptUnique(t0, p);
      KeptIds(t0, p);
      if KeepsEntry(e, p) {
        UniqueAppend(Kept(t0, p), Forget(e));
      }
    }
  }

  lemma KeptSound(t: seq<Info>, p: Probe, clock: int64, clock': int64)
    requires Sound(t, clock) && clock <= clock'
    ensures Sound(Kept(t, p), clock')
  {
    hide LoadableId;
    KeptUnique(t, p);
    forall k | 0 <= k < |Kept(t, p)|
      ensures EntryOk(Kept(t, p)[k], clock') && LoadableId(Kept(t, p)[k].id)
    {
      KeptElement(t, p, k);
    }
  }

  lemma {:induction false} KeptNothingIff(t: seq<Info>, p: Probe)
    ensures Kept(t, p) == [] <==> forall i :: 0 <= i < |t| ==> !KeepsEntry(t[i], p)
  {
    hide KeepsEntry;
    if t != [] {
      KeptNothingIff(t[..|t| - 1], p);
    }
  }

  lemma LoadOfSound(t: seq<Info>, clock: int64, p: Probe)
    requires Sound(t, clock)
    ensures LoadState(Some(PrintState(t)), p) == Kept(t, p)
  {
    hide LoadState, PrintState, NumericId;
    assert forall i :: 0 <= i < |t| ==> LoadableId(t[i].id);
    LoadOfSave(t, p);
    RestoredNumeric(t, p);
  }

  // --------------------------------------------------------------- invariant

  /** The state file shows `shown`, which is the table in memory, or the remainder of an
      earlier session of which a restart loaded nothing. */
  ghost predicate Durable(h: History) {
    && h.clock > 0 && Sound(h.w.table, h.clock) && Sound(h.shown, h.clock)
    && (h.w.file == Some(PrintState(h.shown)) || (h.w.file == None && h.shown == []))
    && (h.shown == h.w.table || Remainder(h))
  }

  /** Nothing in memory; in the file only stopped entries and runs found dead. */
  ghost predicate Remainder(h: History) {
    && h.w.table == [] && RunningPids(h.shown) <= h.gone
    && forall i :: 0 <= i < |h.shown| ==> h.shown[i].state != CREATED
  }

  /** Some run that the file still shows, and memory does not, has its pid alive. */
  ghost predicate Haunted(h: History, p: Probe) {
    h.shown != h.w.table && exists i :: 0 <= i < |h.shown| && h.shown[i].state == RUNNING && IsAlive(p, h.shown[i].pid)
  }

  lemma DurableLoadsShown(h: History, p: Probe)
    requires Durable(h)
    ensures LoadState(h.w.file, p) == Kept(h.shown, p)
  {
    hide Kept, PrintState, Sound;
    if h.w.file.Some? {
      LoadOfSound(h.shown, h.clock, p);
    } else {
      KeptNothingIff([], p);
    }
  }

  lemma RemainderKept(h: History, p: Probe)
    requires Durable(h) && Remainder(h)
    ensures Kept(h.shown, p) == [] <==>
      !exists i :: 0 <= i < |h.shown| && h.shown[i].state == RUNNING && IsAlive(p, h.shown[i].pid)
  {
    hide PrintState, Kept;
    KeptNothingIff(h.shown, p);
    forall i | 0 <= i < |h.shown|
      ensures KeepsEntry(h.shown[i], p) <==> h.shown[i].state == RUNNING && IsAlive(p, h.shown[i].pid)
    {
      assert EntryOk(h.shown[i], h.clock);
    }
  }

  /** A crash now, followed by a load, finds exactly the CREATED entries and the live
      RUNNING ones of the table in memory, in order, if and only if no pid of a run that
      only the file still shows is alive. */
  lemma DurableLoadsIff(h: History, p: Probe)
    requires Durable(h)
    ensures LoadState(h.w.file, p) == Kept(h.w.table, p) <==> !Haunted(h, p)
  {
    hide PrintState, Sound, Kept, KeepsEntry;
    DurableLoadsShown(h, p);
    if h.shown != h.w.table {
      KeptNothingIff([], p);
      RemainderKept(h, p);
    }
  }

  // ------------------------------------------------------------------- steps

  lemma NamedUpdate(t: seq<Info>, i: nat, e: Info)
    requires Loadable(t) && i < |t| && e.id == t[i].id
    ensures Loadable(t[i := e])
  {
    hide LoadableId;
  }

  lemma NamedStop(w: World, arg: string, e: Env)
    requires Loadable(w.table)
    ensures Loadable(Stop(w, arg, e).0.table)
  {
    hide PrintState, Lookup, LoadableId, Loadable;
    var r := Lookup(w.table, arg);
    if r.Some? {
      NamedUpdate(w.table, r.value, Stopped(w.table[r.value], e.now));
    }
  }

  lemma NamedDestroy(w: World, arg: string, eStop: Env, e: Env)
    requires Loadable(w.table)
    ensures Loadable(Destroy(w, arg, eStop, e).0.table)
  {
    hide PrintState, Lookup, LoadableId, Stop, DestroyCgroup, Find;
    var r := Lookup(w.table, arg);
    if r.Some? {
      NamedStop(w, w.table[r.value].id, eStop);
    }
  }

  lemma NamedCreate(w: World, c: Config, e: Env)
    requires Loadable(w.table) && GoodName(w, c)
    ensures Loadable(Create(w, c, e).0.table)
  {
    hide PrintState, Find, CreateCgroup, DestroyCgroup, NextId, LoadableId;
    NameLoadable(w, c);
  }

  lemma NamedStart(w: World, arg: string, e: Env)
    requires Loadable(w.table)
    ensures Loadable(Start(w, arg, e).0.table)
  {
    hide PrintState, Lookup, LoadableId, Loadable, CreateCgroup, Spawn;
    var r := Lookup(w.table, arg);
    if r.Some? && CanStart(w.table[r.value]) {
      var entry := w.table[r.value];
      NamedUpdate(w.table, r.value, Started(entry, Spawn(entry.config.value, e), e.now));
    }
  }

  lemma NamedRun(w: World, c: Config, eCreate: Env, e: Env)
    requires Loadable(w.table) && GoodName(w, c)
    ensures Loadable(Run(w, c, eCreate, e).0.table)
  {
    hide PrintState, Find, Create, Destroy, NextId, LoadableId, Spawn;
    NameLoadable(w, c);
    var id := ChosenId(w, c);
    var c1 := c.(id := Some(id));
    NamedCreate(w, c1, eCreate);
    NamedDestroy(Create(w, c1, eCreate).0, id, e, e);
  }

  lemma NameLoadable(w: World, c: Config)
    requires GoodName(w, c)
    ensures LoadableId(ChosenId(w, c))
  {
    if c.id.None? {
      NextIdFresh(w.table);
      NextIdSafe(w.table);
    }
  }

  lemma NextIdSafe(t: seq<Info>)
    ensures SafeId(NextId(t))
  {
    LongPrintsShort(Wrap32(MaxId(t) + 1));
  }

  /** A session step keeps the table sound. */
  lemma StepKeepsSound(h: History, s: Step)
    requires Admissible(h, s) && !s.DoRestart? && h.clock > 0 && Sound(h.w.table, h.clock)
    ensures Sound(Apply(h.w, s).table, LastTime(s))
  {
    hide Create, Start, Stop, Destroy, Run, TableOk, Loadable, GoodName, PrintState, Shutdown.ShutdownAll;
    StepKeepsTable(h.w, s, h.clock);
    match s
    case DoCreate(c, e) => NamedCreate(h.w, c, e);
    case DoStart(arg, e) => NamedStart(h.w, arg, e);
    case DoStop(arg, e) => NamedStop(h.w, arg, e);
    case DoDestroy(arg, eStop, e) => NamedDestroy(h.w, arg, eStop, e);
    case DoRun(c, eCreate, e) => NamedRun(h.w, c, eCreate, e);
    case DoCleanup(_, _) =>
    case DoShutdown(start, es1, es2, es3, end, saves) =>
      Shutdown.ShutdownWithin(h.w, es1, es2, es3, saves, start, end);
      NamedShutdown(h.w.table, Apply(h.w, s).table, start, end);
  }

  lemma NamedShutdown(t: seq<Info>, t': seq<Info>, start: int64, end: int64)
    requires Loadable(t) && Shutdown.StoppedWithin(t, t', start, end)
    ensures Loadable(t')
  {
    hide LoadableId;
    assert forall j :: 0 <= j < |t| ==> t'[j].id == t[j].id;
  }

  lemma SoundLater(t: seq<Info>, clock: int64, clock': int64)
    requires Sound(t, clock) && clock <= clock'
    ensures Sound(t, clock')
  {
  }

  lemma StepKeepsDurable(h: History, s: Step)
    requires Durable(h) && Admissible(h, s) && !s.DoRestart?
    ensures Durable(Next(h, s))
  {
    hide PrintState, Sound, GoodName, Create, Start, Stop, Destroy, Run, Shutdown.ShutdownAll, Shutdown.Timely;
    StepKeepsSound(h, s);
    StepWritesThrough(h, s);
    SoundLater(h.shown, h.clock, LastTime(s));
  }

  lemma RestartKeepsDurable(h: History, s: Step)
    requires Durable(h) && Admissible(h, s) && s.DoRestart?
    ensures Durable(Next(h, s))
  {
    hide PrintState, Sound, LoadState, Kept;
    var h' := Next(h, s);
    DurableLoadsShown(h, s.p);
    assert h'.w.table == Kept(h.shown, s.p);
    KeptSound(h.shown, s.p, h.clock, h'.clock);
    SoundLater(h.shown, h.clock, h'.clock);
    if h'.w.table == [] {
      KeptNothingIff(h.shown, s.p);
      LeftBehind(h, s.p);
    }
  }

  /** What a restart that loads nothing leaves in the file. */
  lemma LeftBehind(h: History, p: Probe)
    requires Durable(h) && forall i :: 0 <= i < |h.shown| ==> !KeepsEntry(h.shown[i], p)
    ensures forall i :: 0 <= i < |h.shown| ==> h.shown[i].state != CREATED
    ensures RunningPids(h.shown) !! p.alive
  {
    hide PrintState;
    forall i | 0 <= i < |h.shown| && h.shown[i].state == RUNNING
      ensures h.shown[i].pid !in p.alive
    {
      assert EntryOk(h.shown[i], h.clock);
      assert !KeepsEntry(h.shown[i], p);
    }
  }

  /** The invariant of every history, over any number of sessions. */
  lemma {:induction false} EveryHistoryDurable(h: History, steps: seq<Step>)
    requires Durable(h) && AllAdmissible(h, steps)
    ensures Durable(NextAll(h, steps))
    decreases |steps|
  {
    hide Durable, Admissible, Next;
    if steps != [] {
      if steps[0].DoRestart? {
        RestartKeepsDurable(h, steps[0]);
      } else {
        StepKeepsDurable(h, steps[0]);
      }
      EveryHistoryDurable(Next(h, steps[0]), steps[1..]);
    }
  }

  /** The first start on a machine without a state file. */
  function Fresh(version: Version, tree: Tree, capacity: nat, clock: int64): (h: History) {
    History(World(version, tree, [], capacity, None), clock, [], {})
  }

  /** From a fresh start, whatever pids were alive at the restarts in between, a crash at
      any boundary between calls loses no CREATED and no live RUNNING container and brings
      no other back, if and only if no pid of a run that only the file still shows is
      alive. In memory the lifecycle invariant and distinct ids hold throughout. */
  lemma CrashConsistencyIff(version: Version, tree: Tree, capacity: nat, clock: int64, steps: seq<Step>, p: Probe)
    requires clock > 0 && AllAdmissible(Fresh(version, tree, capacity, clock), steps)
    ensures var h := NextAll(Fresh(version, tree, capacity, clock), steps);
      && (LoadState(h.w.file, p) == Kept(h.w.table, p) <==> !Haunted(h, p))
      && TableOk(h.w.table, h.clock)
  {
    hide Kept, PrintState, LoadState, Admissible, Next, Haunted;
    EveryHistoryDurable(Fresh(version, tree, capacity, clock), steps);
    DurableLoadsIff(NextAll(Fresh(version, tree, capacity, clock), steps), p);
  }

  /** In particular when the pids found dead are still dead. */
  lemma CrashConsistency(version: Version, tree: Tree, capacity: nat, clock: int64, steps: seq<Step>, p: Probe)
    requires clock > 0 && AllAdmissible(Fresh(version, tree, capacity, clock), steps)
    requires p.alive !! NextAll(Fresh(version, tree, capacity, clock), steps).gone
    ensures var h := NextAll(Fresh(version, tree, capacity, clock), steps);
      LoadState(h.w.file, p) == Kept(h.w.table, p)
  {
    hide Kept, PrintState, LoadState, Admissible, Next;
    var h := NextAll(Fresh(version, tree, capacity, clock), steps);
    EveryHistoryDurable(Fresh(version, tree, capacity, clock), steps);
    DurableLoadsIff(h, p);
    NotHaunted(h, p);
  }

  lemma NotHaunted(h: History, p: Probe)
    requires p.alive !! h.gone && (h.shown == h.w.table || RunningPids(h.shown) <= h.gone)
    ensures !Haunted(h, p)
  {
    forall i | 0 <= i < |h.shown| && h.shown[i].state == RUNNING && h.shown != h.w.table
      ensures !IsAlive(p, h.shown[i].pid)
    {
      assert h.shown[i].pid in RunningPids(h.shown);
    }
  }

  /** A step by which a session ends normally. */
  predicate EndsSession(s: Step) { s.DoCleanup? || s.DoShutdown? }

  /** The last step of a session that ends normally lays every remainder to rest: whatever
      pids are alive later, the next start finds exactly the table, and after a shutdown
      finds nothing. */
  lemma CleanEnd(version: Version, tree: Tree, capacity: nat, clock: int64, steps: seq<Step>, s: Step, p: Probe)
    requires clock > 0 && AllAdmissible(Fresh(version, tree, capacity, clock), steps)
    requires var h := NextAll(Fresh(version, tree, capacity, clock), steps); Admissible(h, s) && EndsSession(s)
    ensures var h := Next(NextAll(Fresh(version, tree, capacity, clock), steps), s);
      LoadState(h.w.file, p) == Kept(h.w.table, p) && (s.DoShutdown? ==> LoadState(h.w.file, p) == [])
  {
    hide Durable, AllAdmissible, Admissible, LoadState, Kept;
    var h := NextAll(Fresh(version, tree, capacity, clock), steps);
    FreshDurable(version, tree, capacity, clock);
    EveryHistoryDurable(Fresh(version, tree, capacity, clock), steps);
    EndShows(h, s);
    StepKeepsDurable(h, s);
    DurableLoadsIff(Next(h, s), p);
    if s.DoShutdown? {
      AllStopped(h, s, p);
    }
  }

  lemma FreshDurable(version: Version, tree: Tree, capacity: nat, clock: int64)
    requires clock > 0
    ensures Durable(Fresh(version, tree, capacity, clock))
  {
  }

  lemma EndShows(h: History, s: Step)
    requires Admissible(h, s) && EndsSession(s)
    ensures var h' := Next(h, s); h'.shown == h'.w.table
  {
    hide PrintState, Shutdown.Pass;
  }

  lemma AllStopped(h: History, s: Step, p: Probe)
    requires Durable(h) && Admissible(h, s) && s.DoShutdown?
    ensures Kept(Next(h, s).w.table, p) == []
  {
    hide PrintState, Loadable, Kept, EntryOk, Shutdown.ShutdownAll;
    var t, t' := h.w.table, Next(h, s).w.table;
    Shutdown.ShutdownStates(h.w, s.es1, s.es2, s.es3, s.saves);
    KeptNothingIff(t', p);
    forall i | 0 <= i < |t|
      ensures !KeepsEntry(t'[i], p)
    {
      LegalState(t[i], h.clock);
      assert Shutdown.IsFirst(t, i);
    }
  }

  lemma LegalState(e: Info, clock: int64)
    requires EntryOk(e, clock)
    ensures CREATED <= e.state <= STOPPED
  {
  }
}
