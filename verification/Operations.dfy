/** When each call of the manager succeeds, and what the state is then. */
module Operations {
  import opened CText
  import opened Cgroups
  import opened Table
  import opened StateFile
  import opened Lifecycle
  import opened Runs
  import Shutdown

  /** The state file after a save that may fail. */
  function FileAfter(saves: bool, t: seq<Info>, file: Option<string>): (r: Option<string>) {
    if saves then Some(PrintState(t)) else file
  }

  // ------------------------------------------------------------------- start

  /** The entry is one that can be started: it does not run and has a configuration. */
  predicate Idle(e: Info) { (e.state == CREATED || e.state == STOPPED) && e.config.Some? }

  predicate HasCommand(c: Config) { c.command.Some? && c.command.value != [] }

  /** Start succeeds exactly when the argument leads to an idle entry with a command, the
      cgroup can be made and the spawn answers a pid. It then records that pid and the time
      in this entry and changes no other; otherwise only the tree may change. */
  lemma StartExact(w: World, arg: string, e: Env)
    ensures var (w', ok) := Start(w, arg, e); var r := Lookup(w.table, arg);
      && (ok <==>
           && r.Some? && Idle(w.table[r.value]) && HasCommand(w.table[r.value].config.value)
           && CanMake(w.version, w.tree, arg, e.kernel) && e.spawned != -1)
      && (ok ==>
           var entry := w.table[r.value].(pid := e.spawned, state := RUNNING, startedAt := e.now, stoppedAt := 0);
           var t := w.table[r.value := entry];
           w' == w.(tree := w'.tree, table := t, file := FileAfter(e.saves, t, w.file)))
      && (!ok ==> w' == w.(tree := w'.tree))
      && w'.tree ==
           if r.Some? && Idle(w.table[r.value])
           then CreateCgroup(w.version, w.tree, arg, w.table[r.value].config.value.limits, e.kernel).0
           else w.tree
  {
    hide PrintState, Lookup, CreateCgroup, CanMake, Wanted;
    var r := Lookup(w.table, arg);
    if r.Some? && w.table[r.value].config.Some? {
      CreateFrame(w.version, w.tree, arg, w.table[r.value].config.value.limits, e.kernel);
    }
  }

  // -------------------------------------------------------------------- stop

  /** Stop succeeds exactly when the argument, id or pid, leads to a running entry; it then
      stops this entry at that time and changes nothing else, not even its pid. */
  lemma StopExact(w: World, arg: string, e: Env)
    ensures var (w', ok) := Stop(w, arg, e); var r := Lookup(w.table, arg);
      && (ok <==> r.Some? && w.table[r.value].state == RUNNING)
      && (ok ==>
           var t := w.table[r.value := w.table[r.value].(state := STOPPED, stoppedAt := e.now)];
           w' == w.(table := t, file := FileAfter(e.saves, t, w.file)))
      && (!ok ==> w' == w)
  {
    hide PrintState, Lookup;
  }

  // ----------------------------------------------------------------- destroy

  /** The table after the stop inside destroy, which reaches the first entry with the id. */
  function AfterStop(t: seq<Info>, i: nat, now: int64): (r: seq<Info>)
    requires i < |t|
  {
    var j := Find(t, t[i].id);
    if t[i].state == RUNNING && j.Some? && t[j.value].state == RUNNING
    then t[j.value := t[j.value].(state := STOPPED, stoppedAt := now)] else t
  }

  /** Destroy succeeds exactly when the argument leads to an entry. In both layouts and in
      every state of the entry it removes all directories of that entry's id that the kernel
      lets go, and nothing else of the tree. A running entry is stopped first, and then the
      first entry that has the argument for its id goes. */
  lemma DestroyExactly(w: World, arg: string, eStop: Env, e: Env)
    requires WellFormed(w.tree)
    ensures var (w', ok) := Destroy(w, arg, eStop, e); var r := Lookup(w.table, arg);
      && (ok <==> r.Some?)
      && (!ok ==> w' == w)
      && (ok ==>
           && w'.tree == Without(w.tree, DirsOf(w.version, w.table[r.value].id) - e.kernel.rmdirDenied)
           && FirstGone(AfterStop(w.table, r.value, eStop.now), w'.table, arg)
           && w'.version == w.version && w'.capacity == w.capacity
           && (e.saves ==> w'.file == Some(PrintState(w'.table))))
  {
    hide PrintState, Lookup, Find, DestroyCgroup, Without, Stop, Removed, FirstGone;
    var r := Lookup(w.table, arg);
    if r.Some? {
      var id := w.table[r.value].id;
      assert w.table[r.value] in w.table && id in Ids(w.table);
      LookupIff(w.table, id);
      StopExact(w, id, eStop);
      Cgroups.DestroyExact(w.version, w.tree, id, e.kernel);
      var w1 := if w.table[r.value].state == RUNNING then Stop(w, id, eStop).0 else w;
      assert w1.table == AfterStop(w.table, r.value, eStop.now);
      RemovedFirst(w1.table, arg);
    }
  }

  /** An entry reached through its pid stays, and if it ran it is stopped. */
  lemma DestroyByPidStops(w: World, arg: string, eStop: Env, e: Env)
    requires WellFormed(w.tree) && UniqueIds(w.table) && PidAlias(w.table, arg)
    ensures var w', i := Destroy(w, arg, eStop, e).0, Lookup(w.table, arg).value;
      && |w'.table| == |w.table| && w'.table[i].id == w.table[i].id
      && w'.table == if w.table[i].state == RUNNING
           then w.table[i := w.table[i].(state := STOPPED, stoppedAt := eStop.now)] else w.table
  {
    hide Destroy, Lookup, Without;
    DestroyExactly(w, arg, eStop, e);
    var i := Lookup(w.table, arg).value;
    FindIsMapLookup(w.table, i);
    var t := AfterStop(w.table, i, eStop.now);
    assert Find(t, arg).None?;
  }

  // ------------------------------------------------------------------ create

  /** Every answer creation needs: memory, a new name, the cgroup, the root, room. */
  predicate Creatable(w: World, c: Config, id: string, e: Env) {
    && e.idOk && e.infoOk && e.copyOk && id !in Ids(w.table) && Granted(w, c, id, e)
  }

  predicate Granted(w: World, c: Config, id: string, e: Env) {
    && CanMake(w.version, w.tree, id, e.kernel)
    && (c.minimalFs ==> c.fsRoot.Some? && e.rootOk)
    && (|w.table| < w.capacity || e.reallocOk)
  }

  /** The id a creation is for: the given one, or the number after the largest. */
  predicate Names(w: World, c: Config, id: string) {
    match c.id
    case Some(given) => id == given
    case None => MaxId(w.table) < INT_MAX && id == PrintInt(MaxId(w.table) + 1)
  }

  function Saved(c: Config): (r: Config) { c.(command := if c.command == Some([]) then None else c.command) }

  function Room(w: World): (capacity: nat) { if |w.table| < w.capacity then w.capacity else 2 * w.capacity }

  lemma NamesChosen(w: World, c: Config, id: string)
    requires Names(w, c, id)
    ensures ChosenId(w, c) == id
  {
  }

  /** Create succeeds exactly when nothing it needs is refused and no entry has the name; it
      then adds one CREATED entry, last, and makes its cgroup. Otherwise only the tree may
      change. */
  lemma CreateExact(w: World, c: Config, e: Env, id: string)
    requires Names(w, c, id)
    ensures var (w', ok) := Create(w, c, e);
      && (ok <==> Creatable(w, c, id, e))
      && (ok ==>
           var t := w.table + [Info(id, 0, CREATED, e.now, 0, 0, Some(Saved(c)))];
           var tree := CreateCgroup(w.version, w.tree, id, c.limits, e.kernel).0;
           w' == World(w.version, tree, t, Room(w), FileAfter(e.saves, t, w.file)))
      && (!ok ==> w' == w.(tree := w'.tree))
  {
    hide PrintState, CreateCgroup, DestroyCgroup, CanMake, Wanted, Names, ChosenId, Ids;
    NamesChosen(w, c, id);
    CreateFrame(w.version, w.tree, id, c.limits, e.kernel);
    FindIff(w.table, id);
  }

  lemma FindIff(t: seq<Info>, id: string)
    ensures Find(t, id).Some? <==> id in Ids(t)
  {
  }

  /** A container without a name gets the number after the largest, which no entry has, so
      its creation never stops at the duplicate check. */
  lemma AutoNamedCreate(w: World, c: Config, e: Env)
    requires c.id.None? && MaxId(w.table) < INT_MAX
    ensures var (w', ok) := Create(w, c, e); var id := PrintInt(MaxId(w.table) + 1);
      && (ok <==> e.idOk && e.infoOk && e.copyOk && Granted(w, c, id, e))
      && (ok ==>
           && |w'.table| == |w.table| + 1 && w'.table[|w.table|].id == id
           && id !in Ids(w.table) && NumericId(id) == MaxId(w.table) + 1 == MaxId(w'.table))
  {
    hide PrintState, Create, CreateCgroup, Granted, NumericId, Ids;
    var id := PrintInt(MaxId(w.table) + 1);
    NextIdFresh(w.table);
    CreateExact(w, c, e, id);
    var t := Create(w, c, e).0.table;
    if Create(w, c, e).1 {
      assert t[..|t| - 1] == w.table;
    }
  }

  // --------------------------------------------------------------------- run

  /** Run succeeds exactly when its creation does, there is a command and the spawn answers a
      pid; it then adds one RUNNING entry, last, with that pid. */
  lemma RunExact(w: World, c: Config, eCreate: Env, e: Env, id: string)
    requires Names(w, c, id)
    ensures var (w', ok) := Run(w, c, eCreate, e);
      && (ok <==> Creatable(w, c, id, eCreate) && HasCommand(c) && e.spawned != -1)
      && (ok ==>
           var entry := Info(id, 0, CREATED, eCreate.now, 0, 0, Some(Saved(c.(id := Some(id)))));
           var t1 := w.table + [entry];
           var t := w.table + [entry.(pid := e.spawned, state := RUNNING, startedAt := e.now)];
           var tree := CreateCgroup(w.version, w.tree, id, c.limits, eCreate.kernel).0;
           w' == World(w.version, tree, t, Room(w), FileAfter(e.saves, t, FileAfter(eCreate.saves, t1, w.file))))
      && (!ok ==> w'.table == w.table)
  {
    hide PrintState, Create, CreateCgroup, Launch, Names, Granted, Ids, Find;
    var c1 := c.(id := Some(id));
    NamesChosen(w, c, id);
    NamesGiven(w, c, id);
    CreateExact(w, c1, eCreate, id);
    GrantedSame(w, c, id, eCreate);
    RunMoves(w, c, eCreate, e);
    var (w1, made) := Create(w, c1, eCreate);
    if made {
      CreatedLast(w, c1, eCreate);
      LaunchExact(w1, |w.table|, id, e);
      var entry := w1.table[|w.table|];
      assert w1.table[|w.table| := entry.(pid := e.spawned, state := RUNNING, startedAt := e.now)]
        == w.table + [entry.(pid := e.spawned, state := RUNNING, startedAt := e.now)];
    }
  }

  lemma NamesGiven(w: World, c: Config, id: string)
    ensures Names(w, c.(id := Some(id)), id)
  {
  }

  lemma LaunchExact(w: World, i: nat, id: string, e: Env)
    requires i < |w.table| && w.table[i].config.Some?
    ensures var (w', ok) := Launch(w, i, id, e);
      && (ok <==> HasCommand(w.table[i].config.value) && e.spawned != -1)
      && (ok ==>
           var t := w.table[i := w.table[i].(pid := e.spawned, state := RUNNING, startedAt := e.now)];
           w' == w.(table := t, file := FileAfter(e.saves, t, w.file)))
      && w'.capacity == w.capacity
  {
    hide PrintState, Find, Lookup, DestroyCgroup, Removed, Stop;
    DestroyRoom(w, id, e, e);
  }

  lemma GrantedSame(w: World, c: Config, id: string, e: Env)
    ensures Granted(w, c.(id := Some(id)), id, e) == Granted(w, c, id, e)
  {
  }

  /** The same freshness for run. */
  lemma AutoNamedRun(w: World, c: Config, eCreate: Env, e: Env)
    requires c.id.None? && MaxId(w.table) < INT_MAX
    ensures var (w', ok) := Run(w, c, eCreate, e); var id := PrintInt(MaxId(w.table) + 1);
      && (ok <==>
           && eCreate.idOk && eCreate.infoOk && eCreate.copyOk && Granted(w, c, id, eCreate)
           && HasCommand(c) && e.spawned != -1)
      && (ok ==>
           && |w'.table| == |w.table| + 1 && w'.table[|w.table|].id == id
           && id !in Ids(w.table) && NumericId(id) == MaxId(w.table) + 1 == MaxId(w'.table))
  {
    hide PrintState, Run, CreateCgroup, Granted, NumericId, Ids;
    NextIdFresh(w.table);
    RunExact(w, c, eCreate, e, PrintInt(MaxId(w.table) + 1));
    var t := Run(w, c, eCreate, e).0.table;
    if Run(w, c, eCreate, e).1 {
      assert t[..|t| - 1] == w.table;
    }
  }

  // ------------------------------------------------------------------- room

  function Pow2(k: nat): (r: nat)
    ensures r > 0
  {
    if k == 0 then 1 else 2 * Pow2(k - 1)
  }

  /** The number of doublings by which the capacity first suffices. */
  ghost predicate Least(capacity: nat, n: nat, k: nat) {
    n <= capacity * Pow2(k) && (k > 0 ==> capacity * Pow2(k - 1) < n)
  }

  lemma DoubleOnce(capacity: nat, k: nat)
    ensures capacity * Pow2(k + 1) == 2 * (capacity * Pow2(k))
  {
  }

  lemma {:induction false} GrownByLeast(capacity: nat, n: nat) returns (k: nat)
    requires capacity > 0
    ensures GrownBy(capacity, n) == capacity * Pow2(k) && Least(capacity, n, k)
  {
    if n == 0 {
      k := 0;
    } else {
      k := GrownByLeast(capacity, n - 1);
      if n - 1 >= GrownBy(capacity, n - 1) {
        DoubleOnce(capacity, k);
        k := k + 1;
      }
    }
  }

  /** A restart loads what the file shows, saves it again if it is anything, leaves the tree,
      and has room by the fewest doublings of the first capacity. */
  lemma RestartExact(w: World, capacity: nat, p: Probe, saves: bool)
    ensures var w' := Restart(w, capacity, p, saves);
      && w'.table == LoadState(w.file, p) && w'.version == w.version && w'.tree == w.tree
      && w'.file == FileAfter(saves && w'.table != [], w'.table, w.file)
      && (capacity > 0 ==> exists k :: w'.capacity == capacity * Pow2(k) && Least(capacity, |w'.table|, k))
  {
    hide LoadState, PrintState;
    if capacity > 0 {
      var k := GrownByLeast(capacity, |LoadState(w.file, p)|);
    }
  }

  ghost predicate HasRoom(w: World) { w.capacity > 0 && |w.table| <= w.capacity }

  lemma DestroyRoom(w: World, arg: string, eStop: Env, e: Env)
    ensures Destroy(w, arg, eStop, e).0.capacity == w.capacity
  {
    hide PrintState, Lookup, DestroyCgroup, Removed, Stop;
    var r := Lookup(w.table, arg);
    if r.Some? {
      StopExact(w, w.table[r.value].id, eStop);
    }
  }

  lemma DestroyShrinks(t: seq<Info>, t': seq<Info>, id: string)
    requires StoppedThenGone(t, t', id)
    ensures |t'| <= |t|
  {
  }

  lemma CreateRoom(w: World, c: Config, e: Env)
    ensures Create(w, c, e).0.capacity == if Create(w, c, e).1 then Room(w) else w.capacity
  {
    hide PrintState, Find, CreateCgroup, DestroyCgroup, NextId;
  }

  lemma RunRoom(w: World, c: Config, eCreate: Env, e: Env)
    ensures Run(w, c, eCreate, e).0.capacity == w.capacity || Run(w, c, eCreate, e).0.capacity == Room(w)
    ensures Run(w, c, eCreate, e).1 ==> Run(w, c, eCreate, e).0.capacity == Room(w)
  {
    hide PrintState, Create, Launch, Find, NextId;
    var id := ChosenId(w, c);
    var c1 := c.(id := Some(id));
    CreateRoom(w, c1, eCreate);
    var (w1, made) := Create(w, c1, eCreate);
    if made {
      CreatedLast(w, c1, eCreate);
      LaunchExact(w1, |w.table|, id, e);
    }
  }

  /** The table never outgrows its array, in any session and across restarts. */
  lemma StepKeepsRoom(w: World, s: Step)
    requires HasRoom(w) && (s.DoRestart? ==> s.capacity > 0)
    ensures HasRoom(Apply(w, s))
  {
    hide PrintState, Create, Start, Stop, Destroy, Run, Restart, Made, Moves, StoppedThenGone;
    hide Shutdown.ShutdownAll, CanMake, CreateCgroup, Lookup;
    match s
    case DoCreate(c, e) =>
      StepMoves(w, s);
      CreateRoom(w, c, e);
    case DoRun(c, eCreate, e) =>
      StepMoves(w, s);
      RunRoom(w, c, eCreate, e);
    case DoStart(arg, e) => StartExact(w, arg, e);
    case DoStop(arg, e) => StopExact(w, arg, e);
    case DoDestroy(arg, eStop, e) =>
      DestroyRoom(w, arg, eStop, e);
      DestroyMoves(w, arg, eStop, e);
      if Destroy(w, arg, eStop, e).1 {
        DestroyShrinks(w.table, Apply(w, s).table, arg);
      }
    case DoRetire(_, _) =>
    case DoCleanup(_, _) =>
    case DoShutdown(_, es1, es2, es3, _, saves) =>
      if Answered(w.table, s) {
        Shutdown.ShutdownWithin(w, es1, es2, es3, saves, LONG_MIN, LONG_MAX);
      }
    case DoRestart(capacity, p, saves) => RestartRoom(w, capacity, p, saves);
  }

  lemma RestartRoom(w: World, capacity: nat, p: Probe, saves: bool)
    requires capacity > 0
    ensures HasRoom(Restart(w, capacity, p, saves))
  {
    hide LoadState, PrintState;
    var k := GrownByLeast(capacity, |LoadState(w.file, p)|);
    PositiveProduct(capacity, Pow2(k));
  }

  lemma PositiveProduct(a: nat, b: nat)
    requires a > 0 && b > 0
    ensures a * b > 0
  {
  }
}
