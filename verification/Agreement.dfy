/** Conservation in a v2 session: one cgroup directory per table entry and no other;
    and what entries without a saved configuration can do. */
module Agreement {
  import opened CText
  import opened Cgroups
  import opened Table
  import opened StateFile
  import opened Lifecycle
  import opened Runs
  import Shutdown

  function DirsFor(t: seq<Info>): (ds: set<Dir>) { set id <- Ids(t) :: Dir(Unified, id) }

  ghost predicate Agrees(w: World) {
    w.version.V2? && WellFormed(w.tree) && w.tree.dirs == DirsFor(w.table)
  }

  /** Every entry has its directory, and any other directory belongs to a lost id. */
  ghost predicate Covers(w: World, lost: set<string>) {
    && w.version.V2? && WellFormed(w.tree)
    && (forall id <- Ids(w.table) :: Dir(Unified, id) in w.tree.dirs)
    && (forall d <- w.tree.dirs :: d.hierarchy == Unified && (d.id in Ids(w.table) || d.id in lost))
  }

  lemma AgreesIsCovers(w: World)
    ensures Agrees(w) <==> Covers(w, {})
  {
    hide Ids, WellFormed;
    assert forall id <- Ids(w.table) :: Dir(Unified, id) in DirsFor(w.table);
    if Covers(w, {}) {
      assert w.tree.dirs == DirsFor(w.table);
    }
  }

  lemma IdsUpdate(t: seq<Info>, i: nat, e: Info)
    requires i < |t| && e.id == t[i].id
    ensures Ids(t[i := e]) == Ids(t)
  {
    var t' := t[i := e];
    forall id | id in Ids(t)
      ensures id in Ids(t')
    {
      var j :| 0 <= j < |t| && t[j].id == id;
      assert t'[j] in t';
    }
    forall id | id in Ids(t')
      ensures id in Ids(t)
    {
      var j :| 0 <= j < |t'| && t'[j].id == id;
      assert t[j] in t;
    }
  }

  lemma IdsRemoved(t: seq<Info>, id: string)
    requires UniqueIds(t)
    ensures Ids(Removed(t, id)) == Ids(t) - {id}
  {
  }

  /** In the v2 layout a cgroup is one directory. */
  lemma CreateV2(t: Tree, id: string, limits: Limits, k: Kernel)
    ensures var (t1, ok) := CreateCgroup(V2, t, id, limits, k);
      && t1.dirs == (if ok then t.dirs + {Dir(Unified, id)} else t.dirs)
      && (ok <==> Dir(Unified, id) in t.dirs || Dir(Unified, id) !in k.mkdirDenied)
      && (WellFormed(t) ==> WellFormed(t1))
  {
    CreateFrame(V2, t, id, limits, k);
    SetLimitsFrame(V2, MakeDirs(V2, t, id, k).0, id, limits, k);
  }

  lemma DestroyV2(t: Tree, id: string, k: Kernel)
    requires WellFormed(t) && k.rmdirDenied == {}
    ensures DestroyCgroup(V2, t, id, k).dirs == t.dirs - {Dir(Unified, id)}
    ensures WellFormed(DestroyCgroup(V2, t, id, k))
  {
  }

  lemma CreateCovers(w: World, c: Config, e: Env, lost: set<string>)
    requires Covers(w, lost) && e.kernel.rmdirDenied == {}
    ensures Covers(Create(w, c, e).0, lost)
  {
    hide CreateCgroup, DestroyCgroup, PrintState, NextId, Ids, WellFormed;
    var id := ChosenId(w, c);
    CreateV2(w.tree, id, c.limits, e.kernel);
    var t1 := CreateCgroup(V2, w.tree, id, c.limits, e.kernel).0;
    DestroyV2(t1, id, e.kernel);
    IdsOfAppend(w.table, NewInfo(id, c, e.now));
    if Find(w.table, id).None? {
      NotFound(w.table, id);
    }
  }

  lemma NotFound(t: seq<Info>, id: string)
    requires Find(t, id).None?
    ensures id !in Ids(t)
  {
  }

  lemma StopAgrees(w: World, arg: string, e: Env)
    ensures var w1 := Stop(w, arg, e).0; Ids(w1.table) == Ids(w.table) && w1.tree == w.tree && w1.version == w.version
  {
    hide PrintState, Lookup;
    var r := Lookup(w.table, arg);
    if r.Some? {
      IdsUpdate(w.table, r.value, Stopped(w.table[r.value], e.now));
    }
  }

  /** The argument's own directory is what a start may add. */
  predicate StartMakesDir(w: World, arg: string, e: Env) {
    && Lookup(w.table, arg).Some? && CanStart(w.table[Lookup(w.table, arg).value])
    && Dir(Unified, arg) !in e.kernel.mkdirDenied
  }

  lemma StartEffect(w: World, arg: string, e: Env)
    requires w.version.V2? && WellFormed(w.tree)
    ensures var w' := Start(w, arg, e).0;
      && w'.version.V2? && WellFormed(w'.tree) && Ids(w'.table) == Ids(w.table)
      && w'.tree.dirs == (if StartMakesDir(w, arg, e) then w.tree.dirs + {Dir(Unified, arg)} else w.tree.dirs)
  {
    hide PrintState, CreateCgroup, Lookup, Ids;
    var r := Lookup(w.table, arg);
    if r.Some? && CanStart(w.table[r.value]) {
      var entry := w.table[r.value];
      CreateV2(w.tree, arg, entry.config.value.limits, e.kernel);
      IdsUpdate(w.table, r.value, Started(entry, Spawn(entry.config.value, e), e.now));
    }
  }

  /** Starting keeps the agreement exactly when it does not make a directory for an
      argument that reached the entry through its pid. */
  lemma StartAgreesIff(w: World, arg: string, e: Env)
    requires Agrees(w)
    ensures Agrees(Start(w, arg, e).0) <==> !(PidAlias(w.table, arg) && StartMakesDir(w, arg, e))
  {
    hide Start, Lookup, CanStart, Ids;
    StartEffect(w, arg, e);
    if arg in Ids(w.table) {
      assert w.tree.dirs + {Dir(Unified, arg)} == w.tree.dirs;
    } else {
      assert Dir(Unified, arg) !in DirsFor(w.table);
    }
  }

  lemma StopKeepsUnique(w: World, arg: string, e: Env)
    requires UniqueIds(w.table)
    ensures UniqueIds(Stop(w, arg, e).0.table)
  {
  }

  lemma DestroyEffect(w: World, arg: string, eStop: Env, e: Env)
    requires w.version.V2? && WellFormed(w.tree)
    requires UniqueIds(w.table) && e.kernel.rmdirDenied == {} && Lookup(w.table, arg).Some?
    ensures var w' := Destroy(w, arg, eStop, e).0;
      && w'.version.V2? && WellFormed(w'.tree)
      && w'.tree.dirs == w.tree.dirs - {Dir(Unified, w.table[Lookup(w.table, arg).value].id)}
      && Ids(w'.table) == Ids(w.table) - {arg}
  {
    hide PrintState, Stop, DestroyCgroup, Removed, Ids, UniqueIds, Lookup;
    var i := Lookup(w.table, arg).value;
    var id := w.table[i].id;
    StopAgrees(w, id, eStop);
    StopKeepsUnique(w, id, eStop);
    var w1 := if w.table[i].state == RUNNING then Stop(w, id, eStop).0 else w;
    DestroyV2(w1.tree, id, e.kernel);
    IdsRemoved(w1.table, arg);
  }

  lemma DestroyMissing(w: World, arg: string, eStop: Env, e: Env)
    requires Lookup(w.table, arg).None?
    ensures Destroy(w, arg, eStop, e).0 == w
  {
  }

  /** Destroying keeps the agreement exactly when the argument is not a pid alias: by
      pid, the directory goes and the entry stays. */
  lemma DestroyAgreesIff(w: World, arg: string, eStop: Env, e: Env)
    requires Agrees(w) && UniqueIds(w.table) && e.kernel.rmdirDenied == {}
    ensures Agrees(Destroy(w, arg, eStop, e).0) <==> !PidAlias(w.table, arg)
  {
    hide Destroy, Lookup, WellFormed, UniqueIds;
    var r := Lookup(w.table, arg);
    if r.None? {
      DestroyMissing(w, arg, eStop, e);
    } else {
      DestroyEffect(w, arg, eStop, e);
      var t' := Destroy(w, arg, eStop, e).0.table;
      var id := w.table[r.value].id;
      assert w.table[r.value] in w.table && id in Ids(w.table);
      if arg in Ids(w.table) {
        assert DirsFor(t') == DirsFor(w.table) - {Dir(Unified, id)};
      } else {
        assert Dir(Unified, id) in DirsFor(t');
      }
    }
  }

  lemma StartCovers(w: World, arg: string, e: Env, lost: set<string>)
    requires Covers(w, lost) && !PidAlias(w.table, arg)
    ensures Covers(Start(w, arg, e).0, lost)
  {
    hide Start, Lookup, CanStart, Ids, WellFormed;
    StartEffect(w, arg, e);
  }

  lemma DestroyCovers(w: World, arg: string, eStop: Env, e: Env, lost: set<string>)
    requires Covers(w, lost) && UniqueIds(w.table) && e.kernel.rmdirDenied == {} && !PidAlias(w.table, arg)
    ensures Covers(Destroy(w, arg, eStop, e).0, lost)
  {
    hide Destroy, Lookup, WellFormed, UniqueIds, Ids;
    if Lookup(w.table, arg).None? {
      DestroyMissing(w, arg, eStop, e);
    } else {
      DestroyEffect(w, arg, eStop, e);
    }
  }

  lemma RunCovers(w: World, c: Config, eCreate: Env, e: Env, lost: set<string>)
    requires Covers(w, lost) && UniqueIds(w.table)
    requires eCreate.kernel.rmdirDenied == {} && e.kernel.rmdirDenied == {}
    ensures Covers(Run(w, c, eCreate, e).0, lost)
  {
    hide PrintState, Create, Destroy, Find, Lookup, NextId, Ids, WellFormed;
    var id := ChosenId(w, c);
    var c1 := c.(id := Some(id));
    CreateCovers(w, c1, eCreate, lost);
    var (w1, made) := Create(w, c1, eCreate);
    if made {
      CreatedLast(w, c1, eCreate);
      NotFound(w.table, id);
      UniqueAppend(w.table, NewInfo(id, c1, eCreate.now));
      IdsOfAppend(w.table, NewInfo(id, c1, eCreate.now));
      DestroyCovers(w1, id, e, e, lost);
      var i := |w.table|;
      IdsUpdate(w1.table, i, w1.table[i].(pid := Spawn(CopyConfig(c), e), state := RUNNING, startedAt := e.now));
    }
  }

  lemma RunAgrees(w: World, c: Config, eCreate: Env, e: Env)
    requires Agrees(w) && UniqueIds(w.table) && eCreate.kernel.rmdirDenied == {} && e.kernel.rmdirDenied == {}
    ensures Agrees(Run(w, c, eCreate, e).0)
  {
    hide Run, Agrees, Covers;
    AgreesIsCovers(w);
    RunCovers(w, c, eCreate, e, {});
    AgreesIsCovers(Run(w, c, eCreate, e).0);
  }

  /** A call that names entries by id, under a kernel that removes empty cgroups. */
  ghost predicate ById(w: World, s: Step) {
    match s
    case DoCreate(_, e) => e.kernel.rmdirDenied == {}
    case DoStart(arg, _) => !PidAlias(w.table, arg)
    case DoDestroy(arg, _, e) => !PidAlias(w.table, arg) && e.kernel.rmdirDenied == {}
    case DoRun(_, eCreate, e) => eCreate.kernel.rmdirDenied == {} && e.kernel.rmdirDenied == {}
    case DoRestart(_, _, _) => false
    case _ => true
  }

  lemma SameCovers(w: World, w': World, lost: set<string>)
    requires Covers(w, lost) && w'.tree == w.tree && w'.version == w.version && Ids(w'.table) == Ids(w.table)
    ensures Covers(w', lost)
  {
  }

  lemma ShutdownIds(t: seq<Info>, t': seq<Info>, start: int64, end: int64)
    requires Shutdown.StoppedWithin(t, t', start, end)
    ensures Ids(t') == Ids(t)
  {
    forall id
      ensures id in Ids(t) <==> id in Ids(t')
    {
      if i :| 0 <= i < |t| && t[i].id == id {
        assert t'[i] in t';
      }
      if i :| 0 <= i < |t'| && t'[i].id == id {
        assert t[i] in t;
      }
    }
  }

  lemma StepCovers(w: World, s: Step, lost: set<string>)
    requires Covers(w, lost) && UniqueIds(w.table) && ById(w, s)
    ensures Covers(Apply(w, s), lost)
  {
    hide Create, Start, Stop, Destroy, Run, PidAlias, Covers, PrintState, Ids;
    hide Shutdown.ShutdownAll, Shutdown.StoppedWithin;
    match s
    case DoCreate(c, e) => CreateCovers(w, c, e, lost);
    case DoStart(arg, e) => StartCovers(w, arg, e, lost);
    case DoStop(arg, e) =>
      StopAgrees(w, arg, e);
      SameCovers(w, Stop(w, arg, e).0, lost);
    case DoDestroy(arg, eStop, e) => DestroyCovers(w, arg, eStop, e, lost);
    case DoRun(c, eCreate, e) => RunCovers(w, c, eCreate, e, lost);
    case DoRetire(i, e) =>
      if i < |w.table| {
        IdsUpdate(w.table, i, Stopped(w.table[i], e.now));
      }
      SameCovers(w, Retire(w, i, e), lost);
    case DoCleanup(_, saves) => SameCovers(w, Save(w, saves), lost);
    case DoShutdown(_, es1, es2, es3, _, saves) =>
      if Answered(w.table, s) {
        Shutdown.ShutdownWithin(w, es1, es2, es3, saves, LONG_MIN, LONG_MAX);
        ShutdownIds(w.table, Apply(w, s).table, LONG_MIN, LONG_MAX);
        SameCovers(w, Apply(w, s), lost);
      }
  }

  lemma StepAgrees(w: World, s: Step)
    requires Agrees(w) && UniqueIds(w.table) && ById(w, s)
    ensures Agrees(Apply(w, s))
  {
    hide Apply, Agrees, Covers, ById;
    AgreesIsCovers(w);
    StepCovers(w, s, {});
    AgreesIsCovers(Apply(w, s));
  }

  ghost predicate AllById(w: World, steps: seq<Step>)
    decreases |steps|
  {
    steps != [] ==> ById(w, steps[0]) && AllById(Apply(w, steps[0]), steps[1..])
  }

  /** Every reachable state of a v2 session has exactly the directories of its entries. */
  lemma {:induction false} SessionAgrees(w: World, steps: seq<Step>, clock: int64)
    requires Agrees(w) && TableOk(w.table, clock) && clock > 0
    requires PlausibleSession(steps, clock) && AllById(w, steps)
    ensures Agrees(ApplyAll(w, steps))
    decreases |steps|
  {
    hide Apply, EntryOk, ById;
    if steps != [] {
      StepAgrees(w, steps[0]);
      StepKeepsTable(w, steps[0], clock);
      SessionAgrees(Apply(w, steps[0]), steps[1..], LastTime(steps[0]));
    }
  }

  // -------------------------------------------------------------- restarts

  /** The id comes back from the load only by a kept positive decimal of its own. */
  lemma ComesBackIff(t: seq<Info>, p: Probe, i: nat)
    requires i < |t| && UniqueIds(t) && Counter(t, p) <= INT_MAX
    requires forall j :: 0 <= j < |t| ==> NumericId(t[j].id) >= 0
    ensures t[i].id in Ids(Restored(t, p)) <==> KeepsEntry(t[i], p)
  {
    hide KeepsEntry, NumericId, Restored;
    RestoredIds(t, p, t[i].id);
    assert forall j :: 0 <= j < |t| ==> IdAfterLoad(t, j, p) == t[j].id;
  }

  lemma NameLost(t: seq<Info>, p: Probe, i: nat)
    requires i < |t| && NumericId(t[i].id) < 0 && Counter(t, p) <= INT_MAX
    ensures t[i].id !in Ids(Restored(t, p))
  {
    hide KeepsEntry, NumericId, Restored;
    RestoredIds(t, p, t[i].id);
    forall j | 0 <= j < |t| && KeepsEntry(t[j], p)
      ensures IdAfterLoad(t, j, p) != t[i].id
    {
      LoadsNumeric(t, j, p);
    }
  }

  lemma SameDirsIff(t: seq<Info>, t': seq<Info>)
    ensures DirsFor(t) == DirsFor(t') <==> Ids(t) == Ids(t')
  {
    hide Ids;
    if DirsFor(t) == DirsFor(t') {
      forall id
        ensures id in Ids(t) <==> id in Ids(t')
      {
        assert Dir(Unified, id) in DirsFor(t) <==> id in Ids(t);
        assert Dir(Unified, id) in DirsFor(t') <==> id in Ids(t');
      }
    }
  }

  lemma IdsRestoredIff(t: seq<Info>, p: Probe)
    requires UniqueIds(t) && Counter(t, p) <= INT_MAX
    ensures Ids(t) == Ids(Restored(t, p)) <==>
      forall i :: 0 <= i < |t| ==> KeepsEntry(t[i], p) && NumericId(t[i].id) >= 0
  {
    hide KeepsEntry, NumericId, Restored, Counter;
    assert forall j :: 0 <= j < |t| ==> t[j].id in Ids(t);
    if i :| 0 <= i < |t| && NumericId(t[i].id) < 0 {
      NameLost(t, p, i);
    } else {
      forall j | 0 <= j < |t|
        ensures t[j].id in Ids(Restored(t, p)) <==> KeepsEntry(t[j], p)
      {
        ComesBackIff(t, p, j);
      }
      forall id | id in Ids(Restored(t, p))
        ensures id in Ids(t)
      {
        RestoredIds(t, p, id);
        var j :| 0 <= j < |t| && KeepsEntry(t[j], p) && IdAfterLoad(t, j, p) == id;
      }
    }
  }

  /** Loading every id back means that every id is read whole. */
  lemma IdsLoadedWhole(t: seq<Info>, p: Probe)
    requires OneLineIds(t) && Ids(t) <= Ids(Restored(SeenAll(t), p))
    ensures SafeIds(t)
  {
    hide Restored, SeenAll;
    RestoredWhole(t, p);
    forall e <- t
      ensures SafeId(e.id)
    {
      assert e.id in Ids(t);
    }
  }

  lemma NumericShortSafe(t: seq<Info>)
    requires OneLineIds(t) && forall i :: 0 <= i < |t| ==> NumericId(t[i].id) >= 0 && |t[i].id| <= MAX_SCANNED_ID
    ensures SafeIds(t)
  {
    hide NumericId;
    forall e <- t
      ensures SafeId(e.id)
    {
      NumericIsWhole(e.id);
    }
  }

  /** The entry is kept by a load, under its own name. */
  ghost predicate KeptByName(e: Info, p: Probe) {
    KeepsEntry(e, p) && NumericId(e.id) >= 0 && |e.id| <= MAX_SCANNED_ID
  }

  /** A restart keeps the agreement exactly when every saved entry is kept under its own
      name: directories of dropped and renamed entries stay behind. */
  lemma RestartAgreesIff(w: World, capacity: nat, p: Probe, saves: bool)
    requires Agrees(w) && UniqueIds(w.table) && OneLineIds(w.table) && w.file == Some(PrintState(w.table))
    requires Counter(SeenAll(w.table), p) <= INT_MAX
    ensures Agrees(Restart(w, capacity, p, saves)) <==> forall i :: 0 <= i < |w.table| ==> KeptByName(w.table[i], p)
  {
    hide PrintState, LoadState, KeepsEntry, NumericId, Restored, Ids, Counter, SafeId, OneLine, UniqueIds, SeenAll;
    var t := w.table;
    LoadOfSaveSeen(t, p);
    SameDirsIff(t, Restored(SeenAll(t), p));
    if Ids(t) == Ids(Restored(SeenAll(t), p)) {
      IdsLoadedWhole(t, p);
      SafeAreWhole(t);
    } else if forall i :: 0 <= i < |t| ==> KeptByName(t[i], p) {
      NumericShortSafe(t);
    }
    if SafeIds(t) {
      SeenSafe(t, |t|);
      assert t[..|t|] == t;
      IdsRestoredIff(t, p);
    }
  }

  lemma SafeAreWhole(t: seq<Info>)
    requires SafeIds(t)
    ensures forall i :: 0 <= i < |t| ==> |t[i].id| <= MAX_SCANNED_ID
  {
    assert forall i :: 0 <= i < |t| ==> t[i] in t;
  }

  // ------------------------------------------- entries without configuration

  /** Running entries that were loaded and so have no saved configuration. */
  function RunningUnconfigured(t: seq<Info>): (es: set<Info>) {
    set e <- t | e.config.None? && e.state == RUNNING
  }

  lemma UnconfiguredUpdate(t: seq<Info>, i: nat, e: Info)
    requires i < |t| && (e.config.Some? || e.state != RUNNING)
    ensures RunningUnconfigured(t[i := e]) <= RunningUnconfigured(t)
  {
  }

  lemma StopUnconfigured(w: World, arg: string, e: Env)
    ensures RunningUnconfigured(Stop(w, arg, e).0.table) <= RunningUnconfigured(w.table)
  {
    hide Lookup, PrintState;
    var r := Lookup(w.table, arg);
    if r.Some? {
      UnconfiguredUpdate(w.table, r.value, Stopped(w.table[r.value], e.now));
    }
  }

  lemma DestroyUnconfigured(w: World, arg: string, eStop: Env, e: Env)
    ensures RunningUnconfigured(Destroy(w, arg, eStop, e).0.table) <= RunningUnconfigured(w.table)
  {
    hide Lookup, PrintState, Stop, DestroyCgroup;
    var r := Lookup(w.table, arg);
    if r.Some? {
      StopUnconfigured(w, w.table[r.value].id, eStop);
    }
  }

  lemma StepUnconfigured(w: World, s: Step)
    requires !s.DoRestart?
    ensures RunningUnconfigured(Apply(w, s).table) <= RunningUnconfigured(w.table)
  {
    hide Lookup, PrintState, Stop, Destroy, CreateCgroup, DestroyCgroup, Find, NextId, Removed;
    match s
    case DoCreate(c, e) =>
    case DoStart(arg, e) =>
      var r := Lookup(w.table, arg);
      if r.Some? && CanStart(w.table[r.value]) {
        UnconfiguredUpdate(w.table, r.value, Started(w.table[r.value], e.spawned, e.now));
      }
    case DoStop(arg, e) => StopUnconfigured(w, arg, e);
    case DoDestroy(arg, eStop, e) => DestroyUnconfigured(w, arg, eStop, e);
    case DoRun(c, eCreate, e) =>
      var id := ChosenId(w, c);
      var c1 := c.(id := Some(id));
      var (w1, made) := Create(w, c1, eCreate);
      if made {
        CreatedLast(w, c1, eCreate);
        DestroyUnconfigured(w1, id, e, e);
      }
    case DoRetire(i, e) =>
      if i < |w.table| {
        UnconfiguredUpdate(w.table, i, Stopped(w.table[i], e.now));
      }
    case DoCleanup(_, _) =>
    case DoShutdown(_, es1, es2, es3, _, saves) =>
      if Answered(w.table, s) {
        Shutdown.ShutdownWithin(w, es1, es2, es3, saves, LONG_MIN, LONG_MAX);
        ShutdownUnconfigured(w.table, Apply(w, s).table, LONG_MIN, LONG_MAX);
      }
  }

  lemma ShutdownUnconfigured(t: seq<Info>, t': seq<Info>, start: int64, end: int64)
    requires Shutdown.StoppedWithin(t, t', start, end)
    ensures RunningUnconfigured(t') <= RunningUnconfigured(t)
  {
    forall i | 0 <= i < |t| && t'[i].state == RUNNING
      ensures t'[i] == t[i] && t[i] in t
    {
    }
  }

  /** No session makes an entry without a saved configuration run: those running at
      the end ran, unchanged, from the start. */
  lemma {:induction false} SessionUnconfigured(w: World, steps: seq<Step>)
    requires forall s <- steps :: !s.DoRestart?
    ensures RunningUnconfigured(ApplyAll(w, steps).table) <= RunningUnconfigured(w.table)
    decreases |steps|
  {
    hide Apply, RunningUnconfigured;
    if steps != [] {
      StepUnconfigured(w, steps[0]);
      SessionUnconfigured(Apply(w, steps[0]), steps[1..]);
    }
  }
}
