/** The lifecycle operations of the container manager as functions on the whole
    observable state: table, capacity, cgroup tree and state file. */
module Lifecycle {
  import opened CText
  import opened Cgroups
  import opened Table
  import opened StateFile

  datatype World = World(
    version: Version,
    tree: Tree,
    table: seq<Info>,
    capacity: nat,
    file: Option<string>)

  /** Everything one call learns from outside: the clock, the kernel's answers, the
      allocator's, the outcome of the spawn and of opening the state file. */
  datatype Env = Env(
    now: int64,
    kernel: Kernel,
    spawned: int32,
    saves: bool,
    idOk: bool,
    infoOk: bool,
    copyOk: bool,
    rootOk: bool,
    reallocOk: bool)

  /** `clone` answers -1 or a positive pid. */
  predicate Answers(e: Env) { e.spawned == -1 || e.spawned > 0 }

  function Save(w: World, saves: bool): (r: World) {
    if saves then w.(file := Some(PrintState(w.table))) else w
  }

  /** `add_container`: the array doubles when it is full. */
  function Grown(capacity: nat, count: nat): (c: nat) {
    if count < capacity then capacity else 2 * capacity
  }

  /** The capacity after `n` additions to an empty table. */
  function GrownBy(capacity: nat, n: nat): (c: nat) {
    if n == 0 then capacity else Grown(GrownBy(capacity, n - 1), n - 1)
  }

  /** `remove_container`: the first entry with the id leaves, the rest move up. */
  function Removed(t: seq<Info>, id: string): (r: seq<Info>) {
    match Find(t, id)
    case None => t
    case Some(i) => t[..i] + t[i + 1..]
  }

  function ChosenId(w: World, c: Config): (id: string) {
    if c.id.Some? then c.id.value else NextId(w.table)
  }

  function NewInfo(id: string, c: Config, now: int64): (e: Info) {
    Info(id, 0, CREATED, now, 0, 0, Some(CopyConfig(c)))
  }

  /** The part of creation that has something to undo. */
  function CreateEntry(w: World, id: string, c: Config, e: Env): (r: (World, bool)) {
    var (t1, made) := CreateCgroup(w.version, w.tree, id, c.limits, e.kernel);
    if !made then (w.(tree := t1), false)
    else if (c.minimalFs && (c.fsRoot.None? || !e.rootOk)) || (|w.table| >= w.capacity && !e.reallocOk) then
      (w.(tree := DestroyCgroup(w.version, t1, id, e.kernel)), false)
    else
      var w1 := w.(tree := t1,
                   table := w.table + [NewInfo(id, c, e.now)],
                   capacity := Grown(w.capacity, |w.table|));
      (Save(w1, e.saves), true)
  }

  /** `container_manager_create`. */
  function Create(w: World, c: Config, e: Env): (r: (World, bool)) {
    var id := ChosenId(w, c);
    if !e.idOk || Find(w.table, id).Some? || !e.infoOk || !e.copyOk then (w, false)
    else CreateEntry(w, id, c, e)
  }

  /** `namespace_create_container_with_cgroup` refuses a missing command. */
  function Spawn(c: Config, e: Env): (pid: int32) {
    if c.command.None? || c.command == Some([]) then -1 else e.spawned
  }

  function Started(e: Info, pid: int32, now: int64): (r: Info) {
    e.(pid := pid, state := RUNNING, startedAt := now, stoppedAt := 0)
  }

  predicate CanStart(e: Info) {
    (e.state == CREATED || e.state == STOPPED) && e.config.Some?
  }

  /** `container_manager_start`: the cgroup is made under the argument, not the id. */
  function Start(w: World, arg: string, e: Env): (r: (World, bool)) {
    match Lookup(w.table, arg)
    case None => (w, false)
    case Some(i) =>
      if !CanStart(w.table[i]) then (w, false)
      else
        var c := w.table[i].config.value;
        var (t1, made) := CreateCgroup(w.version, w.tree, arg, c.limits, e.kernel);
        var pid := Spawn(c, e);
        if !made || pid == -1 then (w.(tree := t1), false)
        else (Save(w.(tree := t1, table := w.table[i := Started(w.table[i], pid, e.now)]), e.saves), true)
  }

  function Stopped(e: Info, now: int64): (r: Info) { e.(state := STOPPED, stoppedAt := now) }

  /** `container_manager_stop`: the recorded pid stays. */
  function Stop(w: World, arg: string, e: Env): (r: (World, bool)) {
    match Lookup(w.table, arg)
    case None => (w, false)
    case Some(i) =>
      if w.table[i].state != RUNNING then (w, false)
      else (Save(w.(table := w.table[i := Stopped(w.table[i], e.now)]), e.saves), true)
  }

  /** `container_manager_destroy`: the cgroup goes by the entry's id, the entry by the argument. */
  function Destroy(w: World, arg: string, eStop: Env, e: Env): (r: (World, bool)) {
    match Lookup(w.table, arg)
    case None => (w, false)
    case Some(i) =>
      var id := w.table[i].id;
      var w1 := if w.table[i].state == RUNNING then Stop(w, id, eStop).0 else w;
      var w2 := w1.(tree := DestroyCgroup(w.version, w1.tree, id, e.kernel), table := Removed(w1.table, arg));
      (Save(w2, e.saves), true)
  }

  /** The part of `container_manager_run` after creation: spawn, or destroy the entry. */
  function Launch(w: World, i: nat, id: string, e: Env): (r: (World, bool))
    requires i < |w.table|
  {
    var pid := if w.table[i].config.Some? then Spawn(w.table[i].config.value, e) else -1;
    if pid == -1 then (Destroy(w, id, e, e).0, false)
    else
      var entry := w.table[i].(pid := pid, state := RUNNING, startedAt := e.now);
      (Save(w.(table := w.table[i := entry]), e.saves), true)
  }

  /** `container_manager_run`. */
  function Run(w: World, c: Config, eCreate: Env, e: Env): (r: (World, bool)) {
    var id := ChosenId(w, c);
    var (w1, made) := Create(w, c.(id := Some(id)), eCreate);
    if !made then (w1, false)
    else
      match Find(w1.table, id)
      case None => (Destroy(w1, id, e, e).0, false)
      case Some(i) => Launch(w1, i, id, e)
  }

  /** A crash followed by `container_manager_init`: memory is gone, the file is read,
      and rewritten only when something was loaded. */
  function Restart(w: World, capacity: nat, p: Probe, saves: bool): (r: World) {
    var t := LoadState(w.file, p);
    var w1 := w.(table := t, capacity := GrownBy(capacity, |t|));
    if t != [] then Save(w1, saves) else w1
  }

  // ------------------------------------------------- run is create and start

  lemma SpawnCopy(c: Config, e: Env)
    ensures Spawn(CopyConfig(c), e) == Spawn(c, e)
  {
  }

  lemma FindAppended(t: seq<Info>, e: Info)
    requires Find(t, e.id).None?
    ensures Find(t + [e], e.id) == Some(|t|)
    ensures Lookup(t + [e], e.id) == Some(|t|)
  {
  }

  /** Running a container succeeds exactly when creating and then starting it does,
      and both end in the same table, cgroup tree, capacity and state file. */
  lemma RunIsCreateThenStart(w: World, c: Config, eCreate: Env, e: Env)
    requires e.kernel == eCreate.kernel
    ensures var id := ChosenId(w, c);
      var (w1, made) := Create(w, c.(id := Some(id)), eCreate);
      var (w2, up) := Run(w, c, eCreate, e);
      && (up <==> made && Start(w1, id, e).1)
      && (up ==> w2 == Start(w1, id, e).0)
  {
    hide CreateCgroup, PrintState, Find, Lookup, DestroyCgroup;
    var id := ChosenId(w, c);
    var c1 := c.(id := Some(id));
    var (w1, made) := Create(w, c1, eCreate);
    if made {
      var entry := NewInfo(id, c1, eCreate.now);
      FindAppended(w.table, entry);
      CreateIdempotent(w.version, w.tree, id, c.limits, e.kernel);
      SpawnCopy(c, e);
      SpawnCopy(c1, e);
      assert w1.table[|w.table|] == entry;
    }
  }

  // --------------------------------------------------------------- rollback

  lemma RemovedAppended(t: seq<Info>, e: Info)
    requires Find(t, e.id).None?
    ensures Removed(t + [e], e.id) == t
  {
  }

  /** The state in which creation reaches the half-way stop of the v1 layout. */
  predicate CreateStopsHalfWay(w: World, c: Config, e: Env) {
    var id := ChosenId(w, c);
    && e.idOk && Find(w.table, id).None? && e.infoOk && e.copyOk
    && StopsHalfWay(w.version, w.tree, id, e.kernel)
  }

  /** The id is taken, or nothing of its cgroup exists yet; and the kernel lets it go. */
  ghost predicate Undoable(w: World, id: string, k: Kernel) {
    && (Find(w.table, id).Some? || w.tree.dirs !! DirsOf(w.version, id))
    && k.rmdirDenied !! DirsOf(w.version, id)
  }

  /** A creation that fails, at whatever step, leaves table, capacity and file as they
      were, and the cgroup tree too unless it stopped half way in the v1 layout. */
  lemma CreateRollback(w: World, c: Config, e: Env)
    requires WellFormed(w.tree) && !Create(w, c, e).1
    requires Undoable(w, ChosenId(w, c), e.kernel)
    ensures var w' := Create(w, c, e).0; w' == w.(tree := w'.tree)
    ensures Create(w, c, e).0.tree == w.tree <==> !CreateStopsHalfWay(w, c, e)
  {
    hide MakeDirs, SetLimits, Find, DestroyCgroup;
    var id := ChosenId(w, c);
    var (t1, made) := CreateCgroup(w.version, w.tree, id, c.limits, e.kernel);
    DestroyUndoesCreate(w.version, w.tree, id, c.limits, e.kernel, e.kernel);
    if Find(w.table, id).Some? {
    } else if made {
      HalfWayFails(w.version, w.tree, id, c.limits, e.kernel);
    } else {
      FailedCreateKeepsTreeIff(w.version, w.tree, id, c.limits, e.kernel);
    }
  }

  lemma HalfWayFails(v: Version, t: Tree, id: string, limits: Limits, k: Kernel)
    requires CreateCgroup(v, t, id, limits, k).1
    ensures !StopsHalfWay(v, t, id, k)
  {
  }

  /** A failed run leaves the table, and the cgroup tree unless creation stopped half
      way; the state file is untouched or shows exactly the old table. */
  lemma RunRollback(w: World, c: Config, eCreate: Env, e: Env)
    requires WellFormed(w.tree) && !Run(w, c, eCreate, e).1
    requires Undoable(w, ChosenId(w, c), eCreate.kernel) && Undoable(w, ChosenId(w, c), e.kernel)
    ensures var w' := Run(w, c, eCreate, e).0;
      && w'.table == w.table
      && (w'.tree == w.tree <==> !CreateStopsHalfWay(w, c, eCreate))
      && ((eCreate.saves ==> e.saves) ==> w'.file == w.file || w'.file == Some(PrintState(w.table)))
  {
    hide CreateCgroup, DestroyCgroup, PrintState, Find, Lookup, StopsHalfWay, Removed;
    var id := ChosenId(w, c);
    var c1 := c.(id := Some(id));
    var (w1, made) := Create(w, c1, eCreate);
    if made {
      var entry := NewInfo(id, c1, eCreate.now);
      FindAppended(w.table, entry);
      RemovedAppended(w.table, entry);
      DestroyUndoesCreate(w.version, w.tree, id, c.limits, eCreate.kernel, e.kernel);
      HalfWayFails(w.version, w.tree, id, c.limits, eCreate.kernel);
    } else {
      CreateRollback(w, c1, eCreate);
    }
  }
}
