/** The container manager as the program has it: an array of records that grows by
    doubling, shifts on removal and is changed in place. Each method is tied to its
    specification in `Lifecycle`, `StateFile` or `Shutdown`. */
module Manager {
  import opened CText
  import C = Cgroups
  import opened Table
  import F = StateFile
  import L = Lifecycle
  import S = Shutdown
  import opened ResourceManagers

  const DEFAULT_MAX_CONTAINERS := 10

  /** `container_info_t`. */
  class ContainerInfo {
    var id: string
    var pid: int32
    var state: int32
    var createdAt: int64
    var startedAt: int64
    var stoppedAt: int64
    var config: Option<Config>

    constructor (e: Info)
      ensures Value() == e
    {
      id, pid, state := e.id, e.pid, e.state;
      createdAt, startedAt, stoppedAt, config := e.createdAt, e.startedAt, e.stoppedAt, e.config;
    }

    function Value(): (e: Info)
      reads this
    {
      Info(id, pid, state, createdAt, startedAt, stoppedAt, config)
    }
  }

  class ContainerManager {
    const rm: ResourceManager
    var containers: array<ContainerInfo?>
    var count: nat
    var maxContainers: nat
    var stateFile: Option<string>

    ghost var table: seq<Info>         // the entries as values
    ghost var infos: set<ContainerInfo> // the records the array may point to

    /** The array's used part holds distinct records whose values are the table. */
    ghost predicate Valid()
      reads this, rm, containers, infos
    {
      && rm.initialized
      && 0 < maxContainers == containers.Length && count == |table| <= maxContainers
      && (forall i :: 0 <= i < count ==>
           containers[i] != null && containers[i] in infos && containers[i].Value() == table[i])
      && (forall i, j :: 0 <= i < j < count ==> containers[i] != containers[j])
    }

    ghost function World(): (w: L.World)
      reads this, rm
    {
      L.World(rm.version, rm.tree, table, maxContainers, stateFile)
    }

    /** The objects a call may have replaced are new. */
    twostate predicate Renewed()
      reads this
    {
      fresh(infos - old(infos)) && (containers == old(containers) || fresh(containers))
    }

    /** `container_manager_init`, once the resource manager is up. */
    constructor (max: int, rm: ResourceManager, file: Option<string>, p: F.Probe, saves: bool)
      requires rm.initialized
      ensures Valid() && this.rm == rm && fresh(containers) && fresh(infos)
      ensures World() == L.Restart(
        L.World(rm.version, rm.tree, [], 0, file), if max > 0 then max else DEFAULT_MAX_CONTAINERS, p, saves)
    {
      this.rm := rm;
      maxContainers := if max > 0 then max else DEFAULT_MAX_CONTAINERS;
      containers := new ContainerInfo?[if max > 0 then max else DEFAULT_MAX_CONTAINERS](_ => null);
      count, stateFile, table, infos := 0, file, [], {};
      new;
      var loaded := LoadState(p);
      if loaded > 0 {
        SaveState(saves);
      }
    }

    /** `find_container`: an index, or -1. */
    method FindContainer(id: string) returns (r: int)
      requires Valid()
      ensures r < 0 ==> r == -1 && Find(table, id).None?
      ensures r >= 0 ==> Find(table, id) == Some(r)
    {
      var i := 0;
      while i < count
        invariant 0 <= i <= count
        invariant Find(table, id) == FindFrom(table, id, i)
      {
        if containers[i].id == id {
          return i;
        }
        i := i + 1;
      }
      return -1;
    }

    /** `find_container_by_pid`. */
    method FindByPid(pid: int32) returns (r: int)
      requires Valid()
      ensures r < 0 ==> r == -1 && FindPid(table, pid).None?
      ensures r >= 0 ==> FindPid(table, pid) == Some(r)
    {
      var i := 0;
      while i < count
        invariant 0 <= i <= count
        invariant FindPid(table, pid) == FindPid(table, pid, i)
      {
        if containers[i].pid == pid {
          return i;
        }
        i := i + 1;
      }
      return -1;
    }

    /** `container_manager_get_info`. */
    method GetInfo(arg: string) returns (r: int)
      requires Valid()
      ensures r < 0 ==> r == -1 && Lookup(table, arg).None?
      ensures r >= 0 ==> Lookup(table, arg) == Some(r) && r < count
    {
      r := FindContainer(arg);
      if r >= 0 {
        return;
      }
      var (v, rest) := Strtol(arg);
      if rest == "" && v > 0 {
        r := FindByPid(Wrap32(v));
      }
    }

    /** The loop shared by `generate_container_id` and the loader. */
    method LargestId() returns (max: int32)
      requires Valid()
      ensures max == MaxId(table)
    {
      max := 0;
      var i := 0;
      while i < count
        invariant 0 <= i <= count
        invariant max == MaxId(table[..i])
      {
        assert table[..i + 1][..i] == table[..i];
        var n := NumericId(containers[i].id);
        if n > max {
          max := n;
        }
        i := i + 1;
      }
      assert table[..count] == table;
    }

    method GenerateId() returns (id: string)
      requires Valid()
      ensures id == NextId(table)
    {
      hide MaxId;
      var max: int := LargestId();
      id := PrintInt(Wrap32(max + 1));
    }

    /** `realloc` of the full array to twice its size. */
    method Grow()
      requires Valid()
      modifies this`containers, this`maxContainers
      ensures Valid() && fresh(containers) && maxContainers == 2 * old(maxContainers)
    {
      var bigger := new ContainerInfo?[maxContainers * 2](_ => null);
      var i := 0;
      while i < count
        invariant 0 <= i <= count
        invariant forall k :: 0 <= k < i ==> bigger[k] == containers[k]
        modifies bigger
      {
        bigger[i] := containers[i];
        i := i + 1;
      }
      containers, maxContainers := bigger, maxContainers * 2;
    }

    /** `add_container`: a full array is reallocated first. */
    method AddContainer(info: ContainerInfo, reallocOk: bool) returns (ok: bool)
      requires Valid() && info !in infos
      modifies this, containers
      ensures Valid() && (containers == old(containers) || fresh(containers))
      ensures stateFile == old(stateFile)
      ensures ok == (|old(table)| < old(maxContainers) || reallocOk)
      ensures ok ==> table == old(table) + [info.Value()] && infos == old(infos) + {info}
      ensures ok ==> maxContainers == L.Grown(old(maxContainers), |old(table)|)
      ensures !ok ==> table == old(table) && infos == old(infos) && maxContainers == old(maxContainers)
    {
      if count >= maxContainers {
        if !reallocOk {
          return false;
        }
        Grow();
      }
      containers[count] := info;
      count := count + 1;
      table, infos := table + [info.Value()], infos + {info};
      return true;
    }

    /** The inner loop of `remove_container`: the tail moves left over one entry. */
    method ShiftLeft(i: nat)
      requires Valid() && i < count
      modifies this`count, this`table, containers
      ensures Valid()
      ensures table == old(table)[..i] + old(table)[i + 1..]
    {
      var j := i;
      while j < count - 1
        invariant i <= j <= count - 1
        invariant forall k :: 0 <= k < i ==> containers[k] == old(containers[k])
        invariant forall k :: i <= k < j ==> containers[k] == old(containers[k + 1])
        invariant forall k :: j <= k < containers.Length ==> containers[k] == old(containers[k])
        modifies containers
      {
        containers[j] := containers[j + 1];
        j := j + 1;
      }
      ghost var t := table[..i] + table[i + 1..];
      assert forall k :: 0 <= k < i ==> t[k] == table[k];
      assert forall k :: i <= k < count - 1 ==> t[k] == table[k + 1];
      count, table := count - 1, t;
    }

    /** `remove_container`. */
    method RemoveContainer(id: string)
      requires Valid()
      modifies this`count, this`table, containers
      ensures Valid()
      ensures table == L.Removed(old(table), id)
    {
      hide Find;
      var i := FindContainer(id);
      if i >= 0 {
        ShiftLeft(i);
      }
    }

    /** Writes the fields that the lifecycle changes, in place. */
    method UpdateEntry(i: nat, e: Info)
      requires Valid() && i < count && e.id == table[i].id
      requires e.config == table[i].config && e.createdAt == table[i].createdAt
      modifies this`table, infos
      ensures Valid() && table == old(table)[i := e]
    {
      var info := containers[i];
      info.pid := e.pid;
      info.state := e.state;
      info.startedAt := e.startedAt;
      info.stoppedAt := e.stoppedAt;
      table := table[i := e];
    }

    /** `save_state`; `saves` says whether the file can be opened. */
    method SaveState(saves: bool)
      requires Valid()
      modifies this`stateFile
      ensures Valid() && World() == L.Save(old(World()), saves)
    {
      hide F.Join, F.RecordLines;
      if !saves {
        return;
      }
      var text := F.Join([F.OpenFile, F.Containers]);
      var i := 0;
      while i < count
        invariant 0 <= i <= count
        invariant text + F.PrintFrom(table, i) == F.PrintState(table)
      {
        var record := F.Join(F.RecordLines(containers[i].Value(), i == count - 1));
        assert text + F.PrintFrom(table, i) == (text + record) + F.PrintFrom(table, i + 1);
        text := text + record;
        i := i + 1;
      }
      stateFile := Some(text + F.Join([F.CloseList, F.CloseFile]));
    }

    /** A record the scanner has closed. */
    method CommitRecord(r: F.Record, p: F.Probe)
      requires Valid()
      modifies this, containers
      ensures Valid() && Renewed() && stateFile == old(stateFile)
      ensures table == F.Commit(old(table), r, p)
      ensures maxContainers ==
        if |table| == |old(table)| then old(maxContainers) else L.Grown(old(maxContainers), |old(table)|)
    {
      hide NextId, NumericId;
      var state, stoppedAt := r.state, r.stoppedAt;
      if state == RUNNING && !F.IsAlive(p, r.pid) {
        state, stoppedAt := STOPPED, p.now;
      }
      if state != DESTROYED && state != STOPPED {
        var id := r.id;
        if NumericId(r.id) < 0 {
          id := GenerateId();
        }
        var info := new ContainerInfo(Info(id, r.pid, state, r.createdAt, r.startedAt, stoppedAt, None));
        var _ := AddContainer(info, true);
      }
    }

    /** `load_state`. */
    method LoadState(p: F.Probe) returns (loaded: nat)
      requires Valid() && table == []
      modifies this, containers
      ensures Valid() && Renewed() && stateFile == old(stateFile)
      ensures table == F.LoadState(stateFile, p) && loaded == |table|
      ensures maxContainers == L.GrownBy(old(maxContainers), |table|)
    {
      hide F.LineLength, F.ReadKey, F.Closes, F.SkipBlank, F.Commit, F.Ignored;
      if stateFile.Some? {
        var rest := stateFile.value;
        var r := F.BLANK;
        while rest != ""
          invariant Valid() && Renewed() && stateFile == old(stateFile)
          invariant F.ScanText(r, table, rest, p) == F.ScanText(F.BLANK, [], stateFile.value, p)
          invariant maxContainers == L.GrownBy(old(maxContainers), |table|)
          decreases |rest|
        {
          var n := F.LineLength(rest);
          var line := F.SkipBlank(rest[..n]);
          rest := rest[n..];
          if !F.Ignored(line) {
            r := F.ReadKey(r, line);
            if F.Closes(r, line) {
              F.CommitLength(table, r, p);
              CommitRecord(r, p);
              r := F.BLANK;
            }
          }
        }
      }
      loaded := count;
    }

    /** `container_manager_create`. */
    method Create(c: Config, e: L.Env) returns (ok: bool)
      requires Valid()
      modifies this, containers, rm`tree
      ensures Valid() && Renewed()
      ensures (World(), ok) == L.Create(old(World()), c, e)
    {
      hide F.PrintState, Find, NextId, L.CreateEntry;
      if !e.idOk {
        return false;
      }
      var id;
      if c.id.Some? {
        id := c.id.value;
      } else {
        id := GenerateId();
      }
      var found := FindContainer(id);
      if found >= 0 || !e.infoOk || !e.copyOk {
        return false;
      }
      ok := CreateEntry(id, c, e);
    }

    method CreateEntry(id: string, c: Config, e: L.Env) returns (ok: bool)
      requires Valid()
      modifies this, containers, rm`tree
      ensures Valid() && Renewed()
      ensures (World(), ok) == L.CreateEntry(old(World()), id, c, e)
    {
      hide F.PrintState, C.CreateCgroup, C.DestroyCgroup, CopyConfig;
      var info := new ContainerInfo(Info(id, 0, CREATED, e.now, 0, 0, Some(CopyConfig(c))));
      ok := rm.CreateCgroup(id, c.limits, e.kernel);
      if !ok {
        return;
      }
      if c.minimalFs && (c.fsRoot.None? || !e.rootOk) {
        rm.DestroyCgroup(id, e.kernel);
        return false;
      }
      ok := AddContainer(info, e.reallocOk);
      if !ok {
        rm.DestroyCgroup(id, e.kernel);
        return;
      }
      SaveState(e.saves);
    }

    /** `container_manager_start`. */
    method Start(arg: string, e: L.Env) returns (ok: bool)
      requires Valid()
      modifies this`table, this`stateFile, rm`tree, infos
      ensures Valid()
      ensures (World(), ok) == L.Start(old(World()), arg, e)
    {
      hide F.PrintState, Lookup, C.CreateCgroup, L.Spawn;
      var i := GetInfo(arg);
      if i < 0 {
        return false;
      }
      var info := containers[i];
      if info.state == RUNNING || info.state == DESTROYED {
        return false;
      }
      if info.state != CREATED && info.state != STOPPED {
        return false;
      }
      if info.config.None? {
        return false;
      }
      var config := info.config.value;
      ok := rm.CreateCgroup(arg, config.limits, e.kernel);
      if !ok {
        return;
      }
      var pid := L.Spawn(config, e);
      if pid == -1 {
        return false;
      }
      UpdateEntry(i, L.Started(info.Value(), pid, e.now));
      SaveState(e.saves);
    }

    /** `container_manager_stop`. */
    method Stop(arg: string, e: L.Env) returns (ok: bool)
      requires Valid()
      modifies this`table, this`stateFile, infos
      ensures Valid()
      ensures (World(), ok) == L.Stop(old(World()), arg, e)
    {
      hide F.PrintState, Lookup;
      var i := GetInfo(arg);
      if i < 0 {
        return false;
      }
      var info := containers[i];
      if info.state != RUNNING {
        return false;
      }
      UpdateEntry(i, L.Stopped(info.Value(), e.now));
      SaveState(e.saves);
      return true;
    }

    /** `container_manager_destroy`. */
    method Destroy(arg: string, eStop: L.Env, e: L.Env) returns (ok: bool)
      requires Valid()
      modifies this`count, this`table, this`stateFile, rm`tree, containers, infos
      ensures Valid()
      ensures (World(), ok) == L.Destroy(old(World()), arg, eStop, e)
    {
      hide F.PrintState, Lookup, C.DestroyCgroup, L.Stop, L.Removed;
      var i := GetInfo(arg);
      if i < 0 {
        return false;
      }
      var id := containers[i].id;
      if containers[i].state == RUNNING {
        var _ := Stop(id, eStop);
      }
      rm.DestroyCgroup(id, e.kernel);
      RemoveContainer(arg);
      SaveState(e.saves);
      return true;
    }

    /** The second half of `container_manager_run`. */
    method Launch(i: nat, id: string, e: L.Env) returns (ok: bool)
      requires Valid() && i < count
      modifies this`count, this`table, this`stateFile, rm`tree, containers, infos
      ensures Valid()
      ensures (World(), ok) == L.Launch(old(World()), i, id, e)
    {
      hide F.PrintState, L.Spawn, L.Destroy;
      var info := containers[i];
      var pid := -1;
      if info.config.Some? {
        pid := L.Spawn(info.config.value, e);
      }
      if pid == -1 {
        var _ := Destroy(id, e, e);
        return false;
      }
      UpdateEntry(i, info.Value().(pid := pid, state := RUNNING, startedAt := e.now));
      SaveState(e.saves);
      return true;
    }

    /** `container_manager_run`. */
    method Run(c: Config, eCreate: L.Env, e: L.Env) returns (ok: bool)
      requires Valid()
      modifies this, containers, rm`tree, infos
      ensures Valid() && Renewed()
      ensures (World(), ok) == L.Run(old(World()), c, eCreate, e)
    {
      hide F.PrintState, Find, NextId, L.Launch, L.Destroy, L.Create;
      var id;
      if c.id.Some? {
        id := c.id.value;
      } else {
        id := GenerateId();
      }
      ok := Create(c.(id := Some(id)), eCreate);
      if !ok {
        return;
      }
      var i := FindContainer(id);
      if i < 0 {
        var _ := Destroy(id, e, e);
        return false;
      }
      ok := Launch(i, id, e);
    }

    /** One pass of the signal handler. */
    method ShutdownPass(es: seq<L.Env>, last: bool)
      requires Valid() && count <= |es|
      modifies this`table, this`stateFile, infos
      ensures Valid()
      ensures |old(table)| == count && World() == S.Pass(old(World()), 0, es, last)
    {
      hide F.PrintState, Lookup, L.Stop;
      var i := 0;
      while i < count
        invariant 0 <= i <= count == |old(table)| && Valid()
        invariant S.Pass(World(), i, es, last) == S.Pass(old(World()), 0, es, last)
      {
        var info := containers[i];
        if last && info.state == CREATED {
          UpdateEntry(i, L.Stopped(info.Value(), es[i].now));
        } else if info.state == RUNNING {
          var _ := Stop(info.id, es[i]);
        }
        i := i + 1;
      }
    }

    /** The signal handler and `container_manager_cleanup`, up to the exit. */
    method ShutdownAll(es1: seq<L.Env>, es2: seq<L.Env>, es3: seq<L.Env>, saves: bool)
      requires Valid() && count <= |es1| && count <= |es2| && count <= |es3|
      modifies this`table, this`stateFile, infos
      ensures Valid()
      ensures World() == S.ShutdownAll(old(World()), es1, es2, es3, saves)
    {
      ShutdownPass(es1, false);
      ShutdownPass(es2, false);
      ShutdownPass(es3, true);
      SaveState(saves);
    }
  }
}
