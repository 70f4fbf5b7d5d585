/** The cgroup tree and the resource manager that creates, limits and removes
    one control group per container, in the v1 and the v2 layout. */
module Cgroups {
  import opened CText

  datatype Version = V1 | V2

  /** A controller hierarchy under /sys/fs/cgroup: the unified v2 root, or a v1 controller. */
  datatype Hierarchy = Unified | CpuCpuacct | Cpu | Cpuacct | Memory

  /** The directory `<hierarchy>/mini_container_<id>`. */
  datatype Dir = Dir(hierarchy: Hierarchy, id: string)

  datatype Knob = CpuMax | CfsQuota | CfsPeriod | CpuShares | MemoryMax | SwapMax | MemoryLimit | MemswLimit

  datatype CpuLimits = CpuLimits(shares: int32, quotaUs: int32, periodUs: int32)
  datatype MemoryLimits = MemoryLimits(limitBytes: uint64, swapLimitBytes: uint64)
  datatype Limits = Limits(cpu: CpuLimits, memory: MemoryLimits, enabled: int32)

  /** The manager's directories and the knob contents it has written. */
  datatype Tree = Tree(dirs: set<Dir>, knobs: map<(Dir, Knob), string>)

  /** The kernel's answers during one call: which requests it refuses. */
  datatype Kernel = Kernel(mkdirDenied: set<Dir>, rmdirDenied: set<Dir>, writeDenied: set<(Dir, Knob)>)

  const DEFAULT_PERIOD_US: int32 := 100000
  const MIN_QUOTA_US: int32 := 1000

  /** A knob exists only inside an existing directory. */
  ghost predicate WellFormed(t: Tree) {
    forall f <- t.knobs :: f.0 in t.dirs
  }

  /** `mkdir` with EEXIST tolerated. */
  function Mkdir(t: Tree, d: Dir, k: Kernel): (r: (Tree, bool)) {
    if d in t.dirs then (t, true)
    else if d in k.mkdirDenied then (t, false)
    else (t.(dirs := t.dirs + {d}), true)
  }

  /** `rmdir`: the kernel takes the directory's knobs away with it. */
  function Rmdir(t: Tree, d: Dir, k: Kernel): (r: Tree) {
    if d in t.dirs && d !in k.rmdirDenied
    then Tree(t.dirs - {d}, map f | f in t.knobs && f.0 != d :: t.knobs[f])
    else t
  }

  /** `write_file`: opens without creating, so it needs the directory. */
  function Write(t: Tree, d: Dir, knob: Knob, text: string, k: Kernel): (r: (Tree, bool)) {
    if d !in t.dirs || (d, knob) in k.writeDenied then (t, false)
    else (t.(knobs := t.knobs[(d, knob) := text]), true)
  }

  /** C division: truncation toward zero. */
  function TruncDiv(x: int, y: int): (q: int)
    requires y > 0
  {
    if x < 0 then -((-x) / y) else x / y
  }

  function Period(c: CpuLimits): (p: int32)
    ensures p > 0
  {
    if c.periodUs > 0 then c.periodUs else DEFAULT_PERIOD_US
  }

  /** The quota `set_cpu_limits` writes; `shares * period` is a 32-bit product. */
  function Quota(c: CpuLimits): (q: int32) {
    if c.quotaUs <= 0 && c.shares > 0 then
      var q := TruncDiv(Wrap32(c.shares * Period(c)), 1024);
      if q < MIN_QUOTA_US then MIN_QUOTA_US else q
    else c.quotaUs
  }

  /** The v1 CPU directory: the co-mounted one when it exists. */
  function V1CpuDir(t: Tree, id: string): (d: Dir) {
    if Dir(CpuCpuacct, id) in t.dirs then Dir(CpuCpuacct, id) else Dir(Cpu, id)
  }

  /** Writes in order and stops at the first refusal. */
  function WriteAll(t: Tree, d: Dir, items: seq<(Knob, string)>, k: Kernel): (r: Tree)
    decreases |items|
  {
    if items == [] then t
    else
      var (t1, ok) := Write(t, d, items[0].0, items[0].1, k);
      if ok then WriteAll(t1, d, items[1..], k) else t1
  }

  /** Every item can be written. */
  predicate Accepts(t: Tree, d: Dir, items: seq<(Knob, string)>, k: Kernel) {
    forall i :: 0 <= i < |items| ==> d in t.dirs && (d, items[i].0) !in k.writeDenied
  }

  function CpuItems(v: Version, c: CpuLimits): (items: seq<(Knob, string)>) {
    var q, p := Quota(c), Period(c);
    if v.V2? then
      [(CpuMax, if q > 0 then PrintInt(q) + " " + PrintInt(p) else "max")]
    else
      (if q > 0 then [(CfsQuota, PrintInt(q)), (CfsPeriod, PrintInt(p))] else [])
      + (if c.shares > 0 then [(CpuShares, PrintInt(c.shares))] else [])
  }

  function MemoryItems(v: Version, m: MemoryLimits): (items: seq<(Knob, string)>) {
    if v.V2? then
      [(MemoryMax, if m.limitBytes > 0 then PrintNat(m.limitBytes) else "max")]
      + (if m.swapLimitBytes > 0 then [(SwapMax, PrintNat(m.swapLimitBytes))] else [])
    else
      (if m.limitBytes > 0 then [(MemoryLimit, PrintNat(m.limitBytes))] else [])
      + (if m.swapLimitBytes > 0 then [(MemswLimit, PrintNat(m.swapLimitBytes))] else [])
  }

  function CpuDir(v: Version, t: Tree, id: string): (d: Dir) {
    if v.V2? then Dir(Unified, id) else V1CpuDir(t, id)
  }

  function MemoryDir(v: Version, id: string): (d: Dir) {
    if v.V2? then Dir(Unified, id) else Dir(Memory, id)
  }

  /** The directories of one container, with v1's fallback when cpu,cpuacct is refused. */
  function MakeDirs(v: Version, t: Tree, id: string, k: Kernel): (r: (Tree, bool)) {
    if v.V2? then Mkdir(t, Dir(Unified, id), k)
    else
      var (t1, joint) := Mkdir(t, Dir(CpuCpuacct, id), k);
      if joint then Mkdir(t1, Dir(Memory, id), k)
      else
        var (t2, cpu) := Mkdir(t1, Dir(Cpu, id), k);
        if !cpu then (t2, false)
        else Mkdir(Mkdir(t2, Dir(Cpuacct, id), k).0, Dir(Memory, id), k)
  }

  function SetLimits(v: Version, t: Tree, id: string, limits: Limits, k: Kernel): (r: Tree) {
    var t1 :=
      if limits.cpu.shares > 0 || limits.cpu.quotaUs > 0
      then WriteAll(t, CpuDir(v, t, id), CpuItems(v, limits.cpu), k) else t;
    if limits.memory.limitBytes > 0
    then WriteAll(t1, MemoryDir(v, id), MemoryItems(v, limits.memory), k) else t1
  }

  /** `resource_manager_create_cgroup`: a refused limit is only a warning. */
  function CreateCgroup(v: Version, t: Tree, id: string, limits: Limits, k: Kernel): (r: (Tree, bool)) {
    var (t1, ok) := MakeDirs(v, t, id, k);
    if ok then (SetLimits(v, t1, id, limits, k), true) else (t1, false)
  }

  /** `resource_manager_destroy_cgroup`. */
  function DestroyCgroup(v: Version, t: Tree, id: string, k: Kernel): (r: Tree) {
    if v.V2? then Rmdir(t, Dir(Unified, id), k)
    else
      Rmdir(Rmdir(Rmdir(Rmdir(t, Dir(CpuCpuacct, id), k), Dir(Cpu, id), k), Dir(Cpuacct, id), k), Dir(Memory, id), k)
  }

  /** Every directory a container can own under the given layout. */
  function DirsOf(v: Version, id: string): (ds: set<Dir>) {
    if v.V2? then {Dir(Unified, id)}
    else {Dir(CpuCpuacct, id), Dir(Cpu, id), Dir(Cpuacct, id), Dir(Memory, id)}
  }

  /** The tree with every trace of one container's directories gone. */
  function Without(t: Tree, ds: set<Dir>): (r: Tree) {
    Tree(t.dirs - ds, map f | f in t.knobs && f.0 !in ds :: t.knobs[f])
  }

  /** v1 creation that made a CPU directory and was then refused the memory one. */
  predicate StopsHalfWay(v: Version, t: Tree, id: string, k: Kernel) {
    && v.V1?
    && Dir(Memory, id) !in t.dirs && Dir(Memory, id) in k.mkdirDenied
    && (Dir(CpuCpuacct, id) !in k.mkdirDenied || Dir(Cpu, id) !in k.mkdirDenied)
  }

  /** The directory is there, or the kernel lets it be made. */
  predicate Obtains(t: Tree, d: Dir, k: Kernel) { d in t.dirs || d !in k.mkdirDenied }

  /** The directories creation needs: the unified one, or a CPU and a memory one. */
  predicate CanMake(v: Version, t: Tree, id: string, k: Kernel) {
    if v.V2? then Obtains(t, Dir(Unified, id), k)
    else (Obtains(t, Dir(CpuCpuacct, id), k) || Obtains(t, Dir(Cpu, id), k)) && Obtains(t, Dir(Memory, id), k)
  }

  /** The directories creation asks for: in v1 the separate CPU ones when the joint one is
      refused, and nothing more once both CPU directories are. */
  function Wanted(v: Version, t: Tree, id: string, k: Kernel): (ds: set<Dir>) {
    if v.V2? then {Dir(Unified, id)}
    else if Obtains(t, Dir(CpuCpuacct, id), k) then {Dir(CpuCpuacct, id), Dir(Memory, id)}
    else if Obtains(t, Dir(Cpu, id), k) then {Dir(Cpu, id), Dir(Cpuacct, id), Dir(Memory, id)}
    else {}
  }

  // ---------------------------------------------------------------- writes

  lemma WriteAllCons(t: Tree, d: Dir, item: (Knob, string), rest: seq<(Knob, string)>, k: Kernel)
    ensures var (t1, ok) := Write(t, d, item.0, item.1, k);
      && WriteAll(t, d, [item] + rest, k) == (if ok then WriteAll(t1, d, rest, k) else t1)
      && (Accepts(t, d, [item] + rest, k) <==> ok && Accepts(t1, d, rest, k))
  {
    var items := [item] + rest;
    assert items[1..] == rest && items[0] == item;
    assert forall i :: 0 <= i < |rest| ==> items[i + 1] == rest[i];
    assert forall i :: 1 <= i < |items| ==> items[i] == rest[i - 1];
  }

  /** Writing touches only knobs of the one directory. */
  lemma {:induction false} WriteAllFrame(t: Tree, d: Dir, items: seq<(Knob, string)>, k: Kernel)
    ensures WriteAll(t, d, items, k).dirs == t.dirs
    ensures Without(WriteAll(t, d, items, k), {d}) == Without(t, {d})
    ensures WellFormed(t) ==> WellFormed(WriteAll(t, d, items, k))
    decreases |items|
  {
    if items != [] {
      var (t1, ok) := Write(t, d, items[0].0, items[0].1, k);
      assert Without(t1, {d}) == Without(t, {d});
      WriteAllFrame(t1, d, items[1..], k);
    }
  }

  lemma {:induction false} WriteAllFrameOf(t: Tree, d: Dir, ds: set<Dir>, items: seq<(Knob, string)>, k: Kernel)
    requires d in ds
    ensures Without(WriteAll(t, d, items, k), ds) == Without(t, ds)
  {
    WriteAllFrame(t, d, items, k);
    var t1 := WriteAll(t, d, items, k);
    assert Without(Without(t1, {d}), ds) == Without(t1, ds);
    assert Without(Without(t, {d}), ds) == Without(t, ds);
  }

  predicate DistinctKnobs(items: seq<(Knob, string)>) {
    forall i, j :: 0 <= i < j < |items| ==> items[i].0 != items[j].0
  }

  ghost predicate SameKnob(t: Tree, t1: Tree, f: (Dir, Knob)) {
    (f in t1.knobs <==> f in t.knobs) && (f in t.knobs ==> t1.knobs[f] == t.knobs[f])
  }

  /** Knobs that no item names keep their contents. */
  lemma {:induction false} WriteAllOther(t: Tree, d: Dir, items: seq<(Knob, string)>, k: Kernel, f: (Dir, Knob))
    requires forall i :: 0 <= i < |items| ==> f != (d, items[i].0)
    ensures var t1 := WriteAll(t, d, items, k);
            (f in t1.knobs <==> f in t.knobs) && (f in t.knobs ==> t1.knobs[f] == t.knobs[f])
    decreases |items|
  {
    if items != [] {
      WriteAllOther(Write(t, d, items[0].0, items[0].1, k).0, d, items[1..], k, f);
    }
  }

  /** An item is written exactly when neither it nor an item before it is refused. */
  lemma {:induction false} WriteAllAt(t: Tree, d: Dir, items: seq<(Knob, string)>, k: Kernel, i: nat)
    requires i < |items| && DistinctKnobs(items)
    ensures var t1, f := WriteAll(t, d, items, k), (d, items[i].0);
      if d in t.dirs && forall j :: 0 <= j <= i ==> (d, items[j].0) !in k.writeDenied
      then f in t1.knobs && t1.knobs[f] == items[i].1
      else SameKnob(t, t1, f)
    decreases |items|
  {
    var (t1, ok) := Write(t, d, items[0].0, items[0].1, k);
    if ok {
      if i == 0 {
        WriteAllOther(t1, d, items[1..], k, (d, items[0].0));
      } else {
        WriteAllAt(t1, d, items[1..], k, i - 1);
        assert forall j :: 0 <= j < i ==> items[1..][j] == items[j + 1];
        assert forall j :: 1 <= j <= i ==> items[j] == items[1..][j - 1];
      }
    }
  }

  /** Each permitted item ends up with its own text. */
  lemma {:induction false} WriteAllStores(t: Tree, d: Dir, items: seq<(Knob, string)>, k: Kernel, i: nat)
    requires i < |items| && DistinctKnobs(items)
    requires d in t.dirs
    requires forall j :: 0 <= j < |items| ==> (d, items[j].0) !in k.writeDenied
    ensures var t1 := WriteAll(t, d, items, k);
            (d, items[i].0) in t1.knobs && t1.knobs[(d, items[i].0)] == items[i].1
    decreases |items|
  {
    var t1 := Write(t, d, items[0].0, items[0].1, k).0;
    if i == 0 {
      WriteAllOther(t1, d, items[1..], k, (d, items[0].0));
    } else {
      WriteAllStores(t1, d, items[1..], k, i - 1);
    }
  }

  /** A tree to which the same writes add nothing. */
  predicate Holds(t: Tree, d: Dir, items: seq<(Knob, string)>, k: Kernel) {
    WriteAll(t, d, items, k) == t
  }

  lemma {:induction false} WriteAllIdempotent(t: Tree, d: Dir, items: seq<(Knob, string)>, k: Kernel)
    requires DistinctKnobs(items)
    ensures Holds(WriteAll(t, d, items, k), d, items, k)
    decreases |items|
  {
    if items != [] {
      var (t1, ok) := Write(t, d, items[0].0, items[0].1, k);
      if ok {
        var t2 := WriteAll(t1, d, items[1..], k);
        WriteAllFrame(t1, d, items[1..], k);
        WriteAllOther(t1, d, items[1..], k, (d, items[0].0));
        assert t2.knobs[(d, items[0].0) := items[0].1] == t2.knobs;
        WriteAllIdempotent(t1, d, items[1..], k);
      }
    }
  }

  // ------------------------------------------------------------- creation

  lemma ItemsDistinct(v: Version, limits: Limits)
    ensures DistinctKnobs(CpuItems(v, limits.cpu)) && DistinctKnobs(MemoryItems(v, limits.memory))
    ensures forall i, j :: 0 <= i < |CpuItems(v, limits.cpu)| && 0 <= j < |MemoryItems(v, limits.memory)|
              ==> CpuItems(v, limits.cpu)[i].0 != MemoryItems(v, limits.memory)[j].0
  {
    hide PrintInt, PrintNat, Quota, Period;
  }

  lemma SetLimitsFrame(v: Version, t: Tree, id: string, limits: Limits, k: Kernel)
    ensures SetLimits(v, t, id, limits, k).dirs == t.dirs
    ensures Without(SetLimits(v, t, id, limits, k), DirsOf(v, id)) == Without(t, DirsOf(v, id))
    ensures WellFormed(t) ==> WellFormed(SetLimits(v, t, id, limits, k))
  {
    var d := CpuDir(v, t, id);
    WriteAllFrame(t, d, CpuItems(v, limits.cpu), k);
    WriteAllFrameOf(t, d, DirsOf(v, id), CpuItems(v, limits.cpu), k);
    var t1 := if limits.cpu.shares > 0 || limits.cpu.quotaUs > 0
      then WriteAll(t, d, CpuItems(v, limits.cpu), k) else t;
    WriteAllFrame(t1, MemoryDir(v, id), MemoryItems(v, limits.memory), k);
    WriteAllFrameOf(t1, MemoryDir(v, id), DirsOf(v, id), MemoryItems(v, limits.memory), k);
  }

  lemma MkdirFrame(t: Tree, d: Dir, ds: set<Dir>, k: Kernel)
    requires d in ds
    ensures var (t1, ok) := Mkdir(t, d, k);
      && Without(t1, ds) == Without(t, ds)
      && t.dirs <= t1.dirs
      && (WellFormed(t) ==> WellFormed(t1))
      && (ok ==> d in t1.dirs)
  {
    assert Mkdir(t, d, k).0.dirs - ds == t.dirs - ds;
  }

  lemma MakeDirsFrame(v: Version, t: Tree, id: string, k: Kernel)
    ensures var (t1, ok) := MakeDirs(v, t, id, k);
      && Without(t1, DirsOf(v, id)) == Without(t, DirsOf(v, id))
      && t.dirs <= t1.dirs
      && (WellFormed(t) ==> WellFormed(t1))
      && (ok ==> CpuDir(v, t1, id) in t1.dirs && MemoryDir(v, id) in t1.dirs)
  {
    var ds := DirsOf(v, id);
    if v.V2? {
      MkdirFrame(t, Dir(Unified, id), ds, k);
    } else {
      MkdirFrame(t, Dir(CpuCpuacct, id), ds, k);
      var (t1, joint) := Mkdir(t, Dir(CpuCpuacct, id), k);
      MkdirFrame(t1, Dir(Memory, id), ds, k);
      MkdirFrame(t1, Dir(Cpu, id), ds, k);
      var t2 := Mkdir(t1, Dir(Cpu, id), k).0;
      MkdirFrame(t2, Dir(Cpuacct, id), ds, k);
      MkdirFrame(Mkdir(t2, Dir(Cpuacct, id), k).0, Dir(Memory, id), ds, k);
    }
  }

  /** Which directories there are afterwards, and when that is a success. */
  lemma MakeDirsExact(v: Version, t: Tree, id: string, k: Kernel)
    ensures var (t1, ok) := MakeDirs(v, t, id, k);
      (ok <==> CanMake(v, t, id, k)) && t1.dirs == t.dirs + (Wanted(v, t, id, k) - k.mkdirDenied) && t1.knobs == t.knobs
  {
  }

  /** Creation confines itself to the container's own directories, whatever the kernel
      refuses; it makes exactly those it wants and may, and says whether they suffice. */
  lemma CreateFrame(v: Version, t: Tree, id: string, limits: Limits, k: Kernel)
    ensures var (t1, ok) := CreateCgroup(v, t, id, limits, k);
      && Without(t1, DirsOf(v, id)) == Without(t, DirsOf(v, id))
      && t.dirs <= t1.dirs
      && (WellFormed(t) ==> WellFormed(t1))
      && (ok ==> CpuDir(v, t1, id) in t1.dirs && MemoryDir(v, id) in t1.dirs)
      && (ok <==> CanMake(v, t, id, k))
      && t1.dirs == t.dirs + (Wanted(v, t, id, k) - k.mkdirDenied)
  {
    hide MakeDirs, SetLimits, Wanted, CanMake;
    MakeDirsFrame(v, t, id, k);
    MakeDirsExact(v, t, id, k);
    SetLimitsFrame(v, MakeDirs(v, t, id, k).0, id, limits, k);
  }

  lemma RmdirRemoves(t: Tree, d: Dir, k: Kernel)
    requires WellFormed(t)
    ensures Rmdir(t, d, k) == Without(t, {d} - k.rmdirDenied) && WellFormed(Rmdir(t, d, k))
  {
    if d in k.rmdirDenied {
      assert {d} - k.rmdirDenied == {};
    } else {
      assert {d} - k.rmdirDenied == {d};
    }
    if d !in t.dirs || d in k.rmdirDenied {
      assert Without(t, {d} - k.rmdirDenied).knobs == t.knobs;
    }
  }

  lemma WithoutTwice(t: Tree, ds: set<Dir>, ds': set<Dir>)
    ensures Without(Without(t, ds), ds') == Without(t, ds + ds')
  {
  }

  /** Removal takes away every directory of the container that the kernel lets go, in both
      layouts, and nothing else. */
  lemma DestroyExact(v: Version, t: Tree, id: string, k: Kernel)
    requires WellFormed(t)
    ensures DestroyCgroup(v, t, id, k) == Without(t, DirsOf(v, id) - k.rmdirDenied)
    ensures WellFormed(DestroyCgroup(v, t, id, k))
  {
    hide Rmdir, Without;
    if v.V2? {
      RmdirRemoves(t, Dir(Unified, id), k);
    } else {
      var (a, b, c, d) := (Dir(CpuCpuacct, id), Dir(Cpu, id), Dir(Cpuacct, id), Dir(Memory, id));
      var no := k.rmdirDenied;
      RmdirRemoves(t, a, k);
      var t1 := Rmdir(t, a, k);
      RmdirRemoves(t1, b, k);
      var t2 := Rmdir(t1, b, k);
      RmdirRemoves(t2, c, k);
      RmdirRemoves(Rmdir(t2, c, k), d, k);
      WithoutTwice(t, {a} - no, {b} - no);
      WithoutTwice(t, ({a} - no) + ({b} - no), {c} - no);
      WithoutTwice(t, ({a} - no) + ({b} - no) + ({c} - no), {d} - no);
      assert ({a} - no) + ({b} - no) + ({c} - no) + ({d} - no) == DirsOf(v, id) - no;
    }
  }

  lemma DestroyRemoves(v: Version, t: Tree, id: string, k: Kernel)
    requires WellFormed(t)
    requires k.rmdirDenied !! DirsOf(v, id)
    ensures DestroyCgroup(v, t, id, k) == Without(t, DirsOf(v, id))
  {
    hide DestroyCgroup;
    DestroyExact(v, t, id, k);
    assert DirsOf(v, id) - k.rmdirDenied == DirsOf(v, id);
  }

  /** Destroying undoes every outcome of creating, full, partial or failed, and
      leaves the other containers' directories and knobs alone. */
  lemma DestroyUndoesCreate(v: Version, t: Tree, id: string, limits: Limits, k: Kernel, k': Kernel)
    requires WellFormed(t)
    requires k'.rmdirDenied !! DirsOf(v, id)
    ensures DestroyCgroup(v, CreateCgroup(v, t, id, limits, k).0, id, k') == Without(t, DirsOf(v, id))
    ensures t.dirs !! DirsOf(v, id) ==>
      DestroyCgroup(v, CreateCgroup(v, t, id, limits, k).0, id, k') == t
  {
    CreateFrame(v, t, id, limits, k);
    DestroyRemoves(v, CreateCgroup(v, t, id, limits, k).0, id, k');
    if t.dirs !! DirsOf(v, id) {
      assert Without(t, DirsOf(v, id)) == t;
    }
  }

  lemma MakeDirsAgain(v: Version, t: Tree, t': Tree, id: string, k: Kernel)
    requires MakeDirs(v, t, id, k).1 && t'.dirs == MakeDirs(v, t, id, k).0.dirs
    ensures MakeDirs(v, t', id, k) == (t', true)
  {
  }

  /** Creating with the same limits and the same kernel answers twice is the same as once. */
  lemma CreateIdempotent(v: Version, t: Tree, id: string, limits: Limits, k: Kernel)
    requires CreateCgroup(v, t, id, limits, k).1
    ensures var t1 := CreateCgroup(v, t, id, limits, k).0;
      CreateCgroup(v, t1, id, limits, k) == (t1, true)
  {
    var t0 := MakeDirs(v, t, id, k).0;
    SetLimitsFrame(v, t0, id, limits, k);
    SetLimitsIdempotent(v, t0, id, limits, k);
    MakeDirsAgain(v, t, SetLimits(v, t0, id, limits, k), id, k);
  }

  lemma SetLimitsIdempotent(v: Version, t: Tree, id: string, limits: Limits, k: Kernel)
    ensures var t1 := SetLimits(v, t, id, limits, k); SetLimits(v, t1, id, limits, k) == t1
  {
    ItemsDistinct(v, limits);
    var cpu, mem := CpuItems(v, limits.cpu), MemoryItems(v, limits.memory);
    var d, m := CpuDir(v, t, id), MemoryDir(v, id);
    var cpuSet, memSet := limits.cpu.shares > 0 || limits.cpu.quotaUs > 0, limits.memory.limitBytes > 0;
    var t1 := if cpuSet then WriteAll(t, d, cpu, k) else t;
    WriteAllFrame(t, d, cpu, k);
    WriteAllIdempotent(t, d, cpu, k);
    WriteAllFrame(t1, m, mem, k);
    WriteAllIdempotent(t1, m, mem, k);
    if cpuSet && memSet {
      HoldsAcross(t1, d, cpu, m, mem, k);
    }
  }

  /** Writing one controller's knobs does not disturb what another controller's already hold. */
  lemma {:induction false} HoldsAcross(
      t: Tree, d: Dir, items: seq<(Knob, string)>, m: Dir, mem: seq<(Knob, string)>, k: Kernel)
    requires Holds(t, d, items, k) && DistinctKnobs(items)
    requires forall i, j :: 0 <= i < |items| && 0 <= j < |mem| ==> items[i].0 != mem[j].0
    ensures Holds(WriteAll(t, m, mem, k), d, items, k)
    decreases |items|
  {
    var t' := WriteAll(t, m, mem, k);
    WriteAllFrame(t, m, mem, k);
    if items != [] {
      var f := (d, items[0].0);
      var (t1, ok) := Write(t, d, items[0].0, items[0].1, k);
      if ok {
        WriteAllOther(t1, d, items[1..], k, f);
        assert t1.knobs == t.knobs by {
          assert t.knobs[f] == items[0].1;
        }
        WriteAllOther(t, m, mem, k, f);
        assert t'.knobs[f := items[0].1] == t'.knobs;
        HoldsAcross(t, d, items[1..], m, mem, k);
      }
    }
  }

  /** A failed creation leaves the tree as it was exactly when it did not stop
      half way through the v1 hierarchies. */
  lemma FailedCreateKeepsTreeIff(v: Version, t: Tree, id: string, limits: Limits, k: Kernel)
    requires t.dirs !! DirsOf(v, id)
    requires !CreateCgroup(v, t, id, limits, k).1
    ensures CreateCgroup(v, t, id, limits, k).0 == t <==> !StopsHalfWay(v, t, id, k)
  {
  }

  // ------------------------------------------------------- quota arithmetic

  /** The product of shares and period over 1024, never below the minimum, in
      unbounded integers. */
  function IdealQuota(product: int): (q: int) {
    var q := product / 1024;
    if q < MIN_QUOTA_US then MIN_QUOTA_US else q
  }

  /** A limit that reaches `set_cpu_limits` through creation always has a positive
      quota, so the "max" arm is never taken from there. */
  lemma QuotaPositive(c: CpuLimits)
    requires c.shares > 0 || c.quotaUs > 0
    ensures Quota(c) > 0
    ensures c.quotaUs <= 0 ==> Quota(c) >= MIN_QUOTA_US
  {
  }

  /** Limits whose quota is derived from their shares. */
  predicate Derived(c: CpuLimits) { c.quotaUs <= 0 && c.shares > 0 }

  /** The derived quota is the ideal one exactly when the product fits an `int`. */
  lemma QuotaExactIff(c: CpuLimits)
    requires Derived(c)
    ensures Quota(c) == IdealQuota(c.shares * Period(c)) <==> c.shares * Period(c) <= INT_MAX
  {
    var x := c.shares * Period(c);
    assert x > 0;
    if x > INT_MAX {
      assert x / 1024 >= 0x20_0000;
      assert Wrap32(x) < 0x8000_0000;
    }
  }

  lemma MulMonotone(a: int, b: int, c: int)
    requires a <= b && c >= 0
    ensures a * c <= b * c
  {
  }

  /** Within the `int` bound more shares never give a smaller quota. */
  lemma QuotaMonotone(c: CpuLimits, c': CpuLimits)
    requires Derived(c) && Derived(c') && c.periodUs == c'.periodUs && c.shares <= c'.shares
    requires c'.shares * Period(c') <= INT_MAX
    ensures Quota(c) <= Quota(c')
  {
    hide Quota;
    MulMonotone(c.shares, c'.shares, Period(c));
    QuotaExactIff(c);
    QuotaExactIff(c');
  }

  /** Within the `int` bound 1024 shares are one full period, and an unclamped quota is
      less than one microsecond below the exact share. */
  lemma QuotaProportional(c: CpuLimits)
    requires Derived(c) && c.shares * Period(c) <= INT_MAX
    ensures c.shares == 1024 && Period(c) >= MIN_QUOTA_US ==> Quota(c) == Period(c)
    ensures Quota(c) > MIN_QUOTA_US ==> 1024 * Quota(c) <= c.shares * Period(c) < 1024 * (Quota(c) + 1)
  {
    hide Quota;
    QuotaExactIff(c);
  }

  /** What a pair of limits means for the quota: an explicit one stands as it is, one derived
      from shares is their part of the period, never below the minimum. */
  lemma QuotaMeans(c: CpuLimits)
    ensures c.periodUs > 0 ==> Period(c) == c.periodUs
    ensures c.periodUs <= 0 ==> Period(c) == 100000
    ensures c.quotaUs > 0 ==> Quota(c) == c.quotaUs
    ensures Derived(c) && c.shares * Period(c) <= INT_MAX ==>
      Quota(c) == if c.shares * Period(c) / 1024 < 1000 then 1000 else c.shares * Period(c) / 1024
    ensures Derived(c) ==>
      var low := Wrap32(c.shares * Period(c)); Quota(c) == if low < 1024 * 1000 then 1000 else low / 1024
  {
    if Derived(c) {
      QuotaExactIff(c);
    }
  }

  // --------------------------------------------------- what creation writes

  predicate CpuSet(limits: Limits) { limits.cpu.shares > 0 || limits.cpu.quotaUs > 0 }

  /** The text creation puts into a knob, if any. Quota, period and shares are written in
      this order and so are memory and swap; a refused knob keeps the later ones out. */
  function Intended(v: Version, limits: Limits, k: Kernel, cpu: Dir, mem: Dir, f: (Dir, Knob)): (s: Option<string>) {
    var q, p := PrintInt(Quota(limits.cpu)), PrintInt(Period(limits.cpu));
    var no := k.writeDenied;
    var memorySet := limits.memory.limitBytes > 0;
    if v.V2? then
      if f == (cpu, CpuMax) && CpuSet(limits) && f !in no then Some(q + " " + p)
      else if f == (mem, MemoryMax) && memorySet && f !in no then Some(PrintNat(limits.memory.limitBytes))
      else if f == (mem, SwapMax) && memorySet && limits.memory.swapLimitBytes > 0 && {f, (mem, MemoryMax)} !! no
        then Some(PrintNat(limits.memory.swapLimitBytes))
      else None
    else
      if f == (cpu, CfsQuota) && CpuSet(limits) && f !in no then Some(q)
      else if f == (cpu, CfsPeriod) && CpuSet(limits) && {f, (cpu, CfsQuota)} !! no then Some(p)
      else if f == (cpu, CpuShares) && limits.cpu.shares > 0 && {f, (cpu, CfsQuota), (cpu, CfsPeriod)} !! no
        then Some(PrintInt(limits.cpu.shares))
      else if f == (mem, MemoryLimit) && memorySet && f !in no then Some(PrintNat(limits.memory.limitBytes))
      else if f == (mem, MemswLimit) && memorySet && limits.memory.swapLimitBytes > 0 && {f, (mem, MemoryLimit)} !! no
        then Some(PrintNat(limits.memory.swapLimitBytes))
      else None
  }

  ghost predicate Becomes(t: Tree, t1: Tree, f: (Dir, Knob), s: Option<string>) {
    if s.Some? then f in t1.knobs && t1.knobs[f] == s.value else SameKnob(t, t1, f)
  }

  predicate IsMemoryKnob(knob: Knob) {
    knob == MemoryMax || knob == SwapMax || knob == MemoryLimit || knob == MemswLimit
  }

  lemma ItemKnobs(v: Version, limits: Limits)
    ensures forall item <- CpuItems(v, limits.cpu) :: !IsMemoryKnob(item.0)
    ensures forall item <- MemoryItems(v, limits.memory) :: IsMemoryKnob(item.0)
  {
    hide PrintInt, PrintNat, Quota, Period;
  }

  lemma CpuPart(v: Version, t: Tree, limits: Limits, k: Kernel, cpu: Dir, mem: Dir, f: (Dir, Knob))
    requires CpuSet(limits) && cpu in t.dirs && !IsMemoryKnob(f.1)
    ensures Becomes(t, WriteAll(t, cpu, CpuItems(v, limits.cpu), k), f, Intended(v, limits, k, cpu, mem, f))
  {
    hide PrintInt, PrintNat, Quota, Period, WriteAll;
    QuotaPositive(limits.cpu);
    ItemsDistinct(v, limits);
    var items := CpuItems(v, limits.cpu);
    assert v.V2? ==> items[0].0 == CpuMax;
    assert v.V1? ==> items[0].0 == CfsQuota && items[1].0 == CfsPeriod;
    assert v.V1? && limits.cpu.shares > 0 ==> items[2].0 == CpuShares;
    if i :| 0 <= i < |items| && f == (cpu, items[i].0) {
      WriteAllAt(t, cpu, items, k, i);
    } else {
      WriteAllOther(t, cpu, items, k, f);
    }
  }

  lemma MemoryPart(v: Version, t: Tree, limits: Limits, k: Kernel, cpu: Dir, mem: Dir, f: (Dir, Knob))
    requires limits.memory.limitBytes > 0 && mem in t.dirs && IsMemoryKnob(f.1)
    ensures Becomes(t, WriteAll(t, mem, MemoryItems(v, limits.memory), k), f, Intended(v, limits, k, cpu, mem, f))
  {
    hide PrintInt, PrintNat, Quota, Period, WriteAll;
    ItemsDistinct(v, limits);
    var items := MemoryItems(v, limits.memory);
    assert items[0].0 == if v.V2? then MemoryMax else MemoryLimit;
    assert limits.memory.swapLimitBytes > 0 ==> items[1].0 == if v.V2? then SwapMax else MemswLimit;
    if i :| 0 <= i < |items| && f == (mem, items[i].0) {
      WriteAllAt(t, mem, items, k, i);
    } else {
      WriteAllOther(t, mem, items, k, f);
    }
  }

  /** Every knob after a creation, whatever the kernel refuses. */
  lemma CreateWrites(v: Version, t: Tree, id: string, limits: Limits, k: Kernel, f: (Dir, Knob))
    requires CreateCgroup(v, t, id, limits, k).1
    ensures var t1 := CreateCgroup(v, t, id, limits, k).0;
      Becomes(t, t1, f, Intended(v, limits, k, CpuDir(v, t1, id), MemoryDir(v, id), f))
  {
    hide MakeDirs, Intended, WriteAll, CpuItems, MemoryItems, IsMemoryKnob;
    var t0 := MakeDirs(v, t, id, k).0;
    MakeDirsFrame(v, t, id, k);
    MakeDirsExact(v, t, id, k);
    SetLimitsFrame(v, t0, id, limits, k);
    ItemKnobs(v, limits);
    var cpu, mem := CpuDir(v, t0, id), MemoryDir(v, id);
    var t1 := if CpuSet(limits) then WriteAll(t0, cpu, CpuItems(v, limits.cpu), k) else t0;
    WriteAllFrame(t0, cpu, CpuItems(v, limits.cpu), k);
    NotIntended(v, limits, k, cpu, mem, f);
    if IsMemoryKnob(f.1) {
      WriteAllOther(t0, cpu, CpuItems(v, limits.cpu), k, f);
      if limits.memory.limitBytes > 0 {
        MemoryPart(v, t1, limits, k, cpu, mem, f);
      }
    } else {
      if CpuSet(limits) {
        CpuPart(v, t0, limits, k, cpu, mem, f);
      }
      WriteAllOther(t1, mem, MemoryItems(v, limits.memory), k, f);
    }
  }

  lemma NotIntended(v: Version, limits: Limits, k: Kernel, cpu: Dir, mem: Dir, f: (Dir, Knob))
    ensures !CpuSet(limits) && !IsMemoryKnob(f.1) ==> Intended(v, limits, k, cpu, mem, f).None?
    ensures limits.memory.limitBytes == 0 && IsMemoryKnob(f.1) ==> Intended(v, limits, k, cpu, mem, f).None?
  {
  }
}
