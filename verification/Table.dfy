/** Container records, their numeric ids, and lookup in the container table. */
module Table {
  import opened CText
  import opened Cgroups

  /** `container_state_t`; kept as an `int` because the loader stores whatever number it read. */
  const CREATED: int32 := 0
  const RUNNING: int32 := 1
  const STOPPED: int32 := 2
  const DESTROYED: int32 := 3

  /** `container_config_t`. A null pointer is `None`; `command_argc` is the length of the
      command, so an empty command stands for every count that is not positive. */
  datatype Config = Config(
    id: Option<string>,
    rootPath: Option<string>,
    nsFlags: int32,
    limits: Limits,
    fsRoot: Option<string>,
    fsMethod: int32,
    minimalFs: bool,
    command: Option<seq<Option<string>>>)

  /** `container_info_t` as a value. */
  datatype Info = Info(
    id: string,
    pid: int32,
    state: int32,
    createdAt: int64,
    startedAt: int64,
    stoppedAt: int64,
    config: Option<Config>)

  /** `copy_container_config`, when every allocation succeeds. */
  function CopyConfig(c: Config): (r: Config) {
    if c.command == Some([]) then c.(command := None) else c
  }

  /** `extract_numeric_id`: the value of an id that is a positive decimal throughout,
      narrowed to `int`; -1 otherwise. */
  function NumericId(id: string): (n: int32) {
    var (v, rest) := Strtol(id);
    if rest == "" && v > 0 then Wrap32(v) else -1
  }

  function Max(m: int32, n: int32): (r: int32) { if n > m then n else m }

  /** The largest numeric id, 0 when there is none. */
  function MaxId(t: seq<Info>): (m: int32)
    ensures m >= 0
  {
    if t == [] then 0 else Max(MaxId(t[..|t| - 1]), NumericId(t[|t| - 1].id))
  }

  function NextId(t: seq<Info>): (id: string) { PrintInt(Wrap32(MaxId(t) + 1)) }

  function Ids(t: seq<Info>): (ids: set<string>) { set e <- t :: e.id }

  ghost predicate UniqueIds(t: seq<Info>) {
    forall i, j :: 0 <= i < j < |t| ==> t[i].id != t[j].id
  }

  /** `find_container`: the first entry with the id. */
  function Find(t: seq<Info>, id: string): (r: Option<nat>)
    ensures r.Some? ==> r.value < |t| && t[r.value].id == id && forall i :: 0 <= i < r.value ==> t[i].id != id
    ensures r.None? ==> forall e <- t :: e.id != id
  {
    FindFrom(t, id, 0)
  }

  function FindFrom(t: seq<Info>, id: string, k: nat): (r: Option<nat>)
    requires k <= |t|
    ensures r.Some? ==> k <= r.value < |t| && t[r.value].id == id && forall i :: k <= i < r.value ==> t[i].id != id
    ensures r.None? ==> forall i :: k <= i < |t| ==> t[i].id != id
    decreases |t| - k
  {
    if k == |t| then None else if t[k].id == id then Some(k) else FindFrom(t, id, k + 1)
  }

  /** `find_container_by_pid`: the first entry with the pid, in any state. */
  function FindPid(t: seq<Info>, pid: int32, k: nat := 0): (r: Option<nat>)
    requires k <= |t|
    ensures r.Some? ==> k <= r.value < |t| && t[r.value].pid == pid && forall i :: k <= i < r.value ==> t[i].pid != pid
    ensures r.None? ==> forall i :: k <= i < |t| ==> t[i].pid != pid
    decreases |t| - k
  {
    if k == |t| then None else if t[k].pid == pid then Some(k) else FindPid(t, pid, k + 1)
  }

  /** The pid an argument can stand for. */
  function ArgPid(arg: string): (r: Option<int32>) {
    var (v, rest) := Strtol(arg);
    if rest == "" && v > 0 then Some(Wrap32(v)) else None
  }

  /** `container_manager_get_info`: by id, else by a positive decimal pid. */
  function Lookup(t: seq<Info>, arg: string): (r: Option<nat>)
    ensures r.Some? ==> r.value < |t|
    ensures arg in Ids(t) ==> r.Some? && t[r.value].id == arg
  {
    var byId := Find(t, arg);
    if byId.Some? then byId
    else if ArgPid(arg).Some? then FindPid(t, ArgPid(arg).value)
    else None
  }

  /** The argument names an entry only through its pid. */
  predicate PidAlias(t: seq<Info>, arg: string) {
    arg !in Ids(t) && Lookup(t, arg).Some?
  }

  /** The numeric id of any printed number: itself when it is a positive `int`, its low 32
      bits up to the largest `long`, and -1 beyond and for what is not positive. */
  lemma NumericIdOfPrinted(n: int)
    ensures n <= INT_MAX ==> NumericId(PrintInt(n)) == if n > 0 then n else -1
    ensures 0 < n <= LONG_MAX ==> (n - NumericId(PrintInt(n))) % 0x1_0000_0000 == 0
    ensures n > LONG_MAX ==> NumericId(PrintInt(n)) == -1
  {
    hide PrintInt, ScanNumber;
    ScanPrinted(n, "");
    assert PrintInt(n) + "" == PrintInt(n);
    assert Wrap32(LONG_MAX) == -1;
  }

  /** The pid any printed number stands for, in the same way. */
  lemma ArgPidOfPrinted(n: int)
    ensures n <= 0 ==> ArgPid(PrintInt(n)).None?
    ensures 0 < n <= INT_MAX ==> ArgPid(PrintInt(n)) == Some(n)
    ensures 0 < n <= LONG_MAX ==> ArgPid(PrintInt(n)).Some? && (n - ArgPid(PrintInt(n)).value) % 0x1_0000_0000 == 0
    ensures n > LONG_MAX ==> ArgPid(PrintInt(n)) == Some(-1)
  {
    hide PrintInt, ScanNumber;
    ScanPrinted(n, "");
    assert PrintInt(n) + "" == PrintInt(n);
    assert Wrap32(LONG_MAX) == -1;
  }

  /** Blanks, a plus sign and leading zeros do not change the number. */
  lemma NumericIdOfDecimal(blanks: string, sign: string, ds: string)
    requires (forall c <- blanks :: IsSpace(c)) && (sign == "" || sign == "+") && ds != "" && AllDigits(ds)
    ensures Value(ds) <= INT_MAX ==>
      NumericId(blanks + (sign + ds)) == if Value(ds) > 0 then Value(ds) else -1
  {
    hide ScanNumber, Value;
    ScanDecimal(blanks, sign, ds, "");
    assert ds + "" == ds;
  }

  lemma {:induction false} MaxIdBound(t: seq<Info>, i: nat)
    requires i < |t|
    ensures NumericId(t[i].id) <= MaxId(t)
  {
    if i < |t| - 1 {
      MaxIdBound(t[..|t| - 1], i);
    }
  }

  /** The largest numeric id is that of an entry, or 0. */
  lemma {:induction false} MaxIdAttained(t: seq<Info>)
    ensures MaxId(t) == 0 || exists e <- t :: NumericId(e.id) == MaxId(t)
  {
    if t != [] && MaxId(t) != NumericId(t[|t| - 1].id) {
      MaxIdAttained(t[..|t| - 1]);
    }
  }

  lemma NextIdFresh(t: seq<Info>)
    requires MaxId(t) < INT_MAX
    ensures NumericId(NextId(t)) == MaxId(t) + 1
    ensures NextId(t) !in Ids(t)
  {
    hide NumericId, PrintInt, MaxId;
    NumericIdOfPrinted(MaxId(t) + 1);
    forall i | 0 <= i < |t|
      ensures t[i].id != NextId(t)
    {
      MaxIdBound(t, i);
    }
  }

  /** The name generated when the increment overflows. */
  function OverflowId(): (id: string) { PrintInt(Wrap32(INT_MAX + 1)) }

  /** A generated id differs from every id in the table exactly when the increment
      does not overflow, or the wrapped name happens to be free. */
  lemma NextIdFreshIff(t: seq<Info>)
    ensures NextId(t) !in Ids(t) <==> MaxId(t) < INT_MAX || OverflowId() !in Ids(t)
  {
    if MaxId(t) < INT_MAX {
      NextIdFresh(t);
    } else {
      assert MaxId(t) == INT_MAX;
    }
  }

  /** With unique ids, lookup by id is the finite map from ids to positions. */
  lemma FindIsMapLookup(t: seq<Info>, i: nat)
    requires i < |t| && UniqueIds(t)
    ensures Find(t, t[i].id) == Some(i)
  {
  }

  /** Lookup finds nothing exactly when the argument is neither an id nor the decimal
      of a recorded pid; an id always wins over a pid. */
  lemma LookupIff(t: seq<Info>, arg: string)
    ensures Lookup(t, arg).None? <==>
      arg !in Ids(t) && (ArgPid(arg).None? || forall e <- t :: e.pid != ArgPid(arg).value)
    ensures arg in Ids(t) ==> Lookup(t, arg) == Find(t, arg)
    ensures PidAlias(t, arg) ==> ArgPid(arg).Some? && Lookup(t, arg) == FindPid(t, ArgPid(arg).value)
  {
  }

  /** A recorded pid, printed, leads to the first entry that has it, in whatever state
      that entry is: a stopped one keeps its pid. */
  lemma PrintedPidFinds(t: seq<Info>, i: nat)
    requires i < |t| && t[i].pid > 0 && PrintInt(t[i].pid) !in Ids(t)
    requires forall j :: 0 <= j < i ==> t[j].pid != t[i].pid
    ensures Lookup(t, PrintInt(t[i].pid)) == Some(i)
  {
    hide ScanNumber, PrintInt;
    ScanPrinted(t[i].pid, "");
    assert PrintInt(t[i].pid) + "" == PrintInt(t[i].pid);
  }
}
