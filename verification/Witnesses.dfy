/** Reachable states, each from an empty manager through its own calls, in which the
    code does less than it seems to promise. The conditions are in the other modules. */
module Witnesses {
  import opened CText
  import opened Cgroups
  import opened Table
  import opened StateFile
  import opened Lifecycle
  import opened Runs
  import opened Agreement
  import opened Durability
  import Shutdown
  import Monitor

  const OPEN := Kernel({}, {}, {})

  const NO_LIMITS := Limits(CpuLimits(0, 0, 0), MemoryLimits(0, 0), 1)

  /** A call in which nothing is refused. */
  function Calm(now: int64, pid: int32): (e: Env) { Env(now, OPEN, pid, true, true, true, true, true, true) }

  function Job(id: string): (c: Config) { Config(Some(id), None, 0, NO_LIMITS, None, 0, false, Some([Some("sh")])) }

  function Empty(v: Version): (w: World) { World(v, Tree({}, map[]), [], 16, None) }

  function CreateStep(id: string, now: int64): (s: Step) { DoCreate(Job(id), Calm(now, 1)) }

  function RunStep(id: string, now: int64, pid: int32): (s: Step) { DoRun(Job(id), Calm(now, 1), Calm(now, pid)) }

  function StopStep(arg: string, now: int64): (s: Step) { DoStop(arg, Calm(now, 1)) }

  function RestartStep(alive: set<int32>, now: int64): (s: Step) { DoRestart(16, Probe(alive, now), true) }

  function Running(id: string, now: int64, pid: int32): (e: Info) {
    Info(id, pid, RUNNING, now, now, 0, Some(Job(id)))
  }

  // ------------------------------------------------------------ single calls

  lemma CreateSucceeds(w: World, id: string, now: int64)
    requires id !in Ids(w.table)
    ensures var w' := Apply(w, CreateStep(id, now));
      && Create(w, Job(id), Calm(now, 1)).1
      && w'.table == w.table + [NewInfo(id, Job(id), now)] && w'.version == w.version
      && w'.file == Some(PrintState(w'.table))
  {
    hide PrintState, SetLimits;
    assert Find(w.table, id).None?;
  }

  lemma RunSucceeds(w: World, id: string, now: int64, pid: int32)
    requires id !in Ids(w.table) && pid > 0
    ensures var (w', ok) := Outcome(w, RunStep(id, now, pid));
      && ok && w'.table == w.table + [Running(id, now, pid)] && w'.version == w.version
      && w'.file == Some(PrintState(w'.table))
  {
    hide PrintState, Create;
    CreateSucceeds(w, id, now);
    FindAppended(w.table, NewInfo(id, Job(id), now));
    var w1 := Create(w, Job(id), Calm(now, 1)).0;
    assert w1.table[|w.table| := Running(id, now, pid)] == w.table + [Running(id, now, pid)];
  }

  lemma StopSucceeds(w: World, id: string, now: int64)
    requires |w.table| == 1 && w.table[0].id == id && w.table[0].state == RUNNING
    ensures var w' := Apply(w, StopStep(id, now));
      && w'.table == [Stopped(w.table[0], now)] && w'.version == w.version
      && w'.file == Some(PrintState(w'.table))
  {
    hide PrintState;
    assert w.table[0] in w.table;
    assert Lookup(w.table, id) == Some(0);
    assert w.table[0 := Stopped(w.table[0], now)] == [Stopped(w.table[0], now)];
  }

  lemma RestartLoads(w: World, alive: set<int32>, now: int64)
    ensures var w' := Apply(w, RestartStep(alive, now));
      && w'.table == LoadState(w.file, Probe(alive, now)) && w'.version == w.version && w'.tree == w.tree
      && w'.file == if w'.table == [] then w.file else Some(PrintState(w'.table))
  {
    hide LoadState, PrintState;
  }

  lemma Four(w: World, a: Step, b: Step, c: Step, d: Step)
    ensures ApplyAll(w, [a, b, c, d]) == Apply(Apply(Apply(Apply(w, a), b), c), d)
  {
    assert [a, b, c, d][1..] == [b, c, d];
    Three(Apply(w, a), b, c, d);
  }

  lemma One(w: World, a: Step)
    ensures ApplyAll(w, [a]) == Apply(w, a)
  {
    assert [a][1..] == [];
  }

  lemma Two(w: World, a: Step, b: Step)
    ensures ApplyAll(w, [a, b]) == Apply(Apply(w, a), b)
  {
    assert [a, b][1..] == [b];
    One(Apply(w, a), b);
  }

  lemma Three(w: World, a: Step, b: Step, c: Step)
    ensures ApplyAll(w, [a, b, c]) == Apply(Apply(Apply(w, a), b), c)
  {
    assert [a, b, c][1..] == [b, c];
    Two(Apply(w, a), b, c);
  }

  /** A name that begins with a letter is no decimal. */
  lemma LetterIsNoId(id: string)
    requires id != "" && 'a' <= id[0] <= 'z'
    ensures NumericId(id) == -1 && forall n: int :: PrintInt(n) != id
  {
  }

  lemma OneIsPrinted()
    ensures PrintInt(1) == "1" && NumericId("1") == 1 && NextId([]) == "1"
  {
    NumericIdOfPrinted(1);
  }

  // --------------------------------------------------------------- witnesses

  /** After a run there is one entry and its directory. */
  lemma RanAgrees(id: string, pid: int32)
    requires pid > 0
    ensures var w := Apply(Empty(V2), RunStep(id, 1, pid)); Agrees(w) && w.table == [Running(id, 1, pid)]
  {
    hide Run, PrintState;
    RunSucceeds(Empty(V2), id, 1, pid);
    RunAgrees(Empty(V2), Job(id), Calm(1, 1), Calm(1, pid));
  }

  lemma OneAlias(e: Info)
    requires e.pid > 0 && e.id != PrintInt(e.pid)
    ensures PidAlias([e], PrintInt(e.pid)) && Lookup([e], PrintInt(e.pid)) == Some(0)
  {
    hide PrintInt, Lookup;
    PrintedPidFinds([e], 0);
  }

  lemma OneId(e: Info)
    ensures Ids([e]) == {e.id} && DirsFor([e]) == {Dir(Unified, e.id)}
  {
    assert [e][0] in [e];
  }

  /** Destroying a running container by its pid removes its directory and leaves its entry. */
  lemma DestroyByPidSplits(id: string, pid: int32)
    requires pid > 0 && id != PrintInt(pid)
    ensures var w := ApplyAll(Empty(V2), [RunStep(id, 1, pid), DoDestroy(PrintInt(pid), Calm(2, 1), Calm(2, 1))]);
      Ids(w.table) == {id} && w.tree.dirs == {} && !Agrees(w)
  {
    hide Run, Destroy, PrintInt, PidAlias, Lookup, WellFormed;
    Two(Empty(V2), RunStep(id, 1, pid), DoDestroy(PrintInt(pid), Calm(2, 1), Calm(2, 1)));
    RanAgrees(id, pid);
    var w := Apply(Empty(V2), RunStep(id, 1, pid));
    OneAlias(Running(id, 1, pid));
    OneId(Running(id, 1, pid));
    DestroyEffect(w, PrintInt(pid), Calm(2, 1), Calm(2, 1));
    DestroyAgreesIff(w, PrintInt(pid), Calm(2, 1), Calm(2, 1));
  }

  /** Starting a stopped container by its pid makes a directory of no entry. */
  lemma StartByPidSplits(id: string, pid: int32)
    requires pid > 0 && id != PrintInt(pid)
    ensures var w := ApplyAll(Empty(V2), [RunStep(id, 1, pid), StopStep(id, 2), DoStart(PrintInt(pid), Calm(3, 5))]);
      Ids(w.table) == {id} && w.tree.dirs == {Dir(Unified, id), Dir(Unified, PrintInt(pid))} && !Agrees(w)
  {
    hide Run, Start, Stop, PrintInt, PrintState, PidAlias, Lookup, Ids;
    Three(Empty(V2), RunStep(id, 1, pid), StopStep(id, 2), DoStart(PrintInt(pid), Calm(3, 5)));
    RanAgrees(id, pid);
    var w := Apply(Empty(V2), RunStep(id, 1, pid));
    StopSucceeds(w, id, 2);
    StopAgrees(w, id, Calm(2, 1));
    var w1 := Apply(w, StopStep(id, 2));
    OneAlias(Stopped(Running(id, 1, pid), 2));
    OneId(Running(id, 1, pid));
    StartEffect(w1, PrintInt(pid), Calm(3, 5));
    StartAgreesIff(w1, PrintInt(pid), Calm(3, 5));
  }

  /** A stopped container keeps the pid it ran under. */
  lemma StoppedKeepsPid(v: Version, id: string, pid: int32)
    requires pid > 0
    ensures var w := ApplyAll(Empty(v), [RunStep(id, 1, pid), StopStep(id, 2)]);
      w.table == [Stopped(Running(id, 1, pid), 2)] && w.table[0].state == STOPPED && w.table[0].pid == pid
  {
    hide Run, Stop, PrintState;
    Two(Empty(v), RunStep(id, 1, pid), StopStep(id, 2));
    RunSucceeds(Empty(v), id, 1, pid);
    StopSucceeds(Apply(Empty(v), RunStep(id, 1, pid)), id, 2);
  }

  /** A stopped container whose id has a brace is back after a restart, as CREATED "1". */
  lemma BraceStopComesBack(v: Version, pid: int32)
    requires pid > 0
    ensures var w := ApplyAll(Empty(v), [RunStep("a}", 1, pid), StopStep("a}", 2), RestartStep({}, 3)]);
      w.table == [Info("1", 0, CREATED, 0, 0, 0, None)]
  {
    hide Run, Stop, PrintState, LoadState;
    var id := "a}";
    Three(Empty(v), RunStep(id, 1, pid), StopStep(id, 2), RestartStep({}, 3));
    RunSucceeds(Empty(v), id, 1, pid);
    StopSucceeds(Apply(Empty(v), RunStep(id, 1, pid)), id, 2);
    OneBraceLoads(Stopped(Running(id, 1, pid), 2), Probe({}, 3));
  }

  lemma OneBraceLoads(e: Info, p: Probe)
    requires e.id == "a}"
    ensures LoadState(Some(PrintState([e])), p) == [Info("1", 0, CREATED, 0, 0, 0, None)]
  {
    hide PrintState, LoadState, NumericId, Cut, SeenAll, Restored, NextId;
    var t := [e];
    CutWholeIff(e.id);
    assert '}' in e.id by { assert e.id[1] == '}'; }
    LetterIsNoId(e.id);
    OneIsPrinted();
    LoadOfSaveSeen(t, p);
    assert t[..0] == [] && t[..1] == t;
    NothingSeen();
    NothingRestored(p);
    SeenSnoc(t, 0);
    RestoredAppend([], Seen(t, 0), p);
  }

  /** What loads from a letter name followed by the id "1". */
  lemma BothLoadAsOne(a: Info, b: Info, p: Probe)
    requires PrintableId(a.id) && '}' !in a.id && 'a' <= a.id[0] <= 'z' && b.id == "1"
    requires KeepsEntry(a, p) && KeepsEntry(b, p)
    ensures LoadState(Some(PrintState([a, b])), p) == [Forget(a).(id := "1"), Forget(b)]
  {
    hide LoadState, PrintState, NumericId, NextId;
    LetterIsNoId(a.id);
    OneIsPrinted();
    LoadOfSave([a, b], p);
    assert [a, b][..1] == [a] && [a][..0] == [];
    assert Restored([], p) == [];
    assert Restored([a], p) == [Forget(a).(id := "1")];
  }

  /** Two containers with different ids come back with the same one. */
  lemma RestartMakesTwins(v: Version)
    ensures var w := ApplyAll(Empty(v), [CreateStep("foo", 1), CreateStep("1", 2), RestartStep({}, 3)]);
      |w.table| == 2 && w.table[0].id == w.table[1].id == "1" && !UniqueIds(w.table)
  {
    hide Apply, PrintState, LoadState;
    var foo, one := "foo", "1";
    assert foo[0] != one[0];
    var a, b, c := CreateStep(foo, 1), CreateStep(one, 2), RestartStep({}, 3);
    Three(Empty(v), a, b, c);
    var w1 := Apply(Empty(v), a);
    CreateSucceeds(Empty(v), foo, 1);
    var w2 := Apply(w1, b);
    CreateSucceeds(w1, one, 2);
    var e, f := NewInfo(foo, Job(foo), 1), NewInfo(one, Job(one), 2);
    assert w2.table == [e, f];
    RestartLoads(w2, {}, 3);
    BothLoadAsOne(e, f, Probe({}, 3));
  }

  /** The two entries the scanner sees in a saved table of two. */
  lemma TwoSeen(a: Info, b: Info, p: Probe)
    requires OneLine(a.id) && OneLine(b.id) && Cut(a.id) != "" && Cut(b.id) != ""
    requires var u, v := Seen([a, b], 0), Seen([a, b], 1);
      && KeepsEntry(u, p) && KeepsEntry(v, p) && NumericId(v.id) >= 0
    ensures var u, v := Seen([a, b], 0), Seen([a, b], 1);
      LoadState(Some(PrintState([a, b])), p) == [Forget(u).(id := LoadedId([], u.id)), Forget(v)]
  {
    hide LoadState, PrintState, NumericId, Cut, Seen, OneLine, NextId, SeenAll, Restored;
    var t := [a, b];
    LoadOfSaveSeen(t, p);
    assert t[..0] == [] && t[..2] == t && t[..1] == [a];
    NothingSeen();
    NothingRestored(p);
    SeenSnoc(t, 0);
    SeenSnoc(t, 1);
    RestoredAppend([], Seen(t, 0), p);
    RestoredAppend(SeenAll(t[..1]), Seen(t, 1), p);
  }

  /** A quote cuts an id short, and two containers come back with the same one. */
  lemma QuoteMakesTwins(v: Version)
    ensures var w := ApplyAll(Empty(v), [CreateStep("1", 1), CreateStep("1\"x", 2), RestartStep({}, 3)]);
      |w.table| == 2 && w.table[0].id == w.table[1].id == "1"
  {
    hide Apply, PrintState, LoadState, NumericId;
    var one, cut := "1", "1\"x";
    assert |one| != |cut|;
    var a, b, c := CreateStep(one, 1), CreateStep(cut, 2), RestartStep({}, 3);
    Three(Empty(v), a, b, c);
    var w1 := Apply(Empty(v), a);
    CreateSucceeds(Empty(v), one, 1);
    CreateSucceeds(w1, cut, 2);
    var e, f := NewInfo(one, Job(one), 1), NewInfo(cut, Job(cut), 2);
    assert Apply(w1, b).table == [e, f];
    RestartLoads(Apply(w1, b), {}, 3);
    OneIsPrinted();
    CutOne();
    TwoSeen(e, f, Probe({}, 3));
  }

  lemma CutOne()
    ensures Cut("1") == "1" && Cut("1\"x") == "1"
  {
    UpToQuoteOf("1", "\"x");
    assert "1" + "\"x" == "1\"x";
    UpToQuoteWhole("1");
  }

  /** A stopped container whose id has a brace comes back under the id of another. */
  lemma BraceMakesTwins(v: Version, pid: int32)
    requires pid > 0
    ensures var steps := [RunStep("a}", 1, pid), StopStep("a}", 2), CreateStep("1", 3), RestartStep({}, 4)];
      var w := ApplyAll(Empty(v), steps);
      |w.table| == 2 && w.table[0].id == w.table[1].id == "1"
  {
    hide Outcome, PrintState, LoadState, NumericId;
    var id, one := "a}", "1";
    assert |one| != |id|;
    var a, b, c, d := RunStep(id, 1, pid), StopStep(id, 2), CreateStep(one, 3), RestartStep({}, 4);
    Four(Empty(v), a, b, c, d);
    var w1 := Apply(Empty(v), a);
    RunSucceeds(Empty(v), id, 1, pid);
    var w2 := Apply(w1, b);
    StopSucceeds(w1, id, 2);
    CreateSucceeds(w2, one, 3);
    var e, f := Stopped(Running(id, 1, pid), 2), NewInfo(one, Job(one), 3);
    assert Apply(w2, c).table == [e, f];
    RestartLoads(Apply(w2, c), {}, 4);
    OneIsPrinted();
    CutOne();
    CutWholeIff(id);
    assert '}' in id by { assert id[1] == '}'; }
    LetterIsNoId(id);
    TwoSeen(e, f, Probe({}, 4));
  }

  /** A refused memory directory leaves the CPU directory of a container that was never made. */
  lemma HalfWayLeavesDirectory(id: string)
    ensures var k := Kernel({Dir(Memory, id)}, {}, {});
      var w := ApplyAll(Empty(V1), [DoCreate(Job(id), Calm(1, 1).(kernel := k))]);
      w == Empty(V1).(tree := Tree({Dir(CpuCpuacct, id)}, map[]))
  {
    var k := Kernel({Dir(Memory, id)}, {}, {});
    var s := DoCreate(Job(id), Calm(1, 1).(kernel := k));
    One(Empty(V1), s);
    assert Find([], id).None?;
  }

  /** A container found dead at a restart is back at the next one under the pid of a stranger. */
  lemma ReusedPidComesBack(v: Version, pid: int32)
    requires pid > 0
    ensures var h, steps := Fresh(v, Tree({}, map[]), 16, 1), [RunStep("1", 1, pid), RestartStep({}, 2)];
      && AllAdmissible(h, steps)
      && NextAll(h, steps).w.table == []
      && LoadState(NextAll(h, steps).w.file, Probe({pid}, 3)) == [Forget(Running("1", 1, pid))]
  {
    hide Outcome, PrintState, LoadState, NumericId;
    var one := "1";
    var h, a, b := Fresh(v, Tree({}, map[]), 16, 1), RunStep(one, 1, pid), RestartStep({}, 2);
    var e := Running(one, 1, pid);
    OneIsPrinted();
    RunSucceeds(h.w, one, 1, pid);
    assert LoadableRun(e) && GoodName(h.w, Job(one));
    var h1 := Next(h, a);
    assert h1.w.table == [e] && h1.w.file == Some(PrintState([e]));
    OneRunLoads(e, Probe({}, 2));
    OneRunLoads(e, Probe({pid}, 3));
    RestartLoads(h1.w, {}, 2);
    TwoNext(h, a, b);
  }

  lemma TwoNext(h: History, a: Step, b: Step)
    ensures NextAll(h, [a, b]) == Next(Next(h, a), b)
    ensures AllAdmissible(h, [a, b]) <==> Admissible(h, a) && Admissible(Next(h, a), b)
  {
    hide Next, Admissible;
    var h1 := Next(h, a);
    assert [a, b][1..] == [b] && [b][1..] == [];
    assert NextAll(h1, [b]) == Next(h1, b);
    assert AllAdmissible(h1, [b]) <==> Admissible(h1, b);
  }

  /** Such a container can come back without its directory: a create under its id that
      fails in between removes the directory and leaves the file. */
  lemma ComesBackWithoutDirectory(pid: int32)
    requires pid > 0
    ensures var failing := DoCreate(Job("1").(minimalFs := true), Calm(3, 1));
      var w := ApplyAll(Empty(V2), [RunStep("1", 1, pid), RestartStep({}, 2), failing, RestartStep({pid}, 4)]);
      Ids(w.table) == {"1"} && w.tree.dirs == {}
  {
    hide Outcome, PrintState, LoadState, NumericId, Ids, WellFormed;
    var one := "1";
    var e := Running(one, 1, pid);
    var a, b, d := RunStep(one, 1, pid), RestartStep({}, 2), RestartStep({pid}, 4);
    var c := DoCreate(Job(one).(minimalFs := true), Calm(3, 1));
    Four(Empty(V2), a, b, c, d);
    var w1 := Apply(Empty(V2), a);
    RunSucceeds(Empty(V2), one, 1, pid) by { NoIds(); }
    RanAgrees(one, pid);
    OneId(e);
    OneIsPrinted();
    OneRunLoads(e, Probe({}, 2));
    RestartLoads(w1, {}, 2);
    var w2 := Apply(w1, b);
    FailedCreateRemoves(w2, one);
    OneRunLoads(e, Probe({pid}, 4));
    RestartLoads(Apply(w2, c), {pid}, 4);
    OneId(Forget(e));
  }

  lemma NoIds()
    ensures Ids([]) == {}
  {
  }

  lemma FailedCreateRemoves(w: World, id: string)
    requires w.version.V2? && w.table == [] && w.tree.dirs == {Dir(Unified, id)} && WellFormed(w.tree)
    ensures var w' := Apply(w, DoCreate(Job(id).(minimalFs := true), Calm(3, 1)));
      w' == w.(tree := w'.tree) && w'.tree.dirs == {}
  {
    hide CreateCgroup, DestroyCgroup, WellFormed, PrintState;
    CreateV2(w.tree, id, NO_LIMITS, OPEN);
    DestroyV2(CreateCgroup(V2, w.tree, id, NO_LIMITS, OPEN).0, id, OPEN);
    assert Find([], id).None?;
  }

  ghost predicate LoadableRun(e: Info) { e.state == RUNNING && e.pid > 0 && LoadableId(e.id) }

  /** The directory of a container found dead at a restart stays, without an entry. */
  lemma DeadRunLeavesDirectory(pid: int32)
    requires pid > 0
    ensures var w := ApplyAll(Empty(V2), [RunStep("1", 1, pid), RestartStep({}, 2)]);
      w.table == [] && w.tree.dirs == {Dir(Unified, "1")} && !Agrees(w)
  {
    hide Run, PrintState, LoadState, NumericId;
    var one := "1";
    Two(Empty(V2), RunStep(one, 1, pid), RestartStep({}, 2));
    RanAgrees(one, pid);
    RunSucceeds(Empty(V2), one, 1, pid);
    OneId(Running(one, 1, pid));
    OneIsPrinted();
    OneRunLoads(Running(one, 1, pid), Probe({}, 2));
    RestartLoads(Apply(Empty(V2), RunStep(one, 1, pid)), {}, 2);
  }

  lemma OneRunLoads(e: Info, p: Probe)
    requires LoadableRun(e)
    ensures LoadState(Some(PrintState([e])), p) == if e.pid in p.alive then [Forget(e)] else []
  {
    hide LoadState, PrintState, NumericId;
    LoadOfSave([e], p);
    RestoredNumeric([e], p);
    assert [e][..0] == [] && Kept([], p) == [];
  }

  /** Two running containers that came back as twins: shutdown stops only the first, and
      the start after it takes the second over as running. */
  lemma ShutdownLeavesTwin(v: Version, x: int32, y: int32, es1: seq<Env>, es2: seq<Env>, es3: seq<Env>)
    requires x > 0 && y > 0 && |es1| >= 2 && |es2| >= 2 && |es3| >= 2
    ensures var w := ApplyAll(Empty(v), [RunStep("foo", 1, x), RunStep("1", 2, y), RestartStep({x, y}, 3)]);
      && |w.table| == 2
      && var w' := Shutdown.ShutdownAll(w, es1, es2, es3, true);
      && w'.table[1] == Forget(Running("1", 2, y))
      && Restart(w', 16, Probe({y}, 4), true).table == [Forget(Running("1", 2, y))]
  {
    hide ApplyAll, PrintState, Shutdown.ShutdownAll, Restart;
    TwinsRun(v, x, y);
    var w := ApplyAll(Empty(v), [RunStep("foo", 1, x), RunStep("1", 2, y), RestartStep({x, y}, 3)]);
    TwinLeft(w, es1, es2, es3);
  }

  lemma TwinLeft(w: World, es1: seq<Env>, es2: seq<Env>, es3: seq<Env>)
    requires |w.table| == 2 && |es1| >= 2 && |es2| >= 2 && |es3| >= 2
    requires w.table[0].id == w.table[1].id == "1" && w.table[0].state == w.table[1].state == RUNNING
    requires w.table[1].pid > 0 && w.table[1].config.None?
    ensures var w' := Shutdown.ShutdownAll(w, es1, es2, es3, true);
      && |w'.table| == 2 && w'.table[1] == w.table[1]
      && Restart(w', 16, Probe({w.table[1].pid}, 4), true).table == [w.table[1]]
  {
    hide PrintState, LoadState, Shutdown.ShutdownAll, NumericId;
    Shutdown.ShutdownStates(w, es1, es2, es3, true);
    ShutdownSaves(w, es1, es2, es3);
    var w' := Shutdown.ShutdownAll(w, es1, es2, es3, true);
    assert !Shutdown.IsFirst(w.table, 1) && Shutdown.IsFirst(w.table, 0);
    OneIsPrinted();
    SecondLoads(w'.table, Probe({w.table[1].pid}, 4));
  }

  lemma ShutdownSaves(w: World, es1: seq<Env>, es2: seq<Env>, es3: seq<Env>)
    requires |w.table| <= |es1| && |w.table| <= |es2| && |w.table| <= |es3|
    ensures var w' := Shutdown.ShutdownAll(w, es1, es2, es3, true); w'.file == Some(PrintState(w'.table))
  {
    hide PrintState, Shutdown.Pass;
  }

  lemma TwinsRun(v: Version, x: int32, y: int32)
    requires x > 0 && y > 0
    ensures ApplyAll(Empty(v), [RunStep("foo", 1, x), RunStep("1", 2, y), RestartStep({x, y}, 3)]).table
         == [Forget(Running("foo", 1, x)).(id := "1"), Forget(Running("1", 2, y))]
  {
    hide Outcome, PrintState, LoadState;
    var foo, one := "foo", "1";
    assert foo[0] != one[0];
    var a, b, c := RunStep(foo, 1, x), RunStep(one, 2, y), RestartStep({x, y}, 3);
    Three(Empty(v), a, b, c);
    var w1 := Apply(Empty(v), a);
    RunSucceeds(Empty(v), foo, 1, x);
    var w2 := Apply(w1, b);
    RunSucceeds(w1, one, 2, y);
    var e, f := Running(foo, 1, x), Running(one, 2, y);
    assert w2.table == [e, f];
    RestartLoads(w2, {x, y}, 3);
    BothLoadAsOne(e, f, Probe({x, y}, 3));
  }

  lemma SecondLoads(t: seq<Info>, p: Probe)
    requires |t| == 2 && SafeId(t[0].id) && t[0].state == STOPPED && LoadableRun(t[1]) && t[1].pid in p.alive
    ensures LoadState(Some(PrintState(t)), p) == [Forget(t[1])]
  {
    hide LoadState, PrintState, NumericId;
    LoadOfSave(t, p);
    assert t[..1][..0] == [] && Restored([], p) == [] && Restored(t[..1], p) == [];
  }

  /** The monitor on a container created without CPU limits: it throws in v2, and reads the
      largest number in v1. */
  lemma UnsetLimitMisread(v: Version, id: string)
    ensures Monitor.ReadCpu(v, ApplyAll(Empty(v), [CreateStep(id, 1)]).tree, id) ==
      if v.V2? then Monitor.Throws else Monitor.Reading(ULONG_MAX, DEFAULT_PERIOD_US)
  {
    hide CreateCgroup, PrintState, Monitor.ReadCpu;
    One(Empty(v), CreateStep(id, 1));
    var tree := Tree({}, map[]);
    MakesDirs(v, id);
    assert Find([], id).None?;
    Monitor.CpuReadsAs(v, tree, id, NO_LIMITS, OPEN);
  }

  lemma MakesDirs(v: Version, id: string)
    ensures CreateCgroup(v, Tree({}, map[]), id, NO_LIMITS, OPEN).1
  {
  }

  /** One share more, and the derived quota falls from twenty periods to the minimum. */
  lemma QuotaFalls()
    ensures Quota(CpuLimits(21474, 0, 100000)) == 2097070
    ensures Quota(CpuLimits(21475, 0, 100000)) == MIN_QUOTA_US
  {
  }
}
