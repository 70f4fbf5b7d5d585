/** The signal handler's passes over the table and the restart after them. */
module Shutdown {
  import opened CText
  import opened Table
  import opened StateFile
  import opened Lifecycle

  /** One entry's turn in a pass. The last pass also retires entries that never started,
      directly and without saving. */
  function Visit(w: World, i: nat, e: Env, last: bool): (r: World)
    requires i < |w.table|
    ensures |r.table| == |w.table|
  {
    if last && w.table[i].state == CREATED then w.(table := w.table[i := Stopped(w.table[i], e.now)])
    else if w.table[i].state == RUNNING then Stop(w, w.table[i].id, e).0
    else w
  }

  /** A pass from entry `i` on; each entry's call gets its own answers. */
  function Pass(w: World, i: nat, es: seq<Env>, last: bool): (r: World)
    requires i <= |w.table| <= |es|
    ensures |r.table| == |w.table|
    decreases |w.table| - i
  {
    if i == |w.table| then w else Pass(Visit(w, i, es[i], last), i + 1, es, last)
  }

  /** The two stopping passes, the last pass, and the save in `container_manager_cleanup`. */
  function ShutdownAll(w: World, es1: seq<Env>, es2: seq<Env>, es3: seq<Env>, saves: bool): (r: World)
    requires |w.table| <= |es1| && |w.table| <= |es2| && |w.table| <= |es3|
  {
    Save(Pass(Pass(Pass(w, 0, es1, false), 0, es2, false), 0, es3, true), saves)
  }

  /** No earlier entry has the same id, so a call by id reaches this one. */
  ghost predicate IsFirst(t: seq<Info>, i: nat)
    requires i < |t|
  {
    forall j :: 0 <= j < i ==> t[j].id != t[i].id
  }

  function StateAfter(state: int32, first: bool, last: bool): (s: int32) {
    if last && state == CREATED then STOPPED
    else if state == RUNNING && first then STOPPED
    else state
  }

  /** An entry changes only by being stopped, and then only its state and stop time. */
  ghost predicate Becomes(e: Info, e': Info, first: bool, last: bool, now: int64) {
    e' == if StateAfter(e.state, first, last) == e.state then e else e.(state := STOPPED, stoppedAt := now)
  }

  /** No entry before `i` runs that a call by its id could stop. */
  ghost predicate QuietBefore(t: seq<Info>, i: nat)
    requires i <= |t|
  {
    forall j :: 0 <= j < i && IsFirst(t, j) ==> t[j].state != RUNNING
  }

  ghost predicate SameIds(t: seq<Info>, t': seq<Info>) {
    |t'| == |t| && forall j :: 0 <= j < |t| ==> t'[j].id == t[j].id
  }

  /** A turn changes at most its own entry, in the way `Becomes` says. */
  lemma VisitEffect(w: World, i: nat, e: Env, last: bool)
    requires i < |w.table| && QuietBefore(w.table, i)
    ensures var t' := Visit(w, i, e, last).table;
      && SameIds(w.table, t')
      && (forall j :: 0 <= j < |w.table| && j != i ==> t'[j] == w.table[j])
      && Becomes(w.table[i], t'[i], IsFirst(w.table, i), last, e.now)
  {
  }

  lemma StillQuiet(t: seq<Info>, t': seq<Info>, i: nat, last: bool, now: int64)
    requires i < |t| && QuietBefore(t, i) && SameIds(t, t')
    requires forall j :: 0 <= j < i ==> t'[j] == t[j]
    requires Becomes(t[i], t'[i], IsFirst(t, i), last, now)
    ensures QuietBefore(t', i + 1)
  {
  }

  lemma SameFirst(t: seq<Info>, t': seq<Info>)
    requires SameIds(t, t')
    ensures forall j :: 0 <= j < |t| ==> IsFirst(t', j) == IsFirst(t, j)
  {
  }

  /** What a pass from entry `i` on makes of the entries. */
  ghost predicate PassedFrom(t: seq<Info>, t': seq<Info>, i: nat, es: seq<Env>, last: bool) {
    && SameIds(t, t') && |t| <= |es|
    && (forall j :: 0 <= j < i && j < |t| ==> t'[j] == t[j])
    && (forall j :: i <= j < |t| ==> Becomes(t[j], t'[j], IsFirst(t, j), last, es[j].now))
  }

  lemma PassedStep(t: seq<Info>, t1: seq<Info>, t': seq<Info>, i: nat, es: seq<Env>, last: bool)
    requires i < |t| <= |es| && SameIds(t, t1) && (forall j :: 0 <= j < |t| && j != i ==> t1[j] == t[j])
    requires Becomes(t[i], t1[i], IsFirst(t, i), last, es[i].now)
    requires PassedFrom(t1, t', i + 1, es, last)
    ensures PassedFrom(t, t', i, es, last)
  {
  }

  lemma {:induction false} PassEffect(w: World, i: nat, es: seq<Env>, last: bool)
    requires i <= |w.table| <= |es| && QuietBefore(w.table, i)
    ensures PassedFrom(w.table, Pass(w, i, es, last).table, i, es, last)
    decreases |w.table| - i
  {
    hide Visit, Becomes, QuietBefore, IsFirst;
    if i < |w.table| {
      VisitEffect(w, i, es[i], last);
      var w1 := Visit(w, i, es[i], last);
      StillQuiet(w.table, w1.table, i, last, es[i].now);
      PassEffect(w1, i + 1, es, last);
      PassedStep(w.table, w1.table, Pass(w, i, es, last).table, i, es, last);
    }
  }

  /** A created entry is stopped at the time of the last pass, a running one that a call by
      its id reaches at the time of the first, and any other entry stays as it is. */
  ghost predicate Ended(t: seq<Info>, t': seq<Info>, es1: seq<Env>, es3: seq<Env>) {
    && |t'| == |t| && |t| <= |es1| && |t| <= |es3|
    && forall j :: 0 <= j < |t| ==>
         t'[j] ==
           if t[j].state == CREATED then t[j].(state := STOPPED, stoppedAt := es3[j].now)
           else if t[j].state == RUNNING && IsFirst(t, j) then t[j].(state := STOPPED, stoppedAt := es1[j].now)
           else t[j]
  }

  /** What shutdown makes of each entry. */
  lemma ShutdownStates(w: World, es1: seq<Env>, es2: seq<Env>, es3: seq<Env>, saves: bool)
    requires |w.table| <= |es1| && |w.table| <= |es2| && |w.table| <= |es3|
    ensures Ended(w.table, ShutdownAll(w, es1, es2, es3, saves).table, es1, es3)
  {
    hide Pass, PrintState, IsFirst;
    var w1 := Pass(w, 0, es1, false);
    var w2 := Pass(w1, 0, es2, false);
    PassEffect(w, 0, es1, false);
    PassEffect(w1, 0, es2, false);
    PassEffect(w2, 0, es3, true);
    SameFirst(w.table, w1.table);
    SameFirst(w1.table, w2.table);
  }

  /** Nothing is left created or running exactly when no running entry hides behind an
      earlier one with the same id. */
  lemma ShutdownStopsAllIff(w: World, es1: seq<Env>, es2: seq<Env>, es3: seq<Env>, saves: bool)
    requires |w.table| <= |es1| && |w.table| <= |es2| && |w.table| <= |es3|
    ensures (forall e <- ShutdownAll(w, es1, es2, es3, saves).table :: e.state != CREATED && e.state != RUNNING)
       <==> (forall i :: 0 <= i < |w.table| && w.table[i].state == RUNNING ==> IsFirst(w.table, i))
  {
    hide ShutdownAll;
    ShutdownStates(w, es1, es2, es3, saves);
    var t' := ShutdownAll(w, es1, es2, es3, saves).table;
    if i :| 0 <= i < |w.table| && w.table[i].state == RUNNING && !IsFirst(w.table, i) {
      assert t'[i] in t';
    }
  }

  // -------------------------------------------------------- the next start

  /** Nothing of the saved table is kept exactly when no entry that the scanner sees is. */
  lemma {:induction false} NothingSeenIff(t: seq<Info>, n: nat, p: Probe)
    requires n <= |t|
    ensures Restored(SeenAll(t[..n]), p) == [] <==>
      forall i :: 0 <= i < n && Cut(t[i].id) != "" ==> !KeepsEntry(Seen(t, i), p)
  {
    hide Cut, Seen, LoadedId, SeenAll, Restored;
    if n == 0 {
      NothingSeen();
      NothingRestored(p);
    } else {
      NothingSeenIff(t, n - 1, p);
      SeenSnoc(t, n - 1);
      RestoredAppend(SeenAll(t[..n - 1]), Seen(t, n - 1), p);
    }
  }

  /** Shutdown leaves the entry in a state that no load keeps: its state is a legal one,
      and if it runs behind an equal id, its process is gone. */
  ghost predicate Ends(t: seq<Info>, j: nat, p: Probe)
    requires j < |t|
  {
    && CREATED <= t[j].state <= DESTROYED
    && (t[j].state == RUNNING && !IsFirst(t, j) ==> !IsAlive(p, t[j].pid))
  }

  lemma SeenAfter(t: seq<Info>, t': seq<Info>, es1: seq<Env>, es3: seq<Env>, i: nat, p: Probe)
    requires Ended(t, t', es1, es3) && i < |t|
    ensures Cut(t[i].id) == Cut(t'[i].id)
    ensures !KeepsEntry(Seen(t', i), p) <==> FieldsFrom(t, i).Some? && Ends(t, FieldsFrom(t, i).value, p)
  {
    hide Cut;
    assert FieldsFrom(t', i) == FieldsFrom(t, i);
  }

  /** The start after a shutdown loads nothing exactly when every entry of whose id
      anything is read gets its fields from an entry that ended. */
  lemma ShutdownLoadsNothingIff(w: World, es1: seq<Env>, es2: seq<Env>, es3: seq<Env>, capacity: nat, p: Probe)
    requires |w.table| <= |es1| && |w.table| <= |es2| && |w.table| <= |es3| && OneLineIds(w.table)
    ensures Restart(ShutdownAll(w, es1, es2, es3, true), capacity, p, true).table == [] <==>
      forall i :: 0 <= i < |w.table| && Cut(w.table[i].id) != "" ==>
        FieldsFrom(w.table, i).Some? && Ends(w.table, FieldsFrom(w.table, i).value, p)
  {
    hide PrintState, LoadState, OneLine, Cut, Seen, FieldsFrom, Ends, KeepsEntry, Becomes, Pass, Restored, SeenAll;
    ShutdownStates(w, es1, es2, es3, true);
    var t, t' := w.table, ShutdownAll(w, es1, es2, es3, true).table;
    assert forall i :: 0 <= i < |t'| ==> t'[i].id == t[i].id && t[i] in t;
    LoadOfSaveSeen(t', p);
    assert t'[..|t'|] == t';
    NothingSeenIff(t', |t'|, p);
    forall i | 0 <= i < |t|
      ensures Cut(t[i].id) == Cut(t'[i].id)
      ensures !KeepsEntry(Seen(t', i), p) <==> FieldsFrom(t, i).Some? && Ends(t, FieldsFrom(t, i).value, p)
    {
      SeenAfter(t, t', es1, es3, i, p);
    }
  }

  /** In particular with distinct ids that are read whole, in legal states. */
  lemma ShutdownThenRestart(w: World, es1: seq<Env>, es2: seq<Env>, es3: seq<Env>, capacity: nat, p: Probe)
    requires |w.table| <= |es1| && |w.table| <= |es2| && |w.table| <= |es3|
    requires UniqueIds(w.table) && SafeIds(w.table)
    requires forall i :: 0 <= i < |w.table| ==> CREATED <= w.table[i].state <= DESTROYED
    ensures Restart(ShutdownAll(w, es1, es2, es3, true), capacity, p, true).table == []
  {
    hide Restart, ShutdownAll, Cut;
    assert forall e <- w.table :: OneLine(e.id);
    assert forall i :: 0 <= i < |w.table| ==> w.table[i] in w.table;
    ShutdownLoadsNothingIff(w, es1, es2, es3, capacity, p);
  }

  // ------------------------------------------------------- what shutdown keeps

  ghost predicate Timely(es: seq<Env>, start: int64, end: int64) { forall e <- es :: start <= e.now <= end }

  /** Every entry is unchanged, or was created or running and is stopped in that time. */
  ghost predicate StoppedWithin(t: seq<Info>, t': seq<Info>, start: int64, end: int64) {
    && |t'| == |t|
    && forall j :: 0 <= j < |t| ==>
         || t'[j] == t[j]
         || (&& (t[j].state == CREATED || t[j].state == RUNNING)
             && t'[j] == Stopped(t[j], t'[j].stoppedAt) && start <= t'[j].stoppedAt <= end)
  }

  /** Tree, layout and capacity are the same. */
  ghost predicate SameRest(w: World, w': World) {
    w'.tree == w.tree && w'.version == w.version && w'.capacity == w.capacity
  }

  lemma VisitWithin(w: World, i: nat, e: Env, last: bool, start: int64, end: int64)
    requires i < |w.table| && start <= e.now <= end
    ensures var w' := Visit(w, i, e, last);
      StoppedWithin(w.table, w'.table, start, end) && SameRest(w, w')
  {
    hide PrintState, Lookup;
  }

  lemma WithinAgain(t: seq<Info>, t1: seq<Info>, t2: seq<Info>, start: int64, end: int64)
    requires StoppedWithin(t, t1, start, end) && StoppedWithin(t1, t2, start, end)
    ensures StoppedWithin(t, t2, start, end)
  {
  }

  lemma {:induction false} PassWithin(w: World, i: nat, es: seq<Env>, last: bool, start: int64, end: int64)
    requires i <= |w.table| <= |es| && Timely(es, start, end)
    ensures var w' := Pass(w, i, es, last);
      StoppedWithin(w.table, w'.table, start, end) && SameRest(w, w')
    decreases |w.table| - i
  {
    hide Visit;
    if i < |w.table| {
      var w1 := Visit(w, i, es[i], last);
      assert es[i] in es;
      VisitWithin(w, i, es[i], last, start, end);
      PassWithin(w1, i + 1, es, last, start, end);
      hide StoppedWithin;
      WithinAgain(w.table, w1.table, Pass(w, i, es, last).table, start, end);
    }
  }

  /** Shutdown keeps every entry in its place and only stops, and leaves the tree alone. */
  lemma ShutdownWithin(w: World, es1: seq<Env>, es2: seq<Env>, es3: seq<Env>, saves: bool, start: int64, end: int64)
    requires |w.table| <= |es1| && |w.table| <= |es2| && |w.table| <= |es3|
    requires Timely(es1, start, end) && Timely(es2, start, end) && Timely(es3, start, end)
    ensures var w' := ShutdownAll(w, es1, es2, es3, saves);
      && StoppedWithin(w.table, w'.table, start, end) && SameRest(w, w')
      && (saves ==> w'.file == Some(PrintState(w'.table)))
  {
    hide Pass, PrintState, StoppedWithin;
    var w1 := Pass(w, 0, es1, false);
    var w2 := Pass(w1, 0, es2, false);
    PassWithin(w, 0, es1, false, start, end);
    PassWithin(w1, 0, es2, false, start, end);
    PassWithin(w2, 0, es3, true, start, end);
    WithinAgain(w.table, w1.table, w2.table, start, end);
    WithinAgain(w.table, w2.table, Pass(w2, 0, es3, true).table, start, end);
  }
}
