/** Directories over several v2 sessions: what restarts leave behind. */
module Leftovers {
  import opened CText
  import opened Cgroups
  import opened Table
  import opened StateFile
  import opened Lifecycle
  import opened Runs
  import opened Agreement
  import opened Durability

  /** Calls name entries by id, and at a restart no pid of a run that only the file still
      shows is alive. */
  ghost predicate Tended(h: History, s: Step) {
    if s.DoRestart? then !Haunted(h, s.p) else ById(h.w, s)
  }

  ghost predicate AllTended(h: History, steps: seq<Step>)
    decreases |steps|
  {
    steps != [] ==> Tended(h, steps[0]) && AllTended(Next(h, steps[0]), steps[1..])
  }

  /** The ids a restart finds in memory's last table and does not load. */
  function Dropped(h: History, s: Step): (ids: set<string>) {
    if s.DoRestart? then Ids(h.w.table) - Ids(Next(h, s).w.table) else {}
  }

  function DroppedAll(h: History, steps: seq<Step>): (ids: set<string>)
    decreases |steps|
  {
    if steps == [] then {} else Dropped(h, steps[0]) + DroppedAll(Next(h, steps[0]), steps[1..])
  }

  lemma KeptIdsOnly(t: seq<Info>, p: Probe)
    ensures Ids(Kept(t, p)) <= Ids(t)
  {
    KeptIds(t, p);
  }

  lemma RestartCovers(h: History, s: Step, lost: set<string>)
    requires Durable(h) && s.DoRestart? && !Haunted(h, s.p) && Covers(h.w, lost)
    ensures Covers(Next(h, s).w, lost + Dropped(h, s))
  {
    hide Durable, Haunted, LoadState, Kept, PrintState, WellFormed, Ids;
    DurableLoadsIff(h, s.p);
    KeptIdsOnly(h.w.table, s.p);
  }

  /** Over every history so tended, every entry has its directory, and every other
      directory belongs to an id that some restart dropped. */
  lemma {:induction false} HistoryCovers(h: History, steps: seq<Step>, lost: set<string>)
    requires Durable(h) && AllAdmissible(h, steps) && AllTended(h, steps) && Covers(h.w, lost)
    ensures Covers(NextAll(h, steps).w, lost + DroppedAll(h, steps))
    decreases |steps|
  {
    hide Durable, Admissible, Covers, Haunted, ById;
    if steps == [] {
      assert lost + DroppedAll(h, steps) == lost;
    } else {
      var s, h1 := steps[0], Next(h, steps[0]);
      StepTended(h, s, lost);
      HistoryCovers(h1, steps[1..], lost + Dropped(h, s));
      assert lost + Dropped(h, s) + DroppedAll(h1, steps[1..]) == lost + DroppedAll(h, steps);
    }
  }

  lemma StepTended(h: History, s: Step, lost: set<string>)
    requires Durable(h) && Admissible(h, s) && Tended(h, s) && Covers(h.w, lost)
    ensures Durable(Next(h, s)) && Covers(Next(h, s).w, lost + Dropped(h, s))
  {
    hide Admissible, Covers, Haunted, ById, EntryOk, Loadable, PrintState, Outcome;
    if s.DoRestart? {
      RestartKeepsDurable(h, s);
      RestartCovers(h, s, lost);
    } else {
      StepKeepsDurable(h, s);
      StepCovers(h.w, s, lost);
      assert lost + Dropped(h, s) == lost;
    }
  }
}
