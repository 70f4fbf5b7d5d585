/** Who owns which block: the deep copy of a configuration and its release. */
module ConfigBlocks {
  import opened CText
  import opened Table
  import Cgroups

  type Block = nat

  /** What a block of the heap holds: a string, or a structure or pointer array. */
  datatype Cell = Text(s: string) | Struct

  /** One copied configuration: its plain values, and its blocks, where a null pointer
      is `None`. */
  datatype Owned = Owned(
    self: Block,
    id: Option<Block>,
    rootPath: Option<Block>,
    fsRoot: Option<Block>,
    command: Option<Block>,
    args: seq<Option<Block>>,
    nsFlags: int32,
    limits: Cgroups.Limits,
    fsMethod: int32,
    minimalFs: bool)

  /** What `calloc` leaves in a structure. */
  const ZERO_LIMITS := Cgroups.Limits(Cgroups.CpuLimits(0, 0, 0), Cgroups.MemoryLimits(0, 0), 0)

  function Ptr(b: Option<Block>): (r: seq<Block>) { if b.Some? then [b.value] else [] }

  function Ptrs(bs: seq<Option<Block>>): (r: seq<Block>) {
    if bs == [] then [] else Ptrs(bs[..|bs| - 1]) + Ptr(bs[|bs| - 1])
  }

  /** Every block of the copy, in the order of allocation. */
  function Blocks(o: Owned): (r: seq<Block>) {
    [o.self] + Ptr(o.id) + Ptr(o.rootPath) + Ptr(o.fsRoot) + Ptr(o.command) + Ptrs(o.args)
  }

  /** The arguments before the first null pointer, where the free loop stops. */
  function BeforeNull(bs: seq<Option<Block>>): (r: seq<Option<Block>>) {
    if bs == [] || bs[0].None? then [] else [bs[0]] + BeforeNull(bs[1..])
  }

  /** The blocks `free_container_config` releases. */
  function Released(o: Owned): (r: seq<Block>) {
    Ptr(o.id) + Ptr(o.rootPath) + Ptr(o.fsRoot)
    + (if o.command.Some? then Ptrs(BeforeNull(o.args)) + [o.command.value] else []) + [o.self]
  }

  /** No null argument stands before another argument. */
  ghost predicate NullsLast(bs: seq<Option<Block>>) {
    forall i, j :: 0 <= i < j < |bs| && bs[i].None? ==> bs[j].None?
  }

  function Count<T>(s: Option<T>): (n: nat) { if s.Some? then 1 else 0 }

  /** Allocations made before the command strings. */
  function FixedBlocks(c: Config): (n: nat) {
    1 + Count(c.id) + Count(c.rootPath) + Count(c.fsRoot) + (if HasCommand(c) then 1 else 0)
  }

  predicate HasCommand(c: Config) { c.command.Some? && c.command.value != [] }

  function Strings(args: seq<Option<string>>): (n: nat) {
    if args == [] then 0 else Strings(args[..|args| - 1]) + Count(args[|args| - 1])
  }

  function AllBlocks(c: Config): (n: nat) {
    FixedBlocks(c) + if HasCommand(c) then Strings(c.command.value) else 0
  }

  // ---------------------------------------------------------------- freeing

  /** The live blocks, and whether a block was ever released that was not live. */
  datatype Heap = Heap(cells: map<Block, Cell>, misused: bool)

  function FreeOne(h: Heap, b: Block): (r: Heap) {
    if b in h.cells then h.(cells := h.cells - {b}) else h.(misused := true)
  }

  function FreeAll(h: Heap, bs: seq<Block>): (r: Heap) {
    if bs == [] then h else FreeOne(FreeAll(h, bs[..|bs| - 1]), bs[|bs| - 1])
  }

  function Elements(bs: seq<Block>): (r: set<Block>) { set b <- bs }

  ghost predicate Distinct(bs: seq<Block>) { forall i, j :: 0 <= i < j < |bs| ==> bs[i] != bs[j] }

  lemma FreeNothing(h: Heap)
    ensures FreeAll(h, []) == h
  {
  }

  lemma {:induction false} FreeAllAppend(h: Heap, a: seq<Block>, b: seq<Block>)
    ensures FreeAll(h, a + b) == FreeAll(FreeAll(h, a), b)
  {
    if b == [] {
      assert a + b == a;
    } else {
      assert (a + b)[..|a + b| - 1] == a + b[..|b| - 1];
      FreeAllAppend(h, a, b[..|b| - 1]);
    }
  }

  /** Distinct live blocks go exactly once each. */
  lemma {:induction false} FreeDistinct(h: Heap, bs: seq<Block>)
    requires Distinct(bs) && Elements(bs) <= h.cells.Keys
    ensures FreeAll(h, bs) == h.(cells := h.cells - Elements(bs))
  {
    if bs != [] {
      var front, b := bs[..|bs| - 1], bs[|bs| - 1];
      assert Elements(front) <= Elements(bs);
      FreeDistinct(h, front);
      assert b in Elements(bs) && b !in front;
      assert h.cells - Elements(front) - {b} == h.cells - Elements(bs);
    }
  }

  lemma {:induction false} FreeStaysMisused(h: Heap, bs: seq<Block>)
    ensures h.misused ==> FreeAll(h, bs).misused
    ensures FreeAll(h, bs).cells.Keys <= h.cells.Keys
  {
    if bs != [] {
      FreeStaysMisused(h, bs[..|bs| - 1]);
    }
  }

  /** Releasing a block that is not live is a fault, wherever in the list it stands. */
  lemma FreeDead(h: Heap, bs: seq<Block>, i: nat)
    requires i < |bs| && bs[i] !in h.cells
    ensures FreeAll(h, bs).misused
  {
    assert bs == bs[..i] + ([bs[i]] + bs[i + 1..]);
    FreeAllAppend(h, bs[..i], [bs[i]] + bs[i + 1..]);
    FreeStaysMisused(h, bs[..i]);
    FreeAllAppend(FreeAll(h, bs[..i]), [bs[i]], bs[i + 1..]);
    var h1 := FreeAll(FreeAll(h, bs[..i]), [bs[i]]);
    assert h1 == FreeOne(FreeAll(h, bs[..i]), bs[i]) by { assert [bs[i]][..0] == []; }
    FreeStaysMisused(h1, bs[i + 1..]);
  }

  // ------------------------------------------------------ what release misses

  lemma {:induction false} PtrsAppend(a: seq<Option<Block>>, b: seq<Option<Block>>)
    ensures Ptrs(a + b) == Ptrs(a) + Ptrs(b)
  {
    if b == [] {
      assert a + b == a;
    } else {
      assert (a + b)[..|a + b| - 1] == a + b[..|b| - 1];
      PtrsAppend(a, b[..|b| - 1]);
    }
  }

  lemma PtrsSnoc(bs: seq<Option<Block>>, i: nat)
    requires i < |bs|
    ensures Ptrs(bs[..i + 1]) == Ptrs(bs[..i]) + Ptr(bs[i])
  {
    assert bs[..i + 1][..i] == bs[..i];
  }

  lemma {:induction false} PtrsNulls(bs: seq<Option<Block>>)
    ensures Ptrs(bs) == [] <==> forall i :: 0 <= i < |bs| ==> bs[i].None?
  {
    if bs != [] {
      PtrsNulls(bs[..|bs| - 1]);
    }
  }

  lemma {:induction false} BeforeNullSplit(bs: seq<Option<Block>>)
    ensures BeforeNull(bs) <= bs
    ensures forall i :: 0 <= i < |BeforeNull(bs)| ==> bs[i].Some?
    ensures |BeforeNull(bs)| < |bs| ==> bs[|BeforeNull(bs)|].None?
  {
    if bs != [] && bs[0].Some? {
      BeforeNullSplit(bs[1..]);
    }
  }

  /** The blocks behind the first null argument, which release leaves behind. */
  function Missed(o: Owned): (r: seq<Block>) {
    if o.command.None? then Ptrs(o.args)
    else
      var n := |BeforeNull(o.args)|;
      if n <= |o.args| then Ptrs(o.args[n..]) else []
  }

  lemma Shuffle(a: seq<Block>, b: seq<Block>, c: seq<Block>, d: seq<Block>, e: seq<Block>, f: seq<Block>, g: seq<Block>)
    ensures multiset(a + b + c + d + e + (f + g)) == multiset(b + c + d + (f + e) + a) + multiset(g)
  {
  }

  /** Every block of the copy is released or missed, once. */
  lemma SplitBlocks(o: Owned)
    requires o.command.None? ==> o.args == []
    ensures multiset(Blocks(o)) == multiset(Released(o)) + multiset(Missed(o))
  {
    hide Ptr, Ptrs, BeforeNull;
    BeforeNullSplit(o.args);
    var n := |BeforeNull(o.args)|;
    var before, behind := o.args[..n], o.args[n..];
    assert o.args == before + behind && before == BeforeNull(o.args);
    NoPtrs();
    var (id, root, fs, cmd) := (Ptr(o.id), Ptr(o.rootPath), Ptr(o.fsRoot), Ptr(o.command));
    assert Blocks(o) == [o.self] + id + root + fs + cmd + (Ptrs(before) + Ptrs(behind)) by {
      PtrsAppend(before, behind);
    }
    if o.command.None? {
      assert before == [] && behind == [];
      assert Released(o) == id + root + fs + (Ptrs(before) + cmd) + [o.self];
    } else {
      assert Released(o) == id + root + fs + (Ptrs(before) + cmd) + [o.self];
    }
    assert Missed(o) == Ptrs(behind);
    Shuffle([o.self], id, root, fs, cmd, Ptrs(before), Ptrs(behind));
  }

  lemma NoPtrs()
    ensures Ptrs([]) == [] && Ptr(None) == [] && forall b: Block :: Ptr(Some(b)) == [b]
  {
  }

  lemma {:induction false} CountOf(bs: seq<Block>, b: Block)
    ensures Distinct(bs) ==> multiset(bs)[b] <= 1
    ensures b in multiset(bs) <==> b in bs
  {
    if bs != [] {
      assert bs == bs[..|bs| - 1] + [bs[|bs| - 1]];
      CountOf(bs[..|bs| - 1], b);
    }
  }

  lemma TwiceCounted(bs: seq<Block>, i: nat, j: nat)
    requires i < j < |bs| && bs[i] == bs[j]
    ensures multiset(bs)[bs[j]] >= 2
  {
    assert bs == bs[..j] + [bs[j]] + bs[j + 1..];
    assert bs[i] in bs[..j];
  }

  lemma DistinctPart(whole: seq<Block>, part: seq<Block>, rest: seq<Block>)
    requires Distinct(whole) && multiset(whole) == multiset(part) + multiset(rest)
    ensures Distinct(part) && Elements(part) == Elements(whole) - Elements(rest)
  {
    forall b: Block
      ensures multiset(whole)[b] <= 1
      ensures b in multiset(part) <==> b in part
      ensures b in multiset(rest) <==> b in rest
      ensures b in multiset(whole) <==> b in whole
    {
      CountOf(whole, b);
      CountOf(part, b);
      CountOf(rest, b);
    }
    forall i, j | 0 <= i < j < |part|
      ensures part[i] != part[j]
    {
      if part[i] == part[j] {
        TwiceCounted(part, i, j);
      }
    }
  }

  /** Releasing a copy frees each of its blocks once and leaves behind exactly the
      arguments behind the first null one. */
  lemma ReleaseFrees(h: Heap, o: Owned)
    requires o.command.None? ==> o.args == []
    requires Distinct(Blocks(o)) && Elements(Blocks(o)) <= h.cells.Keys
    ensures FreeAll(h, Released(o)) == h.(cells := h.cells - (Elements(Blocks(o)) - Elements(Missed(o))))
  {
    hide Blocks, Released, Missed;
    SplitBlocks(o);
    DistinctPart(Blocks(o), Released(o), Missed(o));
    FreeDistinct(h, Released(o));
  }

  lemma NullsBehind(bs: seq<Option<Block>>, n: nat)
    requires n <= |bs| && (forall i :: 0 <= i < n ==> bs[i].Some?) && (n < |bs| ==> bs[n].None?)
    ensures NullsLast(bs) <==> forall i :: 0 <= i < |bs[n..]| ==> bs[n..][i].None?
  {
    if NullsLast(bs) {
      assert forall i :: 0 <= i < |bs[n..]| ==> bs[n..][i] == bs[n + i];
    } else {
      var i, j :| 0 <= i < j < |bs| && bs[i].None? && bs[j].Some?;
      assert bs[n..][j - n] == bs[j];
    }
  }

  /** Release misses nothing exactly when no argument stands behind a null one. */
  lemma MissedNothingIff(o: Owned)
    requires o.command.None? ==> o.args == []
    ensures Missed(o) == [] <==> NullsLast(o.args)
  {
    hide Ptrs, BeforeNull;
    BeforeNullSplit(o.args);
    var n := |BeforeNull(o.args)|;
    NullsBehind(o.args, n);
    PtrsNulls(o.args[n..]);
    NoPtrs();
  }

  // ---------------------------------------------------------------- copying

  function Range(base: Block, n: nat): (r: seq<Block>) { seq(n, i => base + i) }

  /** Exactly the blocks `base .. base + n` are new. */
  ghost predicate Extends(before: map<Block, Cell>, base: Block, n: nat, after: map<Block, Cell>) {
    && (forall b: Block :: b in after <==> b in before || base <= b < base + n)
    && (forall b <- before :: b < base && after[b] == before[b])
  }

  ghost predicate Within(m: map<Block, Cell>, m': map<Block, Cell>) {
    forall b <- m :: b in m' && m'[b] == m[b]
  }

  ghost predicate Matches(cells: map<Block, Cell>, b: Option<Block>, s: Option<string>) {
    b.Some? == s.Some? && (b.Some? ==> b.value in cells && cells[b.value] == Text(s.value))
  }

  /** The plain values and the three strings are those of the source. */
  ghost predicate CopiesFixed(cells: map<Block, Cell>, o: Owned, c: Config) {
    && o.nsFlags == c.nsFlags && o.limits == c.limits && o.fsMethod == c.fsMethod && o.minimalFs == c.minimalFs
    && Matches(cells, o.id, c.id) && Matches(cells, o.rootPath, c.rootPath) && Matches(cells, o.fsRoot, c.fsRoot)
  }

  /** The copy holds the same values and strings as the source, field by field. */
  ghost predicate Copies(cells: map<Block, Cell>, o: Owned, c: Config) {
    && CopiesFixed(cells, o, c)
    && o.command.Some? == HasCommand(c)
    && |o.args| == (if HasCommand(c) then |c.command.value| else 0)
    && (forall i :: 0 <= i < |o.args| ==> Matches(cells, o.args[i], c.command.value[i]))
  }

  /** The string in a block. */
  function Held(cells: map<Block, Cell>, b: Option<Block>): (s: Option<string>) {
    if b.Some? && b.value in cells && cells[b.value].Text? then Some(cells[b.value].s) else None
  }

  /** The configuration found by following the pointers of a copy. */
  function Read(cells: map<Block, Cell>, o: Owned): (c: Config) {
    Config(Held(cells, o.id), Held(cells, o.rootPath), o.nsFlags, o.limits, Held(cells, o.fsRoot),
           o.fsMethod, o.minimalFs,
           if o.command.None? then None
           else Some(seq(|o.args|, i requires 0 <= i < |o.args| => Held(cells, o.args[i]))))
  }

  /** A copy stands for the configuration copied, an empty command having become a null one. */
  lemma CopiesRead(cells: map<Block, Cell>, o: Owned, c: Config)
    requires Copies(cells, o, c)
    ensures Read(cells, o) == CopyConfig(c)
  {
    if HasCommand(c) {
      assert Read(cells, o).command.value == c.command.value;
    }
  }

  lemma ExtendsMore(before: map<Block, Cell>, base: Block, n: nat, cells: map<Block, Cell>, c: Cell)
    requires Extends(before, base, n, cells)
    ensures Extends(before, base, n + 1, cells[base + n := c])
    ensures Range(base, n + 1) == Range(base, n) + [base + n]
  {
  }

  lemma RangeElements(base: Block, n: nat)
    ensures forall b: Block :: b in Elements(Range(base, n)) <==> base <= b < base + n
    ensures Distinct(Range(base, n))
  {
    forall b: Block | base <= b < base + n
      ensures b in Range(base, n)
    {
      assert Range(base, n)[b - base] == b;
    }
  }

  /** Undoing an unfinished copy restores the heap. */
  lemma UndoRestores(before: map<Block, Cell>, base: Block, n: nat, h: Heap, o: Owned)
    requires Extends(before, base, n, h.cells) && Blocks(o) == Range(base, n) && o.args == []
    ensures FreeAll(h, Released(o)) == h.(cells := before)
  {
    hide Blocks, Released;
    ReleaseFrees(h, o);
    assert Missed(o) == [] by { MissedNothingIff(o); }
    RangeElements(base, n);
    assert h.cells - (Elements(Blocks(o)) - Elements(Missed(o))) == before;
  }

  datatype Slot = IdSlot | RootSlot | FsSlot | CommandSlot

  function With(o: Owned, f: Slot, b: Option<Block>): (r: Owned) {
    match f
    case IdSlot => o.(id := b)
    case RootSlot => o.(rootPath := b)
    case FsSlot => o.(fsRoot := b)
    case CommandSlot => o.(command := b)
  }

  /** The slot and those filled after it are still null. */
  predicate Unfilled(o: Owned, f: Slot) {
    && o.args == [] && o.command.None?
    && (f.CommandSlot? || o.fsRoot.None?)
    && (f.CommandSlot? || f.FsSlot? || o.rootPath.None?)
    && (f.IdSlot? ==> o.id.None?)
  }

  lemma WithBlocks(o: Owned, f: Slot, b: Block)
    requires Unfilled(o, f)
    ensures Blocks(With(o, f, Some(b))) == Blocks(o) + [b]
    ensures With(o, f, None) == o || !Unfilled(o, f)
  {
  }

  class Allocator {
    var heap: Heap
    var next: Block

    /** The copier's view: the blocks so far are exactly those of the unfinished copy. */
    ghost predicate Copying(cells0: map<Block, Cell>, base: Block, n: nat, o: Owned)
      reads this
    {
      next == base + n && Extends(cells0, base, n, heap.cells) && Blocks(o) == Range(base, n)
    }

    method Alloc(c: Cell, ok: bool) returns (b: Option<Block>)
      modifies this
      ensures !ok ==> b.None? && heap == old(heap) && next == old(next)
      ensures ok ==> b == Some(old(next)) && next == old(next) + 1
      ensures ok ==> heap == old(heap).(cells := old(heap).cells[old(next) := c])
    {
      if !ok {
        return None;
      }
      b := Some(next);
      heap, next := heap.(cells := heap.cells[next := c]), next + 1;
    }

    method Free(b: Option<Block>)
      modifies this`heap
      ensures heap == FreeAll(old(heap), Ptr(b))
    {
      if b.Some? {
        assert [b.value][..0] == [];
        heap := FreeOne(heap, b.value);
      }
    }

    /** `free_container_config`. */
    method FreeConfig(o: Owned)
      modifies this`heap
      ensures heap == FreeAll(old(heap), Released(o))
    {
      hide FreeAll, Ptrs, BeforeNull, Ptr;
      NoPtrs();
      ghost var h := heap;
      ghost var done := Ptr(o.id) + Ptr(o.rootPath);
      Free(o.id);
      FreeAllAppend(h, Ptr(o.id), Ptr(o.rootPath));
      Free(o.rootPath);
      FreeAllAppend(h, done, Ptr(o.fsRoot));
      done := done + Ptr(o.fsRoot);
      Free(o.fsRoot);
      if o.command.Some? {
        ghost var args := Ptrs(BeforeNull(o.args));
        FreeArgs(o.args);
        FreeAllAppend(h, done, args);
        Free(o.command);
        FreeAllAppend(h, done + args, Ptr(o.command));
        assert done + args + Ptr(o.command) == done + (args + [o.command.value]);
        done := done + (args + [o.command.value]);
      }
      Free(Some(o.self));
      FreeAllAppend(h, done, [o.self]);
      assert Released(o) == done + [o.self];
    }

    /** The loop over the argument strings, which ends at the first null. */
    method FreeArgs(args: seq<Option<Block>>)
      modifies this`heap
      ensures heap == FreeAll(old(heap), Ptrs(BeforeNull(args)))
    {
      hide BeforeNull, FreeAll, Ptrs;
      BeforeNullSplit(args);
      ghost var n := |BeforeNull(args)|;
      var i := 0;
      NoPtrs();
      FreeNothing(heap);
      while i < |args| && args[i].Some?
        invariant 0 <= i <= n
        invariant heap == FreeAll(old(heap), Ptrs(args[..i]))
      {
        Free(args[i]);
        FreeAllAppend(old(heap), Ptrs(args[..i]), Ptr(args[i]));
        PtrsSnoc(args, i);
        i := i + 1;
      }
      assert args[..i] == BeforeNull(args);
    }

    /** One of the optional blocks before the command strings; a refusal undoes the copy. */
    method Fill(o: Owned, f: Slot, cell: Option<Cell>, n: nat, fail: Option<nat>,
                ghost cells0: map<Block, Cell>, ghost base: Block) returns (o': Owned, ok: bool)
      requires Copying(cells0, base, n, o) && Unfilled(o, f)
      modifies this
      ensures heap.misused == old(heap.misused)
      ensures ok <==> cell.None? || fail != Some(n)
      ensures ok ==> Copying(cells0, base, n + Count(cell), o')
      ensures ok ==> o' == With(o, f, if cell.Some? then Some(old(next)) else None)
      ensures ok && cell.Some? ==> old(next) in heap.cells && heap.cells[old(next)] == cell.value
      ensures ok ==> Within(old(heap).cells, heap.cells)
      ensures !ok ==> heap.cells == cells0
    {
      o', ok := o, true;
      if cell.None? {
        return;
      }
      ExtendsMore(cells0, base, n, heap.cells, cell.value);
      WithBlocks(o, f, next);
      var b := Alloc(cell.value, fail != Some(n));
      if b.None? {
        UndoRestores(cells0, base, n, heap, o);
        FreeConfig(o);
        return o, false;
      }
      o' := With(o, f, b);
    }

    /** A string of the configuration, in the same way. */
    method FillText(o: Owned, f: Slot, s: Option<string>, n: nat, fail: Option<nat>,
                    ghost cells0: map<Block, Cell>, ghost base: Block) returns (o': Owned, ok: bool)
      requires Copying(cells0, base, n, o) && Unfilled(o, f)
      modifies this
      ensures heap.misused == old(heap.misused)
      ensures ok <==> s.None? || fail != Some(n)
      ensures ok ==> Copying(cells0, base, n + Count(s), o') && Within(old(heap).cells, heap.cells)
      ensures ok ==> exists b :: o' == With(o, f, b) && Matches(heap.cells, b, s)
      ensures !ok ==> heap.cells == cells0
    {
      hide Extends, Blocks, Range, Within;
      ghost var b := if s.Some? then Some(next) else None;
      o', ok := Fill(o, f, AsCell(s), n, fail, cells0, base);
      assert ok ==> o' == With(o, f, b) && Matches(heap.cells, b, s);
    }

    /** The structure and its three strings. */
    method CopyStrings(c: Config, fail: Option<nat>) returns (o: Owned, n: nat, ok: bool)
      requires forall b <- heap.cells :: b < next
      modifies this
      ensures heap.misused == old(heap.misused)
      ensures !ok ==> n < 1 + Count(c.id) + Count(c.rootPath) + Count(c.fsRoot)
      ensures ok ==> n == 1 + Count(c.id) + Count(c.rootPath) + Count(c.fsRoot) && (fail.None? || fail.value >= n)
      ensures ok ==> Copying(old(heap).cells, old(next), n, o) && Unfilled(o, CommandSlot)
      ensures ok ==> CopiesFixed(heap.cells, o, c)
      ensures !ok ==> heap.cells == old(heap).cells && fail == Some(n)
    {
      hide Extends, Blocks, Range, Within, Matches;
      ghost var cells0, base := heap.cells, next;
      StartCopy(cells0, base);
      n := 0;
      o := Owned(0, None, None, None, None, [], 0, ZERO_LIMITS, 0, false);
      var self := Alloc(Struct, fail != Some(0));
      if self.None? {
        return o, n, false;
      }
      o, n := o.(self := self.value), 1;
      o, ok := FillText(o, IdSlot, c.id, n, fail, cells0, base);
      if !ok {
        return;
      }
      n := n + Count(c.id);
      ghost var cells := heap.cells;
      o, ok := FillText(o, RootSlot, c.rootPath, n, fail, cells0, base);
      if !ok {
        return;
      }
      n := n + Count(c.rootPath);
      MatchesKept(cells, heap.cells, o.id, c.id);
      cells := heap.cells;
      PlainBlocks(o, c);
      o := o.(nsFlags := c.nsFlags, limits := c.limits, fsMethod := c.fsMethod, minimalFs := c.minimalFs);
      o, ok := FillText(o, FsSlot, c.fsRoot, n, fail, cells0, base);
      if ok {
        n := n + Count(c.fsRoot);
        MatchesKept(cells, heap.cells, o.id, c.id);
        MatchesKept(cells, heap.cells, o.rootPath, c.rootPath);
      }
    }

    /** The failure arm of the command loop: the strings and the array are released, and
        then the whole unfinished copy, which still points to them. */
    method AbandonArgs(o: Owned)
      requires o.command.Some?
      modifies this`heap
      ensures heap.misused
    {
      hide FreeAll, Ptrs;
      for j := 0 to |o.args| {
        Free(o.args[j]);
      }
      ghost var h := heap;
      Free(o.command);
      FreedIsDead(h, o.command.value);
      ReleasesCommand(o);
      FreeDead(heap, Released(o), |Released(o)| - 2);
      FreeConfig(o);
    }

    /** The command strings, one by one. */
    method CopyArgs(o: Owned, args: seq<Option<string>>, n: nat, fail: Option<nat>,
                    ghost cells0: map<Block, Cell>, ghost base: Block) returns (o': Owned, ok: bool)
      requires Copying(cells0, base, n, o) && o.args == [] && o.command.Some?
      requires fail.None? || fail.value >= n
      modifies this
      ensures ok <==> fail.None? || fail.value >= n + Strings(args)
      ensures !ok ==> heap.misused
      ensures ok ==> heap.misused == old(heap.misused) && Within(old(heap).cells, heap.cells)
      ensures ok ==> Copying(cells0, base, n + Strings(args), o') && o' == o.(args := o'.args) && |o'.args| == |args|
      ensures ok ==> forall i :: 0 <= i < |args| ==> Matches(heap.cells, o'.args[i], args[i])
    {
      hide Extends, Blocks, Range, Strings;
      o' := o;
      var used := n;
      NoStrings();
      for i := 0 to |args|
        invariant used == n + Strings(args[..i]) && (fail.None? || fail.value >= used)
        invariant heap.misused == old(heap.misused) && Within(old(heap).cells, heap.cells)
        invariant Copying(cells0, base, used, o') && o' == o.(args := o'.args) && |o'.args| == i
        invariant forall j :: 0 <= j < i ==> Matches(heap.cells, o'.args[j], args[j])
      {
        StringsSnoc(args, i);
        AddArg(o', cells0, base, used, heap.cells, args[i]);
        if args[i].Some? {
          var b := Alloc(Text(args[i].value), fail != Some(used));
          if b.None? {
            StringsMonotone(args, i + 1);
            AbandonArgs(o'.(args := o'.args + seq(|args| - i, _ => None)));
            return o', false;
          }
          o', used := o'.(args := o'.args + [b]), used + 1;
        } else {
          o' := o'.(args := o'.args + [None]);
        }
      }
      assert args[..|args|] == args;
      ok := true;
    }

    /** `copy_container_config`, when the `fail`-th allocation is refused. The copy
        succeeds exactly when no allocation it needs is refused; it then stands for the
        specified copy, with every string in a new block of its own. A refusal before the command strings
        leaves the heap as it was; one among them always releases blocks twice. */
    method Copy(c: Config, fail: Option<nat>) returns (r: Option<Owned>)
      requires forall b <- heap.cells :: b < next
      modifies this
      ensures r.Some? <==> fail.None? || fail.value >= AllBlocks(c)
      ensures r.Some? ==> heap.misused == old(heap.misused) && Copies(heap.cells, r.value, c)
      ensures r.Some? ==> Read(heap.cells, r.value) == CopyConfig(c)
      ensures r.Some? ==> Copying(old(heap).cells, old(next), AllBlocks(c), r.value)
      ensures r.None? && fail.value < FixedBlocks(c) ==> heap == old(heap)
      ensures r.None? && fail.value >= FixedBlocks(c) ==> heap.misused
    {
      hide Extends, Blocks, Range, Strings, Read, CopyConfig, CopiesFixed, Matches;
      var o, n, ok := CopyStrings(c, fail);
      if !ok {
        return None;
      }
      ghost var cells, o1 := heap.cells, o;
      o, ok := Fill(o, CommandSlot, if HasCommand(c) then Some(Struct) else None, n, fail, old(heap).cells, old(next));
      if !ok {
        return None;
      }
      if HasCommand(c) {
        o, ok := CopyArgs(o, c.command.value, n + 1, fail, old(heap).cells, old(next));
        if !ok {
          return None;
        }
      }
      FixedKept(cells, o1, heap.cells, o, c);
      CopiesRead(heap.cells, o, c);
      return Some(o);
    }
  }

  lemma FreedIsDead(h: Heap, b: Block)
    ensures b !in FreeAll(h, Ptr(Some(b))).cells
  {
  }

  lemma ReleasesCommand(o: Owned)
    requires o.command.Some?
    ensures |Released(o)| >= 2 && Released(o)[|Released(o)| - 2] == o.command.value
  {
  }

  lemma MatchesKept(cells: map<Block, Cell>, cells': map<Block, Cell>, b: Option<Block>, s: Option<string>)
    requires Matches(cells, b, s) && Within(cells, cells')
    ensures Matches(cells', b, s)
  {
  }

  lemma FixedKept(cells: map<Block, Cell>, o: Owned, cells': map<Block, Cell>, o': Owned, c: Config)
    requires CopiesFixed(cells, o, c) && Within(cells, cells')
    requires o' == o.(command := o'.command, args := o'.args)
    ensures CopiesFixed(cells', o', c)
  {
  }

  lemma PlainBlocks(o: Owned, c: Config)
    ensures Blocks(o) ==
      Blocks(o.(nsFlags := c.nsFlags, limits := c.limits, fsMethod := c.fsMethod, minimalFs := c.minimalFs))
  {
  }

  lemma NoStrings()
    ensures Strings([]) == 0
  {
  }

  lemma StringsSnoc(args: seq<Option<string>>, i: nat)
    requires i < |args|
    ensures Strings(args[..i + 1]) == Strings(args[..i]) + Count(args[i])
    ensures args[..0] == []
  {
    assert args[..i + 1][..i] == args[..i];
  }

  lemma {:induction false} StringsMonotone(args: seq<Option<string>>, i: nat)
    requires i <= |args|
    ensures Strings(args[..i]) <= Strings(args)
  {
    if i < |args| {
      StringsMonotone(args[..|args| - 1], i);
      assert args[..|args| - 1][..i] == args[..i];
    } else {
      assert args[..i] == args;
    }
  }

  lemma ArgBlocks(o: Owned, b: Option<Block>)
    ensures Blocks(o.(args := o.args + [b])) == Blocks(o) + Ptr(b)
  {
    hide Ptr;
    assert (o.args + [b])[..|o.args|] == o.args;
    var head := [o.self] + Ptr(o.id) + Ptr(o.rootPath) + Ptr(o.fsRoot) + Ptr(o.command);
    assert head + (Ptrs(o.args) + Ptr(b)) == head + Ptrs(o.args) + Ptr(b);
  }

  /** One more argument, null or in the next new block. */
  lemma AddArg(o: Owned, cells0: map<Block, Cell>, base: Block, n: nat, cells: map<Block, Cell>, s: Option<string>)
    requires Extends(cells0, base, n, cells) && Blocks(o) == Range(base, n)
    ensures Blocks(o.(args := o.args + [None])) == Range(base, n)
    ensures Blocks(o.(args := o.args + [Some(base + n)])) == Range(base, n + 1)
    ensures base + n !in cells
    ensures s.Some? ==> Extends(cells0, base, n + 1, cells[base + n := Text(s.value)])
  {
    hide Blocks, Range;
    ArgBlocks(o, None);
    ArgBlocks(o, Some(base + n));
    assert Range(base, n) + [] == Range(base, n);
    ExtendsMore(cells0, base, n, cells, Text(if s.Some? then s.value else ""));
  }

  /** A finished copy, released, gives back everything it took exactly when its command
      has no string behind a null one. */
  lemma ReleaseAfterCopyIff(cells0: map<Block, Cell>, base: Block, h: Heap, o: Owned, c: Config)
    requires Extends(cells0, base, AllBlocks(c), h.cells)
    requires Blocks(o) == Range(base, AllBlocks(c)) && Copies(h.cells, o, c)
    ensures FreeAll(h, Released(o)).misused == h.misused
    ensures FreeAll(h, Released(o)).cells == cells0 <==> NullsLast(o.args)
    ensures NullsLast(o.args) <==>
      !HasCommand(c) || forall i, j ::
        0 <= i < j < |c.command.value| && c.command.value[i].None? ==> c.command.value[j].None?
  {
    hide Blocks, Released, Missed, FreeAll;
    RangeElements(base, AllBlocks(c));
    ReleaseFrees(h, o);
    MissedNothingIff(o);
    SplitBlocks(o);
    var after := h.cells - (Elements(Blocks(o)) - Elements(Missed(o)));
    if Missed(o) == [] {
      assert after == cells0;
    } else {
      var b := Missed(o)[0];
      CountOf(Missed(o), b);
      CountOf(Blocks(o), b);
      assert b in Elements(Missed(o)) && b in Elements(Blocks(o));
      assert b in after && b !in cells0;
    }
  }

  lemma StartCopy(cells: map<Block, Cell>, base: Block)
    requires forall b <- cells :: b < base
    ensures Extends(cells, base, 1, cells[base := Struct])
    ensures Blocks(Owned(base, None, None, None, None, [], 0, ZERO_LIMITS, 0, false)) == Range(base, 1)
  {
  }

  function AsCell(s: Option<string>): (r: Option<Cell>) { if s.Some? then Some(Text(s.value)) else None }
}
