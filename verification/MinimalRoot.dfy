/** Recursive directory creation and the minimal container root. */
module MinimalRoot {
  import opened CText

  /** A path by its components; the empty path is the root (or the working directory). */
  type Path = seq<string>

  datatype Node = Directory | Device(major: nat, minor: nat, mode: nat)

  type FsTree = map<Path, Node>

  datatype Errno = Done | EEXIST | ENOENT | ENOTDIR | EACCES

  const ESSENTIAL_DIRS: seq<Path> := [
    ["bin"], ["sbin"], ["lib"], ["lib64"], ["usr"], ["usr", "bin"], ["usr", "sbin"], ["usr", "lib"],
    ["usr", "lib64"], ["etc"], ["proc"], ["sys"], ["dev"], ["tmp"], ["var"], ["var", "tmp"]]

  const ESSENTIAL_DEVICES: seq<(Path, Node)> := [
    (["dev", "null"], Device(1, 3, 0x1b6)), (["dev", "zero"], Device(1, 5, 0x1b6)),
    (["dev", "random"], Device(1, 8, 0x1b6)), (["dev", "urandom"], Device(1, 9, 0x1b6)),
    (["dev", "tty"], Device(5, 0, 0x1b6)), (["dev", "console"], Device(5, 1, 0x180))]

  function Parent(p: Path): (q: Path)
    requires p != []
  {
    p[..|p| - 1]
  }

  predicate IsDir(t: FsTree, p: Path) { p == [] || (p in t && t[p].Directory?) }

  /** Every node sits in a directory. */
  ghost predicate Closed(t: FsTree) {
    [] !in t && forall q <- t :: q != [] && IsDir(t, Parent(q))
  }

  /** What the kernel answers while walking to the parent of a path. */
  function Walk(t: FsTree, p: Path, i: nat := 0): (e: Errno)
    requires p != [] && i < |p|
    decreases |p| - i
  {
    if p[..i] != [] && p[..i] !in t then ENOENT
    else if !IsDir(t, p[..i]) then ENOTDIR
    else if i == |p| - 1 then Done
    else Walk(t, p, i + 1)
  }

  /** `mkdir` and `mknod`; `denied` are the paths the kernel refuses to create. */
  function MakeNode(t: FsTree, p: Path, n: Node, denied: set<Path>): (r: (FsTree, Errno)) {
    if p == [] then (t, EEXIST)
    else
      var e := Walk(t, p);
      if e != Done then (t, e)
      else if p in t then (t, EEXIST)
      else if p in denied then (t, EACCES)
      else (t[p := n], Done)
  }

  /** The tree with the path and every missing ancestor as directories. */
  function WithPath(t: FsTree, p: Path): (r: FsTree)
    decreases |p|
  {
    if p == [] then t
    else
      var t1 := WithPath(t, Parent(p));
      if p in t then t1 else t1[p := Directory]
  }

  /** No ancestor is a device and nothing missing on the way is refused. */
  predicate Makeable(t: FsTree, p: Path, denied: set<Path>) {
    forall i :: 1 <= i <= |p| ==>
      if p[..i] in t then i < |p| ==> t[p[..i]].Directory? else p[..i] !in denied
  }

  // ------------------------------------------------------------------ lemmas

  /** In a closed tree every ancestor of a node is a directory. */
  lemma {:induction false} ClosedPrefix(t: FsTree, p: Path, i: nat)
    requires Closed(t) && p in t && i < |p|
    ensures IsDir(t, p[..i])
    decreases |p| - i
  {
    if i == |p| - 1 {
      assert p[..i] == Parent(p);
    } else {
      ClosedPrefix(t, p, i + 1);
      assert Parent(p[..i + 1]) == p[..i];
    }
  }

  lemma AncestorPresent(t: FsTree, p: Path, j: nat)
    requires Closed(t) && p in t && 0 < j <= |p|
    ensures p[..j] in t
  {
    if j < |p| {
      ClosedPrefix(t, p, j);
    } else {
      assert p[..j] == p;
    }
  }

  lemma {:induction false} WalkMeets(t: FsTree, p: Path, i: nat)
    requires p != [] && i < |p| && Closed(t)
    requires forall j :: 0 <= j < i ==> IsDir(t, p[..j])
    ensures Walk(t, p, i) == Done <==> forall j :: 0 <= j < |p| ==> IsDir(t, p[..j])
    ensures Walk(t, p, i) == ENOENT ==>
      exists j :: 0 < j < |p| && p[..j] !in t && forall k :: 0 <= k < j ==> IsDir(t, p[..k])
    ensures Walk(t, p, i) == ENOTDIR ==> exists j :: 0 < j < |p| && p[..j] in t && !IsDir(t, p[..j])
    ensures Walk(t, p, i) in {Done, ENOENT, ENOTDIR}
    decreases |p| - i
  {
    if IsDir(t, p[..i]) && i < |p| - 1 {
      WalkMeets(t, p, i + 1);
    }
  }

  lemma {:induction false} WithPathHas(t: FsTree, p: Path, i: nat)
    requires i <= |p| && p[..i] != []
    ensures p[..i] in WithPath(t, p)
    ensures WithPath(t, p)[p[..i]] == if p[..i] in t then t[p[..i]] else Directory
    decreases |p|
  {
    if i == |p| {
      assert p[..i] == p;
      WithPathFrame(t, Parent(p), p);
    } else {
      assert Parent(p)[..i] == p[..i];
      WithPathHas(t, Parent(p), i);
    }
  }

  /** Nodes that were there stay, and only ancestors are added. */
  lemma {:induction false} WithPathFrame(t: FsTree, p: Path, q: Path)
    ensures q in t ==> q in WithPath(t, p) && WithPath(t, p)[q] == t[q]
    ensures q in WithPath(t, p) && q !in t ==> 0 < |q| <= |p| && q == p[..|q|]
    decreases |p|
  {
    if p != [] {
      WithPathFrame(t, Parent(p), q);
      if q == p {
        assert p[..|p|] == p;
      }
    }
  }

  lemma {:induction false} WithPathClosed(t: FsTree, p: Path)
    requires Closed(t) && forall i :: 0 <= i < |p| ==> p[..i] in t ==> IsDir(t, p[..i])
    ensures Closed(WithPath(t, p))
    decreases |p|
  {
    if p != [] {
      var q := Parent(p);
      assert forall i :: 0 <= i < |q| ==> q[..i] == p[..i];
      WithPathClosed(t, q);
      if q != [] {
        assert q[..|q|] == q;
        WithPathHas(t, q, |q|);
        assert p[..|q|] == q;
      }
    }
  }

  /** A path that exists adds nothing. */
  lemma {:induction false} WithPathPresent(t: FsTree, p: Path)
    requires Closed(t) && (p == [] || p in t)
    ensures WithPath(t, p) == t
    decreases |p|
  {
    if p != [] {
      ClosedPrefix(t, p, |p| - 1);
      WithPathPresent(t, Parent(p));
    }
  }

  lemma MakeableParent(t: FsTree, p: Path, denied: set<Path>)
    requires p != [] && Makeable(t, p, denied)
    ensures Makeable(t, Parent(p), denied)
  {
    forall i | 1 <= i <= |Parent(p)|
      ensures if Parent(p)[..i] in t then i < |Parent(p)| ==> t[Parent(p)[..i]].Directory?
        else Parent(p)[..i] !in denied
    {
      assert Parent(p)[..i] == p[..i];
    }
  }

  // ----------------------------------------------------------------- objects

  class FileSystem {
    var tree: FsTree

    constructor (tree: FsTree)
      ensures this.tree == tree
    {
      this.tree := tree;
    }

    method Make(p: Path, n: Node, denied: set<Path>) returns (e: Errno)
      modifies this
      ensures (tree, e) == MakeNode(old(tree), p, n, denied)
    {
      var (t, r) := MakeNode(tree, p, n, denied);
      tree := t;
      return r;
    }

    /** `mkdir_p`: on success exactly the missing ancestors and the path are new; it
        succeeds exactly when no device is in the way and nothing missing is refused. */
    method MkdirP(p: Path, denied: set<Path>) returns (ok: bool)
      requires Closed(tree)
      modifies this
      ensures Closed(tree) && forall q <- old(tree) :: q in tree && tree[q] == old(tree)[q]
      ensures forall q <- tree :: q in old(tree) || (q <= p && tree[q] == Directory)
      ensures ok ==> tree == WithPath(old(tree), p)
      ensures ok <==> Makeable(old(tree), p, denied)
      decreases |p|
    {
      hide WithPath, Makeable, Closed;
      ghost var t0 := tree;
      var e := Make(p, Directory, denied);
      MkdirOutcome(t0, p, denied);
      if e == Done {
        return true;
      }
      if e == ENOENT {
        var up := MkdirP(Parent(p), denied);
        MissingParent(t0, p, denied);
        if !up {
          return false;
        }
        MkdirUnder(t0, p, denied);
        e := Make(p, Directory, denied);
        return e == Done;
      }
      return e == EEXIST;
    }

    /** `fs_create_minimal_root`: it succeeds exactly when every listed path could be made
        in the tree it found; success leaves each listed path as found or as listed, adding
        nothing else and changing nothing; on a complete root it always succeeds and
        changes nothing at all. */
    method CreateMinimalRoot(root: Option<Path>, denied: set<Path>) returns (ok: bool)
      requires Closed(tree)
      modifies this
      ensures Closed(tree) && forall q <- old(tree) :: q in tree && tree[q] == old(tree)[q]
      ensures root.None? ==> !ok && tree == old(tree)
      ensures root.Some? ==> forall q <- tree :: q in old(tree) || Listed(root.value, q, tree[q])
      ensures root.Some? ==> (ok <==> Buildable(old(tree), root.value, denied))
      ensures root.Some? && ok ==> Built(old(tree), tree, root.value)
      ensures root.Some? && Complete(old(tree), root.value) ==> ok && tree == old(tree)
    {
      hide Closed, Makeable, Placeable, ListedDir, ListedDevice;
      if root.None? {
        return false;
      }
      ok := MakeDirs(root.value, ESSENTIAL_DIRS, denied);
      ghost var t1 := tree;
      if ok {
        ok := MakeDevices(root.value, ESSENTIAL_DEVICES, denied);
        PlaceableIff(old(tree), t1, root.value, denied);
        if ok {
          NodesAsListed(old(tree), t1, tree, root.value);
        }
      }
    }

    method MakeDirs(root: Path, dirs: seq<Path>, denied: set<Path>) returns (ok: bool)
      requires Closed(tree) && forall d <- dirs :: d != []
      modifies this
      ensures Closed(tree) && forall q <- old(tree) :: q in tree && tree[q] == old(tree)[q]
      ensures forall q <- tree :: q in old(tree) || ListedDir(root, dirs, q, tree[q])
      ensures ok <==> forall d <- dirs :: Makeable(old(tree), root + d, denied)
      ensures ok ==> Grown(old(tree), tree, denied) && forall d <- dirs :: root + d in tree
      ensures (forall d <- dirs :: root + d in old(tree)) ==> ok && tree == old(tree)
    {
      hide Closed, Makeable, WithPath;
      for i := 0 to |dirs|
        invariant Closed(tree) && Grown(old(tree), tree, denied)
        invariant forall q <- tree :: q in old(tree) || ListedDir(root, dirs, q, tree[q])
        invariant forall j :: 0 <= j < i ==> root + dirs[j] in tree && Makeable(old(tree), root + dirs[j], denied)
        invariant (forall d <- dirs :: root + d in old(tree)) ==> tree == old(tree)
      {
        var p := root + dirs[i];
        ghost var t0 := tree;
        PresentMakeable(t0, p, denied);
        GrownMakeable(old(tree), t0, p, denied);
        ok := MkdirP(p, denied);
        assert dirs[i] in dirs;
        if !ok {
          return;
        }
        WithPathGrown(t0, p, denied);
      }
      return true;
    }

    method MakeDevices(root: Path, devices: seq<(Path, Node)>, denied: set<Path>) returns (ok: bool)
      requires Closed(tree) && forall d <- devices :: d.0 != [] && d.1.Device?
      modifies this
      ensures Closed(tree) && forall q <- old(tree) :: q in tree && tree[q] == old(tree)[q]
      ensures forall q <- tree :: q in old(tree) || ListedDevice(root, devices, q, tree[q])
      ensures ok <==> forall d <- devices :: Placeable(old(tree), root + d.0, denied)
      ensures ok ==> forall d <- devices :: root + d.0 in tree
      ensures (forall d <- devices :: root + d.0 in old(tree)) ==> ok && tree == old(tree)
    {
      hide Closed, MakeNode;
      for i := 0 to |devices|
        invariant Closed(tree) && forall q <- old(tree) :: q in tree && tree[q] == old(tree)[q]
        invariant forall q <- tree ::
          q in old(tree) || (ListedDevice(root, devices, q, tree[q]) && Placeable(old(tree), q, denied))
        invariant forall j :: 0 <= j < i ==> root + devices[j].0 in tree
        invariant (forall d <- devices :: root + d.0 in old(tree)) ==> tree == old(tree)
      {
        var (path, node) := devices[i];
        assert devices[i] in devices;
        DeviceOutcome(tree, root + path, node, denied);
        var e := Make(root + path, node, denied);
        if e != Done && e != EEXIST {
          return false;
        }
      }
      return true;
    }
  }

  ghost predicate ListedDir(root: Path, dirs: seq<Path>, q: Path, n: Node) {
    n == Directory && exists d <- dirs :: q <= root + d
  }

  ghost predicate ListedDevice(root: Path, devices: seq<(Path, Node)>, q: Path, n: Node) {
    exists d <- devices :: q == root + d.0 && n == d.1
  }

  /** Every listed directory and device exists under the root. */
  ghost predicate Complete(t: FsTree, root: Path) {
    && (forall d <- ESSENTIAL_DIRS :: root + d in t)
    && (forall d <- ESSENTIAL_DEVICES :: root + d.0 in t)
  }

  /** A node that building may add: a listed directory, an ancestor of one, or a listed device. */
  ghost predicate Listed(root: Path, q: Path, n: Node) {
    ListedDir(root, ESSENTIAL_DIRS, q, n) || ListedDevice(root, ESSENTIAL_DEVICES, q, n)
  }

  /** Every listed path could be made, whatever is missing on the way. */
  ghost predicate Buildable(t: FsTree, root: Path, denied: set<Path>) {
    && (forall d <- ESSENTIAL_DIRS :: Makeable(t, root + d, denied))
    && (forall d <- ESSENTIAL_DEVICES :: Makeable(t, root + d.0, denied))
  }

  /** Every listed path that was missing is now the directory or the device listed. */
  ghost predicate Built(t: FsTree, t1: FsTree, root: Path) {
    && Complete(t1, root)
    && (forall d <- ESSENTIAL_DIRS :: root + d in t || t1[root + d] == Directory)
    && (forall d <- ESSENTIAL_DEVICES :: root + d.0 in t || t1[root + d.0] == d.1)
  }

  /** A node that `mknod` finds or can make: it makes no ancestors. */
  predicate Placeable(t: FsTree, p: Path, denied: set<Path>) {
    p in t || (p != [] && IsDir(t, Parent(p)) && p !in denied)
  }

  /** The tree with more directories, none of them refused. */
  ghost predicate Grown(t: FsTree, t1: FsTree, denied: set<Path>) {
    && (forall q <- t :: q in t1 && t1[q] == t[q])
    && (forall q <- t1 :: q in t || (t1[q] == Directory && q !in denied))
  }

  lemma GrownMakeable(t: FsTree, t1: FsTree, p: Path, denied: set<Path>)
    requires Grown(t, t1, denied)
    ensures Makeable(t, p, denied) <==> Makeable(t1, p, denied)
  {
  }

  lemma WithPathGrown(t: FsTree, p: Path, denied: set<Path>)
    requires Makeable(t, p, denied) && p != []
    ensures Grown(t, WithPath(t, p), denied) && p in WithPath(t, p)
  {
    hide WithPath;
    assert p[..|p|] == p;
    WithPathHas(t, p, |p|);
    forall q | q in t || q in WithPath(t, p)
      ensures q in t ==> q in WithPath(t, p) && WithPath(t, p)[q] == t[q]
      ensures q in t || (WithPath(t, p)[q] == Directory && q !in denied)
    {
      WithPathFrame(t, p, q);
      if q !in t {
        WithPathHas(t, p, |q|);
      }
    }
  }

  /** With its parent there, a node can be placed exactly when its path can be made. */
  lemma PlaceableMakeable(t: FsTree, p: Path, denied: set<Path>)
    requires Closed(t) && p != [] && Parent(p) in t
    ensures Placeable(t, p, denied) <==> Makeable(t, p, denied)
  {
    var q := Parent(p);
    assert p[..|p|] == p && p[..|q|] == q;
    forall j | 0 <= j < |q|
      ensures IsDir(t, p[..j])
    {
      ClosedPrefix(t, q, j);
      assert q[..j] == p[..j];
    }
    if IsDir(t, q) {
      ReachedMakeable(t, p, denied);
    }
  }

  lemma PlaceableIff(t: FsTree, t1: FsTree, root: Path, denied: set<Path>)
    requires Closed(t1) && Grown(t, t1, denied) && forall d <- ESSENTIAL_DIRS :: root + d in t1
    ensures forall d <- ESSENTIAL_DEVICES :: Placeable(t1, root + d.0, denied) <==> Makeable(t, root + d.0, denied)
  {
    hide Closed, Makeable, Placeable, Grown;
    DeviceParents();
    forall d <- ESSENTIAL_DEVICES
      ensures Placeable(t1, root + d.0, denied) <==> Makeable(t, root + d.0, denied)
    {
      var p := root + d.0;
      assert Parent(p) == root + Parent(d.0);
      PlaceableMakeable(t1, p, denied);
      GrownMakeable(t, t1, p, denied);
    }
  }

  /** Every listed device sits in a listed directory. */
  lemma DeviceParents()
    ensures forall d <- ESSENTIAL_DEVICES :: |d.0| == 2 && d.0[0] == "dev" && Parent(d.0) in ESSENTIAL_DIRS
  {
    forall d <- ESSENTIAL_DEVICES
      ensures |d.0| == 2 && d.0[0] == "dev" && Parent(d.0) in ESSENTIAL_DIRS
    {
      assert Parent(d.0) == ["dev"];
      assert ESSENTIAL_DIRS[12] == ["dev"];
    }
  }

  /** It is no part of a listed directory. */
  lemma DeviceNoDir(d: (Path, Node), e: Path)
    requires d in ESSENTIAL_DEVICES && e in ESSENTIAL_DIRS
    ensures !(d.0 <= e)
  {
    hide ESSENTIAL_DEVICES;
    DeviceParents();
    assert |e| <= 1 || (|e| == 2 && (e[0] == "usr" || e[0] == "var")) by {
      hide Parent;
    }
    assert "dev"[0] != "usr"[0] && "dev"[0] != "var"[0];
  }

  /** And it is listed once. */
  lemma DeviceOnce(d: (Path, Node), e: (Path, Node))
    requires d in ESSENTIAL_DEVICES && e in ESSENTIAL_DEVICES && d.0 == e.0
    ensures d == e
  {
    var i :| 0 <= i < |ESSENTIAL_DEVICES| && d == ESSENTIAL_DEVICES[i];
    var j :| 0 <= j < |ESSENTIAL_DEVICES| && e == ESSENTIAL_DEVICES[j];
    assert ESSENTIAL_DEVICES[i].0[1][0] == "nzrutc"[i];
    assert ESSENTIAL_DEVICES[j].0[1][0] == "nzrutc"[j];
  }

  lemma StripRoot(root: Path, a: Path, b: Path)
    ensures root + a <= root + b ==> a <= b
    ensures root + a == root + b ==> a == b
  {
    assert a == (root + a)[|root|..] && b == (root + b)[|root|..];
  }

  lemma NodesAsListed(t: FsTree, t1: FsTree, t2: FsTree, root: Path)
    requires forall q <- t1 :: q in t2 && t2[q] == t1[q]
    requires forall q <- t1 :: q in t || ListedDir(root, ESSENTIAL_DIRS, q, t1[q])
    requires forall q <- t2 :: q in t1 || ListedDevice(root, ESSENTIAL_DEVICES, q, t2[q])
    requires (forall d <- ESSENTIAL_DIRS :: root + d in t1) && forall d <- ESSENTIAL_DEVICES :: root + d.0 in t2
    ensures Built(t, t2, root)
  {
    hide ESSENTIAL_DIRS, ESSENTIAL_DEVICES;
    forall d <- ESSENTIAL_DEVICES
      ensures root + d.0 in t || t2[root + d.0] == d.1
    {
      var p := root + d.0;
      forall e | e in ESSENTIAL_DIRS
        ensures !(p <= root + e)
      {
        DeviceNoDir(d, e);
        StripRoot(root, d.0, e);
      }
      assert p in t1 ==> p in t;
      if p !in t1 {
        var e :| e in ESSENTIAL_DEVICES && p == root + e.0 && t2[p] == e.1;
        StripRoot(root, d.0, e.0);
        DeviceOnce(d, e);
      }
    }
  }

  /** A path that exists can be made again, with no effect. */
  lemma PresentMakeable(t: FsTree, p: Path, denied: set<Path>)
    requires Closed(t)
    ensures p in t ==> Makeable(t, p, denied) && WithPath(t, p) == t
  {
    if p in t {
      WithPathPresent(t, p);
      forall i | 1 <= i <= |p|
        ensures p[..i] in t && (i < |p| ==> t[p[..i]].Directory?)
      {
        AncestorPresent(t, p, i);
        if i < |p| {
          ClosedPrefix(t, p, i);
        }
      }
    }
  }

  lemma DeviceOutcome(t: FsTree, p: Path, n: Node, denied: set<Path>)
    requires Closed(t)
    ensures var (t1, e) := MakeNode(t, p, n, denied);
      && Closed(t1)
      && (e == Done ==> p !in t && t1 == t[p := n])
      && (e != Done ==> t1 == t)
      && (e == EEXIST && p != [] ==> p in t)
      && (p in t ==> e == EEXIST)
      && (p != [] ==> (e == Done || e == EEXIST <==> Placeable(t, p, denied)))
  {
    if p != [] {
      WalkMeets(t, p, 0);
      assert p[..|p| - 1] == Parent(p);
      if IsDir(t, Parent(p)) && Parent(p) != [] {
        forall j | 0 <= j < |p|
          ensures IsDir(t, p[..j])
        {
          if j < |p| - 1 {
            ClosedPrefix(t, Parent(p), j);
            assert Parent(p)[..j] == p[..j];
          }
        }
      }
      if p in t {
        forall j | 0 <= j < |p|
          ensures IsDir(t, p[..j])
        {
          ClosedPrefix(t, p, j);
        }
      }
    }
  }

  lemma WithPathEmpty(t: FsTree)
    ensures WithPath(t, []) == t
  {
  }

  lemma WithPathSnoc(t: FsTree, p: Path)
    requires p != []
    ensures WithPath(t, p) == if p in t then WithPath(t, Parent(p)) else WithPath(t, Parent(p))[p := Directory]
  {
  }

  /** Below an existing directory only the path itself matters. */
  lemma ReachedMakeable(t: FsTree, p: Path, denied: set<Path>)
    requires p != [] && forall j :: 0 <= j < |p| ==> IsDir(t, p[..j])
    ensures Makeable(t, p, denied) <==> p in t || p !in denied
  {
    assert p[..|p|] == p;
    assert forall i :: 1 <= i < |p| ==> p[..i] in t && t[p[..i]].Directory?;
  }

  /** Behind a device nothing exists and nothing can be made. */
  lemma BlockedNotMakeable(t: FsTree, p: Path, denied: set<Path>)
    requires Closed(t) && p != [] && Walk(t, p) == ENOTDIR
    ensures p !in t && !Makeable(t, p, denied)
  {
    hide Walk;
    WalkMeets(t, p, 0);
    var j :| 0 < j < |p| && p[..j] in t && !IsDir(t, p[..j]);
    if p in t {
      ClosedPrefix(t, p, j);
    }
  }

  /** The first attempt, when the parent is there. */
  lemma MkdirOutcome(t: FsTree, p: Path, denied: set<Path>)
    requires Closed(t)
    ensures var (t1, e) := MakeNode(t, p, Directory, denied);
      && (e != ENOENT ==> (e == Done || e == EEXIST <==> Makeable(t, p, denied)))
      && (e == Done || e == EEXIST ==> t1 == WithPath(t, p) && Closed(t1))
      && (e != Done ==> t1 == t)
      && (e == ENOENT ==> p != [])
  {
    hide Walk, WithPath, Closed;
    WithPathEmpty(t);
    if p != [] {
      WalkMeets(t, p, 0);
      if Walk(t, p) == Done {
        hide Makeable;
        ReachedMakeable(t, p, denied);
        assert p[..|p| - 1] == Parent(p);
        WithPathPresent(t, Parent(p));
        WithPathSnoc(t, p);
        WithPathClosed(t, p);
      } else if Walk(t, p) == ENOTDIR {
        BlockedNotMakeable(t, p, denied);
      }
    }
  }

  /** Behind a missing ancestor the path is missing too. */
  lemma MissingParent(t: FsTree, p: Path, denied: set<Path>)
    requires Closed(t) && p != [] && Walk(t, p) == ENOENT
    ensures p !in t && Parent(p) !in t && Parent(p) != []
    ensures Makeable(t, p, denied) ==> Makeable(t, Parent(p), denied)
    ensures Makeable(t, Parent(p), denied) && p !in denied ==> Makeable(t, p, denied)
  {
    WalkMeets(t, p, 0);
    var j :| 0 < j < |p| && p[..j] !in t && forall k :: 0 <= k < j ==> IsDir(t, p[..k]);
    assert Parent(p)[..j] == p[..j];
    if p in t {
      AncestorPresent(t, p, j);
    }
    if Parent(p) in t {
      AncestorPresent(t, Parent(p), j);
    }
    if Makeable(t, p, denied) {
      MakeableParent(t, p, denied);
    }
    if Makeable(t, Parent(p), denied) && p !in denied {
      forall i | 1 <= i <= |p|
        ensures if p[..i] in t then i < |p| ==> t[p[..i]].Directory? else p[..i] !in denied
      {
        if i < |p| {
          assert Parent(p)[..i] == p[..i];
          assert i == |p| - 1 ==> p[..i] == Parent(p);
        } else {
          assert p[..i] == p;
        }
      }
    }
  }

  /** The second attempt, after the parent was made. */
  lemma MkdirUnder(t: FsTree, p: Path, denied: set<Path>)
    requires Closed(t) && p != [] && Walk(t, p) == ENOENT && Makeable(t, Parent(p), denied)
    requires Closed(WithPath(t, Parent(p)))
    ensures var (t1, e) := MakeNode(WithPath(t, Parent(p)), p, Directory, denied);
      && (e == Done <==> Makeable(t, p, denied))
      && (e == Done ==> t1 == WithPath(t, p))
      && (e != Done ==> t1 == WithPath(t, Parent(p)))
      && Closed(t1)
  {
    MissingParent(t, p, denied);
    var t0, q := WithPath(t, Parent(p)), Parent(p);
    WithPathFrame(t, q, p);
    WithPathHas(t, q, |q|);
    assert q[..|q|] == q;
    WalkMeets(t0, p, 0);
    forall j | 0 <= j < |p|
      ensures IsDir(t0, p[..j])
    {
      if j == |q| {
        assert p[..j] == q;
      } else {
        ClosedPrefix(t0, q, j);
        assert q[..j] == p[..j];
      }
    }
    assert p[..|p|] == p;
  }
}
