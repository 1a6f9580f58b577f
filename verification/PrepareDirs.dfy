/**
 * Creating the planned local directories (internal/api/tree_transfer.go, `prepareLocalDirectoriesWithHooks`), which
 * depends on the order in which the planner lists them.
 */
module PrepareDirs {
  import opened Wrappers
  import opened TreePlan

  /** Paths are relative to the local boundary; the empty path is the boundary itself. */
  function Parent(p: Path): Path
    requires p != []
  {
    p[..|p| - 1]
  }

  // ----- The order the planner promises -----

  /** Every directory's parent is one of `known` or listed before it. */
  predicate ParentsFirst(known: set<Path>, dirs: seq<Path>)
    decreases dirs
  {
    dirs == [] || (dirs[0] != [] && Parent(dirs[0]) in known && ParentsFirst(known + {dirs[0]}, dirs[1..]))
  }

  /** That is: every directory directly above a listed one is known or stands before it. */
  lemma {:induction false} ParentsFirstMeans(known: set<Path>, dirs: seq<Path>)
    ensures ParentsFirst(known, dirs) <==>
            forall i :: 0 <= i < |dirs| ==>
              dirs[i] != [] && (dirs[i][..|dirs[i]| - 1] in known || dirs[i][..|dirs[i]| - 1] in dirs[..i])
    decreases dirs
  {
    if dirs != [] {
      var rest := dirs[1..];
      ParentsFirstMeans(known + {dirs[0]}, rest);
      forall i | 0 <= i < |rest| ensures rest[i] == dirs[i + 1] && dirs[..i + 1] == [dirs[0]] + rest[..i] { }
      assert forall i :: 1 <= i < |dirs| ==> dirs[i] == rest[i - 1] && dirs[..i] == [dirs[0]] + rest[..i - 1];
    }
  }

  lemma {:induction false} MoreKnown(small: set<Path>, large: set<Path>, dirs: seq<Path>)
    requires small <= large && ParentsFirst(small, dirs)
    ensures ParentsFirst(large, dirs)
    decreases dirs
  {
    if dirs != [] { MoreKnown(small + {dirs[0]}, large + {dirs[0]}, dirs[1..]); }
  }

  lemma {:induction false} JoinOrders(known: set<Path>, a: seq<Path>, b: seq<Path>)
    requires ParentsFirst(known, a) && ParentsFirst(known + (set d | d in a), b)
    ensures ParentsFirst(known, a + b)
    decreases a
  {
    if a == [] {
      assert a + b == b;
      assert known + (set d | d in a) == known;
    } else {
      assert known + (set d | d in a) == known + {a[0]} + (set d | d in a[1..]) by {
        assert a == [a[0]] + a[1..];
      }
      JoinOrders(known + {a[0]}, a[1..], b);
      assert (a + b)[1..] == a[1..] + b;
    }
  }

  lemma FirstOfOrder(known: set<Path>, own: Path, sub: seq<Path>)
    requires own != [] && Parent(own) in known && ParentsFirst({own}, sub)
    ensures ParentsFirst(known, [own] + sub)
  {
    assert ([own] + sub)[1..] == sub;
    MoreKnown({own}, known + {own}, sub);
  }

  /** The planner lists every directory after its parent, whatever the tree. */
  lemma {:induction false} PlanIsOrdered(base: Path, es: seq<Child>)
    ensures ParentsFirst({base}, Dirs(base, es))
    decreases es
  {
    if es != [] {
      var init, last := es[..|es| - 1], es[|es| - 1];
      PlanIsOrdered(base, init);
      if last.Folder? {
        var own := base + [last.item.name];
        assert Parent(own) == base;
        PlanIsOrdered(own, last.below);
        var sub := Dirs(own, last.below);
        var known := {base} + set d | d in Dirs(base, init);
        FirstOfOrder(known, own, sub);
        JoinOrders({base}, Dirs(base, init), [own] + sub);
        assert Dirs(base, es) == Dirs(base, init) + ([own] + sub);
      } else {
        assert Dirs(base, es) == Dirs(base, init);
      }
    }
  }

  /** Hence the whole list of local directories is in order below the boundary above its root. */
  lemma DownloadPlanIsOrdered(localRoot: Path, remoteRoot: Path, es: seq<Child>)
    requires localRoot != []
    ensures ParentsFirst({Parent(localRoot)}, PlanAfter(RootPlan(localRoot), localRoot, remoteRoot, es).localDirs)
  {
    PlanIsOrdered(localRoot, es);
    FirstOfOrder({Parent(localRoot)}, localRoot, Dirs(localRoot, es));
  }

  // ----- Creating the directories -----

  /** What a local name is: a real directory, or a file or symbolic link. */
  datatype Kind = Directory | Other

  datatype Outcome = Prepared | Escapes | BadName | NotOrdered | NotDirectory | Failed

  type LocalTree = map<Path, Kind>

  /**
   * Inside the boundary, and already opened or directly below something opened: what creation needs, one after the
   * other.
   */
  predicate InOrder(boundary: Path, seen: set<Path>, dirs: seq<Path>)
    decreases dirs
  {
    dirs == [] ||
    (boundary <= dirs[0] && (dirs[0] in seen || (dirs[0] != [] && Parent(dirs[0]) in seen)) &&
     InOrder(boundary, seen + {dirs[0]}, dirs[1..]))
  }

  /** Listing parents first below the boundary is enough. */
  lemma {:induction false} ParentsFirstIsInOrder(boundary: Path, known: set<Path>, dirs: seq<Path>)
    requires ParentsFirst(known, dirs) && forall d :: d in known ==> boundary <= d
    ensures InOrder(boundary, known, dirs)
    decreases dirs
  {
    if dirs != [] { ParentsFirstIsInOrder(boundary, known + {dirs[0]}, dirs[1..]); }
  }

  /** Nothing changed except that some of the wanted names, missing before, are now directories. */
  predicate OnlyCreates(before: LocalTree, after: LocalTree, wanted: set<Path>)
  {
    (forall p :: p in before ==> p in after && after[p] == before[p]) &&
    forall p :: p in after && p !in before ==> p in wanted && after[p] == Directory
  }

  predicate Inside(boundary: Path, dirs: seq<Path>)
  {
    forall d :: d in dirs ==> boundary <= d
  }

  /** No name below the boundary holds a NUL or a line break. */
  predicate Clean(name: string)
  {
    '\0' !in name && '\r' !in name && '\n' !in name
  }

  predicate CleanBelow(boundary: Path, dir: Path)
    requires boundary <= dir
  {
    forall k :: |boundary| <= k < |dir| ==> Clean(dir[k])
  }

  predicate CleanNames(boundary: Path, dirs: seq<Path>)
  {
    forall d :: d in dirs && boundary <= d ==> CleanBelow(boundary, d)
  }

  /** No wanted name is taken by something else. */
  predicate NoConflict(tree: LocalTree, dirs: seq<Path>)
  {
    forall d :: d in dirs && d in tree ==> tree[d] == Directory
  }

  /** The local file system, with the number of directory handles that are open. */
  class LocalDisk {
    var tree: LocalTree
    var handles: nat
    var reliable: bool

    method Fails() returns (failed: bool)
      ensures reliable ==> !failed
    {
      failed := *;
      failed := failed && !reliable;
    }

    /** `Lstat`: nothing when the name is missing. */
    method Lstat(p: Path) returns (r: Result<Option<Kind>, string>)
      ensures r.Ok? ==> r.value == (if p in tree then Some(tree[p]) else None)
      ensures reliable ==> r.Ok?
    {
      var failed := Fails();
      if failed { return Err("lstat"); }
      return Ok(if p in tree then Some(tree[p]) else None);
    }

    method Mkdir(p: Path) returns (ok: bool)
      modifies `tree
      ensures ok ==> p !in old(tree) && tree == old(tree)[p := Directory]
      ensures !ok ==> tree == old(tree)
      ensures reliable && p !in old(tree) ==> ok
    {
      var failed := Fails();
      if failed || p in tree { return false; }
      tree := tree[p := Directory];
      return true;
    }

    method OpenRoot() returns (ok: bool)
      modifies `handles
      ensures handles == old(handles) + (if ok then 1 else 0)
      ensures reliable ==> ok
    {
      var failed := Fails();
      if failed { return false; }
      handles := handles + 1;
      return true;
    }

    /** Closes the given number of handles. */
    method Close(n: nat)
      requires n <= handles
      modifies `handles
      ensures handles == old(handles) - n
    {
      var i := 0;
      while i < n
        invariant i <= n && handles == old(handles) - i
      {
        handles := handles - 1;
        i := i + 1;
      }
    }
  }

  lemma CreatesMore(a: LocalTree, b: LocalTree, c: LocalTree, dir: Path, wanted: set<Path>)
    requires OnlyCreates(a, b, wanted) && OnlyCreates(b, c, {dir}) && dir in wanted
    ensures OnlyCreates(a, c, wanted)
    ensures forall p :: p in b ==> p in c && c[p] == b[p]
  {
  }

  /** One directory of the plan: create it if it is missing, then check and open what is there. */
  method Create(disk: LocalDisk, dir: Path) returns (outcome: Outcome)
    modifies disk`tree, disk`handles
    ensures OnlyCreates(old(disk.tree), disk.tree, {dir})
    ensures outcome == Prepared || outcome == NotDirectory || outcome == Failed
    ensures outcome == Prepared ==> dir in disk.tree && disk.tree[dir] == Directory
    ensures disk.handles == old(disk.handles) + (if outcome == Prepared then 1 else 0)
    ensures disk.reliable && (dir in old(disk.tree) ==> old(disk.tree)[dir] == Directory) ==> outcome == Prepared
    ensures outcome == NotDirectory ==> dir in old(disk.tree) && old(disk.tree)[dir] == Other
    ensures disk.reliable ==> outcome != Failed
  {
    var st := disk.Lstat(dir);
    var ok: bool;
    if st == Ok(None) {
      ok := disk.Mkdir(dir);
      if !ok { return Failed; }
      st := disk.Lstat(dir);
    }
    if st.Err? || st.value.None? { return Failed; }
    if st.value != Some(Directory) { return NotDirectory; }
    ok := disk.OpenRoot();
    return if ok then Prepared else Failed;
  }

  /** Why a directory of the list stops the loop. */
  ghost predicate Stops(boundary: Path, seen: set<Path>, dir: Path, tree: LocalTree, outcome: Outcome)
  {
    match outcome
    case Prepared => false
    case Escapes => !(boundary <= dir)
    case BadName => boundary <= dir && !CleanBelow(boundary, dir)
    case NotOrdered => dir !in seen && (dir == [] || Parent(dir) !in seen)
    case NotDirectory => dir in tree && tree[dir] == Other
    case Failed => true
  }

  /** The body of the loop: checks one directory of the list, creates and opens it, and on failure closes everything. */
  method Step(disk: LocalDisk, boundary: Path, seen: set<Path>, dir: Path, kept: nat)
    returns (outcome: Outcome, more: nat)
    requires boundary in seen && kept <= disk.handles
    modifies disk`tree, disk`handles
    ensures OnlyCreates(old(disk.tree), disk.tree, {dir})
    ensures outcome != Prepared ==> Stops(boundary, seen, dir, old(disk.tree), outcome)
    ensures outcome == Prepared ==> boundary <= dir && CleanBelow(boundary, dir)
    ensures outcome == Prepared ==> dir in seen || (dir != [] && Parent(dir) in seen)
    ensures disk.reliable ==> outcome != Failed
    ensures outcome == Prepared ==> dir in seen || (dir in disk.tree && disk.tree[dir] == Directory)
    ensures disk.handles == if outcome == Prepared then old(disk.handles) + more else old(disk.handles) - kept
  {
    more := 0;
    if !(boundary <= dir) {
      outcome := Escapes;
    } else if !CleanBelow(boundary, dir) {
      outcome := BadName;
    } else if dir in seen {
      return Prepared, 0;
    } else if Parent(dir) !in seen {
      outcome := NotOrdered;
    } else {
      outcome := Create(disk, dir);
      if outcome == Prepared { return Prepared, 1; }
    }
    disk.Close(kept);
  }

  predicate AreDirectories(tree: LocalTree, boundary: Path, dirs: set<Path>)
  {
    forall d :: d in dirs ==> d == boundary || (d in tree && tree[d] == Directory)
  }

  /** The first `i` directories of the list are there, and nothing else changed. */
  ghost predicate Done(boundary: Path, dirs: seq<Path>, i: nat, seen: set<Path>, tree0: LocalTree, tree: LocalTree)
  {
    i <= |dirs| && boundary in seen && (forall k :: 0 <= k < i ==> dirs[k] in seen) &&
    (InOrder(boundary, {boundary}, dirs) <==> InOrder(boundary, seen, dirs[i..])) && CleanNames(boundary, dirs[..i]) &&
    AreDirectories(tree, boundary, seen) && OnlyCreates(tree0, tree, set d | d in dirs)
  }

  lemma DoneNext(boundary: Path, dirs: seq<Path>, i: nat, seen: set<Path>,
                 tree0: LocalTree, before: LocalTree, after: LocalTree)
    requires Done(boundary, dirs, i, seen, tree0, before) && i < |dirs| && OnlyCreates(before, after, {dirs[i]})
    requires boundary <= dirs[i] && CleanBelow(boundary, dirs[i])
    requires dirs[i] in seen || (dirs[i] != [] && Parent(dirs[i]) in seen)
    requires dirs[i] in seen || (dirs[i] in after && after[dirs[i]] == Directory)
    ensures Done(boundary, dirs, i + 1, seen + {dirs[i]}, tree0, after)
  {
    var dir := dirs[i];
    assert dirs[i..][0] == dir && dirs[i..][1..] == dirs[i + 1..];
    assert dirs[..i + 1] == dirs[..i] + [dir];
    CreatesMore(tree0, before, after, dir, set d | d in dirs);
  }

  /** What an outcome says about the list and the names that were there. */
  ghost predicate Explains(boundary: Path, dirs: seq<Path>, tree0: LocalTree, outcome: Outcome)
  {
    match outcome
    case Prepared => InOrder(boundary, {boundary}, dirs) && CleanNames(boundary, dirs)
    case Escapes => !Inside(boundary, dirs)
    case BadName => !CleanNames(boundary, dirs)
    case NotOrdered => !InOrder(boundary, {boundary}, dirs)
    case NotDirectory => !NoConflict(tree0, dirs)
    case Failed => true
  }

  lemma StoppedExplains(boundary: Path, dirs: seq<Path>, i: nat, seen: set<Path>, tree0: LocalTree, tree: LocalTree,
                        outcome: Outcome)
    requires Done(boundary, dirs, i, seen, tree0, tree) && i < |dirs| && Stops(boundary, seen, dirs[i], tree, outcome)
    ensures Explains(boundary, dirs, tree0, outcome)
  {
    assert dirs[i] in dirs && dirs[i..][0] == dirs[i];
  }

  /** With clean names and without conflicts the list is prepared exactly when it is in order. */
  ghost predicate Exactly(boundary: Path, dirs: seq<Path>, tree0: LocalTree, outcome: Outcome)
  {
    NoConflict(tree0, dirs) && CleanNames(boundary, dirs) ==>
      (outcome == Prepared <==> InOrder(boundary, {boundary}, dirs))
  }

  /** Nothing but a failing operation makes a difference to that. */
  lemma ExplainsExactly(boundary: Path, dirs: seq<Path>, tree0: LocalTree, outcome: Outcome)
    requires Explains(boundary, dirs, tree0, outcome)
    ensures outcome != Failed ==> Exactly(boundary, dirs, tree0, outcome)
  {
    if InOrder(boundary, {boundary}, dirs) { OrderIsInside(boundary, {boundary}, dirs); }
  }

  lemma PreparedIsClean(boundary: Path, dirs: seq<Path>)
    requires InOrder(boundary, {boundary}, dirs) && CleanNames(boundary, dirs)
    ensures forall d, k {:trigger d[k], d in dirs} :: d in dirs && |boundary| <= k < |d| ==>
              '\0' !in d[k] && '\r' !in d[k] && '\n' !in d[k]
  {
    OrderIsInside(boundary, {boundary}, dirs);
    forall d, k | d in dirs && |boundary| <= k < |d| ensures Clean(d[k]) {
      assert CleanBelow(boundary, d);
    }
  }

  /** `prepareLocalDirectoriesWithHooks` without an interfering process. */
  method Prepare(disk: LocalDisk, boundary: Path, dirs: seq<Path>) returns (outcome: Outcome, kept: nat)
    modifies disk`tree, disk`handles
    ensures OnlyCreates(old(disk.tree), disk.tree, set d | d in dirs)
    ensures Explains(boundary, dirs, old(disk.tree), outcome)
    ensures disk.reliable ==> outcome != Failed
    ensures disk.reliable ==> Exactly(boundary, dirs, old(disk.tree), outcome)
    ensures outcome == Prepared ==> AreDirectories(disk.tree, boundary, set d | d in dirs)
    ensures outcome == Prepared ==>
              forall d, k {:trigger d[k], d in dirs} :: d in dirs && |boundary| <= k < |d| ==>
                '\0' !in d[k] && '\r' !in d[k] && '\n' !in d[k]
    ensures outcome == BadName ==>
              exists d, k :: d in dirs && boundary <= d && |boundary| <= k < |d| &&
                             ('\0' in d[k] || '\r' in d[k] || '\n' in d[k])
    ensures disk.handles == old(disk.handles) + (if outcome == Prepared then kept else 0)
  {
    var ok := disk.OpenRoot();
    if !ok { return Failed, 0; }
    kept := 1;
    var seen := {boundary};
    var i := 0;
    while i < |dirs|
      invariant Done(boundary, dirs, i, seen, old(disk.tree), disk.tree)
      invariant disk.handles == old(disk.handles) + kept
    {
      ghost var before := disk.tree;
      var more;
      outcome, more := Step(disk, boundary, seen, dirs[i], kept);
      CreatesMore(old(disk.tree), before, disk.tree, dirs[i], set d | d in dirs);
      if outcome != Prepared {
        StoppedExplains(boundary, dirs, i, seen, old(disk.tree), before, outcome);
        ExplainsExactly(boundary, dirs, old(disk.tree), outcome);
        return outcome, 0;
      }
      DoneNext(boundary, dirs, i, seen, old(disk.tree), before, disk.tree);
      kept := kept + more;
      seen := seen + {dirs[i]};
      i := i + 1;
    }
    assert dirs[..i] == dirs && dirs[i..] == [];
    ExplainsExactly(boundary, dirs, old(disk.tree), Prepared);
    PreparedIsClean(boundary, dirs);
    return Prepared, kept;
  }

  lemma {:induction false} OrderIsInside(boundary: Path, seen: set<Path>, dirs: seq<Path>)
    requires InOrder(boundary, seen, dirs)
    ensures Inside(boundary, dirs)
    decreases dirs
  {
    if dirs != [] {
      OrderIsInside(boundary, seen + {dirs[0]}, dirs[1..]);
      assert dirs == [dirs[0]] + dirs[1..];
    }
  }

  /**
   * A download plan never runs into the order failure; on a working disk only a name taken by something else can stop
   * it.
   */
  lemma PlansAreInOrder(boundary: Path, name: string, remoteRoot: Path, es: seq<Child>)
    ensures var root := boundary + [name];
            InOrder(boundary, {boundary}, PlanAfter(RootPlan(root), root, remoteRoot, es).localDirs)
  {
    var root := boundary + [name];
    assert Parent(root) == boundary;
    DownloadPlanIsOrdered(root, remoteRoot, es);
    ParentsFirstIsInOrder(boundary, {boundary}, PlanAfter(RootPlan(root), root, remoteRoot, es).localDirs);
  }

  /** A way down a tree with safe names only passes safe names. */
  lemma {:induction false} WayIsSafe(safe: string -> bool, es: seq<Child>, rel: Path)
    requires NamesSafe(safe, es) && Leads(es, rel, true)
    ensures forall k :: 0 <= k < |rel| ==> safe(rel[k])
    decreases rel
  {
    var i :| 0 <= i < |es| && !es[i].Skipped? && es[i].item.name == rel[0] &&
             if |rel| == 1 then es[i].Folder? else es[i].Folder? && Leads(es[i].below, rel[1..], true);
    assert ChildSafe(safe, es[i]);
    if |rel| > 1 {
      WayIsSafe(safe, es[i].below, rel[1..]);
      assert forall k :: 1 <= k < |rel| ==> rel[k] == rel[1..][k - 1];
    }
  }

  /** Nor into the refusal of a name, when the planner's name check admits no NUL or line break. */
  lemma PlansAreClean(safe: string -> bool, boundary: Path, name: string, remoteRoot: Path, es: seq<Child>)
    requires NamesSafe(safe, es) && Clean(name) && forall n :: safe(n) ==> Clean(n)
    ensures var root := boundary + [name];
            CleanNames(boundary, PlanAfter(RootPlan(root), root, remoteRoot, es).localDirs)
  {
    var root := boundary + [name];
    forall d | d in Dirs(root, es) ensures boundary <= d && CleanBelow(boundary, d) {
      DirsInside(root, es, d);
      var rel := d[|root|..];
      assert d == root + rel;
      DirsAreExactly(root, es, rel);
      WayIsSafe(safe, es, rel);
      assert forall k :: |root| <= k < |d| ==> d[k] == rel[k - |root|];
    }
  }
}
