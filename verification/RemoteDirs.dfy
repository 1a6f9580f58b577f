/**
 * Making sure that remote directories exist (internal/api/tree_transfer.go, `remoteDirectoryEntry` and
 * `ensureRemoteDirectoryCached`): the cache must not change what happens.
 */
module RemoteDirs {
  import opened Wrappers

  /** A cleaned remote path. Without names it is "/" or ".". */
  datatype RemotePath = RemotePath(rooted: bool, names: seq<string>)
  {
    predicate IsRoot() { names == [] }

    function Dir(): RemotePath
      requires !IsRoot()
    {
      RemotePath(rooted, names[..|names| - 1])
    }

    function Base(): string
      requires !IsRoot()
    {
      names[|names| - 1]
    }

    function Child(name: string): (p: RemotePath)
      ensures !p.IsRoot() && p.Dir() == this && p.Base() == name
    {
      RemotePath(rooted, names + [name])
    }

    /** The first `k` names. */
    function Prefix(k: nat): RemotePath
      requires k <= |names|
    {
      RemotePath(rooted, names[..k])
    }
  }

  datatype Kind = Directory | File | Symlink

  datatype Item = Item(name: string, isSymlink: bool, isDirectory: bool)

  type RemoteTree = map<RemotePath, Kind>

  /** How the server answers a request to make a directory that is missing. */
  datatype Making = Making(made: Option<Kind>, complains: bool)

  /** What the server lets this client list, and how it makes directories. */
  datatype Policy = Policy(listable: RemotePath -> bool, making: RemotePath -> Making)

  datatype Error = CannotList | IsLink | IsFile | NotMade | NotConfirmed

  type Outcome = Result<(), Error>

  // ----- What ensuring a directory means -----

  /** Whether `p` itself is there or can be made, its parent being there. */
  function Step(policy: Policy, tree: RemoteTree, p: RemotePath): Outcome
    requires !p.IsRoot()
  {
    if !policy.listable(p.Dir()) then Err(CannotList)
    else if p in tree then Judged(tree[p])
    else if policy.making(p).made.Some? then Judged(policy.making(p).made.value)
    else Err(if policy.making(p).complains then NotMade else NotConfirmed)
  }

  function Judged(kind: Kind): Outcome
  {
    match kind
    case Directory => Ok(())
    case Symlink => Err(IsLink)
    case File => Err(IsFile)
  }

  /** The first failing step on the way down decides. */
  function Ensured(policy: Policy, tree: RemoteTree, p: RemotePath): Outcome
    decreases |p.names|
  {
    if p.IsRoot() then Ok(())
    else if Ensured(policy, tree, p.Dir()).Err? then Ensured(policy, tree, p.Dir())
    else Step(policy, tree, p)
  }

  /** `p` is missing, its parent could be ensured, and the server makes something when asked. */
  predicate Made(policy: Policy, tree: RemoteTree, p: RemotePath)
    requires !p.IsRoot()
  {
    p !in tree && Ensured(policy, tree, p.Dir()).Ok? && policy.listable(p.Dir()) && policy.making(p).made.Some?
  }

  /** The tree afterwards: what was missing on the way was made, as far as the way could be ensured. */
  function After(policy: Policy, tree: RemoteTree, p: RemotePath): RemoteTree
    decreases |p.names|
  {
    if p.IsRoot() then tree
    else if Made(policy, tree, p) then After(policy, tree, p.Dir())[p := policy.making(p).made.value]
    else After(policy, tree, p.Dir())
  }

  /** It succeeds exactly when every name on the way is a directory or can be made, below listable parents. */
  lemma {:induction false} EnsuredMeansWholeWay(policy: Policy, tree: RemoteTree, p: RemotePath)
    ensures Ensured(policy, tree, p).Ok? <==> forall k :: 1 <= k <= |p.names| ==> Passable(policy, tree, p, k)
    decreases |p.names|
  {
    if !p.IsRoot() {
      var n := |p.names|;
      assert p.Prefix(n) == p && p.Prefix(n - 1) == p.Dir();
      EnsuredMeansWholeWay(policy, tree, p.Dir());
      forall k | 1 <= k < n ensures Passable(policy, tree, p.Dir(), k) <==> Passable(policy, tree, p, k) {
        assert p.Dir().Prefix(k) == p.Prefix(k) && p.Dir().Prefix(k - 1) == p.Prefix(k - 1);
      }
      assert Step(policy, tree, p).Ok? <==> Passable(policy, tree, p, n);
    }
  }

  /** The k-th name on the way is a directory, or missing and made as one, below a directory that can be listed. */
  predicate Passable(policy: Policy, tree: RemoteTree, p: RemotePath, k: nat)
  {
    1 <= k <= |p.names| && policy.listable(p.Prefix(k - 1)) &&
    if p.Prefix(k) in tree then tree[p.Prefix(k)] == Directory else policy.making(p.Prefix(k)).made == Some(Directory)
  }

  /**
   * What an outcome says about the way afterwards: on success real directories all the way, else the name that is a
   * link, a file or still missing, or the directory that cannot be listed.
   */
  predicate Explained(policy: Policy, tree: RemoteTree, p: RemotePath, r: Outcome)
  {
    match r
    case Ok(_) => forall k :: 1 <= k <= |p.names| ==> p.Prefix(k) in tree && tree[p.Prefix(k)] == Directory
    case Err(IsLink) => exists k :: 1 <= k <= |p.names| && p.Prefix(k) in tree && tree[p.Prefix(k)] == Symlink
    case Err(IsFile) => exists k :: 1 <= k <= |p.names| && p.Prefix(k) in tree && tree[p.Prefix(k)] == File
    case Err(CannotList) => exists k :: 0 <= k < |p.names| && !policy.listable(p.Prefix(k))
    case Err(NotMade) => exists k :: 1 <= k <= |p.names| && p.Prefix(k) !in tree
    case Err(NotConfirmed) => exists k :: 1 <= k <= |p.names| && p.Prefix(k) !in tree
  }

  lemma {:induction false} EnsuredExplains(policy: Policy, tree: RemoteTree, p: RemotePath)
    ensures Explained(policy, After(policy, tree, p), p, Ensured(policy, tree, p))
    decreases |p.names|
  {
    if !p.IsRoot() {
      var n := |p.names|;
      assert p.Prefix(n) == p && p.Prefix(n - 1) == p.Dir();
      EnsuredExplains(policy, tree, p.Dir());
      OnlyMissingAreMade(policy, tree, p.Dir(), p);
      ExplainedAbove(policy, After(policy, tree, p.Dir()), After(policy, tree, p), p, Ensured(policy, tree, p.Dir()));
    }
  }

  /** What explains the outcome for the directory above explains it for the whole way. */
  lemma ExplainedAbove(policy: Policy, tree: RemoteTree, after: RemoteTree, p: RemotePath, r: Outcome)
    requires !p.IsRoot() && Explained(policy, tree, p.Dir(), r)
    requires forall k :: 1 <= k < |p.names| ==>
               (p.Prefix(k) in after <==> p.Prefix(k) in tree) &&
               (p.Prefix(k) in tree ==> after[p.Prefix(k)] == tree[p.Prefix(k)])
    ensures r.Err? ==> Explained(policy, after, p, r)
    ensures r.Ok? ==> forall k :: 1 <= k < |p.names| ==> p.Prefix(k) in after && after[p.Prefix(k)] == Directory
  {
    forall k | 0 <= k < |p.names| ensures p.Dir().Prefix(k) == p.Prefix(k) { }
  }

  predicate OnWay(q: RemotePath, p: RemotePath)
  {
    q.rooted == p.rooted && q.names <= p.names
  }

  /** Nothing else changes: only missing names on the way appear, each right after its parent was ensured. */
  lemma {:induction false} OnlyMissingAreMade(policy: Policy, tree: RemoteTree, p: RemotePath, q: RemotePath)
    ensures q in After(policy, tree, p) <==> q in tree || (OnWay(q, p) && !q.IsRoot() && Made(policy, tree, q))
    ensures q in tree ==> After(policy, tree, p)[q] == tree[q]
    ensures q in After(policy, tree, p) && q !in tree ==> Some(After(policy, tree, p)[q]) == policy.making(q).made
    decreases |p.names|
  {
    if !p.IsRoot() {
      OnlyMissingAreMade(policy, tree, p.Dir(), q);
      assert OnWay(q, p) <==> OnWay(q, p.Dir()) || q == p by {
        if OnWay(q, p) && |q.names| < |p.names| {
          assert q.names == p.names[..|q.names|] == p.Dir().names[..|q.names|];
        }
        assert p.names == p.Dir().names + [p.Base()];
      }
    }
  }

  // ----- The server -----

  predicate ShowsKind(item: Item, kind: Kind)
  {
    (item.isSymlink <==> kind.Symlink?) && (!item.isSymlink ==> (item.isDirectory <==> kind.Directory?))
  }

  /** A listing shows each entry of the directory once, and nothing else. */
  ghost predicate Lists(items: seq<Item>, tree: RemoteTree, dir: RemotePath)
  {
    ListsBut(items, tree, dir, {})
  }

  ghost predicate ListsBut(items: seq<Item>, tree: RemoteTree, dir: RemotePath, rest: set<RemotePath>)
  {
    (forall i {:trigger items[i]} :: 0 <= i < |items| ==>
       dir.Child(items[i].name) in tree && dir.Child(items[i].name) !in rest &&
       ShowsKind(items[i], tree[dir.Child(items[i].name)])) &&
    (forall i, j :: 0 <= i < j < |items| ==> items[i].name != items[j].name) &&
    forall name {:trigger Shown(items, name)} ::
      dir.Child(name) in tree && dir.Child(name) !in rest ==> Shown(items, name)
  }

  ghost predicate Shown(items: seq<Item>, name: string)
  {
    exists i :: 0 <= i < |items| && items[i].name == name
  }

  function ItemOf(p: RemotePath, kind: Kind): Item
    requires !p.IsRoot()
  {
    Item(p.Base(), kind.Symlink?, kind.Directory?)
  }

  lemma ListsOneMore(items: seq<Item>, tree: RemoteTree, dir: RemotePath, rest: set<RemotePath>, p: RemotePath)
    requires ListsBut(items, tree, dir, rest) && p in rest && p in tree && !p.IsRoot() && p.Dir() == dir
    ensures ListsBut(items + [ItemOf(p, tree[p])], tree, dir, rest - {p})
  {
    var after := items + [ItemOf(p, tree[p])];
    assert dir.Child(p.Base()) == p;
    forall name | dir.Child(name) in tree && dir.Child(name) !in rest - {p} ensures Shown(after, name) {
      if dir.Child(name) == p {
        assert after[|items|].name == dir.Child(name).Base();
      } else {
        assert Shown(items, name);
        var i :| 0 <= i < |items| && items[i].name == name;
        assert after[i].name == name;
      }
    }
  }

  class Server {
    const policy: Policy
    var tree: RemoteTree
    var requests: nat

    method List(dir: RemotePath) returns (r: Option<seq<Item>>)
      modifies `requests
      ensures requests == old(requests) + 1
      ensures r.Some? <==> policy.listable(dir)
      ensures r.Some? ==> Lists(r.value, tree, dir)
    {
      requests := requests + 1;
      if !policy.listable(dir) { return None; }
      var rest := set p | p in tree && !p.IsRoot() && p.Dir() == dir;
      var items: seq<Item> := [];
      while rest != {}
        invariant forall p :: p in rest ==> p in tree && !p.IsRoot() && p.Dir() == dir
        invariant ListsBut(items, tree, dir, rest) && requests == old(requests) + 1
        decreases |rest|
      {
        var p :| p in rest;
        ListsOneMore(items, tree, dir, rest, p);
        items := items + [ItemOf(p, tree[p])];
        rest := rest - {p};
      }
      return Some(items);
    }

    method Mkdir(dir: RemotePath, name: string) returns (ok: bool)
      modifies `tree, `requests
      ensures var p := dir.Child(name);
              tree ==
              (if p !in old(tree) && policy.making(p).made.Some? then old(tree)[p := policy.making(p).made.value]
                       else old(tree)) &&
              (ok <==> p !in old(tree) && !policy.making(p).complains)
    {
      requests := requests + 1;
      var p := dir.Child(name);
      if p in tree { return false; }
      if policy.making(p).made.Some? { tree := tree[p := policy.making(p).made.value]; }
      return !policy.making(p).complains;
    }
  }

  // ----- Ensuring directories -----

  /** What `remoteDirectoryEntry` says about a path. */
  function EntryAt(policy: Policy, tree: RemoteTree, p: RemotePath): Result<bool, Error>
  {
    if p.IsRoot() then Ok(true)
    else if !policy.listable(p.Dir()) then Err(CannotList)
    else if p !in tree then Ok(false)
    else
      match tree[p]
      case Directory => Ok(true)
      case Symlink => Err(IsLink)
      case File => Err(IsFile)
  }

  method RemoteDirectoryEntry(server: Server, target: RemotePath) returns (r: Result<bool, Error>)
    modifies server`requests
    ensures r == EntryAt(server.policy, server.tree, target)
  {
    if target.IsRoot() { return Ok(true); }
    var parent, name := target.Dir(), target.Base();
    assert parent.Child(name) == target;
    var listed := server.List(parent);
    if listed.None? { return Err(CannotList); }
    var items := listed.value;
    var i := 0;
    while i < |items|
      invariant 0 <= i <= |items| && forall j :: 0 <= j < i ==> items[j].name != name
    {
      if items[i].name == name {
        if items[i].isSymlink { return Err(IsLink); }
        if !items[i].isDirectory { return Err(IsFile); }
        return Ok(true);
      }
      i := i + 1;
    }
    assert !Shown(items, name);
    return Ok(false);
  }

  /** The cache holds real directories below listable parents, and with each directory its parent. */
  predicate Confirmed(policy: Policy, tree: RemoteTree, known: set<RemotePath>)
  {
    forall q :: q in known ==>
      q.IsRoot() || (q in tree && tree[q] == Directory && policy.listable(q.Dir()) && q.Dir() in known)
  }

  /** A known directory needs no work. */
  lemma {:induction false} KnownIsEnsured(policy: Policy, tree: RemoteTree, known: set<RemotePath>, p: RemotePath)
    requires Confirmed(policy, tree, known) && p in known
    ensures Ensured(policy, tree, p).Ok? && After(policy, tree, p) == tree
    decreases |p.names|
  {
    if !p.IsRoot() { KnownIsEnsured(policy, tree, known, p.Dir()); }
  }

  /** Making the directories above `p` does not decide about `p`. */
  lemma ParentsDoNotDecide(policy: Policy, tree: RemoteTree, p: RemotePath)
    requires !p.IsRoot()
    ensures EntryAt(policy, After(policy, tree, p.Dir()), p) == EntryAt(policy, tree, p)
    ensures p in After(policy, tree, p.Dir()) <==> p in tree
  {
    OnlyMissingAreMade(policy, tree, p.Dir(), p);
  }

  /**
   * `ensureRemoteDirectoryCached`. Whatever is already known, it does what ensuring the directory without a cache does.
   */
  method EnsureCached(server: Server, target: RemotePath, known: set<RemotePath>)
    returns (r: Outcome, next: set<RemotePath>)
    requires Confirmed(server.policy, server.tree, known)
    modifies server`tree, server`requests
    ensures r == Ensured(server.policy, old(server.tree), target)
    ensures server.tree == After(server.policy, old(server.tree), target)
    ensures Confirmed(server.policy, server.tree, next) && known <= next && (r.Ok? ==> target in next)
    ensures target in known ==> server.requests == old(server.requests)
    decreases |target.names|
  {
    ghost var tree0 := server.tree;
    if target.IsRoot() { return Ok(()), known + {target}; }
    if target in known {
      KnownIsEnsured(server.policy, server.tree, known, target);
      return Ok(()), known;
    }
    var parent, name := target.Dir(), target.Base();
    assert parent.Child(name) == target;
    r, next := EnsureCached(server, parent, known);
    if r.Err? { return; }
    ParentsDoNotDecide(server.policy, tree0, target);
    var exists0 := RemoteDirectoryEntry(server, target);
    if exists0.Err? { return Err(exists0.error), next; }
    if exists0.value { return Ok(()), next + {target}; }
    var made := server.Mkdir(parent, name);
    exists0 := RemoteDirectoryEntry(server, target);
    if !made {
      if exists0 == Ok(true) { return Ok(()), next + {target}; }
      if exists0.Err? { return Err(exists0.error), next; }
      return Err(NotMade), next;
    }
    if exists0.Err? { return Err(exists0.error), next; }
    if !exists0.value { return Err(NotConfirmed), next; }
    return Ok(()), next + {target};
  }

  /** `ensureRemoteDirectory` */
  method EnsureRemoteDirectory(server: Server, target: RemotePath) returns (r: Outcome)
    modifies server`tree, server`requests
    ensures r == Ensured(server.policy, old(server.tree), target)
    ensures server.tree == After(server.policy, old(server.tree), target)
    ensures Explained(server.policy, server.tree, target, r)
  {
    EnsuredExplains(server.policy, server.tree, target);
    var outcome, _ := EnsureCached(server, target, {});
    return outcome;
  }

  /** Ensuring each directory of a list on its own, up to the first failure. */
  function EachEnsured(policy: Policy, tree: RemoteTree, dirs: seq<RemotePath>): (Outcome, RemoteTree)
    decreases dirs
  {
    if dirs == [] then (Ok(()), tree)
    else if Ensured(policy, tree, dirs[0]).Err? then (Ensured(policy, tree, dirs[0]), After(policy, tree, dirs[0]))
    else EachEnsured(policy, After(policy, tree, dirs[0]), dirs[1..])
  }

  /** The loop of `addUploadTree` with one cache for the whole list: same outcome, same tree as without it. */
  method EnsureAll(server: Server, dirs: seq<RemotePath>) returns (r: Outcome)
    modifies server`tree, server`requests
    ensures (r, server.tree) == EachEnsured(server.policy, old(server.tree), dirs)
  {
    var known: set<RemotePath> := {};
    var i := 0;
    while i < |dirs|
      invariant 0 <= i <= |dirs| && Confirmed(server.policy, server.tree, known)
      invariant EachEnsured(server.policy, old(server.tree), dirs) == EachEnsured(server.policy, server.tree, dirs[i..])
    {
      assert dirs[i..][1..] == dirs[i + 1..];
      r, known := EnsureCached(server, dirs[i], known);
      if r.Err? { return; }
      i := i + 1;
    }
    return Ok(());
  }
}
