/**
 * The download planner of internal/api/tree_transfer.go: a bounded walk over a remote listing that need not be finite,
 * consistent over time, or free of repeated names.
 */
module TreePlan {
  import opened Wrappers

  const MAX_TREE_DEPTH: nat := 64
  const MAX_TREE_ITEMS: nat := 10000

  /** A path as its components below some root. */
  type Path = seq<string>

  datatype Item = Item(name: string, isSymlink: bool, isDirectory: bool)

  datatype Request = Request(local: Path, remote: Path)

  // ----- Trees of listings -----

  /** One listed item with what listing it in turn gave. */
  datatype Child = Skipped(item: Item) | Leaf(item: Item) | Folder(item: Item, below: seq<Child>)

  /** Symbolic links are skipped, directories are opened, everything else is a file. */
  predicate Shaped(es: seq<Child>)
  {
    forall i :: 0 <= i < |es| ==> ShapedChild(es[i])
  }

  predicate ShapedChild(c: Child)
  {
    match c
    case Skipped(item) => item.isSymlink
    case Leaf(item) => !item.isSymlink && !item.isDirectory
    case Folder(item, below) => !item.isSymlink && item.isDirectory && Shaped(below)
  }

  function Items(es: seq<Child>): seq<Item>
  {
    seq(|es|, i requires 0 <= i < |es| => es[i].item)
  }

  /** Directories and files below. */
  function Size(es: seq<Child>): nat
  {
    if es == [] then 0 else Size(es[..|es| - 1]) + ChildSize(es[|es| - 1])
  }

  function ChildSize(c: Child): nat
  {
    match c
    case Skipped(_) => 0
    case Leaf(_) => 1
    case Folder(_, below) => 1 + Size(below)
  }

  /** The greatest number of directories on a way down. */
  function Height(es: seq<Child>): nat
  {
    if es == [] then 0
    else
      var rest := Height(es[..|es| - 1]);
      var last := if es[|es| - 1].Folder? then 1 + Height(es[|es| - 1].below) else 0;
      if rest < last then last else rest
  }

  /** Every name that becomes a local name is a plain child name. */
  predicate NamesSafe(safe: string -> bool, es: seq<Child>)
  {
    forall i :: 0 <= i < |es| ==> ChildSafe(safe, es[i])
  }

  predicate ChildSafe(safe: string -> bool, c: Child)
  {
    match c
    case Skipped(_) => true
    case Leaf(item) => safe(item.name)
    case Folder(item, below) => safe(item.name) && NamesSafe(safe, below)
  }

  // ----- The plan of a tree -----

  /** Directories in pre-order, each before what is below it. */
  function Dirs(base: Path, es: seq<Child>): seq<Path>
    decreases es
  {
    if es == [] then []
    else
      var last := es[|es| - 1];
      Dirs(base, es[..|es| - 1]) +
      if last.Folder? then [base + [last.item.name]] + Dirs(base + [last.item.name], last.below) else []
  }

  function FilesBelow(local: Path, remote: Path, es: seq<Child>): seq<Request>
    decreases es
  {
    if es == [] then []
    else
      var last := es[|es| - 1];
      FilesBelow(local, remote, es[..|es| - 1]) +
      match last
      case Skipped(_) => []
      case Leaf(item) => [Request(local + [item.name], remote + [item.name])]
      case Folder(item, below) => FilesBelow(local + [item.name], remote + [item.name], below)
  }

  function Links(es: seq<Child>): nat
  {
    if es == [] then 0
    else
      var last := es[|es| - 1];
      Links(es[..|es| - 1]) + match last case Skipped(_) => 1 case Leaf(_) => 0 case Folder(_, below) => Links(below)
  }

  // ----- What the server answered -----

  datatype Answer = Answer(path: Path, items: seq<Item>)

  /** The answers to the listings of a tree, in the order of the walk. */
  function Answers(path: Path, es: seq<Child>): seq<Answer>
    decreases es, 1
  {
    [Answer(path, Items(es))] + Below(path, es)
  }

  function Below(path: Path, es: seq<Child>): seq<Answer>
    decreases es, 0
  {
    if es == [] then []
    else
      var last := es[|es| - 1];
      Below(path, es[..|es| - 1]) + OwnAnswers(path, last)
  }

  function OwnAnswers(path: Path, c: Child): seq<Answer>
    decreases c
  {
    if c.Folder? then Answers(path + [c.item.name], c.below) else []
  }

  /** What the server says to the n-th call; nothing means an error or a cancelled operation. */
  type Oracle = (nat, Path) -> Option<seq<Item>>

  /** From call `at` on the server gives these answers. */
  predicate Serves(oracle: Oracle, at: nat, answers: seq<Answer>)
    decreases |answers|
  {
    answers == [] ||
    var n := |answers| - 1;
    Serves(oracle, at, answers[..n]) && oracle(at + n, answers[n].path) == Some(answers[n].items)
  }

  // ----- Limits -----

  /** The tree can be walked from this depth when this many items are already planned. */
  predicate Fits(safe: string -> bool, es: seq<Child>, depth: nat, count: nat)
    decreases es, 1
  {
    depth <= MAX_TREE_DEPTH && EntriesFit(safe, es, depth, count)
  }

  predicate EntriesFit(safe: string -> bool, es: seq<Child>, depth: nat, count: nat)
    decreases es, 0
  {
    es == [] ||
    var init, last := es[..|es| - 1], es[|es| - 1];
    EntriesFit(safe, init, depth, count) &&
    (last.Skipped? ||
     (safe(last.item.name) && count + Size(init) + 1 <= MAX_TREE_ITEMS &&
      (last.Folder? ==> Fits(safe, last.below, depth + 1, count + Size(init) + 1))))
  }

  /** The limits in one place: safe names, depth, number of items. */
  predicate WithinLimits(safe: string -> bool, es: seq<Child>, depth: nat, count: nat)
  {
    NamesSafe(safe, es) && depth + Height(es) <= 64 && count + Size(es) <= 10000
  }

  lemma {:induction false} FitsIsWithinLimits(safe: string -> bool, es: seq<Child>, depth: nat, count: nat)
    requires count <= MAX_TREE_ITEMS && depth <= MAX_TREE_DEPTH
    ensures EntriesFit(safe, es, depth, count) <==> WithinLimits(safe, es, depth, count)
    decreases es
  {
    if es != [] {
      var n := |es| - 1;
      var init, last := es[..n], es[n];
      FitsIsWithinLimits(safe, init, depth, count);
      assert es == init + [last];
      assert NamesSafe(safe, es) <==> NamesSafe(safe, init) && ChildSafe(safe, last);
      assert Size(es) == Size(init) + ChildSize(last);
      if last.Folder? && count + Size(init) + 1 <= MAX_TREE_ITEMS && depth < MAX_TREE_DEPTH {
        FitsIsWithinLimits(safe, last.below, depth + 1, count + Size(init) + 1);
      }
    }
  }

  // ----- Prefixes -----

  /** The answers of a listing begin with those of its beginning. */
  lemma {:induction false} BelowBegins(path: Path, es: seq<Child>, i: nat)
    requires i <= |es|
    ensures Below(path, es[..i]) <= Below(path, es)
    decreases |es| - i
  {
    if i == |es| {
      assert es[..i] == es;
    } else {
      BelowBegins(path, es, i + 1);
      assert es[..i + 1][..i] == es[..i];
    }
  }

  /** The limits of a listing contain those of its beginning. */
  lemma {:induction false} FitBegins(safe: string -> bool, es: seq<Child>, i: nat, depth: nat, count: nat)
    requires i <= |es| && EntriesFit(safe, es, depth, count)
    ensures EntriesFit(safe, es[..i], depth, count)
    decreases |es| - i
  {
    if i == |es| {
      assert es[..i] == es;
    } else {
      FitBegins(safe, es, i + 1, depth, count);
      assert es[..i + 1][..i] == es[..i];
    }
  }

  /** The answers for the i-th item follow those for the items before it. */
  lemma NextBelow(path: Path, es: seq<Child>, i: nat)
    requires i < |es|
    ensures Below(path, es[..i]) + OwnAnswers(path, es[i]) <= Below(path, es)
  {
    BelowBegins(path, es, i + 1);
    assert es[..i + 1] == es[..i] + [es[i]];
    BelowExtends(path, es[..i], es[i]);
  }

  lemma ChildAnswers(oracle: Oracle, at: nat, path: Path, es: seq<Child>, i: nat)
    requires i < |es| && Serves(oracle, at, Answers(path, es))
    ensures Serves(oracle, at + 1 + |Below(path, es[..i])|, OwnAnswers(path, es[i]))
  {
    NextBelow(path, es, i);
    MiddleServed(oracle, at, Answer(path, Items(es)), Below(path, es[..i]), OwnAnswers(path, es[i]), Below(path, es));
  }

  lemma MiddleServed(oracle: Oracle, at: nat, first: Answer, before: seq<Answer>, own: seq<Answer>, all: seq<Answer>)
    requires before + own <= all && Serves(oracle, at, [first] + all)
    ensures Serves(oracle, at + 1 + |before|, own)
  {
    SegmentServed(oracle, at, [first], all);
    PrefixServed(oracle, at + 1, before + own, all);
    SegmentServed(oracle, at + 1, before, own);
  }

  /** Two walks of the same items, given the same answers from the same call on. */
  ghost predicate SameSeen(oracle: Oracle, at: nat, path: Path, a: seq<Child>, b: seq<Child>)
  {
    Shaped(a) && Shaped(b) && Items(a) == Items(b) && Serves(oracle, at, Below(path, a)) &&
    Serves(oracle, at, Below(path, b))
  }

  lemma SameSeenBefore(oracle: Oracle, at: nat, path: Path, a: seq<Child>, b: seq<Child>)
    requires SameSeen(oracle, at, path, a, b) && a != []
    ensures |a| == |b| && SameSeen(oracle, at, path, a[..|a| - 1], b[..|a| - 1]) && a[|a| - 1].item == b[|a| - 1].item
    ensures Serves(oracle, at + |Below(path, a[..|a| - 1])|, OwnAnswers(path, a[|a| - 1]))
    ensures Serves(oracle, at + |Below(path, b[..|a| - 1])|, OwnAnswers(path, b[|a| - 1]))
  {
    var n := |a| - 1;
    assert |Items(a)| == |Items(b)|;
    assert Items(a)[n] == a[n].item && Items(b)[n] == b[n].item;
    assert Items(a[..n]) == Items(a)[..n] == Items(b[..n]);
    LastServed(oracle, at, path, a);
    LastServed(oracle, at, path, b);
  }

  lemma LastServed(oracle: Oracle, at: nat, path: Path, es: seq<Child>)
    requires es != [] && Serves(oracle, at, Below(path, es))
    ensures Serves(oracle, at, Below(path, es[..|es| - 1]))
    ensures Serves(oracle, at + |Below(path, es[..|es| - 1])|, OwnAnswers(path, es[|es| - 1]))
  {
    SegmentServed(oracle, at, Below(path, es[..|es| - 1]), OwnAnswers(path, es[|es| - 1]));
  }

  lemma SameSeenLength(oracle: Oracle, at: nat, path: Path, a: seq<Child>, b: seq<Child>)
    requires SameSeen(oracle, at, path, a, b)
    ensures |a| == |b|
  {
    assert |Items(a)| == |Items(b)|;
  }

  lemma LastAgrees(a: seq<Child>, b: seq<Child>)
    requires |a| == |b| > 0 && a[..|a| - 1] == b[..|a| - 1] && a[|a| - 1] == b[|a| - 1]
    ensures a == b
  {
    assert a == a[..|a| - 1] + [a[|a| - 1]] && b == b[..|a| - 1] + [b[|a| - 1]];
  }

  /** Walks of the same items given the same answers are the same. */
  lemma {:induction false} SameEntries(oracle: Oracle, at: nat, path: Path, a: seq<Child>, b: seq<Child>)
    requires SameSeen(oracle, at, path, a, b)
    ensures a == b
    decreases a, 0
  {
    SameSeenLength(oracle, at, path, a, b);
    if a != [] {
      var n := |a| - 1;
      SameSeenBefore(oracle, at, path, a, b);
      SameEntries(oracle, at, path, a[..n], b[..n]);
      SameChild(oracle, at + |Below(path, a[..n])|, path, a[n], b[n]);
      LastAgrees(a, b);
    }
  }

  lemma {:induction false} SameChild(oracle: Oracle, at: nat, path: Path, a: Child, b: Child)
    requires ShapedChild(a) && ShapedChild(b) && a.item == b.item
    requires Serves(oracle, at, OwnAnswers(path, a)) && Serves(oracle, at, OwnAnswers(path, b))
    ensures a == b
    decreases a
  {
    if a.Folder? {
      SameTree(oracle, at, path + [a.item.name], a.below, b.below);
    }
  }

  lemma FrontOfBoth(a: seq<Answer>, b: seq<Answer>, n: nat)
    requires n <= |b|
    ensures (a + b)[..|a| + n] == a + b[..n]
  {
  }

  lemma {:induction false} SegmentServed(oracle: Oracle, at: nat, before: seq<Answer>, sub: seq<Answer>)
    requires Serves(oracle, at, before + sub)
    ensures Serves(oracle, at, before) && Serves(oracle, at + |before|, sub)
    decreases |sub|
  {
    if sub == [] {
      assert before + sub == before;
    } else {
      var n := |sub| - 1;
      FrontOfBoth(before, sub, n);
      SegmentServed(oracle, at, before, sub[..n]);
    }
  }

  lemma FirstAnswer(oracle: Oracle, at: nat, path: Path, t: seq<Child>)
    requires Serves(oracle, at, Answers(path, t))
    ensures oracle(at, path) == Some(Items(t))
  {
    var first := Answer(path, Items(t));
    SegmentServed(oracle, at, [first], Below(path, t));
    assert [first][..0] == [];
  }

  lemma PrefixServed(oracle: Oracle, at: nat, before: seq<Answer>, all: seq<Answer>)
    requires Serves(oracle, at, all) && before <= all
    ensures Serves(oracle, at, before)
  {
    assert all == before + all[|before|..];
    SegmentServed(oracle, at, before, all[|before|..]);
  }

  lemma {:induction false} ServesBoth(oracle: Oracle, at: nat, a: seq<Answer>, b: seq<Answer>)
    requires Serves(oracle, at, a) && Serves(oracle, at + |a|, b)
    ensures Serves(oracle, at, a + b)
    decreases |b|
  {
    if b == [] {
      assert a + b == a;
    } else {
      var n := |b| - 1;
      ServesBoth(oracle, at, a, b[..n]);
      FrontOfBoth(a, b, n);
    }
  }

  /** The server's answers determine the tree. */
  lemma {:induction false} SameTree(oracle: Oracle, at: nat, path: Path, a: seq<Child>, b: seq<Child>)
    requires Shaped(a) && Shaped(b) && Serves(oracle, at, Answers(path, a)) && Serves(oracle, at, Answers(path, b))
    ensures a == b
    decreases a, 1
  {
    FirstAnswer(oracle, at, path, a);
    FirstAnswer(oracle, at, path, b);
    SegmentServed(oracle, at, [Answer(path, Items(a))], Below(path, a));
    SegmentServed(oracle, at, [Answer(path, Items(b))], Below(path, b));
    SameEntries(oracle, at + 1, path, a, b);
  }

  // ----- Refusals -----

  /** No tree the server's answers describe fits. */
  ghost predicate NoTree(safe: string -> bool, oracle: Oracle, at: nat, path: Path, depth: nat, count: nat)
  {
    forall t: seq<Child> :: Shaped(t) && Serves(oracle, at, Answers(path, t)) ==> !Fits(safe, t, depth, count)
  }

  /** What the walk of a listing has established when it reaches an item. */
  ghost predicate WalkedTo(safe: string -> bool, oracle: Oracle, at: nat, path: Path, depth: nat, count: nat,
                           items: seq<Item>, done: seq<Child>)
  {
    oracle(at, path) == Some(items) && |done| <= |items| && Items(done) == items[..|done|] && Shaped(done) &&
    Serves(oracle, at + 1, Below(path, done)) && depth <= MAX_TREE_DEPTH && EntriesFit(safe, done, depth, count)
  }

  /** Every tree of these answers begins as the walk did. */
  lemma TreeContinues(safe: string -> bool, oracle: Oracle, at: nat, path: Path, depth: nat, count: nat,
                      items: seq<Item>,
                      done: seq<Child>, t: seq<Child>)
    requires WalkedTo(safe, oracle, at, path, depth, count, items, done)
    requires Shaped(t) && Serves(oracle, at, Answers(path, t))
    ensures |t| == |items| && Items(t) == items && t[..|done|] == done
  {
    FirstAnswer(oracle, at, path, t);
    assert |Items(t)| == |t|;
    SegmentServed(oracle, at, [Answer(path, Items(t))], Below(path, t));
    var i := |done|;
    BelowBegins(path, t, i);
    PrefixServed(oracle, at + 1, Below(path, t[..i]), Below(path, t));
    assert Items(t[..i]) == Items(t)[..i];
    SameEntries(oracle, at + 1, path, t[..i], done);
  }

  /** The item cannot be taken. */
  ghost predicate Refused(safe: string -> bool, oracle: Oracle, at: nat, path: Path, depth: nat, count: nat, item: Item)
  {
    !item.isSymlink &&
    (!safe(item.name) || count + 1 > MAX_TREE_ITEMS ||
     (item.isDirectory && NoTree(safe, oracle, at, path + [item.name], depth + 1, count + 1)))
  }

  /** The item was taken, and this is what it led to. */
  ghost predicate Taken(safe: string -> bool, oracle: Oracle, at: nat, path: Path, depth: nat, count: nat, item: Item,
                        c: Child)
  {
    c.item == item && ShapedChild(c) && Serves(oracle, at, OwnAnswers(path, c)) &&
    (c.Skipped? || (safe(item.name) && count + 1 <= MAX_TREE_ITEMS)) &&
    (c.Folder? ==> Fits(safe, c.below, depth + 1, count + 1))
  }

  lemma RefusedChild(safe: string -> bool, oracle: Oracle, at: nat, path: Path, depth: nat, count: nat,
                     init: seq<Child>, c: Child)
    requires ShapedChild(c) && Serves(oracle, at, OwnAnswers(path, c))
    requires Refused(safe, oracle, at, path, depth, count + Size(init), c.item)
    ensures !EntriesFit(safe, init + [c], depth, count)
  {
    assert (init + [c])[..|init|] == init;
  }

  lemma ItemRefuses(safe: string -> bool, oracle: Oracle, at: nat, path: Path, depth: nat, count: nat, items: seq<Item>,
                    done: seq<Child>, here: nat, now: nat)
    requires WalkedTo(safe, oracle, at, path, depth, count, items, done) && |done| < |items|
    requires here == at + 1 + |Below(path, done)| && now == count + Size(done)
    requires Refused(safe, oracle, here, path, depth, now, items[|done|])
    ensures NoTree(safe, oracle, at, path, depth, count)
  {
    var i := |done|;
    forall t: seq<Child> | Shaped(t) && Serves(oracle, at, Answers(path, t)) ensures !Fits(safe, t, depth, count) {
      TreeContinues(safe, oracle, at, path, depth, count, items, done, t);
      assert Items(t)[i] == t[i].item && ShapedChild(t[i]);
      if Fits(safe, t, depth, count) { FitBegins(safe, t, i + 1, depth, count); }
      assert t[..i + 1] == done + [t[i]];
      ChildAnswers(oracle, at, path, t, i);
      RefusedChild(safe, oracle, at + 1 + |Below(path, done)|, path, depth, count, done, t[i]);
    }
  }

  // ----- The plan -----

  datatype Plan = Plan(requests: seq<Request>, localDirs: seq<Path>, skippedSymlinks: nat)
  {
    function ItemCount(): nat { |requests| + |localDirs| }
  }

  function PlanAfter(plan: Plan, local: Path, remote: Path, es: seq<Child>): Plan
  {
    Plan(plan.requests + FilesBelow(local, remote, es), plan.localDirs + Dirs(local, es),
         plan.skippedSymlinks + Links(es))
  }

  function PlanWith(plan: Plan, local: Path, remote: Path, c: Child): Plan
  {
    match c
    case Skipped(_) => plan.(skippedSymlinks := plan.skippedSymlinks + 1)
    case Leaf(item) => plan.(requests := plan.requests + [Request(local + [item.name], remote + [item.name])])
    case Folder(item, below) =>
      PlanAfter(plan.(localDirs := plan.localDirs + [local + [item.name]]), local + [item.name], remote + [item.name],
                below)
  }

  lemma {:induction false} CountAfter(plan: Plan, local: Path, remote: Path, es: seq<Child>)
    ensures PlanAfter(plan, local, remote, es).ItemCount() == plan.ItemCount() + Size(es)
    ensures |Below(remote, es)| <= Size(es)
    decreases es
  {
    if es != [] {
      var last := es[|es| - 1];
      CountAfter(plan, local, remote, es[..|es| - 1]);
      assert |OwnAnswers(remote, last)| <= ChildSize(last) by {
        if last.Folder? { CountAfter(plan, local + [last.item.name], remote + [last.item.name], last.below); }
      }
      if last.Folder? { CountAfter(plan, local + [last.item.name], remote + [last.item.name], last.below); }
    }
  }

  /** One more item in the walk. */
  lemma PlanExtends(plan: Plan, local: Path, remote: Path, done: seq<Child>, c: Child)
    ensures PlanAfter(plan, local, remote, done + [c]) ==
            PlanWith(PlanAfter(plan, local, remote, done), local, remote, c)
  {
    var es := done + [c];
    assert es[..|es| - 1] == done && es[|es| - 1] == c;
  }

  lemma BelowExtends(path: Path, done: seq<Child>, c: Child)
    ensures Below(path, done + [c]) == Below(path, done) + OwnAnswers(path, c)
  {
    assert (done + [c])[..|done|] == done;
  }

  lemma FitExtends(safe: string -> bool, done: seq<Child>, c: Child, depth: nat, count: nat)
    requires EntriesFit(safe, done, depth, count)
    requires c.Skipped? || (safe(c.item.name) && count + Size(done) + 1 <= MAX_TREE_ITEMS)
    requires c.Folder? ==> Fits(safe, c.below, depth + 1, count + Size(done) + 1)
    ensures EntriesFit(safe, done + [c], depth, count)
  {
    assert (done + [c])[..|done|] == done;
  }

  lemma BelowServed(oracle: Oracle, at: nat, path: Path, done: seq<Child>, c: Child)
    requires Serves(oracle, at, Below(path, done)) && Serves(oracle, at + |Below(path, done)|, OwnAnswers(path, c))
    ensures Serves(oracle, at, Below(path, done + [c]))
    ensures Below(path, done + [c]) == Below(path, done) + OwnAnswers(path, c)
  {
    BelowExtends(path, done, c);
    ServesBoth(oracle, at, Below(path, done), OwnAnswers(path, c));
  }

  lemma ShapeExtends(done: seq<Child>, c: Child)
    requires Shaped(done) && ShapedChild(c)
    ensures Shaped(done + [c])
  {
  }

  lemma WalkExtends(safe: string -> bool, oracle: Oracle, at: nat, path: Path, depth: nat, count: nat, items: seq<Item>,
                    done: seq<Child>, here: nat, now: nat, c: Child)
    requires WalkedTo(safe, oracle, at, path, depth, count, items, done) && |done| < |items|
    requires here == at + 1 + |Below(path, done)| && now == count + Size(done)
    requires Taken(safe, oracle, here, path, depth, now, items[|done|], c)
    ensures WalkedTo(safe, oracle, at, path, depth, count, items, done + [c])
    ensures Below(path, done + [c]) == Below(path, done) + OwnAnswers(path, c)
  {
    assert EntriesFit(safe, done + [c], depth, count) by { FitExtends(safe, done, c, depth, count); }
    assert Items(done + [c]) == items[..|done + [c]|] by { ItemsExtend(items, done, c); }
    assert Shaped(done + [c]) by { ShapeExtends(done, c); }
    BelowServed(oracle, at + 1, path, done, c);
  }

  lemma ItemsExtend(items: seq<Item>, done: seq<Child>, c: Child)
    requires |done| < |items| && Items(done) == items[..|done|] && c.item == items[|done|]
    ensures Items(done + [c]) == items[..|done| + 1]
  {
    assert Items(done + [c]) == Items(done) + [c.item];
  }

  // ----- What was listed -----

  datatype What = Symlinks | Directories | Files

  predicate Is(what: What, item: Item)
  {
    match what
    case Symlinks => item.isSymlink
    case Directories => !item.isSymlink && item.isDirectory
    case Files => !item.isSymlink && !item.isDirectory
  }

  /** How many items of this kind the answers list. */
  function Listed(what: What, answers: seq<Answer>): nat
  {
    if answers == [] then 0
    else Listed(what, answers[..|answers| - 1]) + Among(what, answers[|answers| - 1].items)
  }

  function Among(what: What, items: seq<Item>): nat
  {
    if items == [] then 0
    else Among(what, items[..|items| - 1]) + if Is(what, items[|items| - 1]) then 1 else 0
  }

  lemma {:induction false} ListedBoth(what: What, a: seq<Answer>, b: seq<Answer>)
    ensures Listed(what, a + b) == Listed(what, a) + Listed(what, b)
    decreases |b|
  {
    if b == [] {
      assert a + b == a;
    } else {
      FrontOfBoth(a, b, |b| - 1);
      ListedBoth(what, a, b[..|b| - 1]);
    }
  }

  /** How many children of this kind a tree has at its top. */
  lemma AmongExtends(what: What, es: seq<Child>)
    requires es != []
    ensures Among(what, Items(es)) ==
            Among(what, Items(es[..|es| - 1])) + if Is(what, es[|es| - 1].item) then 1 else 0
  {
    assert Items(es)[..|es| - 1] == Items(es[..|es| - 1]);
  }

  lemma ListedAnswers(what: What, path: Path, es: seq<Child>)
    ensures Listed(what, Answers(path, es)) == Among(what, Items(es)) + Listed(what, Below(path, es))
  {
    var first := [Answer(path, Items(es))];
    ListedBoth(what, first, Below(path, es));
    assert first[..0] == [];
  }

  /** What a tree adds to a plan is counted by the answers: links, directories and files. */
  lemma {:induction false} TreeCounts(local: Path, remote: Path, es: seq<Child>)
    requires Shaped(es)
    ensures Links(es) == Listed(Symlinks, Answers(remote, es))
    ensures |Dirs(local, es)| == Listed(Directories, Answers(remote, es))
    ensures |FilesBelow(local, remote, es)| == Listed(Files, Answers(remote, es))
    decreases es
  {
    forall what ensures Listed(what, Answers(remote, es)) == Among(what, Items(es)) + Listed(what, Below(remote, es)) {
      ListedAnswers(what, remote, es);
    }
    if es != [] {
      var init, last := es[..|es| - 1], es[|es| - 1];
      TreeCounts(local, remote, init);
      if last.Folder? { TreeCounts(local + [last.item.name], remote + [last.item.name], last.below); }
      forall what
        ensures Among(what, Items(es)) == Among(what, Items(init)) + if Is(what, last.item) then 1 else 0
        ensures Listed(what, Below(remote, es)) ==
                Listed(what, Below(remote, init)) + Listed(what, OwnAnswers(remote, last))
        ensures Listed(what, Answers(remote, init)) == Among(what, Items(init)) + Listed(what, Below(remote, init))
      {
        AmongExtends(what, es);
        ListedBoth(what, Below(remote, init), OwnAnswers(remote, last));
        ListedAnswers(what, remote, init);
      }
    }
  }

  /** The plan takes every listed directory besides the root and every listed file, and counts every listed link. */
  predicate Counts(plan: Plan, answers: seq<Answer>)
  {
    plan.skippedSymlinks == Listed(Symlinks, answers) && |plan.localDirs| == 1 + Listed(Directories, answers) &&
    |plan.requests| == Listed(Files, answers)
  }

  lemma PlanCounts(localRoot: Path, remoteRoot: Path, t: seq<Child>)
    requires Shaped(t)
    ensures Counts(PlanAfter(RootPlan(localRoot), localRoot, remoteRoot, t), Answers(remoteRoot, t))
  {
    TreeCounts(localRoot, remoteRoot, t);
  }

  // ----- The order of a plan -----

  /** A way down a tree, as the position of each step in its listing. */
  type Way = seq<nat>

  /** The order of a walk: earlier in a listing comes first, and a directory comes before what is below it. */
  predicate Before(a: Way, b: Way)
  {
    b != [] && (a == [] || a[0] < b[0] || (a[0] == b[0] && Before(a[1..], b[1..])))
  }

  /** The way ends at a directory, or at a file. */
  predicate Reaches(es: seq<Child>, way: Way, directory: bool)
    decreases way
  {
    way != [] && way[0] < |es| &&
    if |way| == 1 then (if directory then es[way[0]].Folder? else es[way[0]].Leaf?)
    else es[way[0]].Folder? && Reaches(es[way[0]].below, way[1..], directory)
  }

  /** The names along a way. */
  function Names(es: seq<Child>, way: Way): Path
    decreases way
  {
    if way == [] || way[0] >= |es| then []
    else [es[way[0]].item.name] + if es[way[0]].Folder? then Names(es[way[0]].below, way[1..]) else []
  }

  /** All ways to directories, or all ways to files, in the order of a walk. */
  ghost predicate Enumerates(es: seq<Child>, ways: seq<Way>, directory: bool)
  {
    Ascending(ways) && forall way :: way in ways <==> Reaches(es, way, directory)
  }

  predicate Ascending(ways: seq<Way>)
  {
    forall i, j :: 0 <= i < j < |ways| ==> Before(ways[i], ways[j])
  }

  /** The places these ways lead to. */
  function Places(base: Path, es: seq<Child>, ways: seq<Way>): (r: seq<Path>)
    ensures |r| == |ways| && forall k :: 0 <= k < |r| ==> r[k] == base + Names(es, ways[k])
  {
    seq(|ways|, k requires 0 <= k < |ways| => base + Names(es, ways[k]))
  }

  function Pairs(local: seq<Path>, remote: seq<Path>): (r: seq<Request>)
    requires |local| == |remote|
    ensures |r| == |local| && forall k :: 0 <= k < |r| ==> r[k] == Request(local[k], remote[k])
  {
    seq(|local|, k requires 0 <= k < |local| => Request(local[k], remote[k]))
  }

  /** Directories after the root, and files, are planned in the order of a walk, each at its own place. */
  ghost predicate InWalkOrder(plan: Plan, localRoot: Path, remoteRoot: Path, t: seq<Child>)
  {
    exists dirs: seq<Way>, files: seq<Way> ::
      Enumerates(t, dirs, true) && Enumerates(t, files, false) &&
      plan.localDirs == [localRoot] + Places(localRoot, t, dirs) &&
      plan.requests == Pairs(Places(localRoot, t, files), Places(remoteRoot, t, files))
  }

  function Ways(es: seq<Child>, directory: bool): seq<Way>
    decreases es, 1
  {
    if es == [] then []
    else Ways(es[..|es| - 1], directory) + OwnWays(es[|es| - 1], |es| - 1, directory)
  }

  /** The ways that begin with step `n`, which leads to `c`. */
  function OwnWays(c: Child, n: nat, directory: bool): seq<Way>
    decreases c, 0
  {
    match c
    case Skipped(_) => []
    case Leaf(_) => if directory then [] else [[n]]
    case Folder(_, below) => (if directory then [[n]] else []) + Under(n, Ways(below, directory))
  }

  function Under(n: nat, ways: seq<Way>): (r: seq<Way>)
    ensures |r| == |ways| && forall k :: 0 <= k < |r| ==> r[k] == [n] + ways[k]
  {
    seq(|ways|, k requires 0 <= k < |ways| => [n] + ways[k])
  }

  lemma InUnder(n: nat, ways: seq<Way>, way: Way)
    ensures way in Under(n, ways) <==> way != [] && way[0] == n && way[1..] in ways
  {
    if way in Under(n, ways) {
      var k :| 0 <= k < |ways| && Under(n, ways)[k] == way;
      assert way[1..] == ways[k];
    }
    if way != [] && way[0] == n && way[1..] in ways {
      var k :| 0 <= k < |ways| && ways[k] == way[1..];
      assert way == [n] + way[1..] == Under(n, ways)[k];
    }
  }

  lemma {:induction false} WaysReach(es: seq<Child>, way: Way, directory: bool)
    ensures way in Ways(es, directory) <==> Reaches(es, way, directory)
    decreases es
  {
    if es != [] {
      var n := |es| - 1;
      WaysReach(es[..n], way, directory);
      if es[n].Folder? {
        InUnder(n, Ways(es[n].below, directory), way);
        if way != [] { WaysReach(es[n].below, way[1..], directory); }
      }
      assert way != [] && way[0] < n ==> (Reaches(es, way, directory) <==> Reaches(es[..n], way, directory));
      assert |way| == 1 ==> way == [way[0]];
    }
  }

  lemma AscendBoth(a: seq<Way>, b: seq<Way>)
    requires Ascending(a) && Ascending(b) && forall x, y :: x in a && y in b ==> Before(x, y)
    ensures Ascending(a + b)
  {
    forall i, j | 0 <= i < j < |a + b| ensures Before((a + b)[i], (a + b)[j]) {
      if i < |a| <= j { assert a[i] in a && b[j - |a|] in b; }
    }
  }

  lemma {:induction false} WaysAscend(es: seq<Child>, directory: bool)
    ensures Ascending(Ways(es, directory))
    decreases es, 1
  {
    if es != [] {
      var n := |es| - 1;
      WaysAscend(es[..n], directory);
      OwnWaysAscend(es[n], n, directory);
      forall x, y | x in Ways(es[..n], directory) && y in OwnWays(es[n], n, directory) ensures Before(x, y) {
        WaysReach(es[..n], x, directory);
      }
      AscendBoth(Ways(es[..n], directory), OwnWays(es[n], n, directory));
    }
  }

  lemma {:induction false} OwnWaysAscend(c: Child, n: nat, directory: bool)
    ensures Ascending(OwnWays(c, n, directory))
    ensures forall way :: way in OwnWays(c, n, directory) ==> way != [] && way[0] == n
    decreases c, 0
  {
    if c.Folder? {
      var below := Ways(c.below, directory);
      WaysAscend(c.below, directory);
      forall i, j | 0 <= i < j < |below| ensures Before([n] + below[i], [n] + below[j]) {
        assert ([n] + below[i])[1..] == below[i] && ([n] + below[j])[1..] == below[j];
      }
      assert Ascending(Under(n, below));
      forall way | way in below ensures Before([n], [n] + way) {
        WaysReach(c.below, way, directory);
        assert ([n] + way)[1..] == way && [n][1..] == [];
      }
      AscendBoth(if directory then [[n]] else [], Under(n, below));
    }
  }

  lemma WaysEnumerate(es: seq<Child>, directory: bool)
    ensures Enumerates(es, Ways(es, directory), directory)
  {
    WaysAscend(es, directory);
    forall way ensures way in Ways(es, directory) <==> Reaches(es, way, directory) { WaysReach(es, way, directory); }
  }

  /** Ways through the first items have the same names in the longer listing. */
  lemma NamesBegin(es: seq<Child>, n: nat, way: Way)
    requires n <= |es| && way != [] && way[0] < n
    ensures Names(es[..n], way) == Names(es, way)
  {
  }

  lemma NamesUnder(es: seq<Child>, n: nat, way: Way)
    requires n < |es| && es[n].Folder?
    ensures Names(es, [n] + way) == [es[n].item.name] + Names(es[n].below, way)
  {
    assert ([n] + way)[1..] == way;
  }

  lemma PlacesBegin(base: Path, es: seq<Child>, n: nat, directory: bool)
    requires n <= |es|
    ensures Places(base, es, Ways(es[..n], directory)) == Places(base, es[..n], Ways(es[..n], directory))
  {
    var ways := Ways(es[..n], directory);
    forall k | 0 <= k < |ways| ensures Names(es[..n], ways[k]) == Names(es, ways[k]) {
      WaysReach(es[..n], ways[k], directory);
      NamesBegin(es, n, ways[k]);
    }
  }

  lemma PlacesUnder(base: Path, es: seq<Child>, n: nat, ways: seq<Way>)
    requires n < |es| && es[n].Folder?
    ensures Places(base, es, Under(n, ways)) == Places(base + [es[n].item.name], es[n].below, ways)
  {
    var name := es[n].item.name;
    forall k | 0 <= k < |ways|
      ensures base + Names(es, Under(n, ways)[k]) == base + [name] + Names(es[n].below, ways[k])
    {
      NamesUnder(es, n, ways[k]);
      ConcatAssociates(base, [name], Names(es[n].below, ways[k]));
    }
  }

  lemma ConcatAssociates(a: Path, b: Path, c: Path)
    ensures a + b + c == a + (b + c)
  {
  }

  lemma PlacesBoth(base: Path, es: seq<Child>, a: seq<Way>, b: seq<Way>)
    ensures Places(base, es, a + b) == Places(base, es, a) + Places(base, es, b)
  {
  }

  lemma PlaceOfOne(base: Path, es: seq<Child>, n: nat)
    requires n < |es|
    ensures Places(base, es, [[n]]) == [base + [es[n].item.name]]
  {
    assert Names(es, [n]) == [es[n].item.name];
  }

  /** The places of the ways through the last item. */
  lemma OwnPlaces(base: Path, es: seq<Child>, directory: bool)
    requires es != []
    ensures var n, own := |es| - 1, base + [es[|es| - 1].item.name];
            Places(base, es, OwnWays(es[n], n, directory)) ==
            (if es[n].Folder? == directory && !es[n].Skipped? then [own] else []) +
            (if es[n].Folder? then Places(own, es[n].below, Ways(es[n].below, directory)) else [])
  {
    var n := |es| - 1;
    PlaceOfOne(base, es, n);
    if es[n].Folder? {
      PlacesUnder(base, es, n, Ways(es[n].below, directory));
      PlacesBoth(base, es, if directory then [[n]] else [], Under(n, Ways(es[n].below, directory)));
    }
  }

  lemma NextPlaces(base: Path, es: seq<Child>, directory: bool)
    requires es != []
    ensures var n := |es| - 1;
            Places(base, es, Ways(es, directory)) ==
            Places(base, es[..n], Ways(es[..n], directory)) + Places(base, es, OwnWays(es[n], n, directory))
  {
    var n := |es| - 1;
    PlacesBegin(base, es, n, directory);
    PlacesBoth(base, es, Ways(es[..n], directory), OwnWays(es[n], n, directory));
  }

  lemma {:induction false} DirsFollow(base: Path, es: seq<Child>)
    ensures Dirs(base, es) == Places(base, es, Ways(es, true))
    decreases es
  {
    if es != [] {
      var last := es[|es| - 1];
      DirsFollow(base, es[..|es| - 1]);
      if last.Folder? { DirsFollow(base + [last.item.name], last.below); }
      NextPlaces(base, es, true);
      OwnPlaces(base, es, true);
    }
  }

  lemma PairsBoth(a: seq<Path>, b: seq<Path>, c: seq<Path>, d: seq<Path>)
    requires |a| == |b| && |c| == |d|
    ensures Pairs(a + c, b + d) == Pairs(a, b) + Pairs(c, d)
  {
  }

  lemma {:induction false} FilesFollow(local: Path, remote: Path, es: seq<Child>)
    ensures FilesBelow(local, remote, es) ==
            Pairs(Places(local, es, Ways(es, false)), Places(remote, es, Ways(es, false)))
    decreases es
  {
    if es != [] {
      var n := |es| - 1;
      var last := es[n];
      FilesFollow(local, remote, es[..n]);
      if last.Folder? { FilesFollow(local + [last.item.name], remote + [last.item.name], last.below); }
      NextPlaces(local, es, false);
      NextPlaces(remote, es, false);
      OwnPlaces(local, es, false);
      OwnPlaces(remote, es, false);
      PairsBoth(Places(local, es[..n], Ways(es[..n], false)), Places(remote, es[..n], Ways(es[..n], false)),
                Places(local, es, OwnWays(last, n, false)), Places(remote, es, OwnWays(last, n, false)));
    }
  }

  lemma PlanIsInOrder(localRoot: Path, remoteRoot: Path, t: seq<Child>)
    ensures InWalkOrder(PlanAfter(RootPlan(localRoot), localRoot, remoteRoot, t), localRoot, remoteRoot, t)
  {
    WaysEnumerate(t, true);
    WaysEnumerate(t, false);
    DirsFollow(localRoot, t);
    FilesFollow(localRoot, remoteRoot, t);
  }

  // ----- The walk -----

  class Session {
    const oracle: Oracle
    var calls: nat

    constructor (oracle: Oracle)
      ensures this.oracle == oracle && calls == 0
    {
      this.oracle := oracle;
      calls := 0;
    }

    method List(path: Path) returns (items: Option<seq<Item>>)
      modifies this
      ensures items == oracle(old(calls), path) && calls == old(calls) + 1
    {
      items := oracle(calls, path);
      calls := calls + 1;
    }
  }

  /** `treePlan` during one walk. `safe` is the name check of `security.SafeLocalChild`. */
  class Planner {
    const session: Session
    const safe: string -> bool
    var requests: seq<Request>
    var localDirs: seq<Path>
    var skippedSymlinks: nat

    constructor (session: Session, safe: string -> bool, localRoot: Path)
      ensures this.session == session && this.safe == safe && Now() == Plan([], [localRoot], 0)
    {
      this.session, this.safe := session, safe;
      requests, localDirs, skippedSymlinks := [], [localRoot], 0;
    }

    function Now(): Plan
      reads this
    {
      Plan(requests, localDirs, skippedSymlinks)
    }

    function ItemCount(): (n: nat)
      reads this
      ensures n == Now().ItemCount()
    {
      |requests| + |localDirs|
    }

    /** `checkLimit` */
    predicate WithinLimit()
      reads this
    {
      ItemCount() <= MAX_TREE_ITEMS
    }

    /** The recursive `walk`; the budget of items bounds the recursion even where the listing does not end. */
    method Walk(remoteDir: Path, localDir: Path, depth: nat) returns (ok: bool, ghost tree: seq<Child>)
      requires WithinLimit()
      modifies this, session
      ensures session.calls - old(session.calls) <= MAX_TREE_ITEMS - old(ItemCount()) + 1
      ensures ok ==> Shaped(tree) && Fits(safe, tree, depth, old(ItemCount()))
      ensures ok ==> Serves(session.oracle, old(session.calls), Answers(remoteDir, tree))
      ensures ok ==> session.calls == old(session.calls) + |Answers(remoteDir, tree)|
      ensures ok ==> Now() == PlanAfter(old(Now()), localDir, remoteDir, tree) && WithinLimit()
      ensures ok ==> skippedSymlinks == old(skippedSymlinks) + Listed(Symlinks, Answers(remoteDir, tree))
      ensures !ok ==> NoTree(safe, session.oracle, old(session.calls), remoteDir, depth, old(ItemCount()))
      decreases MAX_TREE_ITEMS - ItemCount(), 1
    {
      ghost var at, plan, count := session.calls, Now(), ItemCount();
      tree := [];
      if depth > MAX_TREE_DEPTH { return false, []; }
      var listed := session.List(remoteDir);
      if listed.None? {
        AnswerNeeded(safe, session.oracle, at, remoteDir, depth, count);
        return false, [];
      }
      var items := listed.value;
      var i := 0;
      while i < |items|
        invariant 0 <= i == |tree| <= |items|
        invariant WalkedTo(safe, session.oracle, at, remoteDir, depth, count, items, tree)
        invariant session.calls == at + 1 + |Below(remoteDir, tree)|
        invariant Now() == PlanAfter(plan, localDir, remoteDir, tree)
        invariant WithinLimit()
      {
        CountAfter(plan, localDir, remoteDir, tree);
        ghost var here, now := session.calls, ItemCount();
        assert here == at + 1 + |Below(remoteDir, tree)| && now == count + Size(tree);
        ghost var c: Child;
        ok, c := Visit(remoteDir, localDir, depth, items[i]);
        assert ok ==> Taken(safe, session.oracle, here, remoteDir, depth, now, items[i], c);
        if !ok {
          assert Refused(safe, session.oracle, here, remoteDir, depth, now, items[i]);
          ItemRefuses(safe, session.oracle, at, remoteDir, depth, count, items, tree, here, now);
          return false, [];
        }
        PlanExtends(plan, localDir, remoteDir, tree, c);
        WalkExtends(safe, session.oracle, at, remoteDir, depth, count, items, tree, here, now, c);
        tree := tree + [c];
        i := i + 1;
      }
      CountAfter(plan, localDir, remoteDir, tree);
      WalkEnds(safe, session.oracle, at, remoteDir, depth, count, items, tree);
      TreeCounts(localDir, remoteDir, tree);
      return true, tree;
    }

    /** The body of the loop over one listing. */
    method Visit(remoteDir: Path, localDir: Path, depth: nat, item: Item) returns (ok: bool, ghost c: Child)
      requires WithinLimit()
      modifies this, session
      ensures session.calls - old(session.calls) <= MAX_TREE_ITEMS - old(ItemCount())
      ensures ok ==> Taken(safe, session.oracle, old(session.calls), remoteDir, depth, old(ItemCount()), item, c)
      ensures ok ==> session.calls == old(session.calls) + |OwnAnswers(remoteDir, c)|
      ensures ok ==> Now() == PlanWith(old(Now()), localDir, remoteDir, c) && WithinLimit()
      ensures !ok ==> Refused(safe, session.oracle, old(session.calls), remoteDir, depth, old(ItemCount()), item)
      decreases MAX_TREE_ITEMS - ItemCount(), 0
    {
      c := Skipped(item);
      if item.isSymlink {
        skippedSymlinks := skippedSymlinks + 1;
        return true, c;
      }
      if !safe(item.name) { return false, c; }
      if item.isDirectory {
        localDirs := localDirs + [localDir + [item.name]];
        if !WithinLimit() { return false, c; }
        ghost var below: seq<Child>;
        ok, below := Walk(remoteDir + [item.name], localDir + [item.name], depth + 1);
        c := Folder(item, below);
        return;
      }
      requests := requests + [Request(localDir + [item.name], remoteDir + [item.name])];
      ok, c := WithinLimit(), Leaf(item);
    }
  }

  lemma AnswerNeeded(safe: string -> bool, oracle: Oracle, at: nat, path: Path, depth: nat, count: nat)
    requires oracle(at, path).None?
    ensures NoTree(safe, oracle, at, path, depth, count)
  {
    forall t: seq<Child> ensures !Serves(oracle, at, Answers(path, t)) {
      if Serves(oracle, at, Answers(path, t)) { FirstAnswer(oracle, at, path, t); }
    }
  }

  lemma WalkEnds(safe: string -> bool, oracle: Oracle, at: nat, path: Path, depth: nat, count: nat, items: seq<Item>,
                 tree: seq<Child>)
    requires WalkedTo(safe, oracle, at, path, depth, count, items, tree) && |tree| == |items|
    ensures Fits(safe, tree, depth, count) && Serves(oracle, at, Answers(path, tree))
  {
    assert Items(tree) == items;
    var first := Answer(path, items);
    assert [first][..0] == [] && Serves(oracle, at, [first]);
    ServesBoth(oracle, at, [first], Below(path, tree));
  }

  // ----- The download plan -----

  /** The finite tree that the server's answers from call `at` on describe, if it is within the limits. */
  ghost predicate IsTree(safe: string -> bool, oracle: Oracle, at: nat, remoteRoot: Path, t: seq<Child>)
  {
    Shaped(t) && Serves(oracle, at, Answers(remoteRoot, t)) && WithinLimits(safe, t, 0, 1)
  }

  function RootPlan(localRoot: Path): Plan
  {
    Plan([], [localRoot], 0)
  }

  /**
   * `buildDownloadPlan`. It succeeds exactly when the answers describe a tree within the limits, and plans that tree.
   */
  method BuildDownloadPlan(session: Session, safe: string -> bool, localRoot: Path, remoteRoot: Path)
    returns (plan: Option<Plan>)
    modifies session
    ensures session.calls - old(session.calls) <= 10000
    ensures plan.Some? <==> exists t :: IsTree(safe, session.oracle, old(session.calls), remoteRoot, t)
    ensures forall t :: IsTree(safe, session.oracle, old(session.calls), remoteRoot, t) ==>
                        plan == Some(PlanAfter(RootPlan(localRoot), localRoot, remoteRoot, t)) &&
                        Counts(plan.value, Answers(remoteRoot, t)) && InWalkOrder(plan.value, localRoot, remoteRoot, t)
    ensures plan.Some? ==> |plan.value.requests| + |plan.value.localDirs| <= 10000 && Shallow(plan.value, localRoot)
  {
    ghost var at := session.calls;
    var planner := new Planner(session, safe, localRoot);
    var ok, tree := planner.Walk(remoteRoot, localRoot, 0);
    forall t ensures IsTree(safe, session.oracle, at, remoteRoot, t) <==> ok && t == tree {
      FitsIsWithinLimits(safe, t, 0, 1);
      if ok && Shaped(t) && Serves(session.oracle, at, Answers(remoteRoot, t)) {
        SameTree(session.oracle, at, remoteRoot, t, tree);
      }
    }
    if !ok { return None; }
    assert IsTree(safe, session.oracle, at, remoteRoot, tree);
    PlanIsShallow(safe, tree, localRoot, remoteRoot);
    PlanCounts(localRoot, remoteRoot, tree);
    PlanIsInOrder(localRoot, remoteRoot, tree);
    return Some(planner.Now());
  }

  /** Following the names of `rel` down the tree leads to a directory, or to a file. */
  predicate Leads(es: seq<Child>, rel: Path, directory: bool)
    decreases rel
  {
    rel != [] &&
    exists i :: 0 <= i < |es| && !es[i].Skipped? && es[i].item.name == rel[0] &&
                if |rel| == 1 then es[i].Folder? == directory
                else es[i].Folder? && Leads(es[i].below, rel[1..], directory)
  }

  /** One more item adds the ways through it. */
  lemma LeadsExtends(init: seq<Child>, c: Child, rel: Path, directory: bool)
    ensures Leads(init + [c], rel, directory) <==>
            Leads(init, rel, directory) ||
            (rel != [] && !c.Skipped? && c.item.name == rel[0] &&
             if |rel| == 1 then c.Folder? == directory else c.Folder? && Leads(c.below, rel[1..], directory))
  {
    var es := init + [c];
    assert es[|init|] == c;
    if rel != [] && Leads(init, rel, directory) {
      var i :| 0 <= i < |init| && !init[i].Skipped? && init[i].item.name == rel[0] &&
               if |rel| == 1 then init[i].Folder? == directory
               else init[i].Folder? && Leads(init[i].below, rel[1..], directory);
      assert es[i] == init[i];
    }
  }

  lemma {:induction false} DirsInside(base: Path, es: seq<Child>, d: Path)
    requires d in Dirs(base, es)
    ensures base < d
    decreases es
  {
    var init, last := es[..|es| - 1], es[|es| - 1];
    if d in Dirs(base, init) {
      DirsInside(base, init, d);
    } else if d != base + [last.item.name] {
      DirsInside(base + [last.item.name], last.below, d);
    }
  }

  lemma OwnDirs(base: Path, name: string, below: seq<Child>, rel: Path)
    ensures base + rel in [base + [name]] + Dirs(base + [name], below) <==>
            rel != [] && rel[0] == name && (|rel| == 1 || base + [name] + rel[1..] in Dirs(base + [name], below))
  {
    var d, own := base + rel, base + [name];
    if d in Dirs(own, below) {
      DirsInside(own, below, d);
      assert d[|base|] == name;
    }
    assert d == own <==> rel == [name] by {
      assert d[|base|..] == rel && own[|base|..] == [name];
    }
    if rel != [] {
      assert d[|base|] == rel[0];
      assert rel[0] == name ==> d == own + rel[1..];
    }
    if |rel| == 1 { assert rel == [rel[0]]; }
  }

  /** The planned directories are exactly those the tree leads to. */
  lemma {:induction false} DirsAreExactly(base: Path, es: seq<Child>, rel: Path)
    ensures base + rel in Dirs(base, es) <==> Leads(es, rel, true)
    decreases es
  {
    if es != [] {
      var init, last := es[..|es| - 1], es[|es| - 1];
      assert es == init + [last];
      DirsAreExactly(base, init, rel);
      LeadsExtends(init, last, rel, true);
      if last.Folder? {
        OwnDirs(base, last.item.name, last.below, rel);
        if |rel| > 1 { DirsAreExactly(base + [last.item.name], last.below, rel[1..]); }
      }
    }
  }

  /** A way to a directory passes at most `Height` names, a way to a file one more. */
  lemma {:induction false} WayWithinHeight(es: seq<Child>, rel: Path, directory: bool)
    requires Leads(es, rel, directory)
    ensures |rel| <= Height(es) + if directory then 0 else 1
    decreases es
  {
    assert es != [];
    var init, last := es[..|es| - 1], es[|es| - 1];
    assert es == init + [last];
    LeadsExtends(init, last, rel, directory);
    if Leads(init, rel, directory) {
      WayWithinHeight(init, rel, directory);
    } else if |rel| > 1 {
      WayWithinHeight(last.below, rel[1..], directory);
    }
  }

  /** No planned directory lies more than 64 levels below the root, and no file more than 65. */
  predicate Shallow(plan: Plan, localRoot: Path)
  {
    (forall d :: d in plan.localDirs ==> localRoot <= d && |d| - |localRoot| <= 64) &&
    forall r :: r in plan.requests ==> localRoot < r.local && |r.local| - |localRoot| <= 65
  }

  lemma DirIsShallow(localRoot: Path, t: seq<Child>, d: Path)
    requires d in Dirs(localRoot, t)
    ensures localRoot <= d && |d| - |localRoot| <= Height(t)
  {
    DirsInside(localRoot, t, d);
    var rel := d[|localRoot|..];
    assert d == localRoot + rel;
    DirsAreExactly(localRoot, t, rel);
    WayWithinHeight(t, rel, true);
  }

  lemma FileIsShallow(localRoot: Path, remoteRoot: Path, t: seq<Child>, r: Request)
    requires r in FilesBelow(localRoot, remoteRoot, t)
    ensures localRoot < r.local && |r.local| - |localRoot| <= Height(t) + 1
  {
    FilesArePaired(localRoot, remoteRoot, t, r);
    var rel := r.local[|localRoot|..];
    assert r == Request(localRoot + rel, remoteRoot + rel);
    FilesAreExactly(localRoot, remoteRoot, t, rel);
    WayWithinHeight(t, rel, false);
  }

  lemma PlanIsShallow(safe: string -> bool, t: seq<Child>, localRoot: Path, remoteRoot: Path)
    requires WithinLimits(safe, t, 0, 1)
    ensures Shallow(PlanAfter(RootPlan(localRoot), localRoot, remoteRoot, t), localRoot)
  {
    forall d | d in Dirs(localRoot, t) ensures localRoot <= d && |d| - |localRoot| <= 64 {
      DirIsShallow(localRoot, t, d);
    }
    forall r | r in FilesBelow(localRoot, remoteRoot, t)
      ensures localRoot < r.local && |r.local| - |localRoot| <= 65
    {
      FileIsShallow(localRoot, remoteRoot, t, r);
    }
  }

  /** Both sides of a planned transfer are the same place below their roots. */
  predicate Paired(local: Path, remote: Path, r: Request)
  {
    local < r.local && remote < r.remote && r.local[|local|..] == r.remote[|remote|..]
  }

  lemma PairedBelow(local: Path, remote: Path, name: string, r: Request)
    requires Paired(local + [name], remote + [name], r)
    ensures Paired(local, remote, r) && r.local[|local|] == name
  {
    var rel := r.local[|local| + 1..];
    assert r.local == local + [name] + rel && r.remote == remote + [name] + rel;
    assert r.local[|local|..] == [name] + rel == r.remote[|remote|..];
  }

  /** Every planned transfer pairs the same place on both sides. */
  lemma {:induction false} FilesArePaired(local: Path, remote: Path, es: seq<Child>, r: Request)
    requires r in FilesBelow(local, remote, es)
    ensures Paired(local, remote, r)
    decreases es
  {
    var init, last := es[..|es| - 1], es[|es| - 1];
    if r in FilesBelow(local, remote, init) {
      FilesArePaired(local, remote, init, r);
    } else if last.Folder? {
      FilesArePaired(local + [last.item.name], remote + [last.item.name], last.below, r);
      PairedBelow(local, remote, last.item.name, r);
    } else {
      assert r.local[|local|..] == [last.item.name] == r.remote[|remote|..];
    }
  }

  lemma OwnFiles(local: Path, remote: Path, name: string, below: seq<Child>, rel: Path)
    ensures Request(local + rel, remote + rel) in FilesBelow(local + [name], remote + [name], below) <==>
            |rel| > 1 && rel[0] == name &&
            Request(local + [name] + rel[1..], remote + [name] + rel[1..]) in
            FilesBelow(local + [name], remote + [name], below)
  {
    var r := Request(local + rel, remote + rel);
    if r in FilesBelow(local + [name], remote + [name], below) {
      FilesArePaired(local + [name], remote + [name], below, r);
      assert r.local[|local|] == name;
    }
    if rel != [] && rel[0] == name {
      assert local + [name] + rel[1..] == local + rel && remote + [name] + rel[1..] == remote + rel;
    }
  }

  /** The planned transfers are exactly the files the tree leads to. */
  lemma {:induction false} FilesAreExactly(local: Path, remote: Path, es: seq<Child>, rel: Path)
    ensures Request(local + rel, remote + rel) in FilesBelow(local, remote, es) <==> Leads(es, rel, false)
    decreases es
  {
    if es != [] {
      var init, last := es[..|es| - 1], es[|es| - 1];
      assert es == init + [last];
      FilesAreExactly(local, remote, init, rel);
      LeadsExtends(init, last, rel, false);
      if last.Folder? {
        OwnFiles(local, remote, last.item.name, last.below, rel);
        if |rel| > 1 { FilesAreExactly(local + [last.item.name], remote + [last.item.name], last.below, rel[1..]); }
      } else if last.Leaf? {
        OneFile(local, remote, last.item.name, rel);
      }
    }
  }

  lemma OneFile(local: Path, remote: Path, name: string, rel: Path)
    ensures Request(local + rel, remote + rel) == Request(local + [name], remote + [name]) <==> rel == [name]
  {
    assert (local + rel)[|local|..] == rel && (local + [name])[|local|..] == [name];
  }
}
