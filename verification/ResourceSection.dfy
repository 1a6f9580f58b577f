/**
 * The `.rsrc` section writer of scripts/pe_resources.py: a three-level directory tree laid out in two
 * passes and written with back-references, and an independent reader of the format ("The .rsrc Section"
 * of Microsoft's PE Format specification).
 */
module ResourceSection {
  import opened Wrappers
  import opened Bytes
  import opened Sorting

  const HIGH_BIT: nat := 0x8000_0000

  /** What a resource directory means, without offsets. */
  datatype Resource = Directory(entries: seq<Entry>) | Data(payload: seq<Byte>)
  datatype Entry = Entry(id: nat, content: Resource)

  /** The argument of the writer: resource type to list of (id, payload), in dictionary order. */
  type ResourceTable = seq<(nat, seq<(nat, seq<Byte>)>)>

  function LanguageDirectory(payload: seq<Byte>): Resource
  {
    Directory([Entry(LANG_EN_US, Data(payload))])
  }

  function TypeDirectory(items: seq<(nat, seq<Byte>)>): Resource
  {
    var s := SortByKey(items);
    Directory(seq(|s|, i requires 0 <= i < |s| => Entry(s[i].0, LanguageDirectory(s[i].1))))
  }

  /** The three-level tree of a table: types ascending, ids ascending, one English entry each. */
  function TreeOf(table: ResourceTable): Resource
  {
    var s := SortByKey(table);
    Directory(seq(|s|, i requires 0 <= i < |s| => Entry(s[i].0, TypeDirectory(s[i].1))))
  }

  // ----- The reader -----

  /** The resource a directory entry's target field refers to, following at most `depth` directories. */
  function ReadTarget(b: seq<Byte>, rva: nat, target: nat, depth: nat): Option<Resource>
    decreases depth, 1, 0
  {
    if target >= 0x8000_0000 then
      if depth == 0 then None else ReadDirectory(b, rva, target - 0x8000_0000, depth)
    else ReadData(b, rva, target)
  }

  function ReadData(b: seq<Byte>, rva: nat, off: nat): Option<Resource>
  {
    if off + 16 > |b| then None else
    var address, size := U32At(b, off), U32At(b, off + 4);
    if address < rva || address - rva + size > |b| then None
    else Some(Data(b[address - rva..address - rva + size]))
  }

  /** The directory table at `off`: its header, then its entries; named entries are not understood. */
  function ReadDirectory(b: seq<Byte>, rva: nat, off: nat, depth: nat): Option<Resource>
    requires depth > 0
    decreases depth, 0, 0
  {
    if off + 16 > |b| || U16At(b, off + 12) != 0 || off + 16 + 8 * U16At(b, off + 14) > |b| then None else
    var entries := ReadEntries(b, rva, off + 16, U16At(b, off + 14), depth - 1);
    if entries == None then None else Some(Directory(entries.value))
  }

  lemma DirectoryNeedsHeader(b: seq<Byte>, rva: nat, off: nat, depth: nat)
    requires depth > 0 && ReadDirectory(b, rva, off, depth).Some?
    ensures off + 16 <= |b|
  {
  }

  function ReadEntries(b: seq<Byte>, rva: nat, off: nat, count: nat, depth: nat): Option<seq<Entry>>
    requires off + 8 * count <= |b|
    decreases depth, 2, count
  {
    if count == 0 then Some([]) else
    var before := ReadEntries(b, rva, off, count - 1, depth);
    var at := off + 8 * (count - 1);
    var last := ReadTarget(b, rva, U32At(b, at + 4), depth);
    if before == None || last == None then None
    else Some(before.value + [Entry(U32At(b, at), last.value)])
  }

  // ----- The objects of the writer -----

  class Leaf {
    const payload: seq<Byte>
    var dataEntryOffset: nat
    var payloadOffset: nat

    constructor (payload: seq<Byte>)
      ensures this.payload == payload
    {
      this.payload := payload;
      dataEntryOffset, payloadOffset := 0, 0;
    }
  }

  class Node {
    const entries: seq<(nat, Child)>
    var offset: nat

    constructor (entries: seq<(nat, Child)>)
      ensures this.entries == entries
    {
      this.entries := entries;
      offset := 0;
    }
  }

  datatype Child = Sub(node: Node) | End(leaf: Leaf)

  /** The object graph below `n` is exactly the tree `t`. */
  ghost predicate Shape(n: Node, t: Resource)
    decreases t, 0
  {
    t.Directory? && |n.entries| == |t.entries| &&
    forall i :: 0 <= i < |t.entries| ==>
      n.entries[i].0 == t.entries[i].id && ChildShape(n.entries[i].1, t.entries[i].content)
  }

  ghost predicate ChildShape(c: Child, t: Resource)
    decreases t, 1
  {
    match c
    case Sub(node) => Shape(node, t)
    case End(leaf) => t == Data(leaf.payload)
  }

  ghost predicate EntriesShape(es: seq<(nat, Child)>, ts: seq<Entry>)
  {
    |es| == |ts| && forall i :: 0 <= i < |ts| ==> es[i].0 == ts[i].id && ChildShape(es[i].1, ts[i].content)
  }

  /** The directory objects in the order of the walk. */
  ghost function Nodes(n: Node, t: Resource): seq<Node>
    requires Shape(n, t)
    decreases t
  {
    [n] + NodesOf(n.entries, t.entries)
  }

  ghost function NodesOf(es: seq<(nat, Child)>, ts: seq<Entry>): seq<Node>
    requires EntriesShape(es, ts)
    decreases ts
  {
    if ts == [] then [] else
    var k := |ts| - 1;
    assert ts[k].content < ts[k];
    NodesOf(es[..k], ts[..k]) + if es[k].1.Sub? then Nodes(es[k].1.node, ts[k].content) else []
  }

  ghost function Leaves(n: Node, t: Resource): seq<Leaf>
    requires Shape(n, t)
    decreases t
  {
    LeavesOf(n.entries, t.entries)
  }

  ghost function LeavesOf(es: seq<(nat, Child)>, ts: seq<Entry>): seq<Leaf>
    requires EntriesShape(es, ts)
    decreases ts
  {
    if ts == [] then [] else
    var k := |ts| - 1;
    assert ts[k].content < ts[k];
    LeavesOf(es[..k], ts[..k]) + if es[k].1.Sub? then Leaves(es[k].1.node, ts[k].content) else [es[k].1.leaf]
  }

  predicate Distinct<T(==)>(s: seq<T>)
  {
    forall i, j :: 0 <= i < j < |s| ==> s[i] != s[j]
  }

  lemma WalkAppend(es: seq<(nat, Child)>, ts: seq<Entry>, e: (nat, Child), t: Entry)
    requires EntriesShape(es, ts) && e.0 == t.id && ChildShape(e.1, t.content)
    ensures EntriesShape(es + [e], ts + [t])
    ensures NodesOf(es + [e], ts + [t]) == NodesOf(es, ts) + if e.1.Sub? then Nodes(e.1.node, t.content) else []
    ensures LeavesOf(es + [e], ts + [t]) ==
            LeavesOf(es, ts) + if e.1.Sub? then Leaves(e.1.node, t.content) else [e.1.leaf]
  {
    assert (es + [e])[..|es|] == es && (ts + [t])[..|ts|] == ts;
  }

  lemma DistinctConcat<T>(a: seq<T>, b: seq<T>)
    requires Distinct(a) && Distinct(b)
    requires forall x :: x in b ==> x !in a
    ensures Distinct(a + b)
  {
    forall i, j | 0 <= i < j < |a + b| ensures (a + b)[i] != (a + b)[j] {
      if i < |a| <= j {
        assert (a + b)[i] in a && (a + b)[j] in b;
      }
    }
  }

  /** The walk below a growing list of entries, without repetition. */
  ghost predicate WalkSoFar(es: seq<(nat, Child)>, ts: seq<Entry>, nodes: seq<Node>, leaves: seq<Leaf>)
  {
    EntriesShape(es, ts) && nodes == NodesOf(es, ts) && leaves == LeavesOf(es, ts) && Distinct(nodes) &&
    Distinct(leaves)
  }

  /** The directories and leaves below `node`, in walk order and without repetition. */
  ghost predicate IsWalk(node: Node, t: Resource, nodes: seq<Node>, leaves: seq<Leaf>)
  {
    Shape(node, t) && nodes == Nodes(node, t) && leaves == Leaves(node, t) && Distinct(nodes) && Distinct(leaves)
  }

  lemma WalkGrows(es: seq<(nat, Child)>, ts: seq<Entry>, nodes: seq<Node>, leaves: seq<Leaf>, id: nat, node: Node,
                  t: Entry,
                  newNodes: seq<Node>, newLeaves: seq<Leaf>)
    requires WalkSoFar(es, ts, nodes, leaves) && id == t.id && IsWalk(node, t.content, newNodes, newLeaves)
    requires (forall n :: n in newNodes ==> n !in nodes) && (forall l :: l in newLeaves ==> l !in leaves)
    ensures WalkSoFar(es + [(id, Sub(node))], ts + [t], nodes + newNodes, leaves + newLeaves)
  {
    WalkAppend(es, ts, (id, Sub(node)), t);
    DistinctConcat(nodes, newNodes);
    DistinctConcat(leaves, newLeaves);
  }

  method MakeLanguageNode(payload: seq<Byte>) returns (language: Node, ghost leaf: Leaf)
    ensures fresh(language) && fresh(leaf)
    ensures IsWalk(language, LanguageDirectory(payload), [language], [leaf])
  {
    var end := new Leaf(payload);
    leaf := end;
    language := new Node([(LANG_EN_US, End(end))]);
    LanguageNodeShape(language, leaf);
  }

  method MakeTypeNode(items: seq<(nat, seq<Byte>)>)
    returns (node: Node, ghost nodes: seq<Node>, ghost leaves: seq<Leaf>)
    ensures IsWalk(node, TypeDirectory(items), nodes, leaves)
    ensures (forall n :: n in nodes ==> fresh(n)) && (forall l :: l in leaves ==> fresh(l))
  {
    var sorted := SortByKey(items);
    ghost var ts := TypeDirectory(items).entries;
    var entries: seq<(nat, Child)> := [];
    nodes, leaves := [], [];
    for i := 0 to |sorted|
      invariant WalkSoFar(entries, ts[..i], nodes, leaves)
      invariant forall n :: n in nodes ==> fresh(n)
      invariant forall l :: l in leaves ==> fresh(l)
    {
      ghost var leaf: Leaf;
      var language: Node;
      language, leaf := MakeLanguageNode(sorted[i].1);
      WalkGrows(entries, ts[..i], nodes, leaves, sorted[i].0, language, ts[i], [language], [leaf]);
      entries := entries + [(sorted[i].0, Sub(language))];
      nodes, leaves := nodes + [language], leaves + [leaf];
      assert ts[..i + 1] == ts[..i] + [ts[i]];
    }
    assert ts[..|sorted|] == ts;
    node := new Node(entries);
    RootOfWalk(node, TypeDirectory(items), nodes, leaves);
    nodes := [node] + nodes;
  }

  lemma RootOfWalk(node: Node, t: Resource, nodes: seq<Node>, leaves: seq<Leaf>)
    requires t.Directory? && WalkSoFar(node.entries, t.entries, nodes, leaves) && node !in nodes
    ensures IsWalk(node, t, [node] + nodes, leaves)
  {
    DistinctConcat([node], nodes);
  }

  lemma LanguageNodeShape(language: Node, leaf: Leaf)
    requires language.entries == [(LANG_EN_US, End(leaf))]
    ensures Shape(language, LanguageDirectory(leaf.payload))
    ensures Nodes(language, LanguageDirectory(leaf.payload)) == [language]
    ensures Leaves(language, LanguageDirectory(leaf.payload)) == [leaf]
  {
    var t := LanguageDirectory(leaf.payload);
    assert ChildShape(language.entries[0].1, t.entries[0].content);
    assert NodesOf(language.entries[..0], t.entries[..0]) == [];
    assert LeavesOf(language.entries[..0], t.entries[..0]) == [];
  }

  method MakeResourceTree(table: ResourceTable) returns (root: Node, ghost nodes: seq<Node>, ghost leaves: seq<Leaf>)
    ensures IsWalk(root, TreeOf(table), nodes, leaves)
    ensures (forall n :: n in nodes ==> fresh(n)) && (forall l :: l in leaves ==> fresh(l))
  {
    var sorted := SortByKey(table);
    ghost var ts := TreeOf(table).entries;
    var entries: seq<(nat, Child)> := [];
    nodes, leaves := [], [];
    for i := 0 to |sorted|
      invariant WalkSoFar(entries, ts[..i], nodes, leaves)
      invariant forall n :: n in nodes ==> fresh(n)
      invariant forall l :: l in leaves ==> fresh(l)
    {
      var typeNode, newNodes, newLeaves := MakeTypeNode(sorted[i].1);
      assert ts[i].content == TypeDirectory(sorted[i].1);
      WalkGrows(entries, ts[..i], nodes, leaves, sorted[i].0, typeNode, ts[i], newNodes, newLeaves);
      entries := entries + [(sorted[i].0, Sub(typeNode))];
      nodes, leaves := nodes + newNodes, leaves + newLeaves;
      assert ts[..i + 1] == ts[..i] + [ts[i]];
    }
    assert ts[..|sorted|] == ts;
    root := new Node(entries);
    RootOfWalk(root, TreeOf(table), nodes, leaves);
    nodes := [root] + nodes;
  }

  method WalkNodes(root: Node, ghost t: Resource) returns (nodes: seq<Node>, leaves: seq<Leaf>)
    requires Shape(root, t)
    ensures nodes == Nodes(root, t) && leaves == Leaves(root, t)
  {
    nodes, leaves := Visit(root, t, [], []);
  }

  method Visit(node: Node, ghost t: Resource, nodes0: seq<Node>, leaves0: seq<Leaf>)
    returns (nodes: seq<Node>, leaves: seq<Leaf>)
    requires Shape(node, t)
    ensures nodes == nodes0 + Nodes(node, t) && leaves == leaves0 + Leaves(node, t)
    decreases t
  {
    nodes, leaves := nodes0 + [node], leaves0;
    var es := node.entries;
    ghost var ts, base := t.entries, nodes;
    for i := 0 to |es|
      invariant nodes == base + NodesOf(es[..i], ts[..i])
      invariant leaves == leaves0 + LeavesOf(es[..i], ts[..i])
    {
      VisitStep(es, ts, i);
      if es[i].1.Sub? {
        ghost var child := es[i].1.node;
        nodes, leaves := Visit(es[i].1.node, ts[i].content, nodes, leaves);
        ConcatAssociates(base, NodesOf(es[..i], ts[..i]), Nodes(child, ts[i].content));
        ConcatAssociates(leaves0, LeavesOf(es[..i], ts[..i]), Leaves(child, ts[i].content));
      } else {
        leaves := leaves + [es[i].1.leaf];
        ConcatAssociates(leaves0, LeavesOf(es[..i], ts[..i]), [es[i].1.leaf]);
      }
    }
    assert es[..|es|] == es && ts[..|ts|] == ts;
    ConcatAssociates(nodes0, [node], NodesOf(es, ts));
  }

  lemma VisitStep(es: seq<(nat, Child)>, ts: seq<Entry>, i: nat)
    requires EntriesShape(es, ts) && i < |es|
    ensures EntriesShape(es[..i], ts[..i]) && EntriesShape(es[..i + 1], ts[..i + 1]) && ts[i].content < ts[i]
    ensures ChildShape(es[i].1, ts[i].content)
    ensures NodesOf(es[..i + 1], ts[..i + 1]) ==
            NodesOf(es[..i], ts[..i]) + if es[i].1.Sub? then Nodes(es[i].1.node, ts[i].content) else []
    ensures LeavesOf(es[..i + 1], ts[..i + 1]) ==
            LeavesOf(es[..i], ts[..i]) + if es[i].1.Sub? then Leaves(es[i].1.node, ts[i].content) else [es[i].1.leaf]
  {
    WalkAppend(es[..i], ts[..i], es[i], ts[i]);
    assert es[..i + 1] == es[..i] + [es[i]] && ts[..i + 1] == ts[..i] + [ts[i]];
  }

  // ----- Layout -----

  /** Entry counts of the directory tables, in the order of the walk. */
  function Tables(t: Resource): seq<nat>
    requires t.Directory?
    decreases t
  {
    [|t.entries|] + TablesOf(t.entries)
  }

  function TablesOf(ts: seq<Entry>): seq<nat>
    decreases ts
  {
    if ts == [] then [] else
    var k := |ts| - 1;
    assert ts[k].content < ts[k];
    TablesOf(ts[..k]) + if ts[k].content.Directory? then Tables(ts[k].content) else []
  }

  /** The payloads, in the order of the walk. */
  function Payloads(ts: seq<Entry>): seq<seq<Byte>>
    decreases ts
  {
    if ts == [] then [] else
    var k := |ts| - 1;
    assert ts[k].content < ts[k];
    Payloads(ts[..k]) +
    match ts[k].content
    case Directory(entries) => Payloads(entries)
    case Data(payload) => [payload]
  }

  /** Where table `k` starts: tables follow each other without gaps. */
  function TableStart(tables: seq<nat>, k: nat): nat
    requires k <= |tables|
  {
    if k == 0 then 0 else TableStart(tables, k - 1) + 16 + 8 * tables[k - 1]
  }

  /** Where data entry `k` starts. */
  function EntryStart(tables: seq<nat>, k: nat): nat
  {
    Align4(TableStart(tables, |tables|)) + 16 * k
  }

  /** Where payload `k` starts; for `k` the number of payloads, the size of the section. */
  function PayloadStart(tables: seq<nat>, payloads: seq<seq<Byte>>, k: nat): nat
    requires k <= |payloads|
  {
    if k == 0 then Align4(EntryStart(tables, |payloads|))
    else Align4(PayloadStart(tables, payloads, k - 1) + |payloads[k - 1]|)
  }

  lemma {:induction false} TablesAscend(tables: seq<nat>, i: nat, j: nat)
    requires i < j <= |tables|
    ensures TableStart(tables, i) + 16 + 8 * tables[i] <= TableStart(tables, j)
    ensures Aligned(TableStart(tables, i))
    decreases j
  {
    if i < j - 1 {
      TablesAscend(tables, i, j - 1);
    } else if i > 0 {
      TablesAscend(tables, i - 1, i);
      TableStartsAligned(tables, i);
    }
  }

  lemma {:induction false} TableStartsAligned(tables: seq<nat>, k: nat)
    requires k <= |tables|
    ensures Aligned(TableStart(tables, k))
  {
    if k > 0 {
      TableStartsAligned(tables, k - 1);
      AlignedMultiple(4 + 2 * tables[k - 1]);
      PadShift(TableStart(tables, k - 1), 16 + 8 * tables[k - 1]);
    }
  }

  lemma EntryStartsAligned(tables: seq<nat>, k: nat)
    ensures Aligned(EntryStart(tables, k))
  {
    PadReaches(TableStart(tables, |tables|));
    AlignedMultiple(4 * k);
    PadShift(Align4(TableStart(tables, |tables|)), 16 * k);
  }

  lemma {:induction false} PayloadsAscend(tables: seq<nat>, payloads: seq<seq<Byte>>, i: nat, j: nat)
    requires i < j <= |payloads|
    ensures PayloadStart(tables, payloads, i) + |payloads[i]| <= PayloadStart(tables, payloads, j)
    ensures Aligned(PayloadStart(tables, payloads, i))
    ensures EntryStart(tables, |payloads|) <= PayloadStart(tables, payloads, i)
    decreases j
  {
    if i < j - 1 {
      PayloadsAscend(tables, payloads, i, j - 1);
    } else if i > 0 {
      PayloadsAscend(tables, payloads, i - 1, i);
      PadReaches(PayloadStart(tables, payloads, i - 1) + |payloads[i - 1]|);
    } else {
      PadReaches(EntryStart(tables, |payloads|));
    }
  }

  /** `tables` are the entry counts of the directory objects `nodes`. */
  ghost predicate Counted(nodes: seq<Node>, tables: seq<nat>)
  {
    |tables| == |nodes| && forall i {:trigger nodes[i].entries} :: 0 <= i < |nodes| ==> tables[i] == |nodes[i].entries|
  }

  ghost predicate Carried(leaves: seq<Leaf>, payloads: seq<seq<Byte>>)
  {
    |payloads| == |leaves| &&
    forall i {:trigger leaves[i].payload} :: 0 <= i < |leaves| ==> payloads[i] == leaves[i].payload
  }

  lemma {:induction false} WalkMatches(n: Node, t: Resource)
    requires Shape(n, t)
    ensures Counted(Nodes(n, t), Tables(t))
    ensures Carried(Leaves(n, t), Payloads(t.entries))
    decreases t
  {
    WalkOfMatches(n.entries, t.entries);
  }

  lemma {:induction false} WalkOfMatches(es: seq<(nat, Child)>, ts: seq<Entry>)
    requires EntriesShape(es, ts)
    ensures Counted(NodesOf(es, ts), TablesOf(ts))
    ensures Carried(LeavesOf(es, ts), Payloads(ts))
    decreases ts
  {
    if ts != [] {
      var k := |ts| - 1;
      assert ts[k].content < ts[k];
      WalkOfMatches(es[..k], ts[..k]);
      match es[k].1
      case Sub(node) =>
        WalkMatches(node, ts[k].content);
      case End(leaf) =>
    }
  }

  /** The first pass: every table, data entry and payload gets its place. */
  method AssignOffsets(nodes: seq<Node>, leaves: seq<Leaf>, ghost tables: seq<nat>, ghost payloads: seq<seq<Byte>>)
    returns (size: nat)
    requires Distinct(nodes) && Distinct(leaves)
    requires Counted(nodes, tables) && Carried(leaves, payloads)
    modifies nodes, leaves
    ensures forall k :: 0 <= k < |nodes| ==> nodes[k].offset == TableStart(tables, k)
    ensures forall k :: 0 <= k < |leaves| ==> leaves[k].dataEntryOffset == EntryStart(tables, k)
    ensures forall k :: 0 <= k < |leaves| ==> leaves[k].payloadOffset == PayloadStart(tables, payloads, k)
    ensures size == PayloadStart(tables, payloads, |leaves|)
  {
    var cursor := AssignTables(nodes, tables);
    Align4IsAlign(cursor);
    cursor := Align(cursor, 4);
    cursor := AssignDataEntries(leaves, cursor, tables);
    Align4IsAlign(cursor);
    cursor := Align(cursor, 4);
    size := AssignPayloads(leaves, cursor, tables, payloads);
  }

  method AssignTables(nodes: seq<Node>, ghost tables: seq<nat>) returns (cursor: nat)
    requires Distinct(nodes) && Counted(nodes, tables)
    modifies nodes
    ensures cursor == TableStart(tables, |nodes|)
    ensures forall k :: 0 <= k < |nodes| ==> nodes[k].offset == TableStart(tables, k)
  {
    cursor := 0;
    for i := 0 to |nodes|
      invariant cursor == TableStart(tables, i)
      invariant forall k :: 0 <= k < i ==> nodes[k].offset == TableStart(tables, k)
    {
      nodes[i].offset := cursor;
      cursor := cursor + 16 + 8 * |nodes[i].entries|;
    }
  }

  method AssignDataEntries(leaves: seq<Leaf>, start: nat, ghost tables: seq<nat>) returns (cursor: nat)
    requires Distinct(leaves) && start == EntryStart(tables, 0)
    modifies leaves
    ensures cursor == EntryStart(tables, |leaves|)
    ensures forall k :: 0 <= k < |leaves| ==> leaves[k].dataEntryOffset == EntryStart(tables, k)
  {
    cursor := start;
    for i := 0 to |leaves|
      invariant cursor == start + 16 * i
      invariant forall k :: 0 <= k < i ==> leaves[k].dataEntryOffset == start + 16 * k
    {
      leaves[i].dataEntryOffset := cursor;
      cursor := cursor + 16;
    }
  }

  method AssignPayloads(leaves: seq<Leaf>, start: nat, ghost tables: seq<nat>, ghost payloads: seq<seq<Byte>>)
    returns (cursor: nat)
    requires Distinct(leaves) && Carried(leaves, payloads) && start == PayloadStart(tables, payloads, 0)
    modifies leaves`payloadOffset
    ensures cursor == PayloadStart(tables, payloads, |leaves|)
    ensures forall k {:trigger leaves[k].payloadOffset} :: 0 <= k < |leaves| ==>
              leaves[k].payloadOffset == PayloadStart(tables, payloads, k)
  {
    cursor := start;
    for i := 0 to |leaves|
      invariant cursor == PayloadStart(tables, payloads, i)
      invariant forall k {:trigger leaves[k].payloadOffset} :: 0 <= k < i ==>
                  leaves[k].payloadOffset == PayloadStart(tables, payloads, k)
    {
      leaves[i].payloadOffset := cursor;
      cursor := cursor + |leaves[i].payload|;
      Align4IsAlign(cursor);
      cursor := Align(cursor, 4);
    }
  }

  // ----- What the second pass writes -----

  /** The places the first pass chose. */
  datatype Layout = Layout(table: map<Node, nat>, entry: map<Leaf, nat>, payload: map<Leaf, nat>)

  function OrHighBit(v: nat): nat
  {
    if v / HIGH_BIT % 2 == 1 then v else v + HIGH_BIT
  }

  ghost predicate Placed(c: Child, layout: Layout)
  {
    match c
    case Sub(node) => node in layout.table
    case End(leaf) => leaf in layout.entry
  }

  ghost function TargetOf(c: Child, layout: Layout): nat
    requires Placed(c, layout)
  {
    match c
    case Sub(node) => OrHighBit(layout.table[node])
    case End(leaf) => layout.entry[leaf]
  }

  ghost predicate EntryWritten(b: seq<Byte>, at: nat, id: nat, target: nat)
  {
    at + 8 <= |b| && U32At(b, at) == id && U32At(b, at + 4) == target
  }

  ghost predicate HeaderWritten(b: seq<Byte>, at: nat, count: nat)
  {
    at + 16 <= |b| && (forall k :: at <= k < at + 14 ==> b[k] == 0) && U16At(b, at + 14) == count
  }

  /** The header of `n` and its first `count` entries are written. */
  ghost predicate WrittenUpTo(b: seq<Byte>, n: Node, layout: Layout, count: nat)
    requires count <= |n.entries|
  {
    n in layout.table && HeaderWritten(b, layout.table[n], |n.entries|) &&
    layout.table[n] + 16 + 8 * |n.entries| <= |b| &&
    forall i :: 0 <= i < count ==>
      Placed(n.entries[i].1, layout) &&
      EntryWritten(b, layout.table[n] + 16 + 8 * i, n.entries[i].0, TargetOf(n.entries[i].1, layout))
  }

  ghost predicate NodeWritten(b: seq<Byte>, n: Node, layout: Layout)
  {
    WrittenUpTo(b, n, layout, |n.entries|)
  }

  ghost predicate LeafWritten(b: seq<Byte>, rva: nat, l: Leaf, layout: Layout)
  {
    l in layout.entry && l in layout.payload &&
    EntryWritten(b, layout.entry[l], rva + layout.payload[l], |l.payload|) &&
    layout.entry[l] + 16 <= |b| && U32At(b, layout.entry[l] + 8) == 0 && U32At(b, layout.entry[l] + 12) == 0 &&
    At(b, layout.payload[l], l.payload)
  }

  /** Every table and data entry below `n` is written and addressable with 31 bits. */
  ghost predicate Written(b: seq<Byte>, rva: nat, nodes: seq<Node>, leaves: seq<Leaf>, layout: Layout)
  {
    (forall m :: m in nodes ==> NodeWritten(b, m, layout) && layout.table[m] < HIGH_BIT) &&
    (forall l :: l in leaves ==> LeafWritten(b, rva, l, layout) && layout.entry[l] < HIGH_BIT)
  }

  lemma WrittenPrefix(b: seq<Byte>, rva: nat, someNodes: seq<Node>, someLeaves: seq<Leaf>,
                      nodes: seq<Node>, leaves: seq<Leaf>, layout: Layout)
    requires Written(b, rva, nodes, leaves, layout) && someNodes <= nodes && someLeaves <= leaves
    ensures Written(b, rva, someNodes, someLeaves, layout)
  {
    assert forall m :: m in someNodes ==> m in nodes;
    assert forall l :: l in someLeaves ==> l in leaves;
  }

  lemma WrittenSuffix(b: seq<Byte>, rva: nat, someNodes: seq<Node>, someLeaves: seq<Leaf>,
                      nodes: seq<Node>, leaves: seq<Leaf>, layout: Layout)
    requires Written(b, rva, nodes, leaves, layout)
    requires |someNodes| <= |nodes| && nodes[|nodes| - |someNodes|..] == someNodes
    requires |someLeaves| <= |leaves| && leaves[|leaves| - |someLeaves|..] == someLeaves
    ensures Written(b, rva, someNodes, someLeaves, layout)
  {
    assert forall m :: m in someNodes ==> m in nodes;
    assert forall l :: l in someLeaves ==> l in leaves;
  }

  predicate DepthAtMost(t: Resource, d: nat)
  {
    t.Data? || (d > 0 && forall i :: 0 <= i < |t.entries| ==> DepthAtMost(t.entries[i].content, d - 1))
  }

  /** Reading what was written below `n` gives back the tree below `n`. */
  lemma {:induction false} ReadsBack(b: seq<Byte>, rva: nat, n: Node, t: Resource, layout: Layout, depth: nat)
    requires Shape(n, t) && Written(b, rva, Nodes(n, t), Leaves(n, t), layout)
    requires DepthAtMost(t, depth)
    ensures depth > 0 && n in layout.table && ReadDirectory(b, rva, layout.table[n], depth) == Some(t)
    decreases t, 0
  {
    assert Nodes(n, t)[0] == n;
    assert NodeWritten(b, n, layout);
    ReadsBackEntries(b, rva, layout.table[n] + 16, n.entries, t.entries, layout, depth - 1);
  }

  /** The entries from `off` on carry the ids of `es` and point where the layout puts their children. */
  ghost predicate EntriesWritten(b: seq<Byte>, off: nat, es: seq<(nat, Child)>, layout: Layout)
  {
    off + 8 * |es| <= |b| &&
    forall i :: 0 <= i < |es| ==>
      Placed(es[i].1, layout) && EntryWritten(b, off + 8 * i, es[i].0, TargetOf(es[i].1, layout))
  }

  lemma {:induction false} ReadsBackEntries(b: seq<Byte>, rva: nat, off: nat, es: seq<(nat, Child)>,
                                            ts: seq<Entry>, layout: Layout, depth: nat)
    requires EntriesShape(es, ts) && Written(b, rva, NodesOf(es, ts), LeavesOf(es, ts), layout)
    requires EntriesWritten(b, off, es, layout)
    requires forall i :: 0 <= i < |ts| ==> DepthAtMost(ts[i].content, depth)
    ensures ReadEntries(b, rva, off, |es|, depth) == Some(ts)
    decreases ts, 1
  {
    if ts != [] {
      var k := |ts| - 1;
      assert ReadEntries(b, rva, off, k, depth) == Some(ts[..k]) by {
        WrittenPrefix(b, rva, NodesOf(es[..k], ts[..k]), LeavesOf(es[..k], ts[..k]), NodesOf(es, ts), LeavesOf(es, ts),
                      layout);
        ReadsBackEntries(b, rva, off, es[..k], ts[..k], layout, depth);
      }
      ReadsBackLast(b, rva, off, es, ts, layout, depth);
      assert ts == ts[..k] + [ts[k]];
    }
  }

  lemma {:induction false} ReadsBackLast(b: seq<Byte>, rva: nat, off: nat, es: seq<(nat, Child)>,
                                         ts: seq<Entry>, layout: Layout, depth: nat)
    requires EntriesShape(es, ts) && ts != [] && Written(b, rva, NodesOf(es, ts), LeavesOf(es, ts), layout)
    requires EntriesWritten(b, off, es, layout) && DepthAtMost(ts[|ts| - 1].content, depth)
    ensures var k := |ts| - 1;
            U32At(b, off + 8 * k) == ts[k].id &&
            ReadTarget(b, rva, U32At(b, off + 8 * k + 4), depth) == Some(ts[k].content)
    decreases ts, 0
  {
    var k := |ts| - 1;
    var c, t := es[k].1, ts[k].content;
    assert t < ts[k];
    if c.Sub? {
      WrittenSuffix(b, rva, Nodes(c.node, t), Leaves(c.node, t), NodesOf(es, ts), LeavesOf(es, ts), layout);
    } else {
      WrittenSuffix(b, rva, [], [c.leaf], NodesOf(es, ts), LeavesOf(es, ts), layout);
    }
    assert EntryWritten(b, off + 8 * k, es[k].0, TargetOf(c, layout));
    ReadsBackChild(b, rva, c, t, layout, depth);
  }

  lemma {:induction false} ReadsBackChild(b: seq<Byte>, rva: nat, c: Child, t: Resource, layout: Layout, depth: nat)
    requires ChildShape(c, t) && Placed(c, layout) && DepthAtMost(t, depth)
    requires c.Sub? ==> Written(b, rva, Nodes(c.node, t), Leaves(c.node, t), layout)
    requires c.End? ==> Written(b, rva, [], [c.leaf], layout)
    ensures ReadTarget(b, rva, TargetOf(c, layout), depth) == Some(t)
    decreases t, 1
  {
    match c
    case Sub(node) =>
      ReadsBack(b, rva, node, t, layout, depth);
      RootIsLow(b, rva, node, t, layout);
    case End(leaf) =>
      ReadsBackLeaf(b, rva, leaf, layout);
  }

  lemma RootIsLow(b: seq<Byte>, rva: nat, n: Node, t: Resource, layout: Layout)
    requires Shape(n, t) && Written(b, rva, Nodes(n, t), Leaves(n, t), layout)
    ensures n in layout.table && OrHighBit(layout.table[n]) == layout.table[n] + HIGH_BIT
  {
    assert Nodes(n, t)[0] == n;
    assert n in Nodes(n, t);
  }

  lemma ReadsBackLeaf(b: seq<Byte>, rva: nat, leaf: Leaf, layout: Layout)
    requires Written(b, rva, [], [leaf], layout)
    ensures leaf in layout.entry && layout.entry[leaf] < HIGH_BIT
    ensures ReadData(b, rva, layout.entry[leaf]) == Some(Data(leaf.payload))
  {
    assert leaf in [leaf];
    assert LeafWritten(b, rva, leaf, layout);
  }

  // ----- The second pass -----

  /** Bytes outside `lo..hi` of `b` are those of `a`. */
  ghost predicate SameOutside(a: seq<Byte>, b: seq<Byte>, lo: nat, hi: nat)
  {
    |a| == |b| && forall k {:trigger b[k]} :: 0 <= k < |a| && !(lo <= k < hi) ==> b[k] == a[k]
  }

  lemma NodeKept(a: seq<Byte>, b: seq<Byte>, lo: nat, hi: nat, n: Node, layout: Layout, count: nat)
    requires count <= |n.entries| && WrittenUpTo(a, n, layout, count) && SameOutside(a, b, lo, hi)
    requires layout.table[n] + 16 + 8 * count <= lo || hi <= layout.table[n]
    ensures WrittenUpTo(b, n, layout, count)
  {
    forall i | 0 <= i < count
      ensures EntryWritten(b, layout.table[n] + 16 + 8 * i, n.entries[i].0, TargetOf(n.entries[i].1, layout))
    {
      assert EntryWritten(a, layout.table[n] + 16 + 8 * i, n.entries[i].0, TargetOf(n.entries[i].1, layout));
    }
  }

  method PackEntry(out: array<Byte>, at: nat, id: nat, target: nat) returns (ok: bool)
    requires at + 8 <= out.Length
    modifies out
    ensures ok <==> id < U32_LIMIT && target < U32_LIMIT
    ensures ok ==> EntryWritten(out[..], at, id, target) && SameOutside(old(out[..]), out[..], at, at + 8)
  {
    ok := id < U32_LIMIT && target < U32_LIMIT;
    if ok {
      PackInto(out, at, Le32(id) + Le32(target));
      AtParts(out[..], at, Le32(id), Le32(target));
      Le32At(out[..], at, id);
      Le32At(out[..], at + 4, target);
    }
  }

  method PackHeader(out: array<Byte>, at: nat, count: nat) returns (ok: bool)
    requires at + 16 <= out.Length
    modifies out
    ensures ok <==> count < U16_LIMIT
    ensures ok ==> HeaderWritten(out[..], at, count) && SameOutside(old(out[..]), out[..], at, at + 16)
  {
    ok := count < U16_LIMIT;
    if ok {
      PackInto(out, at, Zeros(14) + Le16(count));
      AtParts(out[..], at, Zeros(14), Le16(count));
      Le16At(out[..], at + 14, count);
      assert forall k :: at <= k < at + 14 ==> out[k] == out[at..at + 14][k - at];
    }
  }

  ghost predicate EntryFits(e: (nat, Child), layout: Layout)
  {
    e.0 < U32_LIMIT && Placed(e.1, layout) && TargetOf(e.1, layout) < U32_LIMIT
  }

  ghost predicate NodeFits(n: Node, layout: Layout)
  {
    |n.entries| < U16_LIMIT && forall i :: 0 <= i < |n.entries| ==> EntryFits(n.entries[i], layout)
  }

  /** `layout` records the offsets the objects of this walk hold. */
  ghost predicate Records(nodes: seq<Node>, leaves: seq<Leaf>, layout: Layout)
    reads nodes, leaves
  {
    (forall n :: n in nodes ==> n in layout.table && layout.table[n] == n.offset) &&
    (forall l :: l in leaves ==> l in layout.entry && layout.entry[l] == l.dataEntryOffset) &&
    (forall l :: l in leaves ==> l in layout.payload && layout.payload[l] == l.payloadOffset)
  }

  ghost predicate Listed(c: Child, nodes: seq<Node>, leaves: seq<Leaf>)
  {
    match c
    case Sub(node) => node in nodes
    case End(leaf) => leaf in leaves
  }

  ghost predicate EntriesListed(es: seq<(nat, Child)>, nodes: seq<Node>, leaves: seq<Leaf>)
  {
    forall i :: 0 <= i < |es| ==> Listed(es[i].1, nodes, leaves)
  }

  ghost predicate ChildrenListed(ns: seq<Node>, nodes: seq<Node>, leaves: seq<Leaf>)
  {
    forall n :: n in ns ==> EntriesListed(n.entries, nodes, leaves)
  }

  /** Writing entry `i` adds to the entries that are written and touches nothing outside the table. */
  lemma EntryAdded(before: seq<Byte>, previous: seq<Byte>, now: seq<Byte>, node: Node, layout: Layout, i: nat)
    requires i < |node.entries| && WrittenUpTo(previous, node, layout, i)
    requires var at := layout.table[node];
             SameOutside(before, previous, at, at + 16 + 8 * i) &&
             SameOutside(previous, now, at + 16 + 8 * i, at + 24 + 8 * i)
    requires EntryFits(node.entries[i], layout)
    requires EntryWritten(now, layout.table[node] + 16 + 8 * i, node.entries[i].0, TargetOf(node.entries[i].1, layout))
    ensures WrittenUpTo(now, node, layout, i + 1)
    ensures SameOutside(before, now, layout.table[node], layout.table[node] + 24 + 8 * i)
  {
    var at := layout.table[node];
    NodeKept(previous, now, at + 16 + 8 * i, at + 24 + 8 * i, node, layout, i);
    forall k | 0 <= k < |before| && !(at <= k < at + 24 + 8 * i) ensures now[k] == before[k] {
      assert previous[k] == before[k];
    }
  }

  /** Writes one table: `struct.pack_into` for the header, then for every entry. */
  method WriteTable(out: array<Byte>, node: Node, nodes: seq<Node>, leaves: seq<Leaf>, ghost layout: Layout)
    returns (ok: bool)
    requires node in nodes && EntriesListed(node.entries, nodes, leaves) && Records(nodes, leaves, layout)
    requires node.offset + 16 + 8 * |node.entries| <= out.Length
    modifies out
    ensures ok <==> NodeFits(node, layout)
    ensures ok ==> NodeWritten(out[..], node, layout)
    ensures ok ==> SameOutside(old(out[..]), out[..], node.offset, node.offset + 16 + 8 * |node.entries|)
  {
    ghost var before := out[..];
    ok := PackHeader(out, node.offset, |node.entries|);
    if !ok { return; }
    var entryOff := node.offset + 16;
    for i := 0 to |node.entries|
      invariant ok && entryOff == node.offset + 16 + 8 * i
      invariant WrittenUpTo(out[..], node, layout, i)
      invariant SameOutside(before, out[..], node.offset, entryOff)
      invariant forall k :: 0 <= k < i ==> EntryFits(node.entries[k], layout)
    {
      ghost var previous := out[..];
      var (id, child) := node.entries[i];
      var target := match child case Sub(n) => OrHighBit(n.offset) case End(l) => l.dataEntryOffset;
      assert Listed(node.entries[i].1, nodes, leaves);
      assert Placed(child, layout) && target == TargetOf(child, layout);
      ok := PackEntry(out, entryOff, id, target);
      if !ok {
        assert !EntryFits(node.entries[i], layout);
        return;
      }
      EntryAdded(before, previous, out[..], node, layout, i);
      entryOff := entryOff + 8;
    }
  }

  /** The directory objects stand where the layout puts them. */
  ghost predicate TablesAt(nodes: seq<Node>, tables: seq<nat>, layout: Layout)
  {
    |tables| == |nodes| &&
    forall k {:trigger nodes[k]} :: 0 <= k < |nodes| ==>
      nodes[k] in layout.table && layout.table[nodes[k]] == TableStart(tables, k) && |nodes[k].entries| == tables[k]
  }

  ghost predicate LeavesAt(leaves: seq<Leaf>, tables: seq<nat>, payloads: seq<seq<Byte>>, layout: Layout)
  {
    |payloads| == |leaves| &&
    forall k {:trigger leaves[k]} :: 0 <= k < |leaves| ==>
      leaves[k] in layout.entry && layout.entry[leaves[k]] == EntryStart(tables, k) &&
      leaves[k] in layout.payload && layout.payload[leaves[k]] == PayloadStart(tables, payloads, k) &&
      leaves[k].payload == payloads[k]
  }

  ghost predicate TablesWritten(b: seq<Byte>, ns: seq<Node>, layout: Layout)
  {
    forall n :: n in ns ==> NodeWritten(b, n, layout)
  }

  ghost predicate LeavesWritten(b: seq<Byte>, rva: nat, ls: seq<Leaf>, layout: Layout)
  {
    forall l :: l in ls ==> LeafWritten(b, rva, l, layout)
  }

  ghost predicate NodesFit(ns: seq<Node>, layout: Layout)
  {
    forall n :: n in ns ==> NodeFits(n, layout)
  }

  ghost predicate LeavesFit(rva: nat, ls: seq<Leaf>, layout: Layout)
  {
    forall l :: l in ls ==> LeafFits(rva, l, layout)
  }

  method WriteTables(out: array<Byte>, nodes: seq<Node>, leaves: seq<Leaf>, ghost layout: Layout,
                     ghost tables: seq<nat>)
    returns (ok: bool)
    requires ChildrenListed(nodes, nodes, leaves) && Records(nodes, leaves, layout) && TablesAt(nodes, tables, layout)
    requires TableStart(tables, |nodes|) <= out.Length
    modifies out
    ensures ok <==> NodesFit(nodes, layout)
    ensures ok ==> TablesWritten(out[..], nodes, layout)
  {
    ok := true;
    for i := 0 to |nodes|
      invariant ok && NodesFit(nodes[..i], layout) && TablesWritten(out[..], nodes[..i], layout)
    {
      ghost var before := out[..];
      TablesAscend(tables, i, |tables|);
      ok := WriteTable(out, nodes[i], nodes, leaves, layout);
      if !ok { return; }
      TablesStay(before, out[..], nodes[..i], nodes, tables, layout, nodes[i].offset,
                 nodes[i].offset + 16 + 8 * |nodes[i].entries|);
      assert nodes[..i + 1] == nodes[..i] + [nodes[i]];
    }
    assert nodes[..|nodes|] == nodes;
  }

  /** Writing behind the first `|done|` tables leaves them as they are. */
  lemma TablesStay(a: seq<Byte>, b: seq<Byte>, done: seq<Node>, nodes: seq<Node>, tables: seq<nat>, layout: Layout,
                   lo: nat, hi: nat)
    requires TablesAt(nodes, tables, layout) && done <= nodes && TableStart(tables, |done|) <= lo
    requires SameOutside(a, b, lo, hi)
    requires TablesWritten(a, done, layout)
    ensures TablesWritten(b, done, layout)
  {
    forall n | n in done ensures NodeWritten(b, n, layout) {
      var k :| 0 <= k < |done| && done[k] == n;
      assert done[k] == nodes[k];
      TablesAscend(tables, k, |done|);
      NodeKept(a, b, lo, hi, n, layout, |n.entries|);
    }
  }

  ghost predicate LeafFits(rva: nat, l: Leaf, layout: Layout)
  {
    l in layout.payload && rva + layout.payload[l] < U32_LIMIT && |l.payload| < U32_LIMIT
  }

  /** Bytes of `b` outside a data entry and its payload are those of `a`. */
  ghost predicate SameOutsideLeaf(a: seq<Byte>, b: seq<Byte>, entry: nat, payload: nat, size: nat)
  {
    |a| == |b| &&
    forall k {:trigger b[k]} ::
      0 <= k < |a| && !(entry <= k < entry + 16) && !(payload <= k < payload + size) ==> b[k] == a[k]
  }

  /** Writes one data entry and copies its payload. */
  method WriteLeaf(out: array<Byte>, leaf: Leaf, rva: nat, ghost layout: Layout) returns (ok: bool)
    requires leaf in layout.entry && layout.entry[leaf] == leaf.dataEntryOffset
    requires leaf in layout.payload && layout.payload[leaf] == leaf.payloadOffset
    requires leaf.dataEntryOffset + 16 <= leaf.payloadOffset
    requires leaf.payloadOffset + |leaf.payload| <= out.Length
    modifies out
    ensures ok <==> LeafFits(rva, leaf, layout)
    ensures ok ==> LeafWritten(out[..], rva, leaf, layout)
    ensures ok ==> SameOutsideLeaf(old(out[..]), out[..], leaf.dataEntryOffset, leaf.payloadOffset, |leaf.payload|)
  {
    var at := leaf.dataEntryOffset;
    ok := PackEntry(out, at, rva + leaf.payloadOffset, |leaf.payload|);
    if !ok { return; }
    PackInto(out, at + 8, Zeros(8));
    assert forall k :: at + 8 <= k < at + 16 ==> out[k] == out[at + 8..at + 16][k - (at + 8)];
    PackInto(out, leaf.payloadOffset, leaf.payload);
  }

  method WriteLeaves(out: array<Byte>, nodes: seq<Node>, leaves: seq<Leaf>, rva: nat, ghost layout: Layout,
                     ghost tables: seq<nat>, ghost payloads: seq<seq<Byte>>)
    returns (ok: bool)
    requires Records(nodes, leaves, layout) && TablesAt(nodes, tables, layout)
    requires LeavesAt(leaves, tables, payloads, layout)
    requires PayloadStart(tables, payloads, |leaves|) == out.Length
    requires TablesWritten(out[..], nodes, layout)
    modifies out
    ensures ok <==> LeavesFit(rva, leaves, layout)
    ensures ok ==> TablesWritten(out[..], nodes, layout) && LeavesWritten(out[..], rva, leaves, layout)
  {
    ok := true;
    for i := 0 to |leaves|
      invariant ok && LeavesFit(rva, leaves[..i], layout)
      invariant TablesWritten(out[..], nodes, layout) && LeavesWritten(out[..], rva, leaves[..i], layout)
    {
      ghost var before := out[..];
      PayloadsAscend(tables, payloads, i, |leaves|);
      ok := WriteLeaf(out, leaves[i], rva, layout);
      if !ok { return; }
      AllStay(before, out[..], rva, nodes, leaves, i, tables, payloads, layout);
    }
    assert leaves[..|leaves|] == leaves;
  }

  /** Writing leaf `i` leaves the tables and the earlier leaves as they are. */
  lemma AllStay(a: seq<Byte>, b: seq<Byte>, rva: nat, nodes: seq<Node>, leaves: seq<Leaf>, i: nat, tables: seq<nat>,
                payloads: seq<seq<Byte>>, layout: Layout)
    requires TablesAt(nodes, tables, layout) && LeavesAt(leaves, tables, payloads, layout) && i < |leaves|
    requires SameOutsideLeaf(a, b, EntryStart(tables, i), PayloadStart(tables, payloads, i), |payloads[i]|)
    requires TablesWritten(a, nodes, layout) && LeavesWritten(a, rva, leaves[..i], layout)
    requires LeavesFit(rva, leaves[..i], layout)
    requires LeafWritten(b, rva, leaves[i], layout) && LeafFits(rva, leaves[i], layout)
    ensures TablesWritten(b, nodes, layout) && LeavesWritten(b, rva, leaves[..i + 1], layout)
    ensures LeavesFit(rva, leaves[..i + 1], layout)
  {
    assert leaves[..i + 1] == leaves[..i] + [leaves[i]];
    PayloadsAscend(tables, payloads, i, |leaves|);
    assert SameOutside(a, b, EntryStart(tables, i), |b|);
    TablesStay(a, b, nodes, nodes, tables, layout, EntryStart(tables, i), |b|);
    LeavesStay(a, b, rva, leaves[..i], leaves, tables, payloads, layout);
  }

  /** Writing the next leaf leaves the earlier ones as they are. */
  lemma LeavesStay(a: seq<Byte>, b: seq<Byte>, rva: nat, done: seq<Leaf>, leaves: seq<Leaf>, tables: seq<nat>,
                   payloads: seq<seq<Byte>>, layout: Layout)
    requires LeavesAt(leaves, tables, payloads, layout) && done < leaves
    requires SameOutsideLeaf(a, b, EntryStart(tables, |done|), PayloadStart(tables, payloads, |done|),
                             |payloads[|done|]|)
    requires LeavesWritten(a, rva, done, layout)
    ensures LeavesWritten(b, rva, done, layout)
  {
    var i := |done|;
    forall l | l in done ensures LeafWritten(b, rva, l, layout) {
      var k :| 0 <= k < i && done[k] == l;
      assert done[k] == leaves[k];
      PayloadsAscend(tables, payloads, k, i);
      LeafStays(a, b, rva, l, layout, EntryStart(tables, i), PayloadStart(tables, payloads, i), |payloads[i]|);
    }
  }

  lemma LeafStays(a: seq<Byte>, b: seq<Byte>, rva: nat, l: Leaf, layout: Layout, entry: nat, payload: nat, size: nat)
    requires LeafWritten(a, rva, l, layout) && SameOutsideLeaf(a, b, entry, payload, size)
    requires layout.entry[l] + 16 <= entry && entry + 16 <= layout.payload[l]
    requires layout.payload[l] + |l.payload| <= payload
    ensures LeafWritten(b, rva, l, layout)
  {
    var p := layout.payload[l];
    assert a[p..p + |l.payload|] == b[p..p + |l.payload|];
  }

  lemma {:induction false} WalkIsClosed(n: Node, t: Resource, nodes: seq<Node>, leaves: seq<Leaf>)
    requires Shape(n, t)
    requires forall m :: m in Nodes(n, t) ==> m in nodes
    requires forall l :: l in Leaves(n, t) ==> l in leaves
    ensures ChildrenListed(Nodes(n, t), nodes, leaves)
    decreases t
  {
    EntriesAreClosed(n.entries, t.entries, nodes, leaves);
  }

  lemma {:induction false} EntriesAreClosed(es: seq<(nat, Child)>, ts: seq<Entry>, nodes: seq<Node>, leaves: seq<Leaf>)
    requires EntriesShape(es, ts)
    requires forall m :: m in NodesOf(es, ts) ==> m in nodes
    requires forall l :: l in LeavesOf(es, ts) ==> l in leaves
    ensures ChildrenListed(NodesOf(es, ts), nodes, leaves) && EntriesListed(es, nodes, leaves)
    decreases ts
  {
    if ts != [] {
      var k := |ts| - 1;
      assert ts[k].content < ts[k];
      var c := es[k].1;
      EntriesAreClosed(es[..k], ts[..k], nodes, leaves);
      if c.Sub? {
        WalkIsClosed(c.node, ts[k].content, nodes, leaves);
      }
      assert Listed(c, nodes, leaves) by {
        if c.Sub? {
          assert Nodes(c.node, ts[k].content)[0] == c.node;
          assert c.node in Nodes(c.node, ts[k].content);
        } else {
          assert c.leaf in LeavesOf(es, ts);
        }
      }
      ListedAppend(es[..k], es[k], nodes, leaves);
      assert es == es[..k] + [es[k]];
    }
  }

  lemma ListedAppend(es: seq<(nat, Child)>, e: (nat, Child), nodes: seq<Node>, leaves: seq<Leaf>)
    requires EntriesListed(es, nodes, leaves) && Listed(e.1, nodes, leaves)
    ensures EntriesListed(es + [e], nodes, leaves)
  {
  }

  // ----- The whole writer -----

  /** Entry counts fit 16 bits and ids 32 bits, everywhere in the tree. */
  ghost predicate NarrowEntries(ts: seq<Entry>)
    decreases ts, 1
  {
    |ts| < U16_LIMIT && (forall i :: 0 <= i < |ts| ==> ts[i].id < U32_LIMIT) && NarrowBelow(ts)
  }

  ghost predicate NarrowBelow(ts: seq<Entry>)
    decreases ts, 0
  {
    forall i :: 0 <= i < |ts| ==>
      assert ts[i].content < ts[i];
      ts[i].content.Directory? ==> NarrowEntries(ts[i].content.entries)
  }

  /** Where the last data entry ends. */
  function DirectoryEnd(table: ResourceTable): nat
  {
    EntryStart(Tables(TreeOf(table)), |Payloads(TreeOf(table).entries)|)
  }

  function SectionSize(table: ResourceTable): nat
  {
    var payloads := Payloads(TreeOf(table).entries);
    PayloadStart(Tables(TreeOf(table)), payloads, |payloads|)
  }

  /** Offsets of tables and data entries leave the directory bit free. */
  predicate Addressable(table: ResourceTable)
  {
    DirectoryEnd(table) <= HIGH_BIT
  }

  /** Where a payload is mapped and how long it is fit 32 bits. */
  predicate PayloadsFit(tables: seq<nat>, payloads: seq<seq<Byte>>, rva: nat)
  {
    forall k :: 0 <= k < |payloads| ==> rva + PayloadStart(tables, payloads, k) < U32_LIMIT && |payloads[k]| < U32_LIMIT
  }

  /** The table is within the field widths of the format. */
  ghost predicate WithinFields(table: ResourceTable, rva: nat)
  {
    var t := TreeOf(table);
    NarrowEntries(t.entries) && PayloadsFit(Tables(t), Payloads(t.entries), rva)
  }

  ghost predicate NarrowNode(n: Node)
  {
    |n.entries| < U16_LIMIT && forall i :: 0 <= i < |n.entries| ==> n.entries[i].0 < U32_LIMIT
  }

  ghost predicate NarrowNodes(ns: seq<Node>)
  {
    forall n :: n in ns ==> NarrowNode(n)
  }

  lemma NarrowAppend(a: seq<Node>, b: seq<Node>)
    ensures NarrowNodes(a + b) <==> NarrowNodes(a) && NarrowNodes(b)
  {
    assert forall n :: n in a || n in b ==> n in a + b;
  }

  lemma {:induction false} WalkIsNarrow(n: Node, t: Resource)
    requires Shape(n, t)
    ensures NarrowNodes(Nodes(n, t)) <==> NarrowEntries(t.entries)
    decreases t
  {
    EntriesAreNarrow(n.entries, t.entries);
    NarrowAppend([n], NodesOf(n.entries, t.entries));
    assert NarrowNode(n) <==>
           |t.entries| < U16_LIMIT && forall i :: 0 <= i < |t.entries| ==> t.entries[i].id < U32_LIMIT by {
      assert forall i :: 0 <= i < |t.entries| ==> n.entries[i].0 == t.entries[i].id;
    }
  }

  lemma {:induction false} EntriesAreNarrow(es: seq<(nat, Child)>, ts: seq<Entry>)
    requires EntriesShape(es, ts)
    ensures NarrowNodes(NodesOf(es, ts)) <==> NarrowBelow(ts)
    decreases ts
  {
    if ts != [] {
      var k := |ts| - 1;
      assert ts[k].content < ts[k];
      EntriesAreNarrow(es[..k], ts[..k]);
      NarrowAppend(NodesOf(es[..k], ts[..k]), if es[k].1.Sub? then Nodes(es[k].1.node, ts[k].content) else []);
      if es[k].1.Sub? {
        WalkIsNarrow(es[k].1.node, ts[k].content);
      }
      assert NarrowBelow(ts) <==>
             NarrowBelow(ts[..k]) && (ts[k].content.Directory? ==> NarrowEntries(ts[k].content.entries));
    }
  }

  lemma TreeDepth(table: ResourceTable)
    ensures DepthAtMost(TreeOf(table), 3)
  {
    var t := TreeOf(table);
    forall i | 0 <= i < |t.entries| ensures DepthAtMost(t.entries[i].content, 2) {
      var u := t.entries[i].content;
      forall j | 0 <= j < |u.entries| ensures DepthAtMost(u.entries[j].content, 1) {
        var payload := SortByKey(SortByKey(table)[i].1)[j].1;
        assert u.entries[j].content == LanguageDirectory(payload);
        assert DepthAtMost(Data(payload), 0);
      }
    }
  }

  /** Offsets of tables and data entries stay below where the data entries end. */
  lemma OffsetsBounded(nodes: seq<Node>, leaves: seq<Leaf>, layout: Layout, tables: seq<nat>, payloads: seq<seq<Byte>>)
    requires TablesAt(nodes, tables, layout) && LeavesAt(leaves, tables, payloads, layout)
    ensures forall n :: n in nodes ==> layout.table[n] < EntryStart(tables, |payloads|)
    ensures forall l :: l in leaves ==> layout.entry[l] < EntryStart(tables, |payloads|)
  {
    forall n | n in nodes ensures layout.table[n] < EntryStart(tables, |payloads|) {
      var k :| 0 <= k < |nodes| && nodes[k] == n;
      TablesAscend(tables, k, |tables|);
    }
    forall l | l in leaves ensures layout.entry[l] < EntryStart(tables, |payloads|) {
      var k :| 0 <= k < |leaves| && leaves[k] == l;
    }
  }

  lemma LeavesFitExactly(rva: nat, leaves: seq<Leaf>, layout: Layout, tables: seq<nat>, payloads: seq<seq<Byte>>)
    requires LeavesAt(leaves, tables, payloads, layout)
    ensures LeavesFit(rva, leaves, layout) <==> PayloadsFit(tables, payloads, rva)
  {
    if LeavesFit(rva, leaves, layout) {
      forall k | 0 <= k < |payloads|
        ensures rva + PayloadStart(tables, payloads, k) < U32_LIMIT && |payloads[k]| < U32_LIMIT
      {
        assert leaves[k] in leaves && LeafFits(rva, leaves[k], layout);
      }
    }
    if PayloadsFit(tables, payloads, rva) {
      forall l | l in leaves ensures LeafFits(rva, l, layout) {
        var k :| 0 <= k < |leaves| && leaves[k] == l;
        assert |payloads[k]| < U32_LIMIT;
      }
    }
  }

  lemma NodesFitExactly(nodes: seq<Node>, leaves: seq<Leaf>, layout: Layout)
    requires ChildrenListed(nodes, nodes, leaves)
    requires forall n :: n in nodes ==> n in layout.table && layout.table[n] < U32_LIMIT
    requires forall l :: l in leaves ==> l in layout.entry && layout.entry[l] < U32_LIMIT
    ensures NodesFit(nodes, layout) <==> NarrowNodes(nodes)
  {
    forall n | n in nodes ensures NodeFits(n, layout) <==> NarrowNode(n) {
      assert EntriesListed(n.entries, nodes, leaves);
      forall i | 0 <= i < |n.entries| ensures EntryFits(n.entries[i], layout) <==> n.entries[i].0 < U32_LIMIT {
        assert Listed(n.entries[i].1, nodes, leaves);
      }
    }
  }

  /** The objects and the offsets of the first pass, for the tree of `table`. */
  ghost predicate LaidOut(table: ResourceTable, root: Node, nodes: seq<Node>, leaves: seq<Leaf>, layout: Layout)
  {
    var t := TreeOf(table);
    Shape(root, t) && nodes == Nodes(root, t) && leaves == Leaves(root, t) &&
    ChildrenListed(nodes, nodes, leaves) &&
    TablesAt(nodes, Tables(t), layout) && LeavesAt(leaves, Tables(t), Payloads(t.entries), layout)
  }

  method LayOut(table: ResourceTable)
    returns (root: Node, nodes: seq<Node>, leaves: seq<Leaf>, size: nat, ghost layout: Layout)
    ensures LaidOut(table, root, nodes, leaves, layout) && Records(nodes, leaves, layout)
    ensures size == SectionSize(table)
  {
    ghost var t := TreeOf(table);
    ghost var made, madeLeaves;
    root, made, madeLeaves := MakeResourceTree(table);
    nodes, leaves := WalkNodes(root, t);
    WalkMatches(root, t);
    WalkIsClosed(root, t, nodes, leaves);
    forall i | 0 <= i < |nodes| ensures fresh(nodes[i]) { assert nodes[i] in made; }
    forall i | 0 <= i < |leaves| ensures fresh(leaves[i]) { assert leaves[i] in madeLeaves; }
    size := AssignOffsets(nodes, leaves, Tables(t), Payloads(t.entries));
    layout := RecordOffsets(nodes, leaves, Tables(t), Payloads(t.entries));
  }

  /** If the counts and the payloads fit, the directory ends below the limit: before a payload, or as a short one. */
  lemma DirectoryFits(table: ResourceTable, rva: nat)
    requires WithinFields(table, rva)
    ensures DirectoryEnd(table) <= U32_LIMIT
  {
    var t := TreeOf(table);
    if Payloads(t.entries) != [] {
      PayloadsAscend(Tables(t), Payloads(t.entries), 0, |Payloads(t.entries)|);
      assert rva + PayloadStart(Tables(t), Payloads(t.entries), 0) < U32_LIMIT;
    } else {
      TreeTables(table);
      DirectoryEndIs(table);
      assert |t.entries| == |table|;
    }
  }

  /** Everything the writer packs fits its field exactly when the table is within the fields. */
  lemma FitsExactly(table: ResourceTable, rva: nat, root: Node, nodes: seq<Node>, leaves: seq<Leaf>, layout: Layout)
    requires LaidOut(table, root, nodes, leaves, layout)
    ensures NodesFit(nodes, layout) && LeavesFit(rva, leaves, layout) <==> WithinFields(table, rva)
  {
    var t := TreeOf(table);
    LeavesFitExactly(rva, leaves, layout, Tables(t), Payloads(t.entries));
    WalkIsNarrow(root, t);
    if WithinFields(table, rva) {
      DirectoryFits(table, rva);
      OffsetsBounded(nodes, leaves, layout, Tables(t), Payloads(t.entries));
      NodesFitExactly(nodes, leaves, layout);
    } else if NodesFit(nodes, layout) {
      assert NarrowNodes(nodes) by {
        forall n | n in nodes ensures NarrowNode(n) {
          assert NodeFits(n, layout);
          assert forall i :: 0 <= i < |n.entries| ==> EntryFits(n.entries[i], layout);
        }
      }
    }
  }

  lemma WrittenReadsBack(b: seq<Byte>, table: ResourceTable, rva: nat, root: Node, nodes: seq<Node>, leaves: seq<Leaf>,
                         layout: Layout)
    requires LaidOut(table, root, nodes, leaves, layout) && Addressable(table)
    requires TablesWritten(b, nodes, layout) && LeavesWritten(b, rva, leaves, layout)
    ensures ReadDirectory(b, rva, 0, 3) == Some(TreeOf(table))
  {
    var t := TreeOf(table);
    OffsetsBounded(nodes, leaves, layout, Tables(t), Payloads(t.entries));
    TreeDepth(table);
    assert nodes[0] == root;
    ReadsBack(b, rva, root, t, layout, 3);
  }

  /**
   * Reading the bytes it returns gives the table back, sorted: every payload under its type, its id and
   * the English language, and nothing else.
   */
  method BuildResourceSection(table: ResourceTable, rva: nat) returns (r: Result<seq<Byte>, PackError>)
    ensures r.Ok? <==> WithinFields(table, rva)
    ensures r.Ok? ==> |r.value| == SectionSize(table)
    ensures r.Ok? && Addressable(table) ==> ReadDirectory(r.value, rva, 0, 3) == Some(TreeOf(table))
  {
    ghost var t := TreeOf(table);
    var root, nodes, leaves, size, layout := LayOut(table);
    FitsExactly(table, rva, root, nodes, leaves, layout);
    var out := new Byte[size](_ => 0);
    TablesEnd(Tables(t), Payloads(t.entries));
    var ok := WriteTables(out, nodes, leaves, layout, Tables(t));
    if !ok { return Err(FieldOverflow); }
    ok := WriteLeaves(out, nodes, leaves, rva, layout, Tables(t), Payloads(t.entries));
    if !ok { return Err(FieldOverflow); }
    if Addressable(table) { WrittenReadsBack(out[..], table, rva, root, nodes, leaves, layout); }
    return Ok(out[..]);
  }

  lemma TablesEnd(tables: seq<nat>, payloads: seq<seq<Byte>>)
    ensures TableStart(tables, |tables|) <= PayloadStart(tables, payloads, |payloads|)
  {
    if |payloads| > 0 {
      PayloadsAscend(tables, payloads, 0, |payloads|);
    }
  }

  lemma RecordOffsets(nodes: seq<Node>, leaves: seq<Leaf>, tables: seq<nat>, payloads: seq<seq<Byte>>)
    returns (layout: Layout)
    requires Counted(nodes, tables) && Carried(leaves, payloads)
    requires forall k {:trigger nodes[k].offset} :: 0 <= k < |nodes| ==> nodes[k].offset == TableStart(tables, k)
    requires forall k {:trigger leaves[k].dataEntryOffset} :: 0 <= k < |leaves| ==>
               leaves[k].dataEntryOffset == EntryStart(tables, k)
    requires forall k {:trigger leaves[k].payloadOffset} :: 0 <= k < |leaves| ==>
               leaves[k].payloadOffset == PayloadStart(tables, payloads, k)
    ensures Records(nodes, leaves, layout) && TablesAt(nodes, tables, layout)
    ensures LeavesAt(leaves, tables, payloads, layout)
  {
    layout := Layout(map n | n in nodes :: n.offset, map l | l in leaves :: l.dataEntryOffset,
                map l | l in leaves :: l.payloadOffset);
    forall k | 0 <= k < |nodes|
      ensures layout.table[nodes[k]] == TableStart(tables, k) && |nodes[k].entries| == tables[k]
    {
      assert nodes[k].offset == TableStart(tables, k);
    }
    forall k | 0 <= k < |leaves|
      ensures layout.entry[leaves[k]] == EntryStart(tables, k)
      ensures layout.payload[leaves[k]] == PayloadStart(tables, payloads, k) && leaves[k].payload == payloads[k]
    {
      assert leaves[k].dataEntryOffset == EntryStart(tables, k);
      assert leaves[k].payloadOffset == PayloadStart(tables, payloads, k);
    }
  }

  // ----- What the layout and the sorting promise -----

  /** Start and end of the `k`-th part of a section: its tables, then its data entries, then its payloads. */
  function Interval(tables: seq<nat>, payloads: seq<seq<Byte>>, k: nat): (nat, nat)
    requires k < |tables| + 2 * |payloads|
  {
    var n, m := |tables|, |payloads|;
    if k < n then (TableStart(tables, k), TableStart(tables, k) + 16 + 8 * tables[k])
    else if k < n + m then (EntryStart(tables, k - n), EntryStart(tables, k - n) + 16)
    else (PayloadStart(tables, payloads, k - n - m), PayloadStart(tables, payloads, k - n - m) + |payloads[k - n - m]|)
  }

  /** The parts are 4-aligned, disjoint, and inside the section. */
  lemma IntervalsAreDisjoint(tables: seq<nat>, payloads: seq<seq<Byte>>, i: nat, j: nat)
    requires i < j < |tables| + 2 * |payloads|
    ensures Interval(tables, payloads, i).1 <= Interval(tables, payloads, j).0
    ensures Interval(tables, payloads, j).1 <= PayloadStart(tables, payloads, |payloads|)
    ensures Aligned(Interval(tables, payloads, i).0) && Aligned(Interval(tables, payloads, j).0)
  {
    IntervalBounds(tables, payloads, i);
    IntervalBounds(tables, payloads, j);
    if Group(tables, payloads, i) == Group(tables, payloads, j) {
      NeighboursAscend(tables, payloads, i, j);
    }
  }

  lemma NeighboursAscend(tables: seq<nat>, payloads: seq<seq<Byte>>, i: nat, j: nat)
    requires i < j < |tables| + 2 * |payloads| && Group(tables, payloads, i) == Group(tables, payloads, j)
    ensures Interval(tables, payloads, i).1 <= Interval(tables, payloads, j).0
  {
    var n, m := |tables|, |payloads|;
    if j < n {
      TablesAscend(tables, i, j);
    } else if i >= n + m {
      PayloadsAscend(tables, payloads, i - n - m, j - n - m);
    }
  }

  /** 0 for tables, 1 for data entries, 2 for payloads. */
  function Group(tables: seq<nat>, payloads: seq<seq<Byte>>, k: nat): nat
  {
    if k < |tables| then 0 else if k < |tables| + |payloads| then 1 else 2
  }

  lemma IntervalBounds(tables: seq<nat>, payloads: seq<seq<Byte>>, k: nat)
    requires k < |tables| + 2 * |payloads|
    ensures Aligned(Interval(tables, payloads, k).0)
    ensures Interval(tables, payloads, k).1 <= PayloadStart(tables, payloads, |payloads|)
    ensures Group(tables, payloads, k) == 0 ==> Interval(tables, payloads, k).1 <= EntryStart(tables, 0)
    ensures Group(tables, payloads, k) >= 1 ==> EntryStart(tables, 0) <= Interval(tables, payloads, k).0
    ensures Group(tables, payloads, k) <= 1 ==> Interval(tables, payloads, k).1 <= EntryStart(tables, |payloads|)
    ensures Group(tables, payloads, k) == 2 ==> EntryStart(tables, |payloads|) <= Interval(tables, payloads, k).0
  {
    var n, m := |tables|, |payloads|;
    EntriesFollowTables(tables, payloads);
    if k < n {
      TablesAscend(tables, k, n);
    } else if k < n + m {
      EntryStartsAligned(tables, k - n);
    } else {
      PayloadsAscend(tables, payloads, k - n - m, m);
    }
  }

  lemma EntriesFollowTables(tables: seq<nat>, payloads: seq<seq<Byte>>)
    ensures TableStart(tables, |tables|) <= EntryStart(tables, 0) && Aligned(EntryStart(tables, 0))
    ensures EntryStart(tables, |payloads|) <= PayloadStart(tables, payloads, |payloads|)
  {
    if |payloads| > 0 { PayloadsAscend(tables, payloads, 0, |payloads|); }
    EntryStartsAligned(tables, 0);
  }

  /** The contents filed under `key` in a directory, in order. */
  function Under(entries: seq<Entry>, key: nat): seq<Resource>
  {
    if entries == [] then []
    else (if entries[0].id == key then [entries[0].content] else []) + Under(entries[1..], key)
  }

  function Mapped<T>(s: seq<T>, f: T -> Resource): seq<Resource>
  {
    seq(|s|, i requires 0 <= i < |s| => f(s[i]))
  }

  function EntriesOf<T>(s: seq<(nat, T)>, f: T -> Resource): seq<Entry>
  {
    seq(|s|, i requires 0 <= i < |s| => Entry(s[i].0, f(s[i].1)))
  }

  lemma {:induction false} UnderEntries<T(!new)>(s: seq<(nat, T)>, f: T -> Resource, key: nat)
    ensures Under(EntriesOf(s, f), key) == Mapped(Filed(s, key), f)
  {
    if s != [] {
      UnderEntries(s[1..], f, key);
      assert EntriesOf(s, f)[1..] == EntriesOf(s[1..], f);
    }
  }

  /**
   * The tree that reading gives back files under each type, and below it under each id, exactly what the table does.
   */
  lemma TreeFilesTheTable(table: ResourceTable, resourceType: nat, items: seq<(nat, seq<Byte>)>, id: nat)
    ensures Under(TreeOf(table).entries, resourceType) == Mapped(Filed(table, resourceType), TypeDirectory)
    ensures Under(TypeDirectory(items).entries, id) == Mapped(Filed(items, id), LanguageDirectory)
  {
    SortIsStable(table, resourceType);
    SortIsStable(items, id);
    UnderEntries(SortByKey(table), TypeDirectory, resourceType);
    UnderEntries(SortByKey(items), LanguageDirectory, id);
    assert TreeOf(table).entries == EntriesOf(SortByKey(table), TypeDirectory);
    assert TypeDirectory(items).entries == EntriesOf(SortByKey(items), LanguageDirectory);
  }

  // ----- Looking a resource up -----

  /** The first entry with this id. */
  function Find(entries: seq<Entry>, id: nat): Option<Resource>
  {
    if entries == [] then None
    else if entries[0].id == id then Some(entries[0].content)
    else Find(entries[1..], id)
  }

  /** The payload at the end of a way of ids: type, id, language. */
  function Lookup(t: Resource, way: seq<nat>): Option<seq<Byte>>
    decreases way
  {
    match t
    case Data(payload) => if way == [] then Some(payload) else None
    case Directory(entries) =>
      if way == [] then None else
      var next := Find(entries, way[0]);
      if next == None then None else Lookup(next.value, way[1..])
  }

  function First<T>(s: seq<T>): Option<T>
  {
    if s == [] then None else Some(s[0])
  }

  lemma {:induction false} FindIsFirst(entries: seq<Entry>, id: nat)
    ensures Find(entries, id) == First(Under(entries, id))
  {
    if entries != [] { FindIsFirst(entries[1..], id); }
  }

  lemma LanguageLookup(payload: seq<Byte>, language: nat)
    ensures Lookup(LanguageDirectory(payload), [language]) == if language == 0x0409 then Some(payload) else None
  {
    var entries := LanguageDirectory(payload).entries;
    assert entries[1..] == [] && [language][1..] == [];
    assert Find(entries, language) == if language == 0x0409 then Some(Data(payload)) else None;
    if language == 0x0409 { assert Lookup(Data(payload), [language][1..]) == Some(payload); }
  }

  lemma TypeLookup(items: seq<(nat, seq<Byte>)>, id: nat, language: nat)
    ensures Lookup(TypeDirectory(items), [id, language]) ==
            if language == 0x0409 then First(Filed(items, id)) else None
  {
    var t := TypeDirectory(items);
    FindIsFirst(t.entries, id);
    TreeFilesTheTable([], 0, items, id);
    assert [id, language][1..] == [language];
    if Filed(items, id) != [] { LanguageLookup(Filed(items, id)[0], language); }
  }

  /** Looking a resource up in the tree of a table, by type, id and language. */
  lemma TableLookup(table: ResourceTable, resourceType: nat, id: nat, language: nat)
    ensures var items := First(Filed(table, resourceType));
            Lookup(TreeOf(table), [resourceType, id, language]) ==
            if items == None || language != 0x0409 then None else First(Filed(items.value, id))
  {
    var t := TreeOf(table);
    FindIsFirst(t.entries, resourceType);
    TreeFilesTheTable(table, resourceType, [], 0);
    assert [resourceType, id, language][1..] == [id, language];
    if Filed(table, resourceType) != [] { TypeLookup(Filed(table, resourceType)[0], id, language); }
  }

  predicate AscendingIds(t: Resource)
  {
    t.Directory? && forall i, j :: 0 <= i < j < |t.entries| ==> t.entries[i].id <= t.entries[j].id
  }

  /** Types ascend, and the ids below each type, as a reader that searches needs it. */
  lemma TreeAscends(table: ResourceTable)
    ensures AscendingIds(TreeOf(table))
    ensures forall e :: e in TreeOf(table).entries ==> AscendingIds(e.content)
  {
    var s, t := SortByKey(table), TreeOf(table);
    forall e | e in t.entries ensures AscendingIds(e.content) {
      var i :| 0 <= i < |t.entries| && t.entries[i] == e;
      assert e.content == TypeDirectory(s[i].1);
    }
  }

  // ----- Small tables are addressable -----

  function TableBytes(tables: seq<nat>): nat
  {
    if tables == [] then 0 else TableBytes(tables[..|tables| - 1]) + 16 + 8 * tables[|tables| - 1]
  }

  lemma {:induction false} TableBytesConcat(a: seq<nat>, b: seq<nat>)
    ensures TableBytes(a + b) == TableBytes(a) + TableBytes(b)
    decreases b
  {
    if b == [] {
      assert a + b == a;
    } else {
      assert (a + b)[..|a + b| - 1] == a + b[..|b| - 1];
      TableBytesConcat(a, b[..|b| - 1]);
    }
  }

  lemma {:induction false} TableStartIsBytes(tables: seq<nat>, k: nat)
    requires k <= |tables|
    ensures TableStart(tables, k) == TableBytes(tables[..k])
  {
    if k > 0 {
      TableStartIsBytes(tables, k - 1);
      assert tables[..k][..k - 1] == tables[..k - 1];
    }
  }

  function Items(table: ResourceTable): nat
  {
    if table == [] then 0 else |table[0].1| + Items(table[1..])
  }

  lemma {:induction false} ItemsInsert(x: (nat, seq<(nat, seq<Byte>)>), s: ResourceTable)
    requires Ascending(s)
    ensures Items(Insert(x, s)) == |x.1| + Items(s)
  {
    if s != [] && x.0 > s[0].0 {
      ItemsInsert(x, s[1..]);
      assert ([s[0]] + Insert(x, s[1..]))[1..] == Insert(x, s[1..]);
    } else {
      assert ([x] + s)[1..] == s;
    }
  }

  lemma {:induction false} ItemsSort(s: ResourceTable)
    ensures Items(SortByKey(s)) == Items(s)
  {
    if s != [] {
      ItemsSort(s[1..]);
      ItemsInsert(s[0], SortByKey(s[1..]));
    }
  }

  lemma {:induction false} ItemsFront(s: ResourceTable, k: nat)
    requires k < |s|
    ensures Items(s[..k + 1]) == Items(s[..k]) + |s[k].1|
  {
    if k == 0 {
      assert s[..1][1..] == [] && s[..1][0] == s[0];
    } else {
      assert s[..k + 1][1..] == s[1..][..k] && s[..k][1..] == s[1..][..k - 1];
      ItemsFront(s[1..], k - 1);
    }
  }

  predicate IsLanguageDirectory(t: Resource)
  {
    t.Directory? && |t.entries| == 1 && t.entries[0].content.Data?
  }

  lemma LanguageDirectoryTables(t: Resource)
    requires IsLanguageDirectory(t)
    ensures TableBytes(Tables(t)) == 24 && |Payloads(t.entries)| == 1
  {
    var inner := t.entries;
    assert TablesOf(inner[..0]) == [] && Payloads(inner[..0]) == [];
    assert TablesOf(inner) == [];
    assert Tables(t) == [1] && [1][..0] == [];
  }

  lemma LastDirectory(ts: seq<Entry>)
    requires ts != [] && ts[|ts| - 1].content.Directory?
    ensures var k, t := |ts| - 1, ts[|ts| - 1].content;
            TableBytes(TablesOf(ts)) == TableBytes(TablesOf(ts[..k])) + TableBytes(Tables(t)) &&
            |Payloads(ts)| == |Payloads(ts[..k])| + |Payloads(t.entries)|
  {
    TableBytesConcat(TablesOf(ts[..|ts| - 1]), Tables(ts[|ts| - 1].content));
  }

  lemma {:induction false} LanguageTables(ts: seq<Entry>)
    requires forall i :: 0 <= i < |ts| ==> IsLanguageDirectory(ts[i].content)
    ensures TableBytes(TablesOf(ts)) == 24 * |ts| && |Payloads(ts)| == |ts|
    decreases |ts|
  {
    if ts != [] {
      var k := |ts| - 1;
      LanguageTables(ts[..k]);
      assert IsLanguageDirectory(ts[k].content);
      LanguageDirectoryTables(ts[k].content);
      LastDirectory(ts);
    }
  }

  lemma TypeTables(items: seq<(nat, seq<Byte>)>)
    ensures TableBytes(Tables(TypeDirectory(items))) == 16 + 32 * |items|
    ensures |Payloads(TypeDirectory(items).entries)| == |items|
  {
    var ts := TypeDirectory(items).entries;
    LanguageTables(ts);
    assert [|ts|][..0] == [];
    TableBytesConcat([|ts|], TablesOf(ts));
    assert TableBytes([|ts|]) == 16 + 8 * |ts|;
  }

  lemma {:induction false} RootTables(s: ResourceTable, ts: seq<Entry>)
    requires |ts| == |s| && forall i :: 0 <= i < |s| ==> ts[i].content == TypeDirectory(s[i].1)
    ensures TableBytes(TablesOf(ts)) == 16 * |s| + 32 * Items(s) && |Payloads(ts)| == Items(s)
    decreases |s|
  {
    if s != [] {
      var k := |s| - 1;
      RootTables(s[..k], ts[..k]);
      ItemsFront(s, k);
      assert s[..k + 1] == s;
      TypeTables(s[k].1);
      LastDirectory(ts);
    }
  }

  lemma TreeTables(table: ResourceTable)
    ensures TableBytes(Tables(TreeOf(table))) == 16 + 24 * |table| + 32 * Items(table)
    ensures |Payloads(TreeOf(table).entries)| == Items(table)
  {
    var ts := TreeOf(table).entries;
    ItemsSort(table);
    RootTables(SortByKey(table), ts);
    TableBytesConcat([|ts|], TablesOf(ts));
    assert [|ts|][..0] == [];
    assert TableBytes([|ts|]) == 16 + 8 * |ts|;
  }

  /** The directory part of a section grows linearly with the number of types and resources. */
  lemma DirectoryEndIs(table: ResourceTable)
    ensures DirectoryEnd(table) <= 19 + 24 * |table| + 48 * Items(table)
  {
    var tables := Tables(TreeOf(table));
    TreeTables(table);
    TableStartIsBytes(tables, |tables|);
    assert tables[..|tables|] == tables;
  }
}
