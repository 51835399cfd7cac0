/** The copy-on-write B+tree as a value: nodes on disk and nodes copied into memory, read through
    the same functions.

    `TreeItems` is what a subtree means, `Uses` counts what it occupies (memory slots and disk
    blocks), and `Shape` is its well-formedness. */
module KfsTree {
  import opened Wrappers
  import opened KfsTypes
  import opened KfsItems

  /** Where an interior node finds a child: at a checked pointer, or in a slot of the nodes being changed. */
  datatype Child = Disk(bp: Bp) | Mem(slot: nat)

  datatype Entry = Entry(key: Key, child: Child)

  datatype Node = Node(level: nat, items: Items, kids: seq<Entry>)

  type Arena = seq<Node>

  datatype Use = Slot(i: nat) | Blk(b: nat)

  /** Memory, disk contents, and the newest transaction group a node on disk may be from. */
  datatype World = World(arena: Arena, disk: seq<Block>, txg: nat)

  const EMPTY: Node := Node(0, [], [])

  function FromPtrs(ps: seq<Ptr>): seq<Entry> {
    seq(|ps|, j requires 0 <= j < |ps| => Entry(ps[j].key, Disk(ps[j].bp)))
  }

  function FromBlock(b: Block): Node {
    if b.NodeB? then Node(b.level, b.items, FromPtrs(b.ptrs)) else EMPTY
  }

  function NodeOf(N: Arena, c: Child): Node {
    match c
    case Disk(bp) => if |bp.sum| == 1 then FromBlock(bp.sum[0]) else EMPTY
    case Mem(i) => if i < |N| then N[i] else EMPTY
  }

  predicate IsEmpty(n: Node) {
    n.items == [] && n.kids == []
  }

  // --- Sizes ---

  function ItemSize(it: Item): nat { ITEM_HEADER + DataSize(it.data) }

  function Payload(s: Items): nat {
    if s == [] then 0 else Payload(s[..|s| - 1]) + ItemSize(s[|s| - 1])
  }

  /** Bytes a node needs as a block. */
  function NodeSize(n: Node): nat {
    HEADER + if n.level == 0 then Payload(n.items) else |n.kids| * INTERIOR_ENTRY
  }

  // --- Meaning and occupancy ---

  ghost function TreeItems(N: Arena, c: Child, l: nat): Items
    decreases l, 0
  {
    var n := NodeOf(N, c);
    if l == 0 then n.items else RunItems(N, n.kids, l - 1)
  }

  /** The items under a run of siblings at level `l`. */
  ghost function RunItems(N: Arena, kids: seq<Entry>, l: nat): Items
    decreases l, 1 + |kids|
  {
    if kids == [] then [] else TreeItems(N, kids[0].child, l) + RunItems(N, kids[1..], l)
  }

  function Here(c: Child, u: Use): nat {
    match u
    case Slot(i) => if c == Mem(i) then 1 else 0
    case Blk(b) => if c.Disk? then BpUses(c.bp, b) else 0
  }

  /** How often the subtree refers to a memory slot or a block (not counting file data). */
  ghost function Uses(N: Arena, c: Child, l: nat, u: Use): nat
    decreases l, 0
  {
    Here(c, u) + if l == 0 then 0 else RunUses(N, NodeOf(N, c).kids, l - 1, u)
  }

  ghost function RunUses(N: Arena, kids: seq<Entry>, l: nat, u: Use): nat
    decreases l, 1 + |kids|
  {
    if kids == [] then 0 else Uses(N, kids[0].child, l, u) + RunUses(N, kids[1..], l, u)
  }

  /** A pattern: facts about every slot, or every block, are brought to bear on number `n` by
      mentioning `At(n)`. */
  predicate At(n: nat) { true }

  // --- Well-formedness ---

  ghost predicate ChildOk(w: World, c: Child) {
    match c
    case Disk(bp) =>
      && bp.count == 1 && |bp.sum| == 1 && bp.sum[0].NodeB? && bp.birth <= w.txg
      && bp.block < |w.disk| && w.disk[bp.block] == bp.sum[0]
    case Mem(i) => i < |w.arena|
  }

  ghost predicate KeysOk(kids: seq<Entry>, lo: Key, hi: Key) {
    && (forall j :: 0 <= j < |kids| ==> lo <= kids[j].key && Under(kids[j].key, hi))
    && (forall i, j :: 0 <= i < j < |kids| ==> kids[i].key < kids[j].key)
  }

  function Next(kids: seq<Entry>, j: nat, hi: Key): Key {
    if j + 1 < |kids| then kids[j + 1].key else hi
  }

  /** The subtree at `c` has uniform levels down from `l`, strictly ascending keys in `lo..hi`,
      separators that bound them from below, nodes that fit a block, no empty node below the
      top, and its disk nodes are on disk as their checksums say. */
  ghost predicate Shape(w: World, c: Child, l: nat, lo: Key, hi: Key)
    decreases l, 0
  {
    var n := NodeOf(w.arena, c);
    && ChildOk(w, c)
    && n.level == l
    && NodeSize(n) <= BLOCK
    && if l == 0 then n.kids == [] && Sorted(n.items) && Within(n.items, lo, hi)
       else n.items == [] && n.kids != [] && RunShape(w, n.kids, l - 1, lo, hi)
  }

  ghost predicate RunShape(w: World, kids: seq<Entry>, l: nat, lo: Key, hi: Key)
    decreases l, 2
  {
    && KeysOk(kids, lo, hi)
    && forall j {:trigger RunKid(w, kids, j, l, hi)} :: 0 <= j < |kids| ==> RunKid(w, kids, j, l, hi)
  }

  /** Child `j` of a run of siblings is not empty, and well-formed within its bounds. */
  ghost predicate RunKid(w: World, kids: seq<Entry>, j: nat, l: nat, hi: Key)
    requires j < |kids|
    decreases l, 1
  {
    && !IsEmpty(NodeOf(w.arena, kids[j].child))
    && Shape(w, kids[j].child, l, kids[j].key, Next(kids, j, hi))
  }

  /** Memory slots are used at most once each: the nodes in memory form a tree. */
  ghost predicate Unshared(N: Arena, kids: seq<Entry>, l: nat) {
    forall s: nat {:trigger At(s)} :: At(s) ==> RunUses(N, kids, l, Slot(s)) <= 1
  }

  // --- Runs of siblings ---

  lemma {:induction false} RunItemsConcat(N: Arena, a: seq<Entry>, b: seq<Entry>, l: nat)
    ensures RunItems(N, a + b, l) == RunItems(N, a, l) + RunItems(N, b, l)
    decreases |a|
  {
    if a == [] {
      assert a + b == b;
    } else {
      assert (a + b)[0] == a[0] && (a + b)[1..] == a[1..] + b;
      RunItemsConcat(N, a[1..], b, l);
    }
  }

  lemma {:induction false} RunUsesConcat(N: Arena, a: seq<Entry>, b: seq<Entry>, l: nat, u: Use)
    ensures RunUses(N, a + b, l, u) == RunUses(N, a, l, u) + RunUses(N, b, l, u)
    decreases |a|
  {
    if a == [] {
      assert a + b == b;
    } else {
      assert (a + b)[0] == a[0] && (a + b)[1..] == a[1..] + b;
      RunUsesConcat(N, a[1..], b, l, u);
    }
  }

  lemma RunOne(N: Arena, e: Entry, l: nat)
    ensures RunItems(N, [e], l) == TreeItems(N, e.child, l)
    ensures forall u :: RunUses(N, [e], l, u) == Uses(N, e.child, l, u)
  {
    assert [e][1..] == [];
    assert TreeItems(N, e.child, l) + [] == TreeItems(N, e.child, l);
  }

  ghost function AroundUses(N: Arena, kids: seq<Entry>, p: nat, l: nat, u: Use): nat
    requires p < |kids|
  {
    RunUses(N, kids[..p], l, u) + Uses(N, kids[p].child, l, u) + RunUses(N, kids[p + 1..], l, u)
  }

  /** A run around position `p`. */
  lemma RunAround(N: Arena, kids: seq<Entry>, p: nat, l: nat)
    requires p < |kids|
    ensures RunItems(N, kids, l) ==
            RunItems(N, kids[..p], l) + TreeItems(N, kids[p].child, l) + RunItems(N, kids[p + 1..], l)
    ensures forall u :: RunUses(N, kids, l, u) == AroundUses(N, kids, p, l, u)
  {
    var a, e, b := kids[..p], kids[p], kids[p + 1..];
    assert kids == (a + [e]) + b;
    RunItemsConcat(N, a + [e], b, l);
    RunItemsConcat(N, a, [e], l);
    RunOne(N, e, l);
    forall u ensures RunUses(N, kids, l, u) == AroundUses(N, kids, p, l, u) {
      RunUsesConcat(N, a + [e], b, l, u);
      RunUsesConcat(N, a, [e], l, u);
    }
  }

  // --- Framing: a subtree depends only on the slots and blocks it uses ---

  ghost predicate SameSlots(N: Arena, N': Arena, kids: seq<Entry>, l: nat) {
    forall s: nat {:trigger RunUses(N, kids, l, Slot(s))} :: RunUses(N, kids, l, Slot(s)) > 0 ==>
      s < |N| && s < |N'| && N[s] == N'[s]
  }

  lemma {:induction false} Frame(N: Arena, N': Arena, kids: seq<Entry>, l: nat)
    requires SameSlots(N, N', kids, l)
    ensures RunItems(N', kids, l) == RunItems(N, kids, l)
    ensures forall u :: RunUses(N', kids, l, u) == RunUses(N, kids, l, u)
    decreases l, |kids|
  {
    if kids != [] {
      var c, rest := kids[0].child, kids[1..];
      forall s: nat ensures RunUses(N, kids, l, Slot(s)) == Uses(N, c, l, Slot(s)) + RunUses(N, rest, l, Slot(s)) {}
      Frame(N, N', rest, l);
      if c.Mem? {
        assert Uses(N, c, l, Slot(c.slot)) > 0;
      }
      assert NodeOf(N, c) == NodeOf(N', c);
      if l > 0 {
        var ks := NodeOf(N, c).kids;
        forall s: nat ensures RunUses(N, ks, l - 1, Slot(s)) <= Uses(N, c, l, Slot(s)) {}
        Frame(N, N', ks, l - 1);
      }
      forall u ensures RunUses(N', kids, l, u) == RunUses(N, kids, l, u) {
        assert Uses(N', c, l, u) == Uses(N, c, l, u);
      }
    }
  }

  ghost predicate Same(w: World, w': World, c: Child, l: nat) {
    && w.txg <= w'.txg && |w.disk| == |w'.disk|
    && (forall s: nat {:trigger Uses(w.arena, c, l, Slot(s))} :: Uses(w.arena, c, l, Slot(s)) > 0 ==>
          s < |w'.arena| && (s < |w.arena| ==> w.arena[s] == w'.arena[s]))
    && (forall b: nat {:trigger Uses(w.arena, c, l, Blk(b))} ::
          Uses(w.arena, c, l, Blk(b)) > 0 && b < |w.disk| ==> w.disk[b] == w'.disk[b])
  }

  lemma KidUses(N: Arena, kids: seq<Entry>, j: nat, l: nat)
    requires j < |kids|
    ensures forall u :: Uses(N, kids[j].child, l, u) <= RunUses(N, kids, l, u)
  {
    RunAround(N, kids, j, l);
    forall u ensures Uses(N, kids[j].child, l, u) <= RunUses(N, kids, l, u) {
      assert RunUses(N, kids, l, u) == AroundUses(N, kids, j, l, u);
    }
  }

  lemma SameKid(w: World, w': World, c: Child, l: nat, j: nat)
    requires l > 0 && ChildOk(w, c) && Same(w, w', c, l)
    requires j < |NodeOf(w.arena, c).kids|
    ensures NodeOf(w'.arena, c) == NodeOf(w.arena, c)
    ensures ChildOk(w', c)
    ensures Same(w, w', NodeOf(w.arena, c).kids[j].child, l - 1)
  {
    SameTop(w, w', c, l);
    var kids := NodeOf(w.arena, c).kids;
    KidUses(w.arena, kids, j, l - 1);
    var kid := kids[j].child;
    forall s: nat | Uses(w.arena, kid, l - 1, Slot(s)) > 0
      ensures s < |w'.arena| && (s < |w.arena| ==> w.arena[s] == w'.arena[s])
    {
      assert Uses(w.arena, c, l, Slot(s)) > 0;
    }
    forall b: nat | Uses(w.arena, kid, l - 1, Blk(b)) > 0 && b < |w.disk|
      ensures w.disk[b] == w'.disk[b]
    {
      assert Uses(w.arena, c, l, Blk(b)) > 0;
    }
  }

  lemma SameTop(w: World, w': World, c: Child, l: nat)
    requires ChildOk(w, c) && Same(w, w', c, l)
    ensures NodeOf(w'.arena, c) == NodeOf(w.arena, c)
    ensures ChildOk(w', c)
  {
    match c
    case Mem(i) =>
      assert Uses(w.arena, c, l, Slot(i)) > 0;
    case Disk(bp) =>
      assert Uses(w.arena, c, l, Blk(bp.block)) > 0;
  }

  lemma KidShape(w: World, kids: seq<Entry>, j: nat, l: nat, lo: Key, hi: Key)
    requires RunShape(w, kids, l, lo, hi) && j < |kids|
    ensures !IsEmpty(NodeOf(w.arena, kids[j].child)) && ChildOk(w, kids[j].child)
    ensures Shape(w, kids[j].child, l, kids[j].key, Next(kids, j, hi))
  {
    assert RunKid(w, kids, j, l, hi);
    assert Shape(w, kids[j].child, l, kids[j].key, Next(kids, j, hi));
  }

  /** A well-formed subtree stays well-formed while what it uses stays as it is. */
  lemma {:induction false} FrameShape(w: World, w': World, c: Child, l: nat, lo: Key, hi: Key)
    requires Shape(w, c, l, lo, hi) && Same(w, w', c, l)
    ensures Shape(w', c, l, lo, hi)
    decreases l
  {
    SameTop(w, w', c, l);
    if l > 0 {
      var kids := NodeOf(w.arena, c).kids;
      var m := l - 1;
      forall j | 0 <= j < |kids| ensures RunKid(w', kids, j, m, hi) {
        SameKid(w, w', c, l, j);
        KidShape(w, kids, j, l - 1, lo, hi);
        SameTop(w, w', kids[j].child, l - 1);
        FrameShape(w, w', kids[j].child, l - 1, kids[j].key, Next(kids, j, hi));
      }
    }
  }

  ghost predicate SameRun(w: World, w': World, kids: seq<Entry>, l: nat) {
    forall j {:trigger kids[j]} :: 0 <= j < |kids| ==> Same(w, w', kids[j].child, l)
  }

  lemma FrameRun(w: World, w': World, kids: seq<Entry>, l: nat, lo: Key, hi: Key)
    requires RunShape(w, kids, l, lo, hi) && SameRun(w, w', kids, l)
    ensures RunShape(w', kids, l, lo, hi)
  {
    forall j | 0 <= j < |kids| ensures RunKid(w', kids, j, l, hi) {
      KidShape(w, kids, j, l, lo, hi);
      SameTop(w, w', kids[j].child, l);
      FrameShape(w, w', kids[j].child, l, kids[j].key, Next(kids, j, hi));
    }
  }

  // --- Bounds ---

  predicate NoTighter(hi: Key, hi': Key) {
    hi' == 0 || (hi != 0 && hi <= hi')
  }

  lemma {:induction false} Widen(w: World, c: Child, l: nat, lo: Key, hi: Key, lo': Key, hi': Key)
    requires Shape(w, c, l, lo, hi) && lo' <= lo && NoTighter(hi, hi')
    ensures Shape(w, c, l, lo', hi')
    decreases l, 0
  {
    if l > 0 {
      WidenRun(w, NodeOf(w.arena, c).kids, l - 1, lo, hi, lo', hi');
    }
  }

  lemma {:induction false} WidenRun(w: World, kids: seq<Entry>, l: nat, lo: Key, hi: Key, lo': Key, hi': Key)
    requires RunShape(w, kids, l, lo, hi) && lo' <= lo && NoTighter(hi, hi')
    ensures RunShape(w, kids, l, lo', hi')
    decreases l, 1
  {
    if kids != [] {
      var j := |kids| - 1;
      assert RunKid(w, kids, j, l, hi);
      Widen(w, kids[j].child, l, kids[j].key, hi, kids[j].key, hi');
      forall i | 0 <= i < |kids| ensures RunKid(w, kids, i, l, hi') {
        assert RunKid(w, kids, i, l, hi);
      }
    }
  }

  lemma SplitRun(w: World, kids: seq<Entry>, p: nat, l: nat, lo: Key, hi: Key)
    requires RunShape(w, kids, l, lo, hi) && p < |kids|
    ensures RunShape(w, kids[..p], l, lo, kids[p].key)
    ensures RunShape(w, kids[p..], l, kids[p].key, hi)
  {
    var a, b := kids[..p], kids[p..];
    forall j | 0 <= j < |a| ensures RunKid(w, a, j, l, kids[p].key) {
      assert RunKid(w, kids, j, l, hi) && a[j] == kids[j] && Next(a, j, kids[p].key) == Next(kids, j, hi);
    }
    forall j | 0 <= j < |b| ensures RunKid(w, b, j, l, hi) {
      assert RunKid(w, kids, p + j, l, hi) && b[j] == kids[p + j] && Next(b, j, hi) == Next(kids, p + j, hi);
    }
  }

  lemma JoinRun(w: World, a: seq<Entry>, b: seq<Entry>, l: nat, lo: Key, mid: Key, hi: Key)
    requires RunShape(w, a, l, lo, mid) && RunShape(w, b, l, mid, hi)
    requires mid != 0 && lo <= mid && NoTighter(mid, hi)
    ensures RunShape(w, a + b, l, lo, hi)
  {
    var s := a + b;
    forall j | 0 <= j < |s| ensures RunKid(w, s, j, l, hi) {
      if j < |a| {
        assert RunKid(w, a, j, l, mid) && s[j] == a[j];
        Widen(w, a[j].child, l, a[j].key, Next(a, j, mid), a[j].key, Next(s, j, hi));
      } else {
        assert RunKid(w, b, j - |a|, l, hi) && s[j] == b[j - |a|];
      }
    }
  }

  /** A subtree's items are in order and within its bounds. */
  lemma {:induction false} ItemsOrdered(w: World, c: Child, l: nat, lo: Key, hi: Key)
    requires Shape(w, c, l, lo, hi)
    ensures Sorted(TreeItems(w.arena, c, l)) && Within(TreeItems(w.arena, c, l), lo, hi)
    decreases l, 0
  {
    if l > 0 {
      RunOrdered(w, NodeOf(w.arena, c).kids, l - 1, lo, hi);
    }
  }

  lemma {:induction false} RunOrdered(w: World, kids: seq<Entry>, l: nat, lo: Key, hi: Key)
    requires RunShape(w, kids, l, lo, hi)
    ensures Sorted(RunItems(w.arena, kids, l)) && Within(RunItems(w.arena, kids, l), lo, hi)
    decreases l, 1 + |kids|
  {
    assert kids != [] ==> RunKid(w, kids, 0, l, hi);
    if |kids| == 1 {
      ItemsOrdered(w, kids[0].child, l, kids[0].key, hi);
      RunOne(w.arena, kids[0], l);
      assert kids == [kids[0]];
    } else if |kids| > 1 {
      var k := kids[1].key;
      SplitRun(w, kids, 1, l, lo, hi);
      ItemsOrdered(w, kids[0].child, l, kids[0].key, k);
      RunOrdered(w, kids[1..], l, k, hi);
      JoinSorted(TreeItems(w.arena, kids[0].child, l), RunItems(w.arena, kids[1..], l), lo, kids[0].key, k, hi);
    }
  }

  lemma JoinSorted(a: Items, b: Items, lo: Key, lo': Key, mid: Key, hi: Key)
    requires Sorted(a) && Sorted(b) && Within(a, lo', mid) && Within(b, mid, hi)
    requires lo <= lo' <= mid && mid != 0 && Under(mid, hi)
    ensures Sorted(a + b) && Within(a + b, lo, hi)
  {
    var s := a + b;
    forall i, j | 0 <= i < j < |s| ensures s[i].key < s[j].key {
      if j < |a| {
      } else if i >= |a| {
        assert b[i - |a|].key < b[j - |a|].key;
      }
    }
  }

  // --- Unused slots ---

  /** A well-formed subtree uses no slot past the end of memory. */
  lemma {:induction false} NoFreshSlots(w: World, c: Child, l: nat, lo: Key, hi: Key)
    requires Shape(w, c, l, lo, hi)
    ensures forall s: nat :: s >= |w.arena| ==> Uses(w.arena, c, l, Slot(s)) == 0
    decreases l, 0
  {
    if l > 0 {
      RunNoFresh(w, NodeOf(w.arena, c).kids, l - 1, lo, hi);
    }
  }

  lemma {:induction false} RunNoFresh(w: World, kids: seq<Entry>, l: nat, lo: Key, hi: Key)
    requires RunShape(w, kids, l, lo, hi)
    ensures forall s: nat :: s >= |w.arena| ==> RunUses(w.arena, kids, l, Slot(s)) == 0
    decreases l, 1 + |kids|
  {
    if kids != [] {
      assert RunKid(w, kids, 0, l, hi);
      NoFreshSlots(w, kids[0].child, l, kids[0].key, Next(kids, 0, hi));
      if |kids| > 1 {
        SplitRun(w, kids, 1, l, lo, hi);
        RunNoFresh(w, kids[1..], l, kids[1].key, hi);
      }
    }
  }

  ghost predicate AllDisk(kids: seq<Entry>) {
    forall j :: 0 <= j < |kids| ==> kids[j].child.Disk?
  }

  /** A subtree that is on disk uses no memory at all. */
  lemma {:induction false} DiskNoSlots(N: Arena, kids: seq<Entry>, l: nat, s: nat)
    requires AllDisk(kids)
    ensures RunUses(N, kids, l, Slot(s)) == 0
    decreases l, |kids|
  {
    if kids != [] {
      DiskNoSlots(N, kids[1..], l, s);
      if l > 0 {
        DiskNoSlots(N, NodeOf(N, kids[0].child).kids, l - 1, s);
      }
    }
  }
}
