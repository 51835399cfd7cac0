/** How full the nodes of the tree are: what a removal does to the children of every node on its way, and what
    becomes of a root with one child. */
module KfsBalance {
  import opened Wrappers
  import opened KfsTypes
  import opened KfsItems
  import opened KfsTree
  import opened KfsSpace
  import opened KfsEdit

  /** The nodes right below a node. */
  ghost function KidNodes(N: Arena, n: Node): seq<Node> {
    seq(|n.kids|, j requires 0 <= j < |n.kids| => NodeOf(N, n.kids[j].child))
  }

  /** Neighbours `x` and `x + 1` fit in one block. */
  predicate Fit(a: seq<Node>, x: nat) {
    x + 1 < |a| && NodeSize(a[x]) + NodeSize(a[x + 1]) - HEADER <= BLOCK
  }

  /** Neighbours `x` and `x + 1` are one node. */
  function JoinedAt(a: seq<Node>, x: nat): seq<Node>
    requires x + 1 < |a|
  {
    a[..x] + [Node(a[x].level, a[x].items + a[x + 1].items, a[x].kids + a[x + 1].kids)] + a[x + 2..]
  }

  /** What is left of the nodes `a` of which the one at `p` has lost something. An empty one is gone; one of at most
      a quarter of a block is joined with the one after it, or the one before, if that fits; else nothing changes. */
  ghost predicate Balanced(a: seq<Node>, p: nat, b: seq<Node>) {
    && p < |a|
    && if IsEmpty(a[p]) then b == a[..p] + a[p + 1..]
       else if b == a then NodeSize(a[p]) > BLOCK / 4 || !(Fit(a, p) || (p > 0 && Fit(a, p - 1)))
       else
         && NodeSize(a[p]) <= BLOCK / 4
         && if Fit(a, p) then b == JoinedAt(a, p) else p > 0 && Fit(a, p - 1) && b == JoinedAt(a, p - 1)
  }

  /** The same from sizes alone. */
  lemma BalancedSizes(a: seq<Node>, p: nat, b: seq<Node>)
    requires Balanced(a, p, b) && !IsEmpty(a[p])
    requires forall j {:trigger a[j]} :: 0 <= j < |a| ==> a[j].level == a[p].level
    ensures NodeSize(a[p]) > BLOCK / 4 ==> |b| == |a|
    ensures |b| == |a| || |b| == |a| - 1
    ensures |b| == |a| ==> b == a
    ensures |b| == |a| && NodeSize(a[p]) <= BLOCK / 4 ==>
      && (p + 1 < |a| ==> NodeSize(a[p]) + NodeSize(a[p + 1]) - HEADER > BLOCK)
      && (p > 0 ==> NodeSize(a[p]) + NodeSize(a[p - 1]) - HEADER > BLOCK)
    ensures |b| == |a| - 1 ==> exists x: nat {:trigger Fit(a, x)} ::
      && Fit(a, x) && (x == p || x + 1 == p)
      && b[..x] == a[..x] && b[x + 1..] == a[x + 2..] && NodeSize(b[x]) == NodeSize(a[x]) + NodeSize(a[x + 1]) - HEADER
  {
    if b != a {
      var x := if Fit(a, p) then p else p - 1;
      assert Fit(a, x) && b == JoinedAt(a, x);
      PayloadConcat(a[x].items, a[x + 1].items);
      assert a[x].level == a[x + 1].level;
      Spread(|a[x].kids|, |a[x + 1].kids|);
      assert b[..x] == a[..x] && b[x + 1..] == a[x + 2..];
    }
  }

  lemma Spread(m: nat, n: nat)
    ensures (m + n) * INTERIOR_ENTRY == m * INTERIOR_ENTRY + n * INTERIOR_ENTRY
  {
  }

  /** The nodes `g` that a node too large for a block has become: leaves as even as the items allow, or two
      interior nodes that differ by one child at most. */
  ghost predicate DividedEvenly(n: Node, g: seq<Node>) {
    && |g| >= 2
    && if n.level == 0 then Even(ItemsOf(g), Payload(n.items) / 2) else |g| == 2 && 0 <= |g[0].kids| - |g[1].kids| <= 1
  }

  ghost function ItemsOf(g: seq<Node>): seq<Items> {
    seq(|g|, j requires 0 <= j < |g| => g[j].items)
  }

  lemma LeavesHold(N: Arena, i: nat, n: nat, parts: seq<Items>, g: seq<Entry>, lo: Key)
    requires i < |N| && |g| == |parts| >= 2 && n + |parts| - 1 <= |N| && g[0] == Entry(lo, Mem(i)) && N[i] == Node(0, parts[0], [])
    requires Fitting(parts) && forall t {:trigger g[t]} :: 1 <= t < |g| ==> g[t] == NewLeaf(parts, n, t)
    requires forall t {:trigger parts[t]} :: 1 <= t < |parts| ==> N[n + t - 1] == Node(0, parts[t], [])
    ensures ItemsOf(KidNodes(N, Node(1, [], g))) == parts
  {
    forall t | 0 <= t < |g| ensures NodeOf(N, g[t].child) == Node(0, parts[t], []) {}
  }

  // --- A removal ---

  /** Taking `key` out below node `n` of `N` has given node `i` of `N'`: at every level the child on the way was
      pruned, and then its siblings were balanced. */
  ghost predicate Pruned(N: Arena, n: Node, N': Arena, i: nat, key: Key, l: nat)
    decreases l, 1
  {
    if l == 0 then NodeOf(N', Mem(i)) == Node(0, Cut(n.items, key), [])
    else exists M: Arena, p: nat, c: nat {:trigger PrunedAt(N, n, N', i, key, l, M, p, c)} :: PrunedAt(N, n, N', i, key, l, M, p, c)
  }

  ghost predicate PrunedAt(N: Arena, n: Node, N': Arena, i: nat, key: Key, l: nat, M: Arena, p: nat, c: nat)
    requires l > 0
    decreases l, 0
  {
    && IsChildIndex(n.kids, key, p)
    && Pruned(N, KidNodes(N, n)[p], M, c, key, l - 1)
    && Balanced(KidNodes(N, n)[p := NodeOf(M, Mem(c))], p, KidNodes(N', NodeOf(N', Mem(i))))
  }

  /** Two children of a node use different slots and blocks. */
  lemma TwoKids(N: Arena, kids: seq<Entry>, j: nat, k: nat, l: nat, u: Use)
    requires j < |kids| && k < |kids| && j != k
    ensures Uses(N, kids[j].child, l, u) + Uses(N, kids[k].child, l, u) <= RunUses(N, kids, l, u)
  {
    var x, y := if j < k then j else k, if j < k then k else j;
    RunAround(N, kids, y, l);
    KidUses(N, kids[..y], x, l);
    assert RunUses(N, kids, l, u) == AroundUses(N, kids, y, l, u);
  }

  /** A child in memory is in a slot that is neither its parent's nor below another child. */
  lemma KidApart(w: World, s: Spc, i: nat, j: nat, k: nat, l: nat, lo: Key, hi: Key, total: nat)
    requires Ready(w, s, Mem(i), l + 1, lo, hi, total) && j < |w.arena[i].kids| && k < |w.arena[i].kids|
    requires w.arena[i].kids[j].child.Mem?
    ensures w.arena[i].kids[j].child.slot < |w.arena| && w.arena[i].kids[j].child.slot != i
    ensures j != k ==> Uses(w.arena, w.arena[i].kids[k].child, l, Slot(w.arena[i].kids[j].child.slot)) == 0
  {
    var kids := w.arena[i].kids;
    var t := kids[j].child.slot;
    InteriorFacts(w, s, i, l, lo, hi, total);
    KidShape(w, kids, j, l, lo, hi);
    KidUses(w.arena, kids, j, l);
    assert Uses(w.arena, kids[j].child, l, Slot(t)) >= 1;
    if j != k {
      TwoKids(w.arena, kids, j, k, l, Slot(t));
      assert At(t);
    }
  }

  /** After the removal below child `p`, the other children are as they were. */
  lemma KidsKept(w0: World, w1: World, w2: World, s0: Spc, s1: Spc, s2: Spc, i: nat, p: nat, c: nat, key: Key, l: nat, lo: Key,
                 hi: Key, total: nat)
    requires Ready(w0, s0, Mem(i), l + 1, lo, hi, total) && p < |w0.arena[i].kids|
    requires var kids := w0.arena[i].kids;
      && CopiedTo(w0.arena, w1.arena, kids[p].child, c, i) && SameDisk(w0, w1) && Released(s0, s1, kids[p].child, total)
      && TreeRemoved(w1, w2, s1, s2, c, key, l, kids[p].key, Next(kids, p, hi), total)
      && i < |w2.arena| && w2.arena[i].kids == kids[p := Entry(kids[p].key, Mem(c))]
    ensures KidNodes(w2.arena, w2.arena[i]) == KidNodes(w0.arena, w0.arena[i])[p := w2.arena[c]]
  {
    var kids := w0.arena[i].kids;
    ChildReady(w0, s0, i, p, l, lo, hi, total);
    OwnedReady(w0, w1, s0, s1, kids[p].child, c, i, l, kids[p].key, kids[p].key, Next(kids, p, hi), total);
    forall j | 0 <= j < |kids| && j != p ensures NodeOf(w2.arena, kids[j].child) == NodeOf(w0.arena, kids[j].child) {
      if kids[j].child.Mem? {
        KidApart(w0, s0, i, j, p, l, lo, hi, total);
        assert At(kids[j].child.slot);
      }
    }
  }

  /** One level up: what was true of child `p` becomes true of node `i`. */
  lemma PrunedUp(w0: World, w1: World, w2: World, N: Arena, s0: Spc, s1: Spc, s2: Spc, i: nat, p: nat, c: nat, key: Key, l: nat,
                 lo: Key, hi: Key, total: nat)
    requires Ready(w0, s0, Mem(i), l + 1, lo, hi, total) && IsChildIndex(w0.arena[i].kids, key, p)
    requires var kids := w0.arena[i].kids;
      && CopiedTo(w0.arena, w1.arena, kids[p].child, c, i) && SameDisk(w0, w1) && Released(s0, s1, kids[p].child, total)
      && TreeRemoved(w1, w2, s1, s2, c, key, l, kids[p].key, Next(kids, p, hi), total)
      && i < |w2.arena| && w2.arena[i].kids == kids[p := Entry(kids[p].key, Mem(c))]
    requires Pruned(w1.arena, w1.arena[c], w2.arena, c, key, l)
    requires Balanced(KidNodes(w2.arena, w2.arena[i]), p, KidNodes(N, NodeOf(N, Mem(i))))
    ensures Pruned(w0.arena, w0.arena[i], N, i, key, l + 1)
  {
    var kids := w0.arena[i].kids;
    var n := KidNodes(w0.arena, w0.arena[i])[p];
    KidsKept(w0, w1, w2, s0, s1, s2, i, p, c, key, l, lo, hi, total);
    ChildReady(w0, s0, i, p, l, lo, hi, total);
    assert w1.arena[c] == n;
    if l > 0 {
      CopiedKids(w0, w1, kids[p].child, c, i, l, kids[p].key, Next(kids, p, hi));
    }
    PrunedFrom(w0.arena, w1.arena, n, w2.arena, c, key, l);
    assert PrunedAt(w0.arena, w0.arena[i], N, i, key, l + 1, w2.arena, p, c);
  }

  /** What is known of a removal does not depend on where the nodes below were kept. */
  lemma {:induction false} PrunedFrom(N: Arena, N1: Arena, n: Node, N': Arena, i: nat, key: Key, l: nat)
    requires Pruned(N1, n, N', i, key, l) && (l > 0 ==> SameSlots(N, N1, n.kids, l - 1))
    ensures Pruned(N, n, N', i, key, l)
    decreases l
  {
    if l > 0 {
      var M: Arena, p: nat, c: nat :| PrunedAt(N1, n, N', i, key, l, M, p, c);
      forall j | 0 <= j < |n.kids| ensures NodeOf(N1, n.kids[j].child) == NodeOf(N, n.kids[j].child) {
        SlotsBelow(N, N1, n.kids, j, l - 1);
      }
      assert KidNodes(N1, n) == KidNodes(N, n);
      SlotsBelow(N, N1, n.kids, p, l - 1);
      PrunedFrom(N, N1, KidNodes(N, n)[p], M, c, key, l - 1);
      assert PrunedAt(N, n, N', i, key, l, M, p, c);
    }
  }

  lemma SlotsBelow(N: Arena, N1: Arena, kids: seq<Entry>, j: nat, l: nat)
    requires SameSlots(N, N1, kids, l) && j < |kids|
    ensures NodeOf(N1, kids[j].child) == NodeOf(N, kids[j].child)
    ensures l > 0 ==> SameSlots(N, N1, NodeOf(N, kids[j].child).kids, l - 1)
  {
    KidUses(N, kids, j, l);
    if kids[j].child.Mem? {
      assert Uses(N, kids[j].child, l, Slot(kids[j].child.slot)) > 0;
    }
    if l > 0 {
      var ks := NodeOf(N, kids[j].child).kids;
      forall t: nat | RunUses(N, ks, l - 1, Slot(t)) > 0 ensures t < |N| && t < |N1| && N[t] == N1[t] {
        assert Uses(N, kids[j].child, l, Slot(t)) > 0;
      }
    }
  }

  // --- A merge ---

  lemma KidsJoined(w0: World, w1: World, w2: World, w3: World, w4: World, s0: Spc, i: nat, x: nat, li: nat, ri: nat, l: nat,
                   lo: Key, hi: Key, total: nat)
    requires Ready(w0, s0, Mem(i), l + 1, lo, hi, total) && x + 1 < |w0.arena[i].kids|
    requires var eL, eR := w0.arena[i].kids[x], w0.arena[i].kids[x + 1];
             && CopiedTo(w0.arena, w1.arena, eL.child, li, |w0.arena|) && SameDisk(w0, w1)
             && CopiedTo(w1.arena, w2.arena, eR.child, ri, |w1.arena|) && SameDisk(w1, w2)
    requires TakenOver(w2.arena, w3.arena, li, ri) && i < |w3.arena|
    requires var kids := w0.arena[i].kids;
             w4.arena == w3.arena[i := Node(l + 1, [], kids[..x] + [Entry(kids[x].key, Mem(li))] + kids[x + 2..])]
    ensures KidNodes(w4.arena, w4.arena[i]) == JoinedAt(KidNodes(w0.arena, w0.arena[i]), x)
  {
    var kids := w0.arena[i].kids;
    var eL, eR, a := kids[x], kids[x + 1], KidNodes(w0.arena, w0.arena[i]);
    PairCopied(w0, w1, w2, s0, i, x, li, ri, l, lo, hi, total);
    forall j | 0 <= j < |kids| && j != x && j != x + 1 ensures NodeOf(w4.arena, kids[j].child) == a[j] {
      if kids[j].child.Mem? {
        KidApart(w0, s0, i, j, x, l, lo, hi, total);
        KidApart(w0, s0, i, j, x + 1, l, lo, hi, total);
        assert At(kids[j].child.slot);
      }
    }
    var kids' := kids[..x] + [Entry(kids[x].key, Mem(li))] + kids[x + 2..];
    forall j | 0 <= j < |kids'| ensures NodeOf(w4.arena, kids'[j].child) == JoinedAt(a, x)[j] {
      if j > x {
        assert kids'[j] == kids[j + 1];
      }
    }
  }

  lemma PairCopied(w0: World, w1: World, w2: World, s0: Spc, i: nat, x: nat, li: nat, ri: nat, l: nat, lo: Key, hi: Key,
                   total: nat)
    requires Ready(w0, s0, Mem(i), l + 1, lo, hi, total) && x + 1 < |w0.arena[i].kids|
    requires var eL, eR := w0.arena[i].kids[x], w0.arena[i].kids[x + 1];
             && CopiedTo(w0.arena, w1.arena, eL.child, li, |w0.arena|) && SameDisk(w0, w1)
             && CopiedTo(w1.arena, w2.arena, eR.child, ri, |w1.arena|) && SameDisk(w1, w2)
    ensures var eL, eR := w0.arena[i].kids[x], w0.arena[i].kids[x + 1];
            && li < |w2.arena| && ri < |w2.arena|
            && w2.arena[li] == NodeOf(w0.arena, eL.child) && w2.arena[ri] == NodeOf(w0.arena, eR.child)
            && li != ri && li != i && ri != i
            && (if eL.child.Mem? then li == eL.child.slot else li >= |w0.arena|)
            && (if eR.child.Mem? then ri == eR.child.slot else ri >= |w0.arena|)
    ensures |w0.arena| <= |w2.arena| && forall t: nat {:trigger At(t)} :: At(t) && t < |w0.arena| ==> w2.arena[t] == w0.arena[t]
  {
    var kids := w0.arena[i].kids;
    var eL, eR := kids[x], kids[x + 1];
    InteriorFacts(w0, s0, i, l, lo, hi, total);
    KidShape(w0, kids, x, l, lo, hi);
    KidShape(w0, kids, x + 1, l, lo, hi);
    var a, m, b := kids[..x], kids[x..x + 2], kids[x + 2..];
    assert m == [eL, eR] && kids == a + m + b;
    PairUnshared(w0.arena, a, m, b, i, l);
    TwoOwned(w0, w1, w2, eL, eR, li, ri, l, Next(kids, x + 1, hi));
    CopiesSame(w0, w1, w2, eL, eR, li, ri, l, Next(kids, x + 1, hi));
    PairDiffers(w0, w1, w2, s0, i, x, li, ri, l, lo, hi, total);
  }

  lemma KidDropped(N: Arena, i: nat, p: nat, n: Node)
    requires i < |N| && p < |N[i].kids| && n.kids == N[i].kids[..p] + N[i].kids[p + 1..]
    requires forall j {:trigger N[i].kids[j]} :: 0 <= j < |N[i].kids| ==> N[i].kids[j].child != Mem(i)
    ensures KidNodes(N[i := n], n) == KidNodes(N, N[i])[..p] + KidNodes(N, N[i])[p + 1..]
  {
  }

  /** No child of a node is the node itself, a child that took another's place included. */
  lemma NoneOwn(w: World, s: Spc, i: nat, p: nat, c: nat, l: nat, lo: Key, hi: Key, total: nat)
    requires Ready(w, s, Mem(i), l + 1, lo, hi, total) && p < |w.arena[i].kids| && c != i
    ensures forall j {:trigger w.arena[i].kids[p := Entry(w.arena[i].kids[p].key, Mem(c))][j]} :: 0 <= j < |w.arena[i].kids| ==>
              w.arena[i].kids[p := Entry(w.arena[i].kids[p].key, Mem(c))][j].child != Mem(i)
  {
    forall j | 0 <= j < |w.arena[i].kids| && j != p ensures w.arena[i].kids[j].child != Mem(i) {
      if w.arena[i].kids[j].child.Mem? {
        KidApart(w, s, i, j, p, l, lo, hi, total);
      }
    }
  }

  /** Nodes have been added; those that were there are on the level they were on. */
  ghost predicate LevelsKept(N: Arena, N': Arena) {
    |N| <= |N'| && forall t: nat {:trigger At(t)} :: At(t) && t < |N| ==> N'[t].level == N[t].level
  }

  // --- The root ---

  /** Where a tree of `l` levels starts when nodes with one child are skipped, as far as they are in memory. */
  ghost function Top(N: Arena, c: Child, l: nat): Child
    decreases l
  {
    if l > 0 && c.Mem? && |NodeOf(N, c).kids| == 1 then Top(N, NodeOf(N, c).kids[0].child, l - 1) else c
  }

  /** An empty node on top is a leaf. */
  function Trimmed(N: Arena, c: Child): Arena {
    if c.Mem? && c.slot < |N| && IsEmpty(N[c.slot]) then N[c.slot := EMPTY] else N
  }

  /** A removal in the whole tree: the top has been pruned, and then only children have taken its place. */
  ghost predicate Shrunk(N: Arena, n: Node, N': Arena, c: Child, key: Key, l: nat) {
    exists M: Arena, i: nat {:trigger Pruned(N, n, M, i, key, l)} ::
      Pruned(N, n, M, i, key, l) && c == Top(M, Mem(i), l) && N' == Trimmed(M, c)
  }

  lemma RootPruned(w: World, w1: World, N: Arena, c: Child, i: nat, key: Key, l: nat)
    requires Shape(w, c, l, 0, 0) && CopiedTo(w.arena, w1.arena, c, i, |w.arena|) && Pruned(w1.arena, w1.arena[i], N, i, key, l)
    ensures Pruned(w.arena, NodeOf(w.arena, c), N, i, key, l)
  {
    NoFreshSlots(w, c, l, 0, 0);
    if l > 0 {
      CopiedKids(w, w1, c, i, |w.arena|, l, 0, 0);
    }
    PrunedFrom(w.arena, w1.arena, NodeOf(w.arena, c), N, i, key, l);
  }
}
