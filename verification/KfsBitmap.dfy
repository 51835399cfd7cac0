/** Writing the free-space bitmap, which changes the very bits it writes. What the rest of the
    volume refers to is a parameter, `base`. */
module KfsBitmap {
  import opened Wrappers
  import opened KfsTypes
  import opened KfsItems
  import opened KfsTree
  import opened KfsState
  import opened KfsSpace

  // --- Accounting ---

  ghost function Claims(base: nat -> nat, leaves: seq<Bp>, extra: seq<Bp>, b: nat): nat {
    base(b) + BpsUses(leaves, b) + BpsUses(extra, b)
  }

  /** Block by block, the bitmap marks exactly what is referred to, once: by the rest of the volume,
      as a bitmap block, or as one of `extra`. */
  ghost predicate Tally(s: Spc, total: nat, base: nat -> nat, leaves: seq<Bp>, extra: seq<Bp>) {
    forall b: nat {:trigger At(b)} :: At(b) ==>
      && Claims(base, leaves, extra, b) == (if DATA_START <= b < total then BitAt(s, b) else 0)
      && (b < DATA_START ==> BitAt(s, b) == 1)
  }

  function Bare(block: nat): Bp { Bp(block, 1, 0, []) }

  function Bares(blocks: seq<nat>): seq<Bp> {
    seq(|blocks|, i requires 0 <= i < |blocks| => Bare(blocks[i]))
  }

  lemma BaresPush(blocks: seq<nat>, block: nat)
    ensures Bares(blocks + [block]) == Bares(blocks) + [Bare(block)]
  {
  }

  lemma TallyFree(s: Spc, total: nat, base: nat -> nat, leaves: seq<Bp>, extra: seq<Bp>)
    requires Tally(s, total, base, leaves, extra) && SpcOk(s, total)
    requires extra != [] && extra[0].count == 1
    ensures DATA_START <= extra[0].block < total && BitAt(s, extra[0].block) == 1
    ensures Tally(FreeOne(s, extra[0].block), total, base, leaves, extra[1..])
  {
    var x := extra[0].block;
    assert At(x);
    BpsUsesAround(extra, 0, x);
    forall b: nat
      ensures Claims(base, leaves, extra[1..], b) == (if DATA_START <= b < total then BitAt(FreeOne(s, x), b) else 0)
      ensures b < DATA_START ==> BitAt(FreeOne(s, x), b) == 1
    {
      assert At(b);
      BpsUsesAround(extra, 0, b);
      assert x / BITS_PER_BITMAP < |s.dirty|;
    }
  }

  lemma TallyTake(s: Spc, total: nat, base: nat -> nat, leaves: seq<Bp>, extra: seq<Bp>, x: nat)
    requires Tally(s, total, base, leaves, extra) && SpcOk(s, total)
    requires DATA_START <= x < total && !Guarded(s, x)
    ensures Tally(TakeOne(s, x), total, base, leaves, extra + [Bare(x)])
  {
    assert x / BITS_PER_BITMAP < |s.dirty|;
    forall b: nat
      ensures Claims(base, leaves, extra + [Bare(x)], b) == (if DATA_START <= b < total then BitAt(TakeOne(s, x), b) else 0)
      ensures b < DATA_START ==> BitAt(TakeOne(s, x), b) == 1
    {
      assert At(b);
      BpsUsesConcat(extra, [Bare(x)], b);
      BpsUsesOne(Bare(x), b);
    }
  }

  /** Bitmap block `k` moves to `x`. */
  lemma TallyMove(s: Spc, total: nat, base: nat -> nat, leaves: seq<Bp>, extra: seq<Bp>, k: nat, x: nat)
    requires Tally(s, total, base, leaves, extra) && SpcOk(s, total)
    requires k < |leaves| && leaves[k].count == 1
    requires DATA_START <= x < total && !Guarded(s, x)
    ensures DATA_START <= leaves[k].block < total && BitAt(TakeOne(s, x), leaves[k].block) == 1
    ensures Tally(FreeOne(TakeOne(s, x), leaves[k].block), total, base, leaves[k := leaves[k].(block := x)], extra)
  {
    var y, leaves' := leaves[k].block, leaves[k := leaves[k].(block := x)];
    assert At(y);
    BpsUsesAround(leaves, k, y);
    assert x / BITS_PER_BITMAP < |s.dirty| && y / BITS_PER_BITMAP < |s.dirty|;
    assert leaves'[..k] == leaves[..k] && leaves'[k + 1..] == leaves[k + 1..];
    var s' := FreeOne(TakeOne(s, x), y);
    forall b: nat
      ensures Claims(base, leaves', extra, b) == (if DATA_START <= b < total then BitAt(s', b) else 0)
      ensures b < DATA_START ==> BitAt(s', b) == 1
    {
      assert At(b);
      BpsUsesAround(leaves, k, b);
      BpsUsesAround(leaves', k, b);
    }
  }

  /** Only where pointers point matters. */
  lemma {:induction false} UsesSame(x: seq<Bp>, y: seq<Bp>, b: nat)
    requires |x| == |y|
    requires forall i {:trigger x[i]} :: 0 <= i < |x| ==> x[i].block == y[i].block && x[i].count == y[i].count
    ensures BpsUses(x, b) == BpsUses(y, b)
  {
    if x != [] {
      var n := |x| - 1;
      assert x[n].block == y[n].block;
      forall i | 0 <= i < n ensures x[..n][i].block == y[..n][i].block && x[..n][i].count == y[..n][i].count {
        assert x[i].block == y[i].block;
      }
      UsesSame(x[..n], y[..n], b);
    }
  }

  lemma TallySame(s: Spc, total: nat,
                  base: nat -> nat, leaves: seq<Bp>, leaves': seq<Bp>, extra: seq<Bp>, extra': seq<Bp>)
    requires Tally(s, total, base, leaves, extra) && |leaves'| == |leaves| && |extra'| == |extra|
    requires forall i {:trigger leaves'[i]} :: 0 <= i < |leaves| ==> leaves'[i].block == leaves[i].block && leaves'[i].count == leaves[i].count
    requires forall i {:trigger extra'[i]} :: 0 <= i < |extra| ==> extra'[i].block == extra[i].block && extra'[i].count == extra[i].count
    ensures Tally(s, total, base, leaves', extra')
  {
    forall b: nat ensures Claims(base, leaves', extra', b) == Claims(base, leaves, extra, b) {
      UsesSame(leaves', leaves, b);
      UsesSame(extra', extra, b);
    }
  }

  lemma {:induction false} UsesPair(x: seq<Bp>, i: nat, j: nat, b: nat)
    requires i < j < |x|
    ensures BpsUses(x, b) >= BpUses(x[i], b) + BpUses(x[j], b)
  {
    BpsUsesAround(x, j, b);
    BpsUsesAround(x[..j], i, b);
  }

  /** A bitmap block's place is its own. */
  lemma LeafAlone(s: Spc, total: nat, base: nat -> nat, leaves: seq<Bp>, extra: seq<Bp>, k: nat)
    requires Tally(s, total, base, leaves, extra) && k < |leaves| && leaves[k].count == 1
    ensures var x := leaves[k].block;
            && DATA_START <= x < total && base(x) == 0 && BpsUses(extra, x) == 0
            && forall j :: 0 <= j < |leaves| && j != k ==> BpUses(leaves[j], x) == 0
  {
    var x := leaves[k].block;
    assert At(x);
    BpsUsesAround(leaves, k, x);
    forall j | 0 <= j < |leaves| && j != k ensures BpUses(leaves[j], x) == 0 {
      if j < k { UsesPair(leaves, j, k, x); } else { UsesPair(leaves, k, j, x); }
    }
  }

  /** So is a reserved block's. */
  lemma ExtraAlone(s: Spc, total: nat, base: nat -> nat, leaves: seq<Bp>, extra: seq<Bp>, k: nat)
    requires Tally(s, total, base, leaves, extra) && k < |extra| && extra[k].count == 1
    ensures var x := extra[k].block;
            && DATA_START <= x < total && base(x) == 0
            && (forall j :: 0 <= j < |leaves| ==> BpUses(leaves[j], x) == 0)
            && (forall j :: 0 <= j < |extra| && j != k ==> BpUses(extra[j], x) == 0)
  {
    var x := extra[k].block;
    assert At(x);
    BpsUsesAround(extra, k, x);
    forall j | 0 <= j < |extra| && j != k ensures BpUses(extra[j], x) == 0 {
      if j < k { UsesPair(extra, j, k, x); } else { UsesPair(extra, k, j, x); }
    }
    forall j | 0 <= j < |leaves| ensures BpUses(leaves[j], x) == 0 {
      BpsUsesAround(leaves, j, x);
    }
  }

  // --- Bitmap blocks and what they say ---

  function ChunkAt(bits: seq<bool>, k: nat): seq<bool> {
    if (k + 1) * BITS_PER_BITMAP <= |bits| then Chunk(bits, k) else []
  }

  /** Bitmap block `bp` says what `bits` has for it. */
  ghost predicate Says(bp: Bp, bits: seq<bool>, k: nat) {
    BitmapLeaf(bp) && LeafBits(bp) == ChunkAt(bits, k)
  }

  /** Every bitmap block not marked as changed is right. */
  ghost predicate Clean(s: Spc, leaves: seq<Bp>) {
    forall k: nat {:trigger At(k)} :: At(k) && k < |s.dirty| && k < |leaves| && !s.dirty[k] ==> Says(leaves[k], s.bits, k)
  }

  lemma CleanKept(s: Spc, s': Spc, leaves: seq<Bp>, total: nat)
    requires Clean(s, leaves) && Safe(s, s', total)
    ensures Clean(s', leaves)
  {
    forall k: nat | k < |s'.dirty| && k < |leaves| && !s'.dirty[k] ensures Says(leaves[k], s'.bits, k) {
      assert At(k);
      var lo, hi := k * BITS_PER_BITMAP, (k + 1) * BITS_PER_BITMAP;
      forall b | lo <= b < hi && b < |s.bits| ensures s'.bits[b] == s.bits[b] {
        assert b / BITS_PER_BITMAP == k;
      }
      assert hi <= |s.bits| ==> s'.bits[lo..hi] == s.bits[lo..hi];
    }
  }

  /** The other blocks of the volume are as they were. */
  ghost predicate BaseKept(base: nat -> nat, d: seq<Block>, d': seq<Block>) {
    |d'| == |d| && forall b: nat {:trigger At(b)} :: At(b) && b < |d| && base(b) > 0 ==> d'[b] == d[b]
  }

  // --- How many index nodes it takes ---

  function Groups(n: nat): nat { (n + INDEX_MAX - 1) / INDEX_MAX }

  /** `k` full groups of `n` pointers end at `p`. (Sealed: see `Open`.) */
  ghost predicate Grouped(n: nat, k: nat, p: nat) {
    forall x: nat {:trigger Open(IndexSeal, x)} :: Open(IndexSeal, x) ==>
      p <= n && if p < n then p == k * INDEX_MAX else k == Groups(n)
  }

  lemma GroupsStart(n: nat)
    ensures Grouped(n, 0, 0)
  {
  }

  lemma GroupsNext(n: nat, k: nat, p: nat)
    requires Grouped(n, k, p) && p < n
    ensures k < Groups(n) && Grouped(n, k + 1, if p + INDEX_MAX < n then p + INDEX_MAX else n)
  {
    assert Open(IndexSeal, 0);
  }

  lemma GroupsEnd(n: nat, k: nat, p: nat)
    requires Grouped(n, k, p)
    ensures p <= n && (p == n ==> k == Groups(n))
  {
    assert Open(IndexSeal, 0);
  }

  /** Index nodes over `n` blocks, at every level. */
  function NodesFor(n: nat): nat
    requires n >= 1
    decreases n
  {
    var m := Groups(n);
    m + if m == 1 then 0 else NodesFor(m)
  }

  /** The most blocks that writing a bitmap of `n` blocks takes: a new index, and every block of it moved. */
  function MapCost(n: nat): nat { if n == 0 then 0 else NodesFor(n) + n }

  function Levels(n: nat): nat
    requires n >= 1
    decreases n
  {
    var m := Groups(n);
    1 + if m == 1 then 0 else Levels(m)
  }

  function Power(k: nat): nat { if k == 0 then 1 else INDEX_MAX * Power(k - 1) }

  lemma {:induction false} LevelsBound(n: nat, k: nat)
    requires 1 <= n <= Power(k) && k >= 1
    ensures Levels(n) <= k
  {
    var m := Groups(n);
    if k == 1 {
      assert Power(0) == 1;
    } else if m > 1 {
      assert m <= Power(k - 1);
      LevelsBound(m, k - 1);
    }
  }

  /** No volume needs more than eight levels, so mounting never finds the index too deep. */
  lemma EightLevels(total: nat)
    requires DATA_START <= total < U64
    ensures Bitmaps(total) >= 1 && Levels(Bitmaps(total)) <= 8
  {
    var p2 := Power(2);
    assert Power(1) == 126 && p2 == 15876;
    assert Power(4) == 15876 * 15876;
    assert Power(6) == 15876 * 15876 * 15876;
    assert Power(8) == 15876 * 15876 * 15876 * 15876;
    LevelsBound(Bitmaps(total), 8);
  }

  method CountNodes(n: nat) returns (nodes: nat)
    requires n >= 1
    ensures nodes == NodesFor(n)
  {
    nodes := 0;
    var m := n;
    while true
      invariant m >= 1 && nodes + NodesFor(m) == NodesFor(n)
      decreases m
    {
      m := Groups(m);
      nodes := nodes + m;
      if m == 1 {
        break;
      }
    }
  }

  // --- Building the index ---

  /** The bitmap blocks under nodes at level `l` (level 0: themselves). */
  ghost function Leaves(bps: seq<Bp>, l: nat): seq<Bp> {
    if l == 0 then bps else LeavesOf(bps, l)
  }

  ghost function Nodes(bps: seq<Bp>, l: nat): seq<Bp> {
    if l == 0 then [] else NodesOf(bps, l)
  }

  ghost predicate Shapes(bps: seq<Bp>, l: nat) {
    l == 0 || IndexShapes(bps, l)
  }

  lemma {:induction false} LeavesConcat(x: seq<Bp>, y: seq<Bp>, l: nat)
    ensures LeavesOf(x + y, l) == LeavesOf(x, l) + LeavesOf(y, l)
    decreases |x|
  {
    if x == [] {
      assert x + y == y;
    } else {
      assert (x + y)[0] == x[0] && (x + y)[1..] == x[1..] + y;
      LeavesConcat(x[1..], y, l);
    }
  }

  lemma {:induction false} NodesConcat(x: seq<Bp>, y: seq<Bp>, l: nat)
    ensures NodesOf(x + y, l) == NodesOf(x, l) + NodesOf(y, l)
    decreases |x|
  {
    if x == [] {
      assert x + y == y;
    } else {
      assert (x + y)[0] == x[0] && (x + y)[1..] == x[1..] + y;
      NodesConcat(x[1..], y, l);
    }
  }

  lemma {:induction false} ShapesConcat(x: seq<Bp>, y: seq<Bp>, l: nat)
    ensures IndexShapes(x + y, l) <==> IndexShapes(x, l) && IndexShapes(y, l)
    decreases |x|
  {
    if x == [] {
      assert x + y == y;
    } else {
      assert (x + y)[0] == x[0] && (x + y)[1..] == x[1..] + y;
      ShapesConcat(x[1..], y, l);
    }
  }

  lemma LevelConcat(x: seq<Bp>, y: seq<Bp>, l: nat)
    ensures Leaves(x + y, l) == Leaves(x, l) + Leaves(y, l)
    ensures Nodes(x + y, l) == Nodes(x, l) + Nodes(y, l)
    ensures Shapes(x + y, l) <==> Shapes(x, l) && Shapes(y, l)
  {
    if l > 0 {
      LeavesConcat(x, y, l);
      NodesConcat(x, y, l);
      ShapesConcat(x, y, l);
    }
  }

  /** An index node over `group`. */
  lemma OneNode(bp: Bp, group: seq<Bp>, l: nat, txg: nat)
    requires bp.count == 1 && bp.sum == [IndexB(l + 1, txg, group)]
    requires 1 <= |group| <= INDEX_MAX && Shapes(group, l)
    ensures LeavesOf([bp], l + 1) == Leaves(group, l)
    ensures NodesOf([bp], l + 1) == [bp] + Nodes(group, l)
    ensures IndexShapes([bp], l + 1)
  {
    assert [bp][1..] == [];
    assert IndexLeaves(bp, l + 1) == Leaves(group, l);
    assert IndexNodes(bp, l + 1) == [bp] + Nodes(group, l);
    assert Leaves(group, l) + [] == Leaves(group, l);
    assert [bp] + Nodes(group, l) + [] == [bp] + Nodes(group, l);
  }

  /** `up` covers the first `p` of `level`, which is at level `l` over the bitmap blocks `leaves`; the
      index nodes so far are `index`. (Sealed: see `Open`.) */
  ghost predicate Covers(up: seq<Bp>, level: seq<Bp>, p: nat, l: nat, leaves: seq<Bp>, index: seq<Bp>) {
    forall n: nat {:trigger Open(IndexSeal, n)} :: Open(IndexSeal, n) ==>
      && p <= |level| && Leaves(level, l) == leaves && Shapes(level[p..], l)
      && LeavesOf(up, l + 1) == Leaves(level[..p], l) && IndexShapes(up, l + 1)
      && multiset(NodesOf(up, l + 1)) + multiset(Nodes(level[p..], l)) == multiset(index)
  }

  /** The nodes in `level`, at level `l`, lead to just the bitmap blocks `leaves`; `index` has them and
      those below. */
  ghost predicate Over(level: seq<Bp>, l: nat, leaves: seq<Bp>, index: seq<Bp>) {
    forall n: nat {:trigger Open(IndexSeal, n)} :: Open(IndexSeal, n) ==>
      Leaves(level, l) == leaves && Shapes(level, l) && multiset(Nodes(level, l)) == multiset(index)
  }

  lemma CoversStart(level: seq<Bp>, l: nat, leaves: seq<Bp>, index: seq<Bp>)
    requires Over(level, l, leaves, index)
    ensures Covers([], level, 0, l, leaves, index)
  {
    assert Open(IndexSeal, 0);
    assert level[0..] == level;
  }

  lemma BitsInParts<T>(s: seq<T>, p: nat, q: nat)
    requires p <= q <= |s|
    ensures s[p..] == s[p..q] + s[q..] && s[..q] == s[..p] + s[p..q]
  {
  }

  lemma CoversNext(up: seq<Bp>, level: seq<Bp>, p: nat, q: nat, l: nat, leaves: seq<Bp>, index: seq<Bp>, bp: Bp,
                   txg: nat)
    requires Covers(up, level, p, l, leaves, index) && p < q <= |level| && q - p <= INDEX_MAX
    requires bp.count == 1 && bp.sum == [IndexB(l + 1, txg, level[p..q])]
    ensures Covers(up + [bp], level, q, l, leaves, index + [bp])
  {
    assert Open(IndexSeal, 0);
    var group, rest := level[p..q], level[q..];
    BitsInParts(level, p, q);
    LevelConcat(group, rest, l);
    LevelConcat(level[..p], group, l);
    NodePushed(up, bp, group, l, txg);
    BagNext(NodesOf(up, l + 1), Nodes(group, l), Nodes(rest, l), index, bp);
  }

  lemma NodePushed(up: seq<Bp>, bp: Bp, group: seq<Bp>, l: nat, txg: nat)
    requires bp.count == 1 && bp.sum == [IndexB(l + 1, txg, group)]
    requires 1 <= |group| <= INDEX_MAX && Shapes(group, l) && IndexShapes(up, l + 1)
    ensures LeavesOf(up + [bp], l + 1) == LeavesOf(up, l + 1) + Leaves(group, l)
    ensures NodesOf(up + [bp], l + 1) == NodesOf(up, l + 1) + ([bp] + Nodes(group, l))
    ensures IndexShapes(up + [bp], l + 1)
  {
    OneNode(bp, group, l, txg);
    LevelConcat(up, [bp], l + 1);
  }

  lemma BagNext<T>(a: seq<T>, g: seq<T>, r: seq<T>, index: seq<T>, x: T)
    requires multiset(a) + multiset(g + r) == multiset(index)
    ensures multiset(a + ([x] + g)) + multiset(r) == multiset(index + [x])
  {
  }

  lemma CoversAll(up: seq<Bp>, level: seq<Bp>, l: nat, leaves: seq<Bp>, index: seq<Bp>)
    requires Covers(up, level, |level|, l, leaves, index)
    ensures Over(up, l + 1, leaves, index)
  {
    assert Open(IndexSeal, 0);
    assert level[|level|..] == [] && level[..|level|] == level;
  }

  /** The one node at the top is the index. */
  lemma IndexDone(up: seq<Bp>, l: nat, leaves: seq<Bp>, index: seq<Bp>)
    requires |up| == 1 && l >= 1 && Over(up, l, leaves, index)
    ensures IndexShape(up[0], l) && IndexLeaves(up[0], l) == leaves && multiset(IndexNodes(up[0], l)) == multiset(index)
  {
    assert Open(IndexSeal, 0);
    assert up[1..] == [];
    assert LeavesOf(up, l) == IndexLeaves(up[0], l) + LeavesOf(up[1..], l);
    assert NodesOf(up, l) == IndexNodes(up[0], l) + NodesOf(up[1..], l);
    assert IndexLeaves(up[0], l) + [] == IndexLeaves(up[0], l);
    assert IndexNodes(up[0], l) + [] == IndexNodes(up[0], l);
  }

  /** Lists that differ only in order: the last of one, taken out of both. */
  lemma LastTaken<T>(x: seq<T>, y: seq<T>) returns (i: nat)
    requires x != [] && multiset(x) == multiset(y)
    ensures i < |y| && y[i] == x[|x| - 1]
    ensures multiset(x[..|x| - 1]) == multiset(y[..i] + y[i + 1..])
  {
    var n := |x| - 1;
    assert x[n] in multiset(y);
    i :| 0 <= i < |y| && y[i] == x[n];
    PartedAt(x, n);
    assert x[..n] + x[n + 1..] == x[..n];
    PartedAt(y, i);
    Cancel(multiset(x[..n]), multiset(y[..i] + y[i + 1..]), x[n]);
  }

  lemma PartedAt<T>(x: seq<T>, i: nat)
    requires i < |x|
    ensures multiset(x) == multiset(x[..i] + x[i + 1..]) + multiset{x[i]}
  {
    assert x == x[..i] + ([x[i]] + x[i + 1..]);
  }

  lemma Cancel<T>(a: multiset<T>, b: multiset<T>, v: T)
    requires a + multiset{v} == b + multiset{v}
    ensures a == b
  {
    assert a == (a + multiset{v}) - multiset{v};
    assert b == (b + multiset{v}) - multiset{v};
  }

  lemma {:induction false} BagUses(x: seq<Bp>, y: seq<Bp>, b: nat)
    requires multiset(x) == multiset(y)
    ensures BpsUses(x, b) == BpsUses(y, b)
    decreases |x|
  {
    if x == [] {
      assert |multiset(y)| == 0;
    } else {
      var i := LastTaken(x, y);
      BagUses(x[..|x| - 1], y[..i] + y[i + 1..], b);
      BpsUsesAround(y, i, b);
      BpsUsesConcat(y[..i], y[i + 1..], b);
    }
  }

  lemma BagOnDisk(disk: seq<Block>, x: seq<Bp>, y: seq<Bp>, txg: nat)
    requires multiset(x) == multiset(y) && AllOnDisk(disk, x) && AllBorn(x, txg)
    ensures AllOnDisk(disk, y) && AllBorn(y, txg)
  {
    forall i | 0 <= i < |y| ensures BpOnDisk(disk, y[i]) && y[i].birth <= txg {
      assert y[i] in multiset(x);
      var j :| 0 <= j < |x| && x[j] == y[i];
      OnDiskAt(disk, x, j);
      BornAt(x, txg, j);
    }
    OnDiskIf(disk, y);
    BornIf(y, txg);
  }

  // --- The fixpoint: moving bitmap blocks until no changed one is left where it was ---

  /** Blocks not flagged are where they were; where the flagged ones are now is nothing `used` covers. */
  ghost predicate MovedTo(was: seq<Bp>, now: seq<Bp>, moved: seq<bool>, used: nat -> bool) {
    && |was| == |now| == |moved|
    && forall k: nat {:trigger At(k)} :: At(k) && k < |was| ==>
         if moved[k] then now[k] == was[k].(block := now[k].block) && !used(now[k].block) else now[k] == was[k]
  }

  lemma MovedNext(was: seq<Bp>, now: seq<Bp>, moved: seq<bool>, used: nat -> bool, k: nat, x: nat)
    requires MovedTo(was, now, moved, used) && k < |was| && !moved[k] && !used(x)
    ensures MovedTo(was, now[k := now[k].(block := x)], moved[k := true], used)
    ensures Zeros(moved[k := true]) == Zeros(moved) - 1
  {
    assert At(k);
    ZerosSet(moved, k);
    forall j: nat | j < |was| ensures var n := now[k := now[k].(block := x)];
      if moved[k := true][j] then n[j] == was[j].(block := n[j].block) && !used(n[j].block) else n[j] == was[j]
    {
      assert At(j);
    }
  }

  lemma {:induction false} AllZeros(bits: seq<bool>)
    requires forall j :: 0 <= j < |bits| ==> !bits[j]
    ensures Zeros(bits) == |bits|
  {
    if bits != [] {
      AllZeros(bits[..|bits| - 1]);
    }
  }

  lemma {:induction false} ZerosSet(bits: seq<bool>, k: nat)
    requires k < |bits| && !bits[k]
    ensures Zeros(bits[k := true]) == Zeros(bits) - 1
  {
    var n := |bits| - 1;
    if k == n {
      assert bits[k := true][..n] == bits[..n];
    } else {
      assert bits[k := true][..n] == bits[..n][k := true];
      ZerosSet(bits[..n], k);
    }
  }

  // --- Writing the bitmap blocks ---

  /** Bitmap block `k` is right, and on disk. */
  ghost predicate LeafDone(bits: seq<bool>, disk: seq<Block>, bp: Bp, k: nat, txg: nat) {
    Says(bp, bits, k) && BpOnDisk(disk, bp) && bp.birth <= txg
  }

  /** The bitmap blocks before `i`, and those that have not moved, are right and on disk. */
  ghost predicate LeavesTo(bits: seq<bool>, disk: seq<Block>, leaves: seq<Bp>, moved: seq<bool>, i: nat, txg: nat,
                           used: nat -> bool) {
    && |moved| == |leaves|
    && forall k: nat {:trigger At(k)} :: At(k) && k < |leaves| ==>
         if k < i || !moved[k] then LeafDone(bits, disk, leaves[k], k, txg) else leaves[k].count == 1 && !used(leaves[k].block)
  }

  ghost predicate OneChanged(d: seq<Block>, d': seq<Block>, x: nat, raw: Block) {
    && |d'| == |d| && x < |d| && d'[x] == raw
    && forall b: nat {:trigger d'[b]} :: b < |d| && b != x ==> d'[b] == d[b]
  }

  lemma OnDiskKept(d: seq<Block>, d': seq<Block>, bp: Bp, x: nat, raw: Block)
    requires BpOnDisk(d, bp) && BpUses(bp, x) == 0 && OneChanged(d, d', x, raw)
    ensures BpOnDisk(d', bp)
  {
    assert d'[bp.block..bp.block + bp.count] == d[bp.block..bp.block + bp.count];
  }

  /** The bitmap's blocks are being written, with those before `i` done. (Sealed: see `Open`.) */
  ghost predicate Writing(s: Spc, total: nat, base: nat -> nat, leaves: seq<Bp>, extra: seq<Bp>, d: seq<Block>,
                          moved: seq<bool>, i: nat, txg: nat, used: nat -> bool) {
    forall n: nat {:trigger Open(LayingSeal, n)} :: Open(LayingSeal, n) ==>
      && Tally(s, total, base, leaves, extra) && LeavesTo(s.bits, d, leaves, moved, i, txg, used)
      && SpcOk(s, total) && |leaves| == |s.dirty|
  }

  lemma LeafSkipped(s: Spc, total: nat,
                    base: nat -> nat, leaves: seq<Bp>, extra: seq<Bp>, d: seq<Block>, moved: seq<bool>, i: nat, txg: nat, used: nat -> bool)
    requires Writing(s, total, base, leaves, extra, d, moved, i, txg, used) && i < |moved| && !moved[i]
    ensures Writing(s, total, base, leaves, extra, d, moved, i + 1, txg, used)
  {
    assert Open(LayingSeal, 0);
  }

  lemma AllWritten(s: Spc, total: nat,
                   base: nat -> nat, leaves: seq<Bp>, extra: seq<Bp>, d: seq<Block>, moved: seq<bool>, txg: nat, used: nat -> bool)
    requires Writing(s, total, base, leaves, extra, d, moved, |leaves|, txg, used)
    ensures Tally(s, total, base, leaves, extra) && LeavesDone(s.bits, d, leaves, txg)
  {
    assert Open(LayingSeal, 0);
  }

  lemma LeafReady(s: Spc, total: nat,
                  base: nat -> nat, leaves: seq<Bp>, extra: seq<Bp>, d: seq<Block>, moved: seq<bool>, i: nat, txg: nat, used: nat -> bool)
    requires Writing(s, total, base, leaves, extra, d, moved, i, txg, used) && i < |leaves| && i < |moved| && moved[i]
    ensures DATA_START <= leaves[i].block < total && !used(leaves[i].block)
  {
    assert Open(LayingSeal, 0) && At(i);
    LeafAlone(s, total, base, leaves, extra, i);
  }

  lemma LeafWritten(s: Spc, total: nat,
                    base: nat -> nat, leaves: seq<Bp>, extra: seq<Bp>, d: seq<Block>, d': seq<Block>, moved: seq<bool>, i: nat, txg: nat, used: nat -> bool)
    requires Writing(s, total, base, leaves, extra, d, moved, i, txg, used) && i < |leaves| && i < |moved| && moved[i]
    requires OneChanged(d, d', leaves[i].block, BitsB(ChunkAt(s.bits, i)))
    ensures var leaves' := leaves[i := Bp(leaves[i].block, 1, txg, [BitsB(ChunkAt(s.bits, i))])];
            && Writing(s, total, base, leaves', extra, d', moved, i + 1, txg, used) && BaseKept(base, d, d')
  {
    assert Open(LayingSeal, 0);
    var x, raw := leaves[i].block, BitsB(ChunkAt(s.bits, i));
    var leaves' := leaves[i := Bp(x, 1, txg, [raw])];
    assert At(i);
    LeafAlone(s, total, base, leaves, extra, i);
    TallySame(s, total, base, leaves, leaves', extra, extra);
    forall k: nat | k < |leaves|
      ensures if k < i + 1 || !moved[k] then LeafDone(s.bits, d', leaves'[k], k, txg) else leaves'[k].count == 1 && !used(leaves'[k].block)
    {
      assert At(k);
      if k == i {
        assert (i + 1) * BITS_PER_BITMAP <= |s.bits|;
        assert d'[x..x + 1] == [raw];
      } else if k < i || !moved[k] {
        OnDiskKept(d, d', leaves[k], x, raw);
      }
    }
  }

  // --- Writing the index ---

  /** The index nodes so far are on disk, in the blocks reserved for them, in order. */
  ghost predicate Placed(disk: seq<Block>, index: seq<Bp>, blocks: seq<nat>, txg: nat) {
    && |index| <= |blocks|
    && forall j: nat {:trigger At(j)} :: At(j) && j < |index| ==>
         index[j].count == 1 && index[j].block == blocks[j] && index[j].birth <= txg && BpOnDisk(disk, index[j])
  }

  ghost predicate LeavesDone(bits: seq<bool>, disk: seq<Block>, leaves: seq<Bp>, txg: nat) {
    forall k: nat {:trigger At(k)} :: At(k) && k < |leaves| ==> LeafDone(bits, disk, leaves[k], k, txg)
  }

  lemma IndexWritten(s: Spc, total: nat,
                     base: nat -> nat, leaves: seq<Bp>, blocks: seq<nat>, d: seq<Block>, d': seq<Block>, index: seq<Bp>, txg: nat, raw: Block)
    requires Tally(s, total, base, leaves, Bares(blocks)) && LeavesDone(s.bits, d, leaves, txg)
    requires Placed(d, index, blocks, txg) && |index| < |blocks|
    requires OneChanged(d, d', blocks[|index|], raw)
    ensures Placed(d', index + [Bp(blocks[|index|], 1, txg, [raw])], blocks, txg)
    ensures LeavesDone(s.bits, d', leaves, txg) && BaseKept(base, d, d')
  {
    var n := |index|;
    var x := blocks[n];
    var index' := index + [Bp(x, 1, txg, [raw])];
    ExtraAlone(s, total, base, leaves, Bares(blocks), n);
    forall k: nat | k < |leaves| ensures LeafDone(s.bits, d', leaves[k], k, txg) {
      assert At(k);
      OnDiskKept(d, d', leaves[k], x, raw);
    }
    forall j: nat | j < |index'|
      ensures index'[j].count == 1 && index'[j].block == blocks[j] && index'[j].birth <= txg && BpOnDisk(d', index'[j])
    {
      if j == n {
        assert d'[x..x + 1] == [raw];
      } else {
        assert At(j);
        assert BpUses(Bares(blocks)[j], x) == 0;
        OnDiskKept(d, d', index[j], x, raw);
      }
    }
  }

  lemma BaseKeptTrans(base: nat -> nat, d: seq<Block>, d': seq<Block>, d'': seq<Block>)
    requires BaseKept(base, d, d') && BaseKept(base, d', d'')
    ensures BaseKept(base, d, d'')
  {
  }

  /** All the nodes have been placed: the books with the index itself in them. */
  lemma IndexTally(s: Spc, total: nat,
                   base: nat -> nat, leaves: seq<Bp>, blocks: seq<nat>, d: seq<Block>, index: seq<Bp>, txg: nat)
    requires Tally(s, total, base, leaves, Bares(blocks)) && Placed(d, index, blocks, txg) && |index| == |blocks|
    ensures Tally(s, total, base, leaves, index) && AllOnDisk(d, index) && AllBorn(index, txg)
  {
    forall j | 0 <= j < |index|
      ensures index[j].block == Bares(blocks)[j].block && index[j].count == Bares(blocks)[j].count
      ensures BpOnDisk(d, index[j]) && index[j].birth <= txg
    {
      assert At(j);
    }
    TallySame(s, total, base, leaves, leaves, Bares(blocks), index);
    OnDiskIf(d, index);
    BornIf(index, txg);
  }

  /** Bitmap blocks (or index nodes) of the last commit: each one block, and older than this commit. */
  ghost predicate Old(bps: seq<Bp>, txg: nat) {
    forall k {:trigger bps[k]} :: 0 <= k < |bps| ==> bps[k].count == 1 && bps[k].birth <= txg
  }

  ghost predicate OldLeaves(disk: seq<Block>, leaves: seq<Bp>, txg: nat) {
    Old(leaves, txg) && forall k {:trigger leaves[k]} :: 0 <= k < |leaves| ==> BpOnDisk(disk, leaves[k])
  }

  /** The fixpoint reached: what has not moved is right and on disk already. */
  lemma ToWrite(s: Spc, disk: seq<Block>, was: seq<Bp>, now: seq<Bp>, moved: seq<bool>, txg: nat, used: nat -> bool)
    requires Clean(s, was) && OldLeaves(disk, was, txg) && MovedTo(was, now, moved, used) && |now| == |s.dirty|
    requires forall k {:trigger s.dirty[k]} :: 0 <= k < |now| && s.dirty[k] ==> moved[k]
    ensures LeavesTo(s.bits, disk, now, moved, 0, txg + 1, used)
  {
    forall k: nat | k < |now|
      ensures if !moved[k] then LeafDone(s.bits, disk, now[k], k, txg + 1) else now[k].count == 1 && !used(now[k].block)
    {
      assert At(k);
      assert was[k].count == 1;
    }
  }

  lemma TallyBits(s: Spc, s': Spc, total: nat, base: nat -> nat, leaves: seq<Bp>, extra: seq<Bp>)
    requires Tally(s, total, base, leaves, extra) && s'.bits == s.bits
    ensures Tally(s', total, base, leaves, extra)
  {
    forall b: nat ensures BitAt(s', b) == BitAt(s, b) {}
  }
}
