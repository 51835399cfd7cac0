/** What makes a commit's state complete: the tree, the file data and the bitmap together. */
module KfsCommit {
  import opened Wrappers
  import opened KfsTypes
  import opened KfsItems
  import opened KfsTree
  import opened KfsState
  import opened KfsSpace
  import opened KfsDisk
  import opened KfsEdit
  import opened KfsWrite
  import opened KfsBitmap

  /** What the operations keep true of every commit, said of its items and its next object number. */
  type Promise = (Items, nat) -> bool

  /** The disk protocol's parameters for this file system. */
  ghost function KfsSpec(kept: Promise): Spec {
    Spec((d: seq<Block>, s: Super) => Complete(d, s) && kept(StateItems(s), s.next), (s: Super, b: nat) => StateUses(s, b) > 0)
  }

  lemma KfsFramed(kept: Promise)
    ensures Framed(KfsSpec(kept))
  {
    var p := KfsSpec(kept);
    forall d: seq<Block>, s: Super | p.complete(d, s)
      ensures forall b: nat {:trigger p.uses(s, b)} :: p.uses(s, b) ==> DATA_START <= b
      ensures forall d': seq<Block> {:trigger p.complete(d', s)} :: Alike(p, d, d', s) ==> p.complete(d', s)
    {
      assert Complete(d, s);
      forall b: nat | p.uses(s, b) ensures DATA_START <= b {
        CompleteUses(d, s, b);
      }
      forall d': seq<Block> | Alike(p, d, d', s) ensures p.complete(d', s) {
        forall b: nat | StateUses(s, b) > 0 && b < |d| ensures d'[b] == d[b] {
          assert p.uses(s, b);
        }
        CompleteFrames(d, d', s);
      }
    }
  }

  lemma CompleteUses(d: seq<Block>, s: Super, b: nat)
    requires Complete(d, s) && StateUses(s, b) > 0
    ensures DATA_START <= b
  {
    assert Open(StateSeal, 0);
    assert RefUses(StateRefs(s), b) > 0;
  }

  lemma CompleteFrames(d: seq<Block>, d': seq<Block>, s: Super)
    requires Complete(d, s) && |d'| == |d|
    requires forall b: nat :: StateUses(s, b) > 0 && b < |d| ==> d'[b] == d[b]
    ensures Complete(d', s)
  {
    assert Open(StateSeal, 0);
    StoredFrame(d, d', s);
  }

  /** What the tree and the file data refer to. */
  ghost function Base(N: Arena, c: Child, l: nat, data: seq<Bp>): nat -> nat {
    (b: nat) => Uses(N, c, l, Blk(b)) + BpsUses(data, b)
  }

  lemma TallyGuards(s: Spc, total: nat, base: nat -> nat, leaves: seq<Bp>, extra: seq<Bp>)
    requires Tally(s, total, base, leaves, extra) && SpcOk(s, total)
    ensures forall b: nat {:trigger At(b)} :: At(b) && Claims(base, leaves, extra, b) > 0 ==>
              Guarded(s, b) && DATA_START <= b < total
  {
  }

  lemma {:induction false} DataSame(d: seq<Block>, d': seq<Block>, bps: seq<Bp>, base: nat -> nat)
    requires AllOnDisk(d, bps) && BaseKept(base, d, d')
    requires forall b: nat {:trigger At(b)} :: At(b) ==> BpsUses(bps, b) <= base(b)
    ensures AllOnDisk(d', bps)
  {
    forall b: nat | BpsUses(bps, b) > 0 && b < |d| ensures d'[b] == d[b] {
      assert At(b);
    }
    BpsFrame(d, d', bps);
  }

  lemma OldKept(d: seq<Block>, d': seq<Block>, leaves: seq<Bp>, txg: nat)
    requires OldLeaves(d, leaves, txg) && |d'| == |d|
    requires forall b: nat {:trigger At(b)} :: At(b) && BpsUses(leaves, b) > 0 && b < |d| ==> d'[b] == d[b]
    ensures OldLeaves(d', leaves, txg)
  {
    forall k | 0 <= k < |leaves| ensures BpOnDisk(d', leaves[k]) {
      var x := leaves[k].block;
      BpsUsesAround(leaves, k, x);
      assert At(x);
      assert BpOnDisk(d, leaves[k]);
      assert d'[x..x + 1] == d[x..x + 1];
    }
  }

  /** After the tree has been written. */
  lemma RootWritten(w: World, w': World, s: Spc, s': Spc, c: Child, bp: Bp, l: nat, data: seq<Bp>, leaves: seq<Bp>,
                    index: seq<Bp>, txg: nat, total: nat)
    requires WrittenOut(w, w', s, s', c, bp, l, 0, 0, total) && SpcOk(s, total)
    requires Tally(s, total, Base(w.arena, c, l, data), leaves, index) && Clean(s, leaves)
    requires OldLeaves(w.disk, leaves, txg) && AllOnDisk(w.disk, data)
    ensures Tally(s', total, Base(w'.arena, Disk(bp), l, data), leaves, index) && Clean(s', leaves)
    ensures OldLeaves(w'.disk, leaves, txg) && AllOnDisk(w'.disk, data)
  {
    var base := Base(w.arena, c, l, data);
    TallyGuards(s, total, base, leaves, index);
    GrowEnlarged(s, s', total);
    CleanKept(s, s', leaves, total);
    forall b: nat ensures BpsUses(data, b) <= base(b) {}
    assert BaseKept(base, w.disk, w'.disk);
    DataSame(w.disk, w'.disk, data, base);
    OldKept(w.disk, w'.disk, leaves, txg);
    var base' := Base(w'.arena, Disk(bp), l, data);
    forall b: nat
      ensures Claims(base', leaves, index, b) == (if DATA_START <= b < total then BitAt(s', b) else 0)
      ensures b < DATA_START ==> BitAt(s', b) == 1
    {
      assert At(b);
      assert b < DATA_START || total <= b ==> BitAt(s', b) == BitAt(s, b);
    }
  }

  /** A tree on disk does not depend on memory. */
  lemma DiskTree(N: Arena, N': Arena, bp: Bp, l: nat)
    ensures TreeItems(N', Disk(bp), l) == TreeItems(N, Disk(bp), l)
    ensures forall u :: Uses(N', Disk(bp), l, u) == Uses(N, Disk(bp), l, u)
    ensures forall s: nat :: Uses(N, Disk(bp), l, Slot(s)) == 0
  {
    var kids := [Entry(0, Disk(bp))];
    forall s: nat ensures RunUses(N, kids, l, Slot(s)) == 0 { DiskNoSlots(N, kids, l, s); }
    Frame(N, N', kids, l);
    RunOne(N, kids[0], l);
    RunOne(N', kids[0], l);
    forall u ensures Uses(N', Disk(bp), l, u) == Uses(N, Disk(bp), l, u) {
      assert RunUses(N', kids, l, u) == RunUses(N, kids, l, u);
    }
  }

  /** The new tree as the new superblock has it. */
  lemma TreeStored(w: World, d: seq<Block>, bp: Bp, l: nat, base: nat -> nat)
    requires Shape(w, Disk(bp), l, 0, 0) && BaseKept(base, w.disk, d)
    requires forall b: nat {:trigger At(b)} :: At(b) ==> Uses(w.arena, Disk(bp), l, Blk(b)) <= base(b)
    ensures Shape(World([], d, w.txg), Disk(bp), l, 0, 0) && Level([], Disk(bp)) == l
  {
    DiskTree(w.arena, [], bp, l);
    forall b: nat | Uses(w.arena, Disk(bp), l, Blk(b)) > 0 && b < |w.disk| ensures d[b] == w.disk[b] {
      assert At(b);
    }
    FrameShape(w, World([], d, w.txg), Disk(bp), l, 0, 0);
  }

  /** The bitmap as the new superblock has it. */
  lemma MapStored(s: Spc, total: nat, d: seq<Block>, leaves: seq<Bp>, txg: nat)
    requires SpcOk(s, total) && LeavesDone(s.bits, d, leaves, txg) && |leaves| == |s.dirty|
    ensures AllOnDisk(d, leaves) && AllBorn(leaves, txg) && BitmapLeaves(leaves) && FlatBits(leaves) == s.bits
  {
    forall k | 0 <= k < |leaves| ensures LeafDone(s.bits, d, leaves[k], k, txg) && LeafBits(leaves[k]) == Chunk(s.bits, k) {
      assert At(k);
      assert (k + 1) * BITS_PER_BITMAP <= |s.bits|;
    }
    OnDiskIf(d, leaves);
    BornIf(leaves, txg);
    LeavesIf(leaves);
    FlatBitsAre(leaves, s.bits);
  }

  /** The books, as the state describes them. */
  lemma StateExact(s: Spc, total: nat, r: Refs, index: seq<Bp>)
    requires SpcOk(s, total) && Tally(s, total, Base(r.arena, r.root, r.level, r.data), r.leaves, index)
    requires multiset(r.index) == multiset(index)
    ensures Exact(s.bits, total, r)
  {
    forall b: nat
      ensures b < |s.bits| ==> Bit(s.bits[b]) == Marked(total, b, RefUses(r, b))
      ensures b < DATA_START || total <= b ==> RefUses(r, b) == 0
    {
      assert At(b);
      BagUses(r.index, index, b);
    }
    ExactIf(s.bits, total, r, |s.bits|);
  }

  /** The pieces a commit puts on disk. */
  ghost predicate Built(w: World, d: seq<Block>, s: Spc, bp: Bp, l: nat, data: seq<Bp>, leaves: seq<Bp>,
                        index: seq<Bp>, total: nat) {
    var base := Base(w.arena, Disk(bp), l, data);
    && Shape(w, Disk(bp), l, 0, 0) && Extents(TreeItems(w.arena, Disk(bp), l)) == data
    && BaseKept(base, w.disk, d) && AllOnDisk(w.disk, data) && AllBorn(data, w.txg)
    && SpcOk(s, total) && Tally(s, total, base, leaves, index)
    && LeavesDone(s.bits, d, leaves, w.txg) && |leaves| == |s.dirty|
    && AllOnDisk(d, index) && AllBorn(index, w.txg)
  }

  /** `n` is the superblock for them; its bitmap index has `top` levels. */
  ghost predicate Describes(n: Super, w: World, s: Spc, bp: Bp, leaves: seq<Bp>, index: seq<Bp>, top: nat) {
    && n.txg == w.txg && n.root == bp && n.free == Zeros(s.bits)
    && DATA_START <= n.total && top == Levels(Bitmaps(n.total))
    && IndexShape(n.bitmap, top) && IndexLeaves(n.bitmap, top) == leaves && multiset(IndexNodes(n.bitmap, top)) == multiset(index)
  }

  /** A commit's state is complete before its superblock is written. */
  lemma CommitComplete(w: World, d: seq<Block>, s: Spc, bp: Bp, l: nat, data: seq<Bp>, leaves: seq<Bp>, index: seq<Bp>,
                       top: nat, n: Super)
    requires Built(w, d, s, bp, l, data, leaves, index, n.total) && n.total <= |d|
    requires Describes(n, w, s, bp, leaves, index, top)
    ensures Complete(d, n) && StateItems(n) == TreeItems(w.arena, Disk(bp), l) && StateBits(n) == s.bits
    ensures StateLeaves(n) == leaves && multiset(StateIndex(n)) == multiset(index)
  {
    CommitStored(w, d, s, bp, l, data, leaves, index, top, n);
    CommitSound(w, d, s, bp, l, data, leaves, index, top, n);
  }

  lemma CommitStored(w: World, d: seq<Block>, s: Spc, bp: Bp, l: nat, data: seq<Bp>, leaves: seq<Bp>, index: seq<Bp>,
                     top: nat, n: Super)
    requires Built(w, d, s, bp, l, data, leaves, index, n.total) && n.total <= |d|
    requires Describes(n, w, s, bp, leaves, index, top)
    ensures Stored(d, n) && StateItems(n) == TreeItems(w.arena, Disk(bp), l) && Level([], Disk(bp)) == l
    ensures StateLeaves(n) == leaves && multiset(StateIndex(n)) == multiset(index)
  {
    var base := Base(w.arena, Disk(bp), l, data);
    forall b: nat
      ensures Uses(w.arena, Disk(bp), l, Blk(b)) <= base(b) && BpsUses(data, b) <= base(b)
    {}
    TreeStored(w, d, bp, l, base);
    DiskTree(w.arena, [], bp, l);
    DataSame(w.disk, d, data, base);
    MapStored(s, n.total, d, leaves, w.txg);
    assert IndexLevel(n) == top;
    BagOnDisk(d, index, StateIndex(n), w.txg);
  }

  lemma CommitSound(w: World, d: seq<Block>, s: Spc, bp: Bp, l: nat, data: seq<Bp>, leaves: seq<Bp>, index: seq<Bp>,
                    top: nat, n: Super)
    requires Built(w, d, s, bp, l, data, leaves, index, n.total) && n.total <= |d|
    requires Describes(n, w, s, bp, leaves, index, top)
    ensures Sound(n) && StateBits(n) == s.bits
  {
    CommitStored(w, d, s, bp, l, data, leaves, index, top, n);
    MapStored(s, n.total, d, leaves, w.txg);
    EightLevels(n.total);
    BagOnDisk(d, index, StateIndex(n), w.txg);
    DiskTree(w.arena, [], bp, l);
    SameTally(s, n.total, Base(w.arena, Disk(bp), l, data), Base([], Disk(bp), l, data), leaves, index);
    StateExact(s, n.total, StateRefs(n), index);
  }

  lemma SameTally(s: Spc, total: nat, base: nat -> nat, base': nat -> nat, leaves: seq<Bp>, index: seq<Bp>)
    requires Tally(s, total, base, leaves, index) && forall b: nat :: base'(b) == base(b)
    ensures Tally(s, total, base', leaves, index)
  {
    forall b: nat ensures Claims(base', leaves, index, b) == Claims(base, leaves, index, b) {}
  }

  // --- A volume as it is between operations ---

  /** Data written since the last commit occupies nothing the committed state uses. */
  ghost predicate NewData(bp: Bp, n: Super) {
    && bp.birth <= n.txg + 1
    && (bp.birth == n.txg + 1 ==> forall b: nat {:trigger StateUses(n, b)} :: StateUses(n, b) > 0 ==> BpUses(bp, b) == 0)
  }

  ghost predicate AllNew(bps: seq<Bp>, n: Super) {
    bps == [] || (AllNew(bps[..|bps| - 1], n) && NewData(bps[|bps| - 1], n))
  }

  lemma {:induction false} NewAt(bps: seq<Bp>, n: Super, i: nat)
    requires AllNew(bps, n) && i < |bps|
    ensures NewData(bps[i], n)
  {
    if i < |bps| - 1 {
      NewAt(bps[..|bps| - 1], n, i);
    }
  }

  lemma {:induction false} NewIf(bps: seq<Bp>, n: Super)
    requires forall i :: 0 <= i < |bps| ==> NewData(bps[i], n)
    ensures AllNew(bps, n)
  {
    if bps != [] {
      NewIf(bps[..|bps| - 1], n);
    }
  }

  lemma {:induction false} NewBorn(bps: seq<Bp>, n: Super)
    requires AllNew(bps, n)
    ensures AllBorn(bps, n.txg + 1)
  {
    if bps != [] {
      NewBorn(bps[..|bps| - 1], n);
    }
  }

  lemma {:induction false} OldIsNew(bps: seq<Bp>, n: Super)
    requires AllBorn(bps, n.txg)
    ensures AllNew(bps, n)
  {
    if bps != [] {
      OldIsNew(bps[..|bps| - 1], n);
    }
  }

  /** Index nodes are single blocks. */
  lemma {:induction false} IndexSingle(bp: Bp, l: nat, i: nat)
    requires IndexShape(bp, l) && i < |IndexNodes(bp, l)|
    ensures IndexNodes(bp, l)[i].count == 1
    decreases l, 0
  {
    if i > 0 {
      IndexSingles(IndexBps(bp), l - 1, i - 1);
    }
  }

  lemma {:induction false} IndexSingles(bps: seq<Bp>, l: nat, i: nat)
    requires IndexShapes(bps, l) && i < |NodesOf(bps, l)|
    ensures NodesOf(bps, l)[i].count == 1
    decreases l, 1 + |bps|
  {
    var first := IndexNodes(bps[0], l);
    if i < |first| {
      IndexSingle(bps[0], l, i);
    } else {
      IndexSingles(bps[1..], l, i - |first|);
    }
  }

  /** The free-space state a complete state starts with. */
  ghost predicate Fresh(s: Spc, n: Super) {
    && s.bits == StateBits(n) && |s.held| == |s.bits| && |s.dirty| == Bitmaps(n.total)
  }

  /** How many blocks the next operation can have when `n` is the last commit. */
  ghost function RestRoom(n: Super): nat {
    RoomIn(Spc(StateBits(n), seq(|StateBits(n)|, _ => false), []), n.total)
  }

  lemma FreshRoom(s: Spc, n: Super)
    requires Fresh(s, n) && forall b {:trigger s.held[b]} :: 0 <= b < |s.held| ==> !s.held[b]
    ensures RoomIn(s, n.total) == RestRoom(n)
  {
    assert s.held == seq(|StateBits(n)|, _ => false);
  }

  lemma FreshOk(d: seq<Block>, n: Super, s: Spc)
    requires Complete(d, n) && Fresh(s, n)
    ensures SpcOk(s, n.total)
  {
    assert Open(StateSeal, 0);
    var leaves, r := StateLeaves(n), StateRefs(n);
    FlatBitsAt(leaves, 0);
    forall b | n.total <= b < |s.bits| ensures s.bits[b] {
      ExactAt(s.bits, n.total, r, |s.bits|, b);
    }
  }

  lemma FreshTally(d: seq<Block>, n: Super, s: Spc, index: seq<Bp>)
    requires Complete(d, n) && Fresh(s, n) && multiset(index) == multiset(StateIndex(n))
    ensures Tally(s, n.total, Base([], Disk(n.root), Level([], Disk(n.root)), Extents(StateItems(n))), StateLeaves(n), index)
    ensures forall b: nat {:trigger StateUses(n, b)} :: StateUses(n, b) > 0 ==> Guarded(s, b) && DATA_START <= b < n.total
  {
    assert Open(StateSeal, 0);
    var leaves, r := StateLeaves(n), StateRefs(n);
    FreshOk(d, n, s);
    var base := Base([], Disk(n.root), Level([], Disk(n.root)), Extents(StateItems(n)));
    forall b: nat
      ensures Claims(base, leaves, index, b) == (if DATA_START <= b < n.total then BitAt(s, b) else 0)
      ensures b < DATA_START ==> BitAt(s, b) == 1
      ensures StateUses(n, b) > 0 ==> Guarded(s, b) && DATA_START <= b < n.total
    {
      BagUses(index, StateIndex(n), b);
      assert Claims(base, leaves, index, b) == RefUses(r, b);
      if b < |s.bits| {
        ExactAt(s.bits, n.total, r, |s.bits|, b);
      }
    }
  }

  lemma FreshMap(d: seq<Block>, n: Super, s: Spc, index: seq<Bp>)
    requires Complete(d, n) && Fresh(s, n) && multiset(index) == multiset(StateIndex(n))
    ensures Clean(s, StateLeaves(n)) && OldLeaves(d, StateLeaves(n), n.txg) && Old(index, n.txg)
  {
    assert Open(StateSeal, 0);
    var leaves := StateLeaves(n);
    FreshOk(d, n, s);
    forall k: nat | k < |leaves|
      ensures Says(leaves[k], s.bits, k) && BpOnDisk(d, leaves[k]) && leaves[k].count == 1 && leaves[k].birth <= n.txg
    {
      FlatBitsAt(leaves, k);
      LeafAt(leaves, k);
      OnDiskAt(d, leaves, k);
      BornAt(leaves, n.txg, k);
    }
    forall k | 0 <= k < |index| ensures index[k].count == 1 && index[k].birth <= n.txg {
      assert index[k] in multiset(StateIndex(n));
      var j :| 0 <= j < |StateIndex(n)| && StateIndex(n)[j] == index[k];
      IndexSingle(n.bitmap, IndexLevel(n), j);
      BornAt(StateIndex(n), n.txg, j);
    }
  }

  lemma FreshTree(d: seq<Block>, n: Super, s: Spc)
    requires Complete(d, n) && Fresh(s, n)
    ensures Ready(World([], d, n.txg), s, Disk(n.root), Level([], Disk(n.root)), 0, 0, n.total)
  {
    assert Open(StateSeal, 0);
    var l := Level([], Disk(n.root));
    FreshOk(d, n, s);
    FreshTally(d, n, s, StateIndex(n));
    DiskTree([], [], n.root, l);
    forall b: nat ensures Uses([], Disk(n.root), l, Blk(b)) <= if DATA_START <= b < n.total then BitAt(s, b) else 0 {
      assert At(b);
      assert Base([], Disk(n.root), l, Extents(StateItems(n)))(b) >= Uses([], Disk(n.root), l, Blk(b));
    }
  }

  /** Writing a superblock leaves the commit before it complete, its own superblock untouched. */
  lemma StillThere(kept: Promise, m: Moment, cur: seq<Block>, h: History, n: Super)
    requires Sealed(KfsSpec(kept), m, cur, h) && n.txg == m.landed.txg + 1
    ensures DATA_START <= |m.durable|
    ensures var d := m.durable[RingSlot(n.txg) := SuperB(n)];
            Complete(d, m.landed) && d[RingSlot(m.landed.txg)] == SuperB(m.landed)
  {
    assert Open(DiskSeal, 0);
    CompleteSlot(KfsSpec(kept), m.durable, m.durable[RingSlot(n.txg) := SuperB(n)], m.landed, RingSlot(n.txg));
  }

  /** The newest landed commit can be read back. */
  lemma LandedReads(kept: Promise, m: Moment, cur: seq<Block>, h: History)
    requires Sealed(KfsSpec(kept), m, cur, h)
    ensures kept(StateItems(m.landed), m.landed.next)
    ensures Complete(cur, m.landed) && DATA_START <= |m.durable|
    ensures Complete(m.durable, m.landed) && Newest(m.durable, m.landed)
    ensures m.landing.None? ==> Newest(cur, m.landed)
  {
    assert Open(DiskSeal, 0);
    CurComplete(KfsSpec(kept), m);
  }

  lemma FreshData(d: seq<Block>, n: Super)
    requires Complete(d, n)
    ensures AllOnDisk(d, Extents(StateItems(n))) && AllNew(Extents(StateItems(n)), n)
    ensures n.total <= |d| && DATA_START <= n.total < U64 && |StateLeaves(n)| == Bitmaps(n.total) >= 1
  {
    assert Open(StateSeal, 0);
    OldIsNew(Extents(StateItems(n)), n);
    EightLevels(n.total);
  }

  // --- Reading the bitmap back ---

  /** The index below `bp`, `l` levels of it, is well-formed and on disk. */
  ghost predicate Walkable(disk: seq<Block>, bp: Bp, l: nat, depth: nat) {
    IndexShape(bp, l) && AllOnDisk(disk, IndexNodes(bp, l)) && depth + l <= 9
  }

  ghost predicate Shapely(bp: Bp, l: nat, depth: nat) {
    IndexShape(bp, l) && depth + l <= 9
  }

  lemma {:induction false} ShapeKids(bps: seq<Bp>, l: nat, i: nat)
    requires IndexShapes(bps, l) && i < |bps|
    ensures IndexShape(bps[i], l)
    decreases i
  {
    if i > 0 {
      ShapeKids(bps[1..], l, i - 1);
    }
  }

  /** The block `bp` points at is what it was made for. */
  predicate Matches(disk: seq<Block>, bp: Bp) {
    bp.block < |disk| && [disk[bp.block]] == bp.sum
  }

  ghost predicate AllMatch(disk: seq<Block>, bps: seq<Bp>) {
    forall i {:trigger bps[i]} :: 0 <= i < |bps| ==> Matches(disk, bps[i])
  }

  /** Everything of state `n` that mounting it checks is there: its tree root and its bitmap. */
  ghost predicate Readable(disk: seq<Block>, n: Super) {
    n.total <= |disk| && Matches(disk, n.root) && AllMatch(disk, StateLeaves(n)) && AllMatch(disk, StateIndex(n))
  }

  lemma WalkTop(disk: seq<Block>, bp: Bp, l: nat, depth: nat)
    requires Walkable(disk, bp, l, depth)
    ensures BpOnDisk(disk, bp)
  {
    assert IndexNodes(bp, l)[0] == bp;
    OnDiskAt(disk, IndexNodes(bp, l), 0);
  }

  lemma {:induction false} OnDiskSplit(disk: seq<Block>, x: seq<Bp>, y: seq<Bp>)
    requires AllOnDisk(disk, x + y)
    ensures AllOnDisk(disk, x) && AllOnDisk(disk, y)
  {
    forall i | 0 <= i < |x| ensures BpOnDisk(disk, x[i]) { OnDiskAt(disk, x + y, i); }
    forall i | 0 <= i < |y| ensures BpOnDisk(disk, y[i]) { OnDiskAt(disk, x + y, |x| + i); }
    OnDiskIf(disk, x);
    OnDiskIf(disk, y);
  }

  lemma {:induction false} WalkKids(disk: seq<Block>, bps: seq<Bp>, l: nat, depth: nat, i: nat)
    requires IndexShapes(bps, l) && AllOnDisk(disk, NodesOf(bps, l)) && depth + l <= 9 && i < |bps|
    ensures Walkable(disk, bps[i], l, depth)
    decreases i
  {
    OnDiskSplit(disk, IndexNodes(bps[0], l), NodesOf(bps[1..], l));
    if i > 0 {
      WalkKids(disk, bps[1..], l, depth, i - 1);
    }
  }

  lemma WalkKid(disk: seq<Block>, bp: Bp, l: nat, depth: nat, i: nat)
    requires Walkable(disk, bp, l, depth) && l > 1 && i < |IndexBps(bp)|
    ensures Walkable(disk, IndexBps(bp)[i], l - 1, depth + 1)
  {
    OnDiskSplit(disk, [bp], NodesOf(IndexBps(bp), l - 1));
    WalkKids(disk, IndexBps(bp), l - 1, depth + 1, i);
  }

  /** What walking one pointer at level `m` adds. */
  ghost function LeavesUnder(bp: Bp, m: nat): seq<Bp> {
    if m == 0 then [bp] else IndexLeaves(bp, m)
  }

  ghost function NodesUnder(bp: Bp, m: nat): seq<Bp> {
    if m == 0 then [] else IndexNodes(bp, m)
  }

  lemma OneMoreTo<T>(a: seq<T>, b: seq<T>, c: seq<T>)
    ensures a + b + c == a + (b + c)
  {
  }

  /** One more child walked. */
  lemma WalkNext(bps: seq<Bp>, i: nat, m: nat)
    requires i < |bps|
    ensures Leaves(bps[..i + 1], m) == Leaves(bps[..i], m) + LeavesUnder(bps[i], m)
    ensures Nodes(bps[..i + 1], m) == Nodes(bps[..i], m) + NodesUnder(bps[i], m)
  {
    assert bps[..i + 1] == bps[..i] + [bps[i]];
    if m > 0 {
      LeavesConcat(bps[..i], [bps[i]], m);
      NodesConcat(bps[..i], [bps[i]], m);
      assert [bps[i]][1..] == [];
      assert LeavesOf([bps[i]], m) == IndexLeaves(bps[i], m) + LeavesOf([], m) == IndexLeaves(bps[i], m);
      assert NodesOf([bps[i]], m) == IndexNodes(bps[i], m) + NodesOf([], m) == IndexNodes(bps[i], m);
    }
  }

  lemma {:induction false} FlatBitsNext(leaves: seq<Bp>, k: nat)
    requires k < |leaves|
    ensures FlatBits(leaves[..k + 1]) == FlatBits(leaves[..k]) + LeafBits(leaves[k])
  {
    assert leaves[..k + 1][..k] == leaves[..k];
  }

  /** A complete state's bitmap can be read. */
  lemma MapReads(d: seq<Block>, n: Super)
    requires Complete(d, n)
    ensures Walkable(d, n.bitmap, IndexLevel(n), 0) && |StateLeaves(n)| == Bitmaps(n.total)
  {
    assert Open(StateSeal, 0);
  }

  /** A commit's index can be walked, whatever is on the disk now. */
  lemma SoundShape(n: Super)
    requires Proper(n)
    ensures Shapely(n.bitmap, IndexLevel(n), 0)
  {
    assert Open(StateSeal, 0);
  }

  lemma LeafReads(d: seq<Block>, n: Super, k: nat)
    requires Complete(d, n) && k < |StateLeaves(n)|
    ensures BpOnDisk(d, StateLeaves(n)[k]) && StateLeaves(n)[k].count == 1
  {
    assert Open(StateSeal, 0);
    LeafAt(StateLeaves(n), k);
    OnDiskAt(d, StateLeaves(n), k);
  }

  /** So can its root. */
  lemma RootReads(d: seq<Block>, n: Super)
    requires Complete(d, n)
    ensures n.root.block < |d| && [d[n.root.block]] == n.root.sum && d[n.root.block].NodeB?
  {
    assert Open(StateSeal, 0);
  }

  /** The tree can be written as part of the next commit. */
  lemma NextTxg(w: World, w': World, c: Child, l: nat, s: Spc, total: nat)
    requires Ready(w, s, c, l, 0, 0, total) && w' == World(w.arena, w.disk, w.txg + 1)
    ensures Ready(w', s, c, l, 0, 0, total)
  {
    NoFreshSlots(w, c, l, 0, 0);
    FrameShape(w, w', c, l, 0, 0);
  }
}
