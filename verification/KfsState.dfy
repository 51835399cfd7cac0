/** The state a superblock describes, and what it takes for that state to be complete on disk
    with its space accounted for exactly. */
module KfsState {
  import opened Wrappers
  import opened KfsTypes
  import opened KfsItems
  import opened KfsTree

  // --- Lists of block pointers ---

  function BpsUses(bps: seq<Bp>, b: nat): nat {
    if bps == [] then 0 else BpsUses(bps[..|bps| - 1], b) + BpUses(bps[|bps| - 1], b)
  }

  ghost predicate AllOnDisk(disk: seq<Block>, bps: seq<Bp>) {
    bps == [] || (AllOnDisk(disk, bps[..|bps| - 1]) && BpOnDisk(disk, bps[|bps| - 1]))
  }

  ghost predicate AllBorn(bps: seq<Bp>, txg: nat) {
    bps == [] || (AllBorn(bps[..|bps| - 1], txg) && bps[|bps| - 1].birth <= txg)
  }

  lemma {:induction false} OnDiskAt(disk: seq<Block>, bps: seq<Bp>, i: nat)
    requires AllOnDisk(disk, bps) && i < |bps|
    ensures BpOnDisk(disk, bps[i])
  {
    if i < |bps| - 1 {
      OnDiskAt(disk, bps[..|bps| - 1], i);
    }
  }

  lemma {:induction false} OnDiskIf(disk: seq<Block>, bps: seq<Bp>)
    requires forall i :: 0 <= i < |bps| ==> BpOnDisk(disk, bps[i])
    ensures AllOnDisk(disk, bps)
  {
    if bps != [] {
      OnDiskIf(disk, bps[..|bps| - 1]);
    }
  }

  lemma {:induction false} BornAt(bps: seq<Bp>, txg: nat, i: nat)
    requires AllBorn(bps, txg) && i < |bps|
    ensures bps[i].birth <= txg
  {
    if i < |bps| - 1 {
      BornAt(bps[..|bps| - 1], txg, i);
    }
  }

  lemma {:induction false} BornIf(bps: seq<Bp>, txg: nat)
    requires forall i :: 0 <= i < |bps| ==> bps[i].birth <= txg
    ensures AllBorn(bps, txg)
  {
    if bps != [] {
      BornIf(bps[..|bps| - 1], txg);
    }
  }

  lemma {:induction false} BpsUsesConcat(x: seq<Bp>, y: seq<Bp>, b: nat)
    ensures BpsUses(x + y, b) == BpsUses(x, b) + BpsUses(y, b)
  {
    if y == [] {
      assert x + y == x;
    } else {
      assert (x + y)[..|x + y| - 1] == x + y[..|y| - 1];
      BpsUsesConcat(x, y[..|y| - 1], b);
    }
  }

  lemma BpsUsesOne(bp: Bp, b: nat)
    ensures BpsUses([bp], b) == BpUses(bp, b)
  {
    assert [bp][..0] == [];
  }

  /** One pointer out of a list. */
  lemma BpsUsesAround(x: seq<Bp>, i: nat, b: nat)
    requires i < |x|
    ensures BpsUses(x, b) == BpsUses(x[..i], b) + BpUses(x[i], b) + BpsUses(x[i + 1..], b)
  {
    Halves(x, i);
    BpsUsesConcat(x[..i] + [x[i]], x[i + 1..], b);
    BpsUsesConcat(x[..i], [x[i]], b);
    BpsUsesOne(x[i], b);
  }

  lemma {:induction false} BpsFrame(disk: seq<Block>, disk': seq<Block>, bps: seq<Bp>)
    requires AllOnDisk(disk, bps) && |disk'| == |disk|
    requires forall b: nat :: BpsUses(bps, b) > 0 && b < |disk| ==> disk'[b] == disk[b]
    ensures AllOnDisk(disk', bps)
  {
    if bps != [] {
      var init, bp := bps[..|bps| - 1], bps[|bps| - 1];
      forall b: nat ensures BpsUses(bps, b) == BpsUses(init, b) + BpUses(bp, b) {}
      BpsFrame(disk, disk', init);
      assert disk'[bp.block..bp.block + bp.count] == disk[bp.block..bp.block + bp.count];
    }
  }

  // --- File data: the extents among a tree's items ---

  function DataBps(d: Data): seq<Bp> {
    if d.Ext? then [d.bp] else []
  }

  function Extents(s: Items): seq<Bp> {
    if s == [] then [] else Extents(s[..|s| - 1]) + DataBps(s[|s| - 1].data)
  }

  lemma {:induction false} ExtentsConcat(a: Items, b: Items)
    ensures Extents(a + b) == Extents(a) + Extents(b)
  {
    if b == [] {
      assert a + b == a;
    } else {
      assert (a + b)[..|a + b| - 1] == a + b[..|b| - 1];
      ExtentsConcat(a, b[..|b| - 1]);
    }
  }

  // --- The free-space bitmap and its index ---

  function IndexBps(bp: Bp): seq<Bp> {
    if |bp.sum| == 1 && bp.sum[0].IndexB? then bp.sum[0].bps else []
  }

  /** The bitmap blocks an index node at level `l` leads to, in order. */
  ghost function IndexLeaves(bp: Bp, l: nat): seq<Bp>
    decreases l, 0
  {
    if l <= 1 then IndexBps(bp) else LeavesOf(IndexBps(bp), l - 1)
  }

  ghost function LeavesOf(bps: seq<Bp>, l: nat): seq<Bp>
    decreases l, 1 + |bps|
  {
    if bps == [] then [] else IndexLeaves(bps[0], l) + LeavesOf(bps[1..], l)
  }

  /** The index nodes from `bp` down, each before what is under it. */
  ghost function IndexNodes(bp: Bp, l: nat): seq<Bp>
    decreases l, 0
  {
    [bp] + if l <= 1 then [] else NodesOf(IndexBps(bp), l - 1)
  }

  ghost function NodesOf(bps: seq<Bp>, l: nat): seq<Bp>
    decreases l, 1 + |bps|
  {
    if bps == [] then [] else IndexNodes(bps[0], l) + NodesOf(bps[1..], l)
  }

  ghost predicate IndexShape(bp: Bp, l: nat)
    decreases l, 0
  {
    && l >= 1 && bp.count == 1 && |bp.sum| == 1 && bp.sum[0].IndexB?
    && bp.sum[0].level == l && 1 <= |IndexBps(bp)| <= INDEX_MAX
    && (l > 1 ==> IndexShapes(IndexBps(bp), l - 1))
  }

  ghost predicate IndexShapes(bps: seq<Bp>, l: nat)
    decreases l, 1 + |bps|
  {
    bps == [] || (IndexShape(bps[0], l) && IndexShapes(bps[1..], l))
  }

  ghost predicate BitmapLeaf(bp: Bp) {
    bp.count == 1 && |bp.sum| == 1 && bp.sum[0].BitsB? && |bp.sum[0].bits| == BITS_PER_BITMAP
  }

  ghost predicate BitmapLeaves(bps: seq<Bp>) {
    bps == [] || (BitmapLeaves(bps[..|bps| - 1]) && BitmapLeaf(bps[|bps| - 1]))
  }

  lemma {:induction false} LeafAt(bps: seq<Bp>, i: nat)
    requires BitmapLeaves(bps) && i < |bps|
    ensures BitmapLeaf(bps[i])
  {
    if i < |bps| - 1 {
      LeafAt(bps[..|bps| - 1], i);
    }
  }

  lemma {:induction false} LeavesIf(bps: seq<Bp>)
    requires forall i :: 0 <= i < |bps| ==> BitmapLeaf(bps[i])
    ensures BitmapLeaves(bps)
  {
    if bps != [] {
      LeavesIf(bps[..|bps| - 1]);
    }
  }

  /** Bitmap blocks `total` blocks need. */
  function Bitmaps(total: nat): nat { (total + BITS_PER_BITMAP - 1) / BITS_PER_BITMAP }

  /** The bits `leaves[k]` must hold when the bitmap is `bits`. */
  function Chunk(bits: seq<bool>, k: nat): seq<bool>
    requires (k + 1) * BITS_PER_BITMAP <= |bits|
  {
    bits[k * BITS_PER_BITMAP..(k + 1) * BITS_PER_BITMAP]
  }

  /** What the bitmap blocks say, end to end. */
  function FlatBits(leaves: seq<Bp>): seq<bool> {
    if leaves == [] then []
    else FlatBits(leaves[..|leaves| - 1]) + LeafBits(leaves[|leaves| - 1])
  }

  function LeafBits(bp: Bp): seq<bool> {
    if |bp.sum| == 1 && bp.sum[0].BitsB? then bp.sum[0].bits else []
  }

  lemma {:induction false} FlatBitsAre(leaves: seq<Bp>, bits: seq<bool>)
    requires BitmapLeaves(leaves) && |bits| == |leaves| * BITS_PER_BITMAP
    requires forall k {:trigger leaves[k]} :: 0 <= k < |leaves| ==> LeafBits(leaves[k]) == Chunk(bits, k)
    ensures FlatBits(leaves) == bits
  {
    if leaves == [] {
      assert bits == [];
    } else {
      var n := |leaves| - 1;
      FlatBitsAre(leaves[..n], ChunksBefore(leaves, bits, n));
      assert bits == bits[..n * BITS_PER_BITMAP] + Chunk(bits, n);
    }
  }

  lemma ChunkOfFront(bits: seq<bool>, n: nat, k: nat)
    requires n * BITS_PER_BITMAP <= |bits| && k < n
    ensures Chunk(bits[..n * BITS_PER_BITMAP], k) == Chunk(bits, k)
  {
    var front := bits[..n * BITS_PER_BITMAP];
    var lo, hi := k * BITS_PER_BITMAP, (k + 1) * BITS_PER_BITMAP;
    assert front[lo..hi] == bits[lo..hi];
  }

  /** The first `n` leaves and their bits, as a smaller case of the same thing. */
  ghost function ChunksBefore(leaves: seq<Bp>, bits: seq<bool>, n: nat): (front: seq<bool>)
    requires n < |leaves| && BitmapLeaves(leaves) && |bits| == |leaves| * BITS_PER_BITMAP
    requires forall k {:trigger leaves[k]} :: 0 <= k < |leaves| ==> LeafBits(leaves[k]) == Chunk(bits, k)
    ensures front == bits[..n * BITS_PER_BITMAP] && |front| == n * BITS_PER_BITMAP
    ensures BitmapLeaves(leaves[..n])
    ensures forall k {:trigger leaves[..n][k]} :: 0 <= k < n ==> LeafBits(leaves[..n][k]) == Chunk(front, k)
  {
    assert BitmapLeaves(leaves[..n]) by {
      forall i | 0 <= i < n ensures BitmapLeaf(leaves[..n][i]) { LeafAt(leaves, i); }
      LeavesIf(leaves[..n]);
    }
    assert forall k {:trigger leaves[..n][k]} :: 0 <= k < n ==> LeafBits(leaves[..n][k]) == Chunk(bits[..n * BITS_PER_BITMAP], k) by {
      forall k | 0 <= k < n ensures LeafBits(leaves[..n][k]) == Chunk(bits[..n * BITS_PER_BITMAP], k) {
        ChunkOfFront(bits, n, k);
      }
    }
    bits[..n * BITS_PER_BITMAP]
  }

  lemma {:induction false} FlatBitsAt(leaves: seq<Bp>, k: nat)
    requires BitmapLeaves(leaves) && k < |leaves|
    ensures |FlatBits(leaves)| == |leaves| * BITS_PER_BITMAP
    ensures LeafBits(leaves[k]) == Chunk(FlatBits(leaves), k)
  {
    var n := |leaves| - 1;
    var init, last := leaves[..n], leaves[n];
    if n > 0 {
      FlatBitsAt(init, if k < n then k else 0);
    }
    var front := FlatBits(init);
    assert FlatBits(leaves) == front + LeafBits(last);
    assert FlatBits(leaves)[..n * BITS_PER_BITMAP] == front;
    if k < n {
      ChunkOfFront(FlatBits(leaves), n, k);
    } else {
      assert Chunk(FlatBits(leaves), k) == LeafBits(last);
    }
  }

  /** Free blocks: the zero bits. */
  function Zeros(bits: seq<bool>): nat {
    if bits == [] then 0 else Zeros(bits[..|bits| - 1]) + Bit(!bits[|bits| - 1])
  }

  // --- The state a superblock describes ---

  function Level(N: Arena, c: Child): nat { NodeOf(N, c).level }

  function IndexLevel(sb: Super): nat {
    if |sb.bitmap.sum| == 1 && sb.bitmap.sum[0].IndexB? then sb.bitmap.sum[0].level else 0
  }

  ghost function StateItems(sb: Super): Items {
    TreeItems([], Disk(sb.root), Level([], Disk(sb.root)))
  }

  ghost function StateLeaves(sb: Super): seq<Bp> { IndexLeaves(sb.bitmap, IndexLevel(sb)) }

  ghost function StateIndex(sb: Super): seq<Bp> { IndexNodes(sb.bitmap, IndexLevel(sb)) }

  /** Everything a volume refers to: a tree, file data, bitmap blocks and index nodes. */
  datatype Refs = Refs(arena: Arena, root: Child, level: nat, data: seq<Bp>, leaves: seq<Bp>, index: seq<Bp>)

  /** How often it refers to block `b`. */
  ghost function RefUses(r: Refs, b: nat): nat {
    Uses(r.arena, r.root, r.level, Blk(b)) + BpsUses(r.data, b) + BpsUses(r.leaves, b) + BpsUses(r.index, b)
  }

  ghost function StateRefs(sb: Super): Refs {
    var c := Disk(sb.root);
    Refs([], c, Level([], c), Extents(StateItems(sb)), StateLeaves(sb), StateIndex(sb))
  }

  ghost function StateUses(sb: Super, b: nat): nat { RefUses(StateRefs(sb), b) }

  /** Everything the superblock leads to is on `disk` as its checksums say. */
  ghost predicate Stored(disk: seq<Block>, sb: Super) {
    && sb.total <= |disk|
    && Shape(World([], disk, sb.txg), Disk(sb.root), Level([], Disk(sb.root)), 0, 0)
    && AllOnDisk(disk, Extents(StateItems(sb)))
    && AllOnDisk(disk, StateLeaves(sb))
    && AllOnDisk(disk, StateIndex(sb))
  }

  /** What block `b`'s bit should be when it is referred to `uses` times. */
  function Marked(total: nat, b: nat, uses: nat): nat {
    if b < DATA_START || total <= b then 1 else uses
  }

  /** A bit is set for a reserved block, for a block with a reference and behind the last block, and for no other;
      and no block has two references. */
  ghost predicate Exact(bits: seq<bool>, total: nat, r: Refs) {
    && ExactTo(bits, total, r, |bits|)
    && forall b: nat {:trigger RefUses(r, b)} :: b < DATA_START || total <= b ==> RefUses(r, b) == 0
  }

  ghost predicate ExactTo(bits: seq<bool>, total: nat, r: Refs, n: nat)
    requires n <= |bits|
  {
    n == 0 || (ExactTo(bits, total, r, n - 1) && Bit(bits[n - 1]) == Marked(total, n - 1, RefUses(r, n - 1)))
  }

  lemma {:induction false} ExactAt(bits: seq<bool>, total: nat, r: Refs, n: nat, b: nat)
    requires n <= |bits| && ExactTo(bits, total, r, n) && b < n
    ensures Bit(bits[b]) == Marked(total, b, RefUses(r, b))
  {
    if b < n - 1 {
      ExactAt(bits, total, r, n - 1, b);
    }
  }

  lemma {:induction false} ExactIf(bits: seq<bool>, total: nat, r: Refs, n: nat)
    requires n <= |bits|
    requires forall b {:trigger bits[b]} :: 0 <= b < n ==> Bit(bits[b]) == Marked(total, b, RefUses(r, b))
    ensures ExactTo(bits, total, r, n)
  {
    if n > 0 {
      ExactIf(bits, total, r, n - 1);
    }
  }

  ghost function StateBits(sb: Super): seq<bool> { FlatBits(StateLeaves(sb)) }

  /** The state is well-formed, independently of any disk. */
  ghost predicate Sound(sb: Super) {
    && DATA_START <= sb.total < U64
    && IndexShape(sb.bitmap, IndexLevel(sb)) && IndexLevel(sb) <= 9
    && AllBorn(StateRefs(sb).data, sb.txg) && AllBorn(StateRefs(sb).leaves, sb.txg) && AllBorn(StateRefs(sb).index, sb.txg)
    && |StateLeaves(sb)| == Bitmaps(sb.total) && BitmapLeaves(StateLeaves(sb))
    && Exact(StateBits(sb), sb.total, StateRefs(sb))
    && sb.free == Zeros(StateBits(sb))
  }

  /** A complete state: sound, and all of it on disk. (Sealed: see `Open`.) */
  ghost predicate Complete(disk: seq<Block>, sb: Super) {
    forall n: nat {:trigger Open(StateSeal, n)} :: Open(StateSeal, n) ==> Stored(disk, sb) && Sound(sb)
  }

  /** A sound state, wherever it may be stored. (Sealed: see `Open`.) */
  ghost predicate Proper(sb: Super) {
    forall n: nat {:trigger Open(StateSeal, n)} :: Open(StateSeal, n) ==> Sound(sb)
  }

  lemma CompleteProper(disk: seq<Block>, sb: Super)
    requires Complete(disk, sb)
    ensures Proper(sb)
  {
  }

  /** A stored state survives changes to blocks it does not use. */
  lemma StoredFrame(disk: seq<Block>, disk': seq<Block>, sb: Super)
    requires Stored(disk, sb) && |disk'| == |disk|
    requires forall b: nat :: StateUses(sb, b) > 0 && b < |disk| ==> disk'[b] == disk[b]
    ensures Stored(disk', sb)
  {
    var c := Disk(sb.root);
    var l := Level([], c);
    var w, w' := World([], disk, sb.txg), World([], disk', sb.txg);
    forall s: nat ensures Uses([], c, l, Slot(s)) == 0 {
      DiskNoSlots([], [Entry(0, c)], l, s);
      RunOne([], Entry(0, c), l);
    }
    forall b: nat | Uses([], c, l, Blk(b)) > 0 && b < |disk| ensures disk'[b] == disk[b] {
      assert StateUses(sb, b) > 0;
    }
    FrameShape(w, w', c, l, 0, 0);
    BpsFrame(disk, disk', Extents(StateItems(sb)));
    BpsFrame(disk, disk', StateLeaves(sb));
    BpsFrame(disk, disk', StateIndex(sb));
  }
}
