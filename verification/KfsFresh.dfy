/** The smallest new volume there can be: complete, and in order. */
module KfsFresh {
  import opened Wrappers
  import opened KfsTypes
  import opened KfsItems
  import opened KfsTree
  import opened KfsState
  import opened KfsDisk
  import opened KfsCommit
  import opened KfsFiles
  import opened KfsNames
  import opened KfsShow
  import opened KfsOps

  const TINY: nat := 64
  const TINY_USED: nat := 19

  function RootInode(now: nat): Inode { Inode(true, 0, 2, 0, now) }

  function RootNode(now: nat): Block { NodeB(0, 1, [Item(K(ROOT, K_INODE, 0), Ino(RootInode(now)))], []) }

  /** What is used: the reserved blocks, the tree's one node, the bitmap's block and its index. */
  function TinyBits(): seq<bool> { seq(BITS_PER_BITMAP, i => i < TINY_USED || TINY <= i) }

  function TinyLeaf(): Bp { Bp(17, 1, 1, [BitsB(TinyBits())]) }

  function TinyIndex(): Block { IndexB(1, 1, [TinyLeaf()]) }

  function TinySuper(now: nat): Super {
    Super(TINY, 1, Bp(16, 1, 1, [RootNode(now)]), Bp(18, 1, 1, [TinyIndex()]), TINY - TINY_USED, 2)
  }

  function TinyBlock(now: nat, i: nat): Block {
    if i == RingSlot(1) then SuperB(TinySuper(now))
    else if i == 16 then RootNode(now)
    else if i == 17 then BitsB(TinyBits())
    else if i == 18 then TinyIndex()
    else Junk(0)
  }

  function TinyDisk(now: nat): (d: seq<Block>)
    ensures |d| == TINY && forall i :: 0 <= i < TINY ==> d[i] == TinyBlock(now, i)
  {
    seq(TINY, i requires 0 <= i => TinyBlock(now, i))
  }

  lemma {:induction false} ZerosTo(bits: seq<bool>, n: nat)
    requires n <= |bits| == BITS_PER_BITMAP && forall i :: 0 <= i < |bits| ==> bits[i] == (i < TINY_USED || TINY <= i)
    ensures Zeros(bits[..n]) == if n <= TINY_USED then 0 else if n <= TINY then n - TINY_USED else TINY - TINY_USED
  {
    if n > 0 {
      ZerosTo(bits, n - 1);
      assert bits[..n][..n - 1] == bits[..n - 1] && bits[..n][n - 1] == bits[n - 1];
    }
  }

  /** Its state is complete. */
  lemma TinyComplete(now: nat)
    ensures Complete(TinyDisk(now), TinySuper(now)) && Newest(TinyDisk(now), TinySuper(now))
    ensures StateItems(TinySuper(now)) == [Item(K(ROOT, K_INODE, 0), Ino(RootInode(now)))]
  {
    TinyStored(now);
    TinySound(now);
  }

  lemma TinyStored(now: nat)
    ensures Stored(TinyDisk(now), TinySuper(now))
    ensures StateLeaves(TinySuper(now)) == [TinyLeaf()] && StateIndex(TinySuper(now)) == [TinySuper(now).bitmap]
    ensures StateItems(TinySuper(now)) == [Item(K(ROOT, K_INODE, 0), Ino(RootInode(now)))]
    ensures Extents(StateItems(TinySuper(now))) == []
  {
    var d, n := TinyDisk(now), TinySuper(now);
    var s := StateItems(n);
    assert s[..0] == [];
    assert Extents(s) == Extents([]) + DataBps(s[0].data) == [];
    assert Payload(s) == ItemSize(s[0]);
    assert d[16] == TinyBlock(now, 16) && d[17] == TinyBlock(now, 17) && d[18] == TinyBlock(now, 18);
    assert d[17..18] == [d[17]] && d[18..19] == [d[18]];
    assert NodeOf([], Disk(n.root)) == KfsTree.Node.Node(0, s, []);
    assert Sorted(s) && Within(s, 0, 0);
    OnDiskIf(d, [TinyLeaf()]);
    OnDiskIf(d, [n.bitmap]);
  }

  lemma TinySound(now: nat)
    ensures Sound(TinySuper(now))
  {
    var n := TinySuper(now);
    var bits, r := TinyBits(), StateRefs(n);
    TinyStored(now);
    BornIf([TinyLeaf()], 1);
    BornIf([n.bitmap], 1);
    LeavesIf([TinyLeaf()]);
    assert [TinyLeaf()][..0] == [];
    assert StateBits(n) == [] + bits == bits;
    ZerosTo(bits, |bits|);
    assert bits[..|bits|] == bits;
    forall b: nat ensures RefUses(r, b) == if 16 <= b < TINY_USED then 1 else 0 {
      BpsUsesOne(TinyLeaf(), b);
      BpsUsesOne(n.bitmap, b);
    }
    ExactIf(bits, n.total, r, |bits|);
  }

  /** What it shows: an empty root folder. */
  function OnlyRoot(now: nat): Names { Names(map[ROOT := RootInode(now)], map[], map[]) }

  lemma TinyShows(now: nat)
    ensures Shows(StateItems(TinySuper(now)), OnlyRoot(now))
  {
    TinyStored(now);
    var s, v := StateItems(TinySuper(now)), OnlyRoot(now);
    var none: Items := [];
    assert s == Put(none, K(ROOT, K_INODE, 0), Ino(RootInode(now)));
    NothingShown();
    ShowPutInode(none, Names(map[], map[], map[]), ROOT, RootInode(now));
  }

  lemma NothingShown()
    ensures Shows([], Names(map[], map[], map[]))
  {
    forall o: nat ensures ContentsAt([], Names(map[], map[], map[]), o) {
      ChosenNone([], DataLo(o), DataHi(o));
    }
  }

  lemma TinyTidy(now: nat, h: Hash)
    ensures Tidy(OnlyRoot(now), 2, h)
  {
    var v := OnlyRoot(now);
    forall o: nat ensures Counted(v, o) {
      assert SubDirs(v.links, o) == {};
    }
    assert Walk(v.links, ROOT, []) == Some(ROOT);
  }

  /** So there is a disk for everything that is said of recoverable disks and complete states. */
  lemma TinyRecoverable(now: nat, h: Hash)
    ensures Recoverable(KfsSpec(Promised(h)), Moment(TinyDisk(now), [], TinySuper(now), None))
  {
    TinyComplete(now);
    TinyShows(now);
    TinyTidy(now, h);
    assert InOrder(StateItems(TinySuper(now)), 2, h);
  }
}
