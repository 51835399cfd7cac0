/** Keeping the books while file data comes and goes. */
module KfsBooks {
  import opened Wrappers
  import opened KfsTypes
  import opened KfsItems
  import opened KfsTree
  import opened KfsState
  import opened KfsSpace
  import opened KfsEdit
  import opened KfsBitmap
  import opened KfsCommit

  /** Tree `c` and the runs `data`, together with the bitmap's own blocks, are exactly what is marked
      used. */
  ghost predicate Books(s: Spc, total: nat, N: Arena, c: Child, l: nat, data: seq<Bp>, leaves: seq<Bp>,
                        index: seq<Bp>) {
    Tally(s, total, Base(N, c, l, data), leaves, index)
  }

  /** The two lists of runs cover the same blocks. */
  ghost predicate SameRuns(x: seq<Bp>, y: seq<Bp>) {
    forall b: nat {:trigger At(b)} :: At(b) ==> BpsUses(x, b) == BpsUses(y, b)
  }

  lemma BooksSame(s: Spc, total: nat, N: Arena, c: Child, l: nat, x: seq<Bp>, y: seq<Bp>, leaves: seq<Bp>,
                  index: seq<Bp>)
    requires Books(s, total, N, c, l, x, leaves, index) && SameRuns(x, y)
    ensures Books(s, total, N, c, l, y, leaves, index)
  {
    forall b: nat ensures Base(N, c, l, y)(b) == Base(N, c, l, x)(b) {
      assert At(b);
    }
    SameTally(s, total, Base(N, c, l, x), Base(N, c, l, y), leaves, index);
  }

  /** A change to the tree keeps the books for whatever else there is. */
  lemma BooksMoved(w: World, w': World, s: Spc, s': Spc, c: Child, c': Child, l: nat, l': nat, data: seq<Bp>,
                   leaves: seq<Bp>, index: seq<Bp>, total: nat)
    requires Moved(w, w', s, s', c, c', l, l', total) && SpcOk(s, total)
    requires Books(s, total, w.arena, c, l, data, leaves, index) && Clean(s, leaves)
    ensures Books(s', total, w'.arena, c', l', data, leaves, index) && Clean(s', leaves) && SpcOk(s', total)
    ensures forall b: nat {:trigger Guarded(s', b)} :: Guarded(s', b) <==> Guarded(s, b)
    ensures total <= |s.bits| == |s.held| && total <= |s'.bits| == |s'.held|
    ensures FreeCount(s'.bits, s'.held, total) == FreeCount(s.bits, s.held, total)
  {
    StepSafe(s, s', total);
    StepGuards(s, s', total);
    CleanKept(s, s', leaves, total);
    forall b: nat
      ensures Claims(Base(w'.arena, c', l', data), leaves, index, b) == (if DATA_START <= b < total then BitAt(s', b) else 0)
      ensures b < DATA_START ==> BitAt(s', b) == 1
    {
      assert At(b);
      assert b < DATA_START || total <= b ==> BitAt(s', b) == BitAt(s, b);
    }
  }

  /** Setting a run of bits to `v`, marking the bitmap blocks they are in. */
  ghost predicate Flipped(s: Spc, s': Spc, lo: nat, hi: nat, v: bool) {
    && Filled(s.bits, s'.bits, lo, hi, v) && Dirtied(s.dirty, s'.dirty, lo, hi) && |s'.held| == |s.held|
  }

  lemma CleanFlipped(s: Spc, s': Spc, lo: nat, hi: nat, v: bool, leaves: seq<Bp>, total: nat)
    requires Clean(s, leaves) && Flipped(s, s', lo, hi, v) && SpcOk(s, total)
    ensures Clean(s', leaves)
  {
    forall k: nat | k < |s'.dirty| && k < |leaves| && !s'.dirty[k] ensures Says(leaves[k], s'.bits, k) {
      assert At(k);
      var from, to := k * BITS_PER_BITMAP, (k + 1) * BITS_PER_BITMAP;
      assert !Touches(lo, hi, k);
      forall b | from <= b < to && b < |s.bits| ensures s'.bits[b] == s.bits[b] {}
      assert to <= |s.bits| ==> s'.bits[from..to] == s.bits[from..to];
    }
  }

  /** A run allocated. */
  lemma BooksTaken(s: Spc, s': Spc, total: nat, N: Arena, c: Child, l: nat, data: seq<Bp>, leaves: seq<Bp>,
                   index: seq<Bp>, bp: Bp)
    requires Books(s, total, N, c, l, data, leaves, index) && SpcOk(s, total)
    requires DATA_START <= bp.block && bp.block + bp.count <= total && FreeRun(s.bits, s.held, bp.block, bp.count)
    requires Flipped(s, s', bp.block, bp.block + bp.count, true)
    ensures Books(s', total, N, c, l, data + [bp], leaves, index)
  {
    forall b: nat
      ensures Claims(Base(N, c, l, data + [bp]), leaves, index, b) == (if DATA_START <= b < total then BitAt(s', b) else 0)
      ensures b < DATA_START ==> BitAt(s', b) == 1
    {
      assert At(b);
      BpsUsesConcat(data, [bp], b);
      BpsUsesOne(bp, b);
      if bp.block <= b < bp.block + bp.count {
        assert IsFree(s.bits, s.held, b);
      }
    }
  }

  /** A run in the books lies in the data area, and is nobody else's. */
  lemma RunInData(s: Spc, total: nat, N: Arena, c: Child, l: nat, data: seq<Bp>, leaves: seq<Bp>, index: seq<Bp>,
                  i: nat)
    requires Books(s, total, N, c, l, data, leaves, index) && i < |data| && data[i].count > 0
    ensures DATA_START <= data[i].block && data[i].block + data[i].count <= total
  {
    var x, y := data[i].block, data[i].block + data[i].count - 1;
    assert At(x) && At(y);
    BpsUsesAround(data, i, x);
    BpsUsesAround(data, i, y);
  }

  /** A run freed. */
  lemma BooksFreed(s: Spc, s': Spc, total: nat, N: Arena, c: Child, l: nat, data: seq<Bp>, leaves: seq<Bp>,
                   index: seq<Bp>, bp: Bp, rest: seq<Bp>)
    requires Books(s, total, N, c, l, data, leaves, index) && SpcOk(s, total)
    requires forall b: nat {:trigger At(b)} :: At(b) ==> BpsUses(data, b) == BpsUses(rest, b) + BpUses(bp, b)
    requires bp.count > 0 ==> DATA_START <= bp.block && bp.block + bp.count <= total
    requires Flipped(s, s', bp.block, FreeEnd(bp, total), false)
    ensures Books(s', total, N, c, l, rest, leaves, index)
  {
    forall b: nat
      ensures Claims(Base(N, c, l, rest), leaves, index, b) == (if DATA_START <= b < total then BitAt(s', b) else 0)
      ensures b < DATA_START ==> BitAt(s', b) == 1
    {
      assert At(b);
    }
  }

  /** Freeing a run takes away none of what can be had. */
  lemma RoomFreed(s: Spc, s': Spc, total: nat, N: Arena, c: Child, l: nat, data: seq<Bp>, leaves: seq<Bp>, index: seq<Bp>,
                  bp: Bp, rest: seq<Bp>)
    requires Books(s, total, N, c, l, data, leaves, index) && SpcOk(s, total) && SpcOk(s', total)
    requires forall b: nat {:trigger At(b)} :: At(b) ==> BpsUses(data, b) == BpsUses(rest, b) + BpUses(bp, b)
    requires bp.count > 0 ==> DATA_START <= bp.block && bp.block + bp.count <= total
    requires Filled(s.bits, s'.bits, bp.block, FreeEnd(bp, total), false)
    requires Filled(s.held, s'.held, bp.block, FreeEnd(bp, total), true) || s'.held == s.held
    ensures RoomIn(s', total) >= RoomIn(s, total)
  {
    forall b: nat | b < total && Guarded(s', b) ensures Guarded(s, b) {
      assert At(b);
    }
    RoomGrows(s, s', total);
  }

  // --- Extents in and out of the tree ---

  lemma {:induction false} ExtentUses(s: Items, b: nat, p: nat)
    requires p < |s|
    ensures BpsUses(Extents(s), b) ==
            BpsUses(Extents(s[..p]), b) + BpsUses(DataBps(s[p].data), b) + BpsUses(Extents(s[p + 1..]), b)
  {
    Halves(s, p);
    ExtentsConcat(s[..p] + [s[p]], s[p + 1..]);
    ExtentsConcat(s[..p], [s[p]]);
    OneExtent(s[p]);
    BpsUsesConcat(Extents(s[..p]) + DataBps(s[p].data), Extents(s[p + 1..]), b);
    BpsUsesConcat(Extents(s[..p]), DataBps(s[p].data), b);
  }

  function FoundBps(d: Option<Data>): seq<Bp> {
    if d.Some? then DataBps(d.value) else []
  }

  /** Which blocks the extents occupy, before and after an item is put or cut. */
  lemma PutUses(s: Items, k: Key, d: Data, b: nat)
    ensures BpsUses(Extents(Put(s, k, d)), b) + BpsUses(FoundBps(Find(s, k)), b) == BpsUses(Extents(s), b) + BpsUses(DataBps(d), b)
  {
    KeyUses(s, k, b);
    InsteadUses(s, Pos(s, k), Hit(s, k), Item(k, d), FoundBps(Find(s, k)), b);
  }

  lemma InsteadUses(s: Items, p: nat, h: nat, it: Item, d: seq<Bp>, b: nat)
    requires p + h <= |s|
    requires BpsUses(Extents(s), b) == BpsUses(Extents(s[..p]), b) + BpsUses(d, b) + BpsUses(Extents(s[p + h..]), b)
    ensures BpsUses(Extents(s[..p] + [it] + s[p + h..]), b) + BpsUses(d, b) ==
            BpsUses(Extents(s), b) + BpsUses(DataBps(it.data), b)
  {
    AmongUses(s[..p], it, s[p + h..], b);
  }

  lemma AmongUses(x: Items, it: Item, y: Items, b: nat)
    ensures BpsUses(Extents(x + [it] + y), b) == BpsUses(Extents(x), b) + BpsUses(DataBps(it.data), b) + BpsUses(Extents(y), b)
  {
    TwoUsed(x + [it], y, b);
    TwoUsed(x, [it], b);
    OneExtent(it);
  }

  lemma OneExtent(it: Item)
    ensures Extents([it]) == DataBps(it.data)
  {
    assert [it][..0] == [];
    assert Extents([it]) == Extents([it][..0]) + DataBps([it][0].data);
  }

  lemma {:induction false} KeyUses(s: Items, k: Key, b: nat)
    ensures BpsUses(Extents(s), b) ==
            BpsUses(Extents(s[..Pos(s, k)]), b) + BpsUses(FoundBps(Find(s, k)), b) + BpsUses(Extents(s[Pos(s, k) + Hit(s, k)..]), b)
  {
    var p := Pos(s, k);
    if Hit(s, k) == 1 {
      ExtentUses(s, b, p);
    } else {
      Halves(s, p);
      ExtentsConcat(s[..p], s[p..]);
      BpsUsesConcat(Extents(s[..p]), Extents(s[p..]), b);
    }
  }

  lemma {:induction false} CutUses(s: Items, k: Key, b: nat)
    ensures BpsUses(Extents(Cut(s, k)), b) + BpsUses(FoundBps(Find(s, k)), b) == BpsUses(Extents(s), b)
  {
    KeyUses(s, k, b);
    WithoutUses(s, Pos(s, k), Hit(s, k), FoundBps(Find(s, k)), b);
  }

  lemma {:induction false} WithoutUses(s: Items, p: nat, h: nat, d: seq<Bp>, b: nat)
    requires p + h <= |s|
    requires BpsUses(Extents(s), b) == BpsUses(Extents(s[..p]), b) + BpsUses(d, b) + BpsUses(Extents(s[p + h..]), b)
    ensures BpsUses(Extents(s[..p] + s[p + h..]), b) + BpsUses(d, b) == BpsUses(Extents(s), b)
  {
    TwoUsed(s[..p], s[p + h..], b);
  }

  lemma TwoUsed(x: Items, y: Items, b: nat)
    ensures BpsUses(Extents(x + y), b) == BpsUses(Extents(x), b) + BpsUses(Extents(y), b)
  {
    ExtentsConcat(x, y);
    BpsUsesConcat(Extents(x), Extents(y), b);
  }

  /** Every extent of the new items is one of the old, or the one put. */
  lemma {:induction false} ExtentFrom(s: Items, i: nat) returns (j: nat)
    requires i < |Extents(s)|
    ensures j < |s| && s[j].data.Ext? && s[j].data.bp == Extents(s)[i]
  {
    var n := |s| - 1;
    if i < |Extents(s[..n])| {
      j := ExtentFrom(s[..n], i);
    } else {
      j := n;
    }
  }

  lemma {:induction false} ExtentIn(s: Items, j: nat) returns (i: nat)
    requires j < |s| && s[j].data.Ext?
    ensures i < |Extents(s)| && Extents(s)[i] == s[j].data.bp
  {
    var n := |s| - 1;
    if j == n {
      i := |Extents(s[..n])|;
    } else {
      i := ExtentIn(s[..n], j);
    }
  }

  /** Every file's data is on disk, and none is where the committed state might need it. */
  ghost predicate DataOk(s: Items, disk: seq<Block>, n: Super) {
    forall j: nat {:trigger s[j]} :: j < |s| && s[j].data.Ext? ==> BpOnDisk(disk, s[j].data.bp) && NewData(s[j].data.bp, n)
  }

  lemma DataOkIf(s: Items, disk: seq<Block>, n: Super)
    requires AllOnDisk(disk, Extents(s)) && AllNew(Extents(s), n)
    ensures DataOk(s, disk, n)
  {
    forall j: nat | j < |s| && s[j].data.Ext? ensures BpOnDisk(disk, s[j].data.bp) && NewData(s[j].data.bp, n) {
      var i := ExtentIn(s, j);
      OnDiskAt(disk, Extents(s), i);
      NewAt(Extents(s), n, i);
    }
  }

  lemma DataOkGives(s: Items, disk: seq<Block>, n: Super)
    requires DataOk(s, disk, n)
    ensures AllOnDisk(disk, Extents(s)) && AllNew(Extents(s), n)
  {
    forall i | 0 <= i < |Extents(s)| ensures BpOnDisk(disk, Extents(s)[i]) && NewData(Extents(s)[i], n) {
      var j := ExtentFrom(s, i);
    }
    OnDiskIf(disk, Extents(s));
    NewIf(Extents(s), n);
  }

  lemma DataOkPut(s: Items, k: Key, d: Data, disk: seq<Block>, n: Super)
    requires DataOk(s, disk, n) && (d.Ext? ==> BpOnDisk(disk, d.bp) && NewData(d.bp, n))
    ensures DataOk(Put(s, k, d), disk, n)
  {
    var t := Put(s, k, d);
    forall j: nat | j < |t| && t[j].data.Ext? ensures BpOnDisk(disk, t[j].data.bp) && NewData(t[j].data.bp, n) {
      if j != Pos(s, k) {
        var i := PutFrom(s, k, d, j);
      }
    }
  }

  lemma DataOkCut(s: Items, k: Key, disk: seq<Block>, n: Super)
    requires DataOk(s, disk, n)
    ensures DataOk(Cut(s, k), disk, n)
  {
    var t := Cut(s, k);
    forall j: nat | j < |t| && t[j].data.Ext? ensures BpOnDisk(disk, t[j].data.bp) && NewData(t[j].data.bp, n) {
      var i := CutFrom(s, k, j);
    }
  }

  // --- Writing where no one looks ---

  /** Only blocks of `run` differ. */
  ghost predicate OnlyIn(d: seq<Block>, d': seq<Block>, run: Bp) {
    |d'| == |d| && forall b: nat {:trigger At(b)} :: At(b) && b < |d| && BpUses(run, b) == 0 ==> d'[b] == d[b]
  }

  lemma RunAlone(s: Spc, total: nat, N: Arena, c: Child, l: nat, data: seq<Bp>, leaves: seq<Bp>, index: seq<Bp>,
                 run: Bp, d: seq<Block>, d': seq<Block>)
    requires Books(s, total, N, c, l, data + [run], leaves, index) && OnlyIn(d, d', run)
    ensures BaseKept(Base(N, c, l, data), d, d')
    ensures forall b: nat {:trigger At(b)} :: At(b) && BpsUses(leaves, b) > 0 && b < |d| ==> d'[b] == d[b]
  {
    forall b: nat | b < |d| && Base(N, c, l, data)(b) + BpsUses(leaves, b) > 0 ensures d'[b] == d[b] {
      assert At(b);
      BpsUsesConcat(data, [run], b);
      BpsUsesOne(run, b);
    }
  }

  /** Writing an allocated run that is in no file changes nothing that matters. */
  lemma RunWritten(w: World, d': seq<Block>, s: Spc, c: Child, l: nat, items: Items, run: Bp, leaves: seq<Bp>,
                   index: seq<Bp>, total: nat, n: Super, txg: nat)
    requires Ready(w, s, c, l, 0, 0, total) && OldLeaves(w.disk, leaves, txg) && DataOk(items, w.disk, n)
    requires Books(s, total, w.arena, c, l, Extents(items) + [run], leaves, index) && OnlyIn(w.disk, d', run)
    ensures Ready(World(w.arena, d', w.txg), s, c, l, 0, 0, total)
    ensures OldLeaves(d', leaves, txg) && DataOk(items, d', n)
  {
    var data := Extents(items);
    var base := Base(w.arena, c, l, data);
    RunAlone(s, total, w.arena, c, l, data, leaves, index, run, w.disk, d');
    OldKept(w.disk, d', leaves, txg);
    NoFreshSlots(w, c, l, 0, 0);
    forall b: nat | Uses(w.arena, c, l, Blk(b)) > 0 && b < |w.disk| ensures d'[b] == w.disk[b] {
      assert At(b);
    }
    FrameShape(w, World(w.arena, d', w.txg), c, l, 0, 0);
    forall j: nat | j < |items| && items[j].data.Ext? ensures BpOnDisk(d', items[j].data.bp) {
      var i := ExtentIn(items, j);
      DataKept(base, data, i, w.disk, d');
    }
  }

  lemma DataKept(base: nat -> nat, data: seq<Bp>, i: nat, d: seq<Block>, d': seq<Block>)
    requires i < |data| && BpOnDisk(d, data[i]) && BaseKept(base, d, d')
    requires forall b: nat {:trigger At(b)} :: BpsUses(data, b) <= base(b)
    ensures BpOnDisk(d', data[i])
  {
    var bp := data[i];
    forall b | bp.block <= b < bp.block + bp.count ensures d'[b] == d[b] {
      assert At(b);
      BpsUsesAround(data, i, b);
    }
    assert d'[bp.block..bp.block + bp.count] == d[bp.block..bp.block + bp.count];
  }

  /** The tree does not mind blocks being taken, or runs it does not own being freed. */
  lemma TreeTaken(w: World, s: Spc, s': Spc, c: Child, l: nat, lo: nat, hi: nat, total: nat)
    requires Ready(w, s, c, l, 0, 0, total) && Flipped(s, s', lo, hi, true) && SpcOk(s', total)
    ensures Ready(w, s', c, l, 0, 0, total)
  {
    forall b: nat ensures Uses(w.arena, c, l, Blk(b)) <= if DATA_START <= b < total then BitAt(s', b) else 0 {
      assert At(b);
    }
  }

  lemma TreeFreed(w: World, s: Spc, s': Spc, c: Child, l: nat, data: seq<Bp>, rest: seq<Bp>, bp: Bp, leaves: seq<Bp>,
                  index: seq<Bp>, total: nat)
    requires Ready(w, s, c, l, 0, 0, total) && Flipped(s, s', bp.block, FreeEnd(bp, total), false) && SpcOk(s', total)
    requires Books(s, total, w.arena, c, l, data, leaves, index)
    requires forall b: nat {:trigger At(b)} :: At(b) ==> BpsUses(data, b) == BpsUses(rest, b) + BpUses(bp, b)
    requires bp.count > 0 ==> DATA_START <= bp.block && bp.block + bp.count <= total
    ensures Ready(w, s', c, l, 0, 0, total)
  {
    forall b: nat ensures Uses(w.arena, c, l, Blk(b)) <= if DATA_START <= b < total then BitAt(s', b) else 0 {
      assert At(b);
    }
  }

  /** A run of free blocks holds nothing the committed state uses. */
  lemma FreeIsNew(s: Spc, bp: Bp, n: Super)
    requires |s.bits| == |s.held| && FreeRun(s.bits, s.held, bp.block, bp.count) && bp.birth == n.txg + 1
    requires forall b: nat {:trigger StateUses(n, b)} :: StateUses(n, b) > 0 ==> Guarded(s, b)
    ensures NewData(bp, n)
  {
    forall b: nat | StateUses(n, b) > 0 ensures BpUses(bp, b) == 0 {
      assert Guarded(s, b);
      assert !IsFree(s.bits, s.held, b);
    }
  }

  lemma NewPush(x: seq<Bp>, bp: Bp, n: Super)
    requires AllNew(x, n) && NewData(bp, n)
    ensures AllNew(x + [bp], n)
  {
    assert (x + [bp])[..|x|] == x;
  }

  /** One run taken out of a list. */
  lemma RunOut(data: seq<Bp>, i: nat)
    requires i < |data|
    ensures forall b: nat {:trigger At(b)} :: At(b) ==> BpsUses(data, b) == BpsUses(data[..i] + data[i + 1..], b) + BpUses(data[i], b)
  {
    forall b: nat ensures BpsUses(data, b) == BpsUses(data[..i] + data[i + 1..], b) + BpUses(data[i], b) {
      BpsUsesAround(data, i, b);
      BpsUsesConcat(data[..i], data[i + 1..], b);
    }
  }

  /** Allocating a run, all in all. */
  lemma RunTakes(w: World, s: Spc, s': Spc, c: Child, l: nat, data: seq<Bp>, extra: seq<Bp>, leaves: seq<Bp>,
                 index: seq<Bp>, total: nat, n: Super, run: Bp)
    requires Ready(w, s, c, l, 0, 0, total) && Clean(s, leaves) && AllNew(extra, n) && SpcOk(s', total)
    requires Books(s, total, w.arena, c, l, data + extra, leaves, index)
    requires forall b: nat {:trigger StateUses(n, b)} :: StateUses(n, b) > 0 ==> Guarded(s, b)
    requires DATA_START <= run.block && run.block + run.count <= total && FreeRun(s.bits, s.held, run.block, run.count)
    requires run.birth == n.txg + 1 && Flipped(s, s', run.block, run.block + run.count, true) && s'.held == s.held
    ensures Ready(w, s', c, l, 0, 0, total) && Clean(s', leaves) && AllNew(extra + [run], n)
    ensures Books(s', total, w.arena, c, l, data + (extra + [run]), leaves, index)
    ensures forall b: nat {:trigger Guarded(s', b)} :: Guarded(s, b) ==> Guarded(s', b)
    ensures total <= |s.bits| == |s'.bits| == |s.held|
    ensures FreeCount(s'.bits, s.held, total) == FreeCount(s.bits, s.held, total) - run.count
  {
    FreeIsNew(s, run, n);
    NewPush(extra, run, n);
    TreeTaken(w, s, s', c, l, run.block, run.block + run.count, total);
    CleanFlipped(s, s', run.block, run.block + run.count, true, leaves, total);
    BooksTaken(s, s', total, w.arena, c, l, data + extra, leaves, index, run);
    assert data + (extra + [run]) == data + extra + [run];
    FreeCountFilled(s.bits, s.held, s'.bits, run.block, run.block + run.count, total);
  }
}
