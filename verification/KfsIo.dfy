/** Reading and writing files on a mounted volume. */
module KfsIo {
  import opened Wrappers
  import opened KfsTypes
  import opened KfsItems
  import opened KfsTree
  import opened KfsState
  import opened KfsSpace
  import opened KfsDisk
  import opened KfsEdit
  import opened KfsCommit
  import opened KfsBooks
  import opened KfsFiles
  import opened Kfs

  // --- Dropping an object's items ---

  /** Removes item `it`, and frees its blocks if it is an extent. */
  method DropOne(fs: Fs, it: Item) returns (r: Result<()>)
    requires fs.Valid([]) && Find(fs.Content(), it.key) == Some(it.data)
    modifies fs`root, fs`dirty, fs`nodes, fs`bits, fs`held, fs`bitmapDirty, fs`cache, fs`clock
    ensures r.Err? ==> fs.Failed(r.error)
    ensures r.Ok? ==> fs.Valid([]) && fs.dirty && fs.Content() == Cut(old(fs.Content()), it.key)
    ensures r.Ok? ==> Spent(old(fs.Has()), fs.Has(), 1)
  {
    fs.ToMid([]);
    ghost var s, runs := fs.Content(), fs.Data() + [];
    if it.data.Ext? {
      ghost var i := FoundExtent(s, it.key);
      DataOkGives(s, fs.dev.cur, fs.sb);
      NewAt(fs.Data(), fs.sb, i);
      assert fs.Data() + [] == fs.Data();
      fs.GiveRun(it.data.bp, runs, i);
      RunOut(runs, i);
      runs := runs[..i] + runs[i + 1..];
    }
    var _ :- fs.DropItem(it.key, runs);
    DataOkCut(s, it.key, fs.dev.cur, fs.sb);
    CutRuns(s, it.key, it.data, runs);
    fs.FromMid(runs, []);
    return Ok(());
  }

  lemma FoundExtent(s: Items, k: Key) returns (i: nat)
    requires Find(s, k).Some? && Find(s, k).value.Ext?
    ensures i < |Extents(s)| && Extents(s)[i] == Find(s, k).value.bp
  {
    i := ExtentIn(s, Pos(s, k));
  }

  lemma CutRuns(s: Items, k: Key, d: Data, runs: seq<Bp>)
    requires Find(s, k) == Some(d)
    requires forall b: nat {:trigger At(b)} :: At(b) ==>
               BpsUses(Extents(s) + [], b) == BpsUses(runs, b) + if d.Ext? then BpUses(d.bp, b) else 0
    ensures SameRuns(runs, Extents(Cut(s, k)) + [])
  {
    var e := Extents(Cut(s, k));
    assert e + [] == e && Extents(s) + [] == Extents(s);
    forall b: nat ensures BpsUses(runs, b) == BpsUses(e, b) {
      assert At(b);
      CutUses(s, k, b);
      if d.Ext? {
        BpsUsesOne(d.bp, b);
      }
    }
  }

  /** The content loses exactly the items of `obj` (with `dataOnly`, those of them that hold data), and the blocks
      they referred to are no longer counted. */
  method DropItems(fs: Fs, obj: nat, dataOnly: bool) returns (r: Result<()>)
    requires fs.Valid([])
    modifies fs`root, fs`dirty, fs`nodes, fs`bits, fs`held, fs`bitmapDirty, fs`cache, fs`clock
    ensures r.Err? ==> fs.Failed(r.error)
    ensures var s, lo, hi := old(fs.Content()), DropLo(obj, dataOnly), DropHi(obj, dataOnly);
            r.Ok? ==> fs.Valid([]) && Pos(s, lo) <= Pos(s, hi) && fs.Content() == Outside(s, lo, hi)
    ensures r.Ok? && (old(fs.dirty) || fs.Content() != old(fs.Content())) ==> fs.dirty
    ensures r.Ok? ==> |fs.Content()| <= |old(fs.Content())|
    ensures r.Ok? ==> Spent(old(fs.Has()), fs.Has(), |old(fs.Content())| - |fs.Content()|)
  {
    ghost var s, lo, hi := fs.Content(), DropLo(obj, dataOnly), DropHi(obj, dataOnly);
    fs.ToMid([]);
    var seen :- fs.Look(K(obj, 0, 0), (it: Item) => ObjOf(it.key) == obj, []);
    var doomed := Pick(seen, obj, dataOnly);
    ghost var a, b := ToDrop(s, obj, dataOnly, seen, doomed);
    r := DropAll(fs, doomed, a, b, lo, hi);
  }

  /** What the scan has picked is the middle of three runs. */
  lemma ToDrop(s: Items, obj: nat, dataOnly: bool, seen: Items, doomed: Items) returns (a: Items, b: Items)
    requires Sorted(s) && seen == Visit(s, K(obj, 0, 0), (it: Item) => ObjOf(it.key) == obj).0
    requires doomed == Chosen(seen, DropLo(obj, dataOnly), DropHi(obj, dataOnly))
    ensures var lo, hi := DropLo(obj, dataOnly), DropHi(obj, dataOnly);
            && Pos(s, lo) <= Pos(s, hi) && s == a + doomed + b && Cut3(s, lo, hi, a, doomed, b)
            && a + b == Outside(s, lo, hi) && |s| == |a + b| + |doomed| && (doomed == [] ==> s == a + b)
  {
    var lo, hi := DropLo(obj, dataOnly), DropHi(obj, dataOnly);
    SeenDoomed(s, obj, dataOnly, seen);
    DoomedRange(0, obj, dataOnly);
    var d;
    a, d, b := CutAtKeys(s, lo, hi);
  }

  /** Removes `doomed`, which lie between the keys `lo` and `hi`. */
  method DropAll(fs: Fs, doomed: Items, ghost a: Items, ghost b: Items, ghost lo: Key, ghost hi: Key)
      returns (r: Result<()>)
    requires fs.Valid([]) && fs.Content() == a + doomed + b && Sorted(a + doomed + b)
    requires Cut3(a + doomed + b, lo, hi, a, doomed, b)
    modifies fs`root, fs`dirty, fs`nodes, fs`bits, fs`held, fs`bitmapDirty, fs`cache, fs`clock
    ensures r.Err? ==> fs.Failed(r.error)
    ensures r.Ok? ==> fs.Valid([]) && fs.Content() == a + b
    ensures r.Ok? && (old(fs.dirty) || doomed != []) ==> fs.dirty
    ensures r.Ok? ==> Spent(old(fs.Has()), fs.Has(), |doomed|)
  {
    var j := 0;
    assert doomed[0..] == doomed;
    while j < |doomed|
      invariant 0 <= j <= |doomed| && fs.Valid([])
      invariant fs.Content() == a + doomed[j..] + b && Sorted(a + doomed[j..] + b)
      invariant Cut3(a + doomed[j..] + b, lo, hi, a, doomed[j..], b)
      invariant (old(fs.dirty) || j > 0 ==> fs.dirty) && Spent(old(fs.Has()), fs.Has(), j)
    {
      CutFirst(a, doomed[j..], b, lo, hi);
      assert doomed[j..][1..] == doomed[j + 1..];
      var _ :- DropOne(fs, doomed[j]);
      j := j + 1;
    }
    assert doomed[j..] == [];
    assert a + [] + b == a + b;
    return Ok(());
  }

  method Pick(seen: Items, obj: nat, dataOnly: bool) returns (doomed: Items)
    ensures doomed == Chosen(seen, DropLo(obj, dataOnly), DropHi(obj, dataOnly))
  {
    doomed := [];
    var i := 0;
    assert seen[..0] == [];
    while i < |seen|
      invariant 0 <= i <= |seen|
      invariant doomed == Chosen(seen[..i], DropLo(obj, dataOnly), DropHi(obj, dataOnly))
    {
      assert seen[..i + 1][..i] == seen[..i];
      DoomedRange(seen[i].key, obj, dataOnly);
      if Doomed(seen[i].key, obj, dataOnly) {
        doomed := doomed + [seen[i]];
      }
      i := i + 1;
    }
    assert seen[..i] == seen;
  }

  // --- Writing a file's contents ---

  /** How many blocks are kept back from files. */
  function ReserveFor(total: nat): nat {
    if total / 256 > RESERVE_MIN then total / 256 else RESERVE_MIN
  }

  /** The items are `a`, then the object's data items `d`, then `b`. */
  ghost predicate Laid(s: Items, obj: nat, a: Items, d: Items, b: Items) {
    s == a + d + b && Sorted(s) && Cut3(s, DataLo(obj), DataHi(obj), a, d, b)
  }

  lemma PutRuns(s: Items, k: Key, d: Data, extra: seq<Bp>, extra': seq<Bp>)
    requires Find(s, k) == None
    requires forall b: nat {:trigger At(b)} :: At(b) ==> BpsUses(extra, b) == BpsUses(DataBps(d), b) + BpsUses(extra', b)
    ensures SameRuns(Extents(s) + extra, Extents(Put(s, k, d)) + extra')
  {
    forall b: nat ensures BpsUses(Extents(s) + extra, b) == BpsUses(Extents(Put(s, k, d)) + extra', b) {
      assert At(b);
      PutUses(s, k, d, b);
      BpsUsesConcat(Extents(s), extra, b);
      BpsUsesConcat(Extents(Put(s, k, d)), extra', b);
    }
  }

  /** Adds a new item, which takes over some of the allocated blocks. */
  method AddItem(fs: Fs, k: Key, x: Data, ghost extra: seq<Bp>, ghost extra': seq<Bp>) returns (r: Result<()>)
    requires fs.Valid(extra) && Find(fs.Content(), k) == None && ITEM_HEADER + DataSize(x) <= ROOM
    requires forall b: nat {:trigger At(b)} :: At(b) ==> BpsUses(extra, b) == BpsUses(DataBps(x), b) + BpsUses(extra', b)
    requires AllNew(extra', fs.sb) && (x.Ext? ==> BpOnDisk(fs.dev.cur, x.bp) && NewData(x.bp, fs.sb))
    modifies fs`root, fs`dirty, fs`nodes, fs`bits, fs`held, fs`bitmapDirty, fs`cache, fs`clock
    ensures r.Err? ==> fs.Failed(r.error)
    ensures r.Ok? ==> fs.Valid(extra') && fs.dirty && fs.Content() == Put(old(fs.Content()), k, x)
    ensures r.Ok? ==> fs.Room() == old(fs.Room()) && Spent(old(fs.Has()), fs.Has(), 1)
  {
    fs.ToMid(extra);
    ghost var s, runs := fs.Content(), fs.Data() + extra;
    var _ :- fs.SetItem(k, x, runs);
    DataOkPut(s, k, x, fs.dev.cur, fs.sb);
    PutRuns(s, k, x, extra, extra');
    fs.FromMid(runs, extra');
    return Ok(());
  }

  /** How many bytes of `data` the `count` blocks from `blk` on hold. */
  function PieceLength(data: seq<int>, blk: nat, count: nat): nat
    requires blk * BLOCK <= |data|
  {
    if (blk + count) * BLOCK <= |data| then count * BLOCK else |data| - blk * BLOCK
  }

  /** The extent item for the `count` blocks of `data` from `blk` on, written at `at`. */
  function ExtentItem(obj: nat, data: seq<int>, blk: nat, at: nat, count: nat, txg: nat): Item
    requires blk * BLOCK <= |data|
  {
    Item(K(obj, K_EXTENT, blk * BLOCK), Ext(Bp(at, count, txg, BlocksOf(data, blk, count)), PieceLength(data, blk, count)))
  }

  lemma ExtentReady(s: Items, obj: nat, data: seq<int>, blk: nat, x: Item, a: Items, d: Items, b: Items, count: nat)
    requires Laid(s, obj, a, d, b) && Tiles(d, obj, data) && BlocksIn(d) == blk && blk * BLOCK <= |data|
    requires 1 <= count <= EXTENT_BLOCKS && blk + count <= DataBlocks(|data|) && |data| < U64
    requires x.data.Ext? && x == ExtentItem(obj, data, blk, x.data.bp.block, count, x.data.bp.birth)
    ensures Find(s, x.key) == None && Put(s, x.key, x.data) == a + (d + [x]) + b
    ensures Laid(a + (d + [x]) + b, obj, a, d + [x], b)
    ensures Tiles(d + [x], obj, data) && BlocksIn(d + [x]) == blk + count
  {
    TilesBelow(d, obj, data);
    KeyInData(obj, blk * BLOCK);
    PutLast(a, d, b, DataLo(obj), DataHi(obj), x.key, x.data);
    TilesPush(d, obj, data, x);
  }

  lemma KeyInData(obj: nat, off: nat)
    requires off < U64
    ensures DataLo(obj) <= K(obj, K_EXTENT, off) < DataHi(obj)
  {
  }

  /** Run `run` is `part` and then `rest`. */
  ghost predicate Splits(run: Bp, part: Bp, rest: Bp) {
    && part.birth == rest.birth == run.birth && part.block == run.block && part.count <= run.count
    && rest.block == run.block + part.count && rest.count == run.count - part.count
  }

  lemma RunParts(run: Bp, part: Bp, rest: Bp, n: Super)
    requires AllNew([run], n) && Splits(run, part, rest)
    ensures NewData(part, n) && AllNew([rest], n)
    ensures forall b: nat {:trigger At(b)} :: At(b) ==> BpsUses([run], b) == BpsUses([part], b) + BpsUses([rest], b)
  {
    NewAt([run], n, 0);
    forall b: nat ensures BpsUses([run], b) == BpsUses([part], b) + BpsUses([rest], b) {
      BpsUsesOne(run, b);
      BpsUsesOne(part, b);
      BpsUsesOne(rest, b);
    }
    assert NewData(rest, n);
    assert [rest][..0] == [];
  }

  /** Writes the next extent, into the first `count` blocks of `run`. */
  method AddExtent(fs: Fs, obj: nat, data: seq<int>, blk: nat, at: nat, count: nat, ghost run: Bp, ghost a: Items,
                   ghost d: Items, ghost b: Items)
    returns (r: Result<()>, ghost rest: Bp, ghost d': Items)
    requires fs.Valid([run]) && run.block == at && run.birth == fs.txg + 1
    requires Laid(fs.Content(), obj, a, d, b) && Tiles(d, obj, data) && BlocksIn(d) == blk && blk * BLOCK <= |data|
    requires 1 <= count <= EXTENT_BLOCKS && count <= run.count && blk + count <= DataBlocks(|data|) && |data| < U64
    modifies fs`root, fs`dirty, fs`nodes, fs`bits, fs`held, fs`bitmapDirty, fs`cache, fs`clock, fs.dev`pending
    modifies fs.dev`cur, fs.dev`history
    ensures Since(old(fs.dev.history), fs.dev.history)
    ensures r.Err? ==> fs.Failed(r.error)
    ensures r.Ok? ==> fs.Valid([rest]) && fs.dirty && rest == Bp(at + count, run.count - count, run.birth, [])
    ensures r.Ok? ==> |d'| == |d| + 1
    ensures r.Ok? ==> Laid(fs.Content(), obj, a, d', b) && Tiles(d', obj, data) && BlocksIn(d') == blk + count
    ensures r.Ok? ==> fs.Room() == old(fs.Room()) && Spent(old(fs.Has()), fs.Has(), 1)
  {
    d', rest := d, Bp(at + count, run.count - count, run.birth, []);
    var x := ExtentItem(obj, data, blk, at, count, fs.txg + 1);
    var wrote := fs.FillRun(run, at, x.data.bp.sum);
    if wrote.Err? {
      return Err(wrote.error), rest, d;
    }
    ExtentReady(fs.Content(), obj, data, blk, x, a, d, b, count);
    r := PlaceExtent(fs, x, run, rest);
    d' := d + [x];
  }

  /** Puts an extent that has been written into the tree. */
  method PlaceExtent(fs: Fs, x: Item, ghost run: Bp, ghost rest: Bp) returns (r: Result<()>)
    requires fs.Valid([run]) && x.data.Ext? && Splits(run, x.data.bp, rest) && BpOnDisk(fs.dev.cur, x.data.bp)
    requires Find(fs.Content(), x.key) == None
    modifies fs`root, fs`dirty, fs`nodes, fs`bits, fs`held, fs`bitmapDirty, fs`cache, fs`clock
    ensures r.Err? ==> fs.Failed(r.error)
    ensures r.Ok? ==> fs.Valid([rest]) && fs.dirty && fs.Content() == Put(old(fs.Content()), x.key, x.data)
    ensures r.Ok? ==> fs.Room() == old(fs.Room()) && Spent(old(fs.Has()), fs.Has(), 1)
  {
    fs.ToMid([run]);
    RunParts(run, x.data.bp, rest, fs.sb);
    r := AddItem(fs, x.key, x.data, [run], [rest]);
  }

  lemma NothingLeft(fs: Fs, rest: Bp)
    requires fs.Valid([rest]) && rest.count == 0
    ensures fs.Valid([])
  {
    fs.ToMid([rest]);
    forall b: nat ensures BpsUses(fs.Data() + [rest], b) == BpsUses(fs.Data() + [], b) {
      BpsUsesConcat(fs.Data(), [rest], b);
      BpsUsesConcat(fs.Data(), [], b);
      BpsUsesOne(rest, b);
    }
    fs.FromMid(fs.Data() + [rest], []);
  }

  /** Writes the `got` blocks of data from `done` on to the run allocated at `start`, an extent at a
      time. */
  method WriteRun(fs: Fs, obj: nat, data: seq<int>, done: nat, start: nat, got: nat, ghost run: Bp, ghost a: Items,
                  ghost d: Items, ghost b: Items)
    returns (r: Result<()>, ghost d': Items)
    requires fs.Valid([run]) && run == Bp(start, got, fs.txg + 1, []) && got > 0
    requires Laid(fs.Content(), obj, a, d, b) && Tiles(d, obj, data) && BlocksIn(d) == done
    requires done + got <= DataBlocks(|data|) && |data| < U64
    modifies fs`root, fs`dirty, fs`nodes, fs`bits, fs`held, fs`bitmapDirty, fs`cache, fs`clock, fs.dev`pending
    modifies fs.dev`cur, fs.dev`history
    ensures Since(old(fs.dev.history), fs.dev.history)
    ensures r.Err? ==> fs.Failed(r.error)
    ensures r.Ok? ==> fs.Valid([]) && fs.dirty
    ensures r.Ok? ==> Laid(fs.Content(), obj, a, d', b) && Tiles(d', obj, data) && BlocksIn(d') == done + got
    ensures r.Ok? ==> |d'| == |d| + (got + EXTENT_BLOCKS - 1) / EXTENT_BLOCKS
    ensures r.Ok? ==> fs.Room() == old(fs.Room()) && Spent(old(fs.Has()), fs.Has(), got)
  {
    fs.ValidSpace([run]);
    d' := d;
    ghost var left := run;
    var k := 0;
    while k < got
      invariant 0 <= k <= got && left.block == start + k && left.count == got - k && left.birth == fs.txg + 1
      invariant |d'| == |d| + (k + EXTENT_BLOCKS - 1) / EXTENT_BLOCKS && (k < got ==> k % EXTENT_BLOCKS == 0)
      invariant fs.Valid([left]) && (k > 0 ==> fs.dirty)
      invariant Laid(fs.Content(), obj, a, d', b) && Tiles(d', obj, data) && BlocksIn(d') == done + k
      invariant fs.Room() == old(fs.Room()) && Spent(old(fs.Has()), fs.Has(), k) && Since(old(fs.dev.history), fs.dev.history)
    {
      var count := if got - k < EXTENT_BLOCKS then got - k else EXTENT_BLOCKS;
      ghost var h := fs.dev.history;
      var wrote;
      wrote, left, d' := AddExtent(fs, obj, data, done + k, start + k, count, left, a, d', b);
      SinceTrans(old(fs.dev.history), h, fs.dev.history);
      if wrote.Err? {
        return wrote, d';
      }
      k := k + count;
    }
    NothingLeft(fs, left);
    return Ok(()), d';
  }

  /** How many items hold so many bytes, at most. */
  function ItemsFor(size: nat): nat { if size <= INLINE_MAX then 1 else DataBlocks(size) }

  /** How much room there has to be for so many bytes: none for an inline item, and otherwise the blocks they take
      up and the reserve. */
  function RoomFor(size: nat, total: nat): nat {
    if size <= INLINE_MAX then 0 else DataBlocks(size) + ReserveFor(total)
  }

  /** The content gains items of `obj` that hold `data`, whose extents tile it block by block, and no other item
      changes. The result is the number of blocks taken. Unless something else goes wrong, the disk is full exactly
      if there is no room for them and the reserve. */
  method WriteData(fs: Fs, obj: nat, data: seq<int>) returns (r: Result<nat>, ghost d: Items)
    requires fs.Valid([]) && |data| < U64
    requires Pos(fs.Content(), DataLo(obj)) == Pos(fs.Content(), DataHi(obj))
    modifies fs`root, fs`dirty, fs`nodes, fs`bits, fs`held, fs`bitmapDirty, fs`cursor, fs`cache, fs`clock,
             fs.dev`pending, fs.dev`cur, fs.dev`history
    ensures Since(old(fs.dev.history), fs.dev.history)
    ensures r.Err? ==> fs.Stuck(r.error)
    ensures r == Err(Full) ==> old(fs.Room()) < RoomFor(|data|, fs.total)
    ensures r.Ok? ==> old(fs.Room()) >= RoomFor(|data|, fs.total) && fs.Room() == old(fs.Room()) - r.value
    ensures r.Ok? ==> fs.Has().nodes <= old(fs.Has().nodes) + Copies(ItemsFor(|data|))
    ensures var s, p := old(fs.Content()), Pos(old(fs.Content()), DataLo(obj));
            r.Ok? ==> fs.Valid([]) && fs.dirty && Laid(fs.Content(), obj, s[..p], d, s[p..]) && Holds(d, obj, data)
    ensures r.Ok? ==> r.value == if |data| <= INLINE_MAX then 0 else DataBlocks(|data|)
  {
    fs.ToMid([]);
    ghost var a, none, b := CutAtKeys(fs.Content(), DataLo(obj), DataHi(obj));
    assert none == [];
    if |data| <= INLINE_MAX {
      r, d := WriteInline(fs, obj, data, a, b);
    } else {
      r, d := WriteExtents(fs, obj, data, a, b);
    }
  }

  method WriteInline(fs: Fs, obj: nat, data: seq<int>, ghost a: Items, ghost b: Items)
      returns (r: Result<nat>, ghost d: Items)
    requires fs.Valid([]) && |data| <= INLINE_MAX && Laid(fs.Content(), obj, a, [], b)
    modifies fs`root, fs`dirty, fs`nodes, fs`bits, fs`held, fs`bitmapDirty, fs`cache, fs`clock
    ensures r.Err? ==> fs.Failed(r.error)
    ensures r.Ok? ==> fs.Valid([]) && fs.dirty && Laid(fs.Content(), obj, a, d, b) && Holds(d, obj, data)
    ensures r.Ok? ==> r.value == 0 && fs.Room() == old(fs.Room()) && Spent(old(fs.Has()), fs.Has(), 1)
  {
    KeyInline(obj);
    PutLast(a, [], b, DataLo(obj), DataHi(obj), DataLo(obj), Inl(data));
    d := [] + [Item(DataLo(obj), Inl(data))];
    var put := AddItem(fs, DataLo(obj), Inl(data), [], []);
    return if put.Ok? then Ok(0) else Err(put.error), d;
  }

  lemma KeyInline(obj: nat)
    ensures DataLo(obj) < DataHi(obj)
  {
  }

  method WriteExtents(fs: Fs, obj: nat, data: seq<int>, ghost a: Items, ghost b: Items)
      returns (r: Result<nat>, ghost d: Items)
    requires fs.Valid([]) && INLINE_MAX < |data| < U64 && Laid(fs.Content(), obj, a, [], b)
    modifies fs`root, fs`dirty, fs`nodes, fs`bits, fs`held, fs`bitmapDirty, fs`cursor, fs`cache, fs`clock,
             fs.dev`pending, fs.dev`cur, fs.dev`history
    ensures Since(old(fs.dev.history), fs.dev.history)
    ensures r.Err? ==> fs.Stuck(r.error)
    ensures r == Err(Full) ==> old(fs.Room()) < DataBlocks(|data|) + ReserveFor(fs.total)
    ensures r.Ok? ==> fs.Valid([]) && fs.dirty && Laid(fs.Content(), obj, a, d, b) && Holds(d, obj, data)
    ensures r.Ok? ==> r.value == DataBlocks(|data|) && fs.Room() == old(fs.Room()) - r.value >= ReserveFor(fs.total)
    ensures r.Ok? ==> fs.Has().nodes <= old(fs.Has().nodes) + Copies(DataBlocks(|data|))
  {
    d := [];
    var nblocks, done := DataBlocks(|data|), 0;
    var reserve := ReserveFor(fs.total);
    while done < nblocks
      invariant 0 <= done <= nblocks && fs.Valid([]) && (done > 0 ==> fs.dirty)
      invariant Laid(fs.Content(), obj, a, d, b) && Tiles(d, obj, data) && BlocksIn(d) == done
      invariant fs.Room() == old(fs.Room()) - done && (done > 0 ==> fs.Room() >= reserve)
      invariant fs.Has().nodes <= old(fs.Has().nodes) + Copies(done)
      invariant Since(old(fs.dev.history), fs.dev.history)
    {
      ghost var h := fs.dev.history;
      var run := FindRoom(fs, nblocks - done, reserve);
      if run.Err? {
        return Err(run.error), d;
      }
      var (start, got) := run.value;
      var wrote;
      wrote, d := WriteRun(fs, obj, data, done, start, got, Bp(start, got, fs.txg + 1, []), a, d, b);
      SinceTrans(old(fs.dev.history), h, fs.dev.history);
      if wrote.Err? {
        return Err(wrote.error), d;
      }
      done := done + got;
    }
    return Ok(nblocks), d;
  }

  function AtMost(a: int, b: int): int { if a < b then a else b }

  /** A run of at most `want` blocks that may be had without touching the reserve: as long as can be. */
  method RoomLeft(fs: Fs, want: nat, reserve: nat) returns (r: Option<(nat, nat)>)
    requires fs.Valid([]) && want > 0
    ensures fs.total <= |fs.bits| == |fs.held|
    ensures r.Some? ==>
              var (start, got) := r.value;
              && 1 <= got <= want && DATA_START <= start && start + got <= fs.total && FreeRun(fs.bits, fs.held, start, got)
              && got + reserve <= fs.Room()
              && Best(fs.bits, fs.held, fs.Clamped(), fs.total, r.value, AtMost(want, fs.Room() - reserve))
    ensures r.None? ==> fs.Room() <= reserve
  {
    fs.ValidSpace([]);
    var available := fs.Available();
    if available <= reserve {
      return None;
    }
    var room := available - reserve;
    r := fs.FindRun(AtMost(want, room));
    if r.None? {
      ghost var b := fs.RoomFree([]);
    }
  }

  /** Allocates up to `want` blocks in a row for file data, without going into the reserve. */
  method FindRoom(fs: Fs, want: nat, reserve: nat) returns (r: Result<(nat, nat)>)
    requires fs.Valid([]) && want > 0
    modifies fs`bits, fs`bitmapDirty, fs`cursor
    ensures r.Err? ==> r.error == Full && fs.Intact() && old(fs.Room()) <= reserve
    ensures r.Ok? ==> 1 <= r.value.1 <= want && fs.Valid([Bp(r.value.0, r.value.1, fs.txg + 1, [])])
    ensures r.Ok? ==> fs.Room() == old(fs.Room()) - r.value.1 >= reserve
    ensures r.Ok? ==>
      && |old(fs.bits)| == |fs.held|
      && Best(old(fs.bits), fs.held, old(fs.Clamped()), fs.total, r.value, AtMost(want, old(fs.Room()) - reserve))
  {
    var run := RoomLeft(fs, want, reserve);
    if run.None? {
      fs.ValidIntact([]);
      return Err(Full);
    }
    TakeRoom(fs, run.value.0, run.value.1);
    return Ok(run.value);
  }

  method TakeRoom(fs: Fs, start: nat, got: nat)
    requires fs.Valid([]) && got > 0 && |fs.bits| == |fs.held| && fs.total <= |fs.bits|
    requires DATA_START <= start && start + got <= fs.total && FreeRun(fs.bits, fs.held, start, got)
    modifies fs`bits, fs`bitmapDirty, fs`cursor
    ensures fs.Valid([Bp(start, got, fs.txg + 1, [])]) && |fs.bits| == |fs.held| && fs.total <= |fs.bits|
    ensures fs.Room() == old(fs.Room()) - got
  {
    assert [] + [Bp(start, got, fs.txg + 1, [])] == [Bp(start, got, fs.txg + 1, [])];
    fs.TakeRun(start, got, []);
  }

  // --- Reading a file's contents ---

  /** Object `obj`'s contents, in a volume with these items, are `data`. */
  ghost predicate Stores(s: Items, obj: nat, data: seq<int>) {
    Sorted(s) && |data| < U64 && Pos(s, DataLo(obj)) <= Pos(s, DataHi(obj)) && Holds(Inside(s, DataLo(obj), DataHi(obj)), obj, data)
  }

  ghost function DataItems(s: Items, obj: nat): Items {
    if Pos(s, DataLo(obj)) <= Pos(s, DataHi(obj)) then Inside(s, DataLo(obj), DataHi(obj)) else []
  }

  /** The extents `d` starting between two offsets, as a scan finds them. */
  ghost predicate Seen(seen: Items, d: Items, p: nat, e: nat, obj: nat, to: nat) {
    && p <= e <= |d| && |seen| >= e - p && seen[..e - p] == d[p..e]
    && (|seen| > e - p ==> |seen| == e - p + 1 && !InExtents(seen[e - p].key, obj, to))
  }

  lemma ScanTiles(s: Items, obj: nat, data: seq<int>, start: nat, to: nat, seen: Items)
      returns (d: Items, p: nat, e: nat)
    requires Stores(s, obj, data) && |data| > INLINE_MAX && start <= to < U64
    requires seen == Visit(s, K(obj, K_EXTENT, start), (it: Item) => InExtents(it.key, obj, to)).0
    ensures d == DataItems(s, obj) && p == Pos(d, K(obj, K_EXTENT, start)) && e == Pos(d, K(obj, K_EXTENT, to))
    ensures Sorted(d) && Tiles(d, obj, data) && BlocksIn(d) == DataBlocks(|data|) && Seen(seen, d, p, e, obj, to)
  {
    var from, end := K(obj, K_EXTENT, start), K(obj, K_EXTENT, to);
    var sp, se := ScanSees(s, obj, start, to, seen);
    var a, b;
    a, d, b := CutAtKeys(s, DataLo(obj), DataHi(obj));
    KeyInData(obj, start);
    KeyInData(obj, to);
    SliceSorted(s, |a|, |a| + |d|);
    p, e := Pos(d, from), Pos(d, end);
    SlicePos(s, a, d, b, from, end, sp, se);
    MiddleSlice(s, a, d, b, p, e, sp, se, seen, obj, to);
  }

  lemma SlicePos(s: Items, a: Items, d: Items, b: Items, from: Key, end: Key, sp: nat, se: nat)
    requires s == a + d + b && Sorted(s) && Sorted(d) && from <= end && sp == Pos(s, from) && se == Pos(s, end)
    requires Below(a, from) && Below(a, end) && Above(b, from) && Above(b, end)
    ensures sp == |a| + Pos(d, from) && se == |a| + Pos(d, end) && Pos(d, from) <= Pos(d, end)
  {
    PosConcat(a, d, b, from);
    PosConcat(a, d, b, end);
    PosOrder(d, from, end);
  }

  lemma MiddleSlice(s: Items, a: Items, d: Items, b: Items, p: nat, e: nat, sp: nat, se: nat, seen: Items, obj: nat,
                    to: nat)
    requires s == a + d + b && p <= e <= |d| && sp == |a| + p && se == |a| + e
    requires seen == if se < |s| then s[sp..se + 1] else s[sp..]
    requires se < |s| ==> !InExtents(s[se].key, obj, to)
    ensures Seen(seen, d, p, e, obj, to)
  {
    MiddleOf(a, d, b, p, e);
    Front(s, sp, se);
  }

  lemma MiddleOf<T>(a: seq<T>, d: seq<T>, b: seq<T>, p: nat, e: nat)
    requires p <= e <= |d|
    ensures (a + d + b)[|a| + p..|a| + e] == d[p..e]
  {
  }

  lemma Front<T>(s: seq<T>, p: nat, e: nat)
    requires p <= e <= |s|
    ensures s[p..][..e - p] == s[p..e]
    ensures e < |s| ==> s[p..e + 1][..e - p] == s[p..e] && s[p..e + 1][e - p] == s[e]
  {
  }

  lemma ScanSees(s: Items, obj: nat, start: nat, to: nat, seen: Items) returns (p: nat, e: nat)
    requires Sorted(s) && start <= to < U64
    requires seen == Visit(s, K(obj, K_EXTENT, start), (it: Item) => InExtents(it.key, obj, to)).0
    ensures p == Pos(s, K(obj, K_EXTENT, start)) && e == Pos(s, K(obj, K_EXTENT, to)) && p <= e
    ensures seen == if e < |s| then s[p..e + 1] else s[p..]
    ensures e < |s| ==> !InExtents(s[e].key, obj, to)
  {
    var from, end := K(obj, K_EXTENT, start), K(obj, K_EXTENT, to);
    var more := (it: Item) => InExtents(it.key, obj, to);
    forall x: Item | from <= x.key ensures more(x) <==> x.key < end {
      InExtentsRange(x.key, obj, start, to);
    }
    p, e := Pos(s, from), Pos(s, end);
    VisitRange(s, from, end, more);
    PosSpec(s, end);
    if e < |s| {
      InExtentsRange(s[e].key, obj, start, to);
    }
  }

  predicate InExtents(k: Key, obj: nat, to: nat) {
    ObjOf(k) == obj && KindOf(k) == K_EXTENT && OffOf(k) < to
  }

  lemma InExtentsRange(k: Key, obj: nat, start: nat, to: nat)
    requires K(obj, K_EXTENT, start) <= k && start <= to < U64
    ensures InExtents(k, obj, to) <==> k < K(obj, K_EXTENT, to)
  {
    KeyRanges(k, obj, K_EXTENT);
    KeyMade(k);
  }

  /** Every piece of a file that has a byte of `from..to`, in order and none of them twice. */
  method Pieces(fs: Fs, obj: nat, from: nat, to: nat, ghost data: seq<int>)
      returns (r: Result<seq<Piece>>, ghost i0: nat, ghost i1: nat)
    requires fs.Valid([]) && Stores(fs.Content(), obj, data) && from <= to <= |data|
    requires (from == to ==> |data| <= INLINE_MAX)
    modifies fs`cache, fs`clock
    ensures fs.Valid([])
    ensures r.Err? ==> fs.Failed(r.error)
    ensures r.Ok? ==> Assembles(DataItems(fs.Content(), obj), obj, data, r.value, i0, i1, from, to)
  {
    i0, i1 := 0, 0;
    ghost var s := fs.Content();
    FindInline(s, obj, data);
    var inline := fs.GetItem(DataLo(obj), []);
    if inline.Err? {
      return Err(inline.error), i0, i1;
    }
    if inline.value.Some? && inline.value.value.Inl? {
      return Ok([InlinePiece(inline.value.value.bytes)]), i0, i1;
    }
    var start := if from < EXTENT_MAX - 1 then 0 else from - (EXTENT_MAX - 1);
    var seen := fs.Look(K(obj, K_EXTENT, start), (it: Item) => InExtents(it.key, obj, to), []);
    if seen.Err? {
      return Err(seen.error), i0, i1;
    }
    ghost var d, p;
    d, p, i1 := ScanTiles(s, obj, data, start, to, seen.value);
    i0 := SeenFrom(d, obj, data, from, to);
    var out := PickPieces(seen.value, obj, from, to, d, data, p, i0, i1);
    return Ok(out), i0, i1;
  }

  /** The first piece of interest is among those seen. */
  lemma SeenFrom(d: Items, obj: nat, data: seq<int>, from: nat, to: nat) returns (i0: nat)
    requires Tiles(d, obj, data) && Sorted(d) && BlocksIn(d) == DataBlocks(|data|) && from < to <= |data|
    ensures AllExts(d) && PastFrom(d, from, i0) && TileStart(d, i0) <= from
    ensures var e := Pos(d, K(obj, K_EXTENT, to));
            && Pos(d, K(obj, K_EXTENT, if from < EXTENT_MAX - 1 then 0 else from - (EXTENT_MAX - 1))) <= i0 <= e
            && to <= TileStart(d, e) && forall i :: 0 <= i < e ==> TileStart(d, i) < to
  {
    TilesExts(d, obj, data);
    i0 := FirstPast(d, obj, data, from);
    NoneMissed(d, obj, data, from, i0);
    PastStart(d, obj, data, from, i0);
    TilesTo(d, obj, data, to);
    ReachEnd(d, obj, data, i0, Pos(d, K(obj, K_EXTENT, to)), from, to);
  }

  lemma FindInline(s: Items, obj: nat, data: seq<int>)
    requires Stores(s, obj, data)
    ensures Find(s, DataLo(obj)) == if |data| <= INLINE_MAX then Some(Inl(data)) else None
  {
    var a, d, b := CutAtKeys(s, DataLo(obj), DataHi(obj));
    KeyInline(obj);
    if |data| <= INLINE_MAX {
      CutFirst(a, d, b, DataLo(obj), DataHi(obj));
    } else {
      if d != [] {
        assert TileAt(d, obj, data, 0);
        assert s[|a|] == d[0];
      }
      assert |a| < |s| ==> s[|a|].key != DataLo(obj);
    }
  }

  lemma ReachEnd(d: Items, obj: nat, data: seq<int>, i0: nat, i1: nat, from: nat, to: nat)
    requires Tiles(d, obj, data) && AllExts(d) && BlocksIn(d) == DataBlocks(|data|) && from < to <= |data|
    requires PastFrom(d, from, i0) && TileStart(d, i0) <= from && i1 <= |d|
    requires forall i :: 0 <= i < i1 ==> TileStart(d, i) < to
    requires i1 < |d| ==> to <= TileStart(d, i1)
    ensures i0 <= i1 && to <= TileStart(d, i1)
  {
    assert d[..|d|] == d;
    if i1 < |d| {
      TileNext(d, obj, data, i1);
      assert TileEnd(d, i1) > from;
    }
  }

  /** Of the extents a scan has seen, those that reach past `from`. */
  method PickPieces(seen: Items, obj: nat, from: nat, to: nat, ghost d: Items, ghost data: seq<int>, ghost p: nat,
                    ghost i0: nat, ghost i1: nat) returns (out: seq<Piece>)
    requires AllExts(d) && p <= i0 <= i1 <= |d| && PastFrom(d, from, i0) && Tiles(d, obj, data) && |data| < U64
    requires Seen(seen, d, p, i1, obj, to)
    requires forall i :: 0 <= i < i1 ==> TileStart(d, i) < to
    ensures out == PiecesOf(d[i0..i1])
  {
    out := [];
    assert PiecesOf(d[i0..i0]) == [];
    var j := 0;
    while j < |seen|
      invariant 0 <= j <= |seen|
      invariant var n := if p + j < i0 then i0 else if p + j < i1 then p + j else i1;
                out == PiecesOf(d[i0..n])
    {
      var it := seen[j];
      if p + j < i1 {
        assert it == seen[..i1 - p][j] == d[p + j];
        TileNext(d, obj, data, p + j);
        KeyParted(obj, K_EXTENT, TileStart(d, p + j));
        assert p + j < i0 <==> TileEnd(d, p + j) <= from;
        NextPiece(d, i0, p + j);
      }
      if InExtents(it.key, obj, to) && it.data.Ext? && OffOf(it.key) + it.data.length > from {
        out := out + [ExtentPiece(OffOf(it.key), it.data.length, it.data.bp)];
      }
      j := j + 1;
    }
  }

  lemma NextPiece(d: Items, i0: nat, n: nat)
    requires AllExts(d) && n < |d|
    ensures i0 <= n ==> PiecesOf(d[i0..n + 1]) == PiecesOf(d[i0..n]) + [PieceOf(d[n])]
  {
    if i0 <= n {
      assert d[i0..n + 1] == d[i0..n] + [d[n]];
    }
  }

  // --- Reading bytes ---

  /** Reads and checks an extent. */
  method ReadExtent(fs: Fs, bp: Bp) returns (r: Result<seq<int>>)
    ensures r.Ok? ==> r.value == Bytes(bp.sum)
    ensures r.Err? && BpOnDisk(fs.dev.cur, bp) && 1 <= bp.count <= EXTENT_BLOCKS ==> r.error == Io && fs.dev.flaky
  {
    if bp.count == 0 || bp.count > EXTENT_BLOCKS {
      return Err(Damaged);
    }
    var b :- fs.dev.Read(bp.block, bp.count);
    if b != bp.sum {
      return Err(Damaged);
    }
    return Ok(Bytes(b));
  }

  /** `dst` with bytes `from..to` of `src` copied over it at `at`. */
  method Copy(dst: seq<int>, at: nat, src: seq<int>, from: nat, to: nat) returns (out: seq<int>)
    requires from <= to <= |src| && at + (to - from) <= |dst|
    ensures |out| == |dst|
    ensures forall q {:trigger out[q]} :: 0 <= q < |dst| ==> out[q] == if at <= q < at + (to - from) then src[q - at + from] else dst[q]
  {
    out := dst[..at] + src[from..to] + dst[at + (to - from)..];
  }

  /** `out`, which starts at byte `offset` of `data`, is right up to byte `reach` and zero after. */
  ghost predicate RightTo(out: seq<int>, data: seq<int>, offset: nat, reach: nat) {
    offset + |out| <= |data| && forall q {:trigger out[q]} :: 0 <= q < |out| ==> out[q] == if offset + q < reach then data[offset + q] else 0
  }

  /** The slice of the file's bytes that starts at `offset` and is `room` long, or as much of it as there is. */
  method ReadAt(fs: Fs, obj: nat, size: nat, offset: nat, room: nat, ghost data: seq<int>) returns (r: Result<seq<int>>)
    requires fs.Valid([]) && Stores(fs.Content(), obj, data) && size == |data|
    modifies fs`cache, fs`clock
    ensures fs.Valid([])
    ensures r.Err? ==> fs.Failed(r.error)
    ensures r.Ok? ==> r.value == if offset >= size then [] else data[offset..if offset + room < size then offset + room else size]
  {
    if offset >= size || room == 0 {
      assert offset < size ==> data[offset..offset] == [];
      return Ok([]);
    }
    var want := if room < size - offset then room else size - offset;
    r := ReadSlice(fs, obj, offset, offset + want, data);
  }

  /** The bytes of a file from `offset` to `end`. */
  method ReadSlice(fs: Fs, obj: nat, offset: nat, end: nat, ghost data: seq<int>) returns (r: Result<seq<int>>)
    requires fs.Valid([]) && Stores(fs.Content(), obj, data) && offset < end <= |data|
    modifies fs`cache, fs`clock
    ensures fs.Valid([])
    ensures r.Err? ==> fs.Failed(r.error)
    ensures r.Ok? ==> r.value == data[offset..end]
  {
    var out := seq(end - offset, _ => 0);
    var pieces, i0, i1 := Pieces(fs, obj, offset, end, data);
    if pieces.Err? {
      return Err(pieces.error);
    }
    ghost var reaches := PiecesGood(fs, obj, data, pieces.value, i0, i1, offset, end);
    fs.ValidBacked([]);
    r := Assemble(fs, pieces.value, out, offset, end, data, reaches);
  }

  /** The piece can be read, and takes what is right of `offset..end` from `reach` on to `reach'`. */
  ghost predicate PieceGood(disk: seq<Block>, data: seq<int>, p: Piece, offset: nat, end: nat, reach: nat,
                            reach': nat) {
    var start, bytes := PieceStart(p), PieceData(p);
    && (p.ExtentPiece? ==> BpOnDisk(disk, p.bp) && 1 <= p.bp.count <= EXTENT_BLOCKS)
    && start + |bytes| <= |data| && bytes == data[start..start + |bytes|]
    && Extends(start, start + |bytes|, offset, end, reach, reach')
  }

  ghost predicate AllGood(disk: seq<Block>, data: seq<int>, ps: seq<Piece>, offset: nat, end: nat, reaches: seq<nat>) {
    && |reaches| == |ps| + 1 && reaches[0] <= offset && end <= reaches[|ps|]
    && forall j: nat {:trigger ps[j]} :: j < |ps| ==> PieceGood(disk, data, ps[j], offset, end, reaches[j], reaches[j + 1])
  }

  /** Lays the pieces over `zeros`. */
  method Assemble(fs: Fs, pieces: seq<Piece>, zeros: seq<int>, offset: nat, end: nat, ghost data: seq<int>,
                  ghost reaches: seq<nat>)
    returns (r: Result<seq<int>>)
    requires AllGood(fs.dev.cur, data, pieces, offset, end, reaches) && offset < end <= |data|
    requires |zeros| == end - offset && forall q :: 0 <= q < |zeros| ==> zeros[q] == 0
    ensures r.Err? ==> r.error == Io && fs.dev.flaky
    ensures r.Ok? ==> r.value == data[offset..end]
  {
    var out, j := zeros, 0;
    while j < |pieces|
      invariant 0 <= j <= |pieces| && |out| == end - offset
      invariant RightTo(out, data, offset, reaches[j])
    {
      var piece :- Fetch(fs, pieces[j]);
      out := Overlay(out, offset, end, piece.0, piece.1, data, reaches[j], reaches[j + 1]);
      j := j + 1;
    }
    assert out == data[offset..end];
    return Ok(out);
  }

  /** The pieces that make up `offset..end`: one inline, or some tiles in a row. */
  ghost predicate Assembles(d: Items, obj: nat, data: seq<int>, ps: seq<Piece>, i0: nat, i1: nat, offset: nat,
                            end: nat) {
    if |data| <= INLINE_MAX then ps == [InlinePiece(data)]
    else
      && Tiles(d, obj, data) && AllExts(d) && i0 <= i1 <= |d| && ps == PiecesOf(d[i0..i1])
      && TileStart(d, i0) <= offset && end <= TileStart(d, i1)
  }

  /** `out` with the overlap of a piece with `offset..end` copied in. */
  method Overlay(out: seq<int>, offset: nat, end: nat, start: nat, bytes: seq<int>, ghost data: seq<int>,
                 ghost reach: nat, ghost reach': nat)
    returns (out': seq<int>)
    requires |out| == end - offset && offset < end && RightTo(out, data, offset, reach) && start + |bytes| <= |data|
    requires bytes == data[start..start + |bytes|] && Extends(start, start + |bytes|, offset, end, reach, reach')
    ensures |out'| == |out| && RightTo(out', data, offset, reach')
  {
    out' := out;
    var lo := if start > offset then start else offset;
    var hi := if start + |bytes| < end then start + |bytes| else end;
    if hi > lo {
      out' := Copy(out, lo - offset, bytes, lo - start, hi - start);
    }
    RightNext(out, out', data, offset, start, bytes, reach, reach');
  }

  /** How far the first `j` pieces go. */
  ghost function Reach(d: Items, data: seq<int>, i0: nat, j: nat, offset: nat, end: nat): nat {
    if |data| <= INLINE_MAX then if j == 0 then offset else end
    else if i0 + j <= |d| then TileStart(d, i0 + j) else 0
  }

  /** Where a piece starts, and its bytes. */
  method Fetch(fs: Fs, p: Piece) returns (r: Result<(nat, seq<int>)>)
    ensures r.Ok? ==> r.value.0 == PieceStart(p) && r.value.1 == PieceData(p)
    ensures r.Err? && p.ExtentPiece? && BpOnDisk(fs.dev.cur, p.bp) && 1 <= p.bp.count <= EXTENT_BLOCKS ==> r.error == Io && fs.dev.flaky
    ensures p.InlinePiece? ==> r.Ok?
  {
    match p {
      case InlinePiece(all) => return Ok((0, all));
      case ExtentPiece(at, length, bp) =>
        var buf :- ReadExtent(fs, bp);
        return Ok((at, buf[..if length < |buf| then length else |buf|]));
    }
  }

  function PieceStart(p: Piece): nat { if p.InlinePiece? then 0 else p.offset }

  function PieceData(p: Piece): seq<int> {
    if p.InlinePiece? then p.bytes
    else
      var buf := Bytes(p.bp.sum);
      buf[..if p.length < |buf| then p.length else |buf|]
  }

  lemma RightNext(out: seq<int>, out': seq<int>, data: seq<int>, offset: nat, start: nat, bytes: seq<int>, reach: nat,
                  reach': nat)
    requires RightTo(out, data, offset, reach) && |out'| == |out| && start + |bytes| <= |data|
    requires bytes == data[start..start + |bytes|]
    requires Extends(start, start + |bytes|, offset, offset + |out|, reach, reach')
    requires forall q {:trigger out'[q]} :: 0 <= q < |out| ==>
      out'[q] == if start <= offset + q < start + |bytes| then bytes[offset + q - start] else out[q]
    ensures RightTo(out', data, offset, reach')
  {
  }

  /** Bytes `start..stop` take what is right of `offset..end` from `reach` on to `reach'`. */
  predicate Extends(start: nat, stop: nat, offset: nat, end: nat, reach: nat, reach': nat) {
    && reach <= reach' && (start <= reach || start <= offset)
    && (stop >= reach' || stop >= end) && (stop <= reach' || end <= reach')
  }

  /** The pieces found for a range of a file make it up. */
  lemma PiecesGood(fs: Fs, obj: nat, data: seq<int>, ps: seq<Piece>, i0: nat, i1: nat, offset: nat, end: nat)
      returns (reaches: seq<nat>)
    requires fs.Valid([]) && Stores(fs.Content(), obj, data)
    requires offset < end <= |data| && Assembles(DataItems(fs.Content(), obj), obj, data, ps, i0, i1, offset, end)
    ensures AllGood(fs.dev.cur, data, ps, offset, end, reaches)
  {
    fs.ToMid([]);
    reaches := AllPiecesGood(fs.Content(), fs.dev.cur, fs.sb, obj, data, ps, i0, i1, offset, end);
  }

  lemma AllPiecesGood(s: Items, disk: seq<Block>, n: Super, obj: nat, data: seq<int>, ps: seq<Piece>, i0: nat, i1: nat,
                      offset: nat, end: nat) returns (reaches: seq<nat>)
    requires DataOk(s, disk, n) && Stores(s, obj, data)
    requires offset < end <= |data| && Assembles(DataItems(s, obj), obj, data, ps, i0, i1, offset, end)
    ensures AllGood(disk, data, ps, offset, end, reaches)
  {
    var d := DataItems(s, obj);
    EndsReached(s, disk, n, obj, data, ps, i0, i1, offset, end);
    forall j: nat | j < |ps| ensures PieceReaches(disk, data, ps, d, i0, j, offset, end) {
      PieceSays(s, disk, n, obj, data, ps, i0, i1, j, offset, end);
    }
    reaches := Reaches(disk, data, ps, d, i0, offset, end);
  }

  ghost predicate PieceReaches(disk: seq<Block>, data: seq<int>, ps: seq<Piece>, d: Items, i0: nat, j: nat, offset: nat,
                               end: nat)
    requires j < |ps|
  {
    PieceGood(disk, data, ps[j], offset, end, Reach(d, data, i0, j, offset, end), Reach(d, data, i0, j + 1, offset, end))
  }

  lemma Reaches(disk: seq<Block>, data: seq<int>, ps: seq<Piece>, d: Items, i0: nat, offset: nat, end: nat)
      returns (reaches: seq<nat>)
    requires forall j: nat {:trigger PieceReaches(disk, data, ps, d, i0, j, offset, end)} :: j < |ps| ==>
               PieceReaches(disk, data, ps, d, i0, j, offset, end)
    requires Reach(d, data, i0, 0, offset, end) <= offset && end <= Reach(d, data, i0, |ps|, offset, end)
    ensures AllGood(disk, data, ps, offset, end, reaches)
  {
    reaches := seq(|ps| + 1, j requires 0 <= j => Reach(d, data, i0, j, offset, end));
    forall j: nat | j < |ps| ensures PieceGood(disk, data, ps[j], offset, end, reaches[j], reaches[j + 1]) {
      assert PieceReaches(disk, data, ps, d, i0, j, offset, end);
    }
  }

  lemma EndsReached(s: Items, disk: seq<Block>, n: Super, obj: nat, data: seq<int>, ps: seq<Piece>, i0: nat, i1: nat,
                    offset: nat, end: nat)
    requires DataOk(s, disk, n) && Stores(s, obj, data)
    requires offset < end <= |data| && Assembles(DataItems(s, obj), obj, data, ps, i0, i1, offset, end)
    ensures Reach(DataItems(s, obj), data, i0, 0, offset, end) <= offset
    ensures end <= Reach(DataItems(s, obj), data, i0, |ps|, offset, end)
  {
  }

  lemma PieceSays(s: Items, disk: seq<Block>, n: Super, obj: nat, data: seq<int>, ps: seq<Piece>, i0: nat, i1: nat,
                  j: nat, offset: nat, end: nat)
    requires DataOk(s, disk, n) && Stores(s, obj, data) && j < |ps|
    requires offset < end <= |data| && Assembles(DataItems(s, obj), obj, data, ps, i0, i1, offset, end)
    ensures PieceGood(disk, data, ps[j], offset, end, Reach(DataItems(s, obj), data, i0, j, offset, end), Reach(DataItems(s, obj), data, i0, j + 1, offset, end))
  {
    if |data| > INLINE_MAX {
      TileOnDisk(s, disk, n, obj, data, i0 + j);
      TileSays(DataItems(s, obj), disk, obj, data, ps, i0, i1, j, offset, end);
    } else {
      assert data == data[0..|data|];
    }
  }

  lemma TileSays(d: Items, disk: seq<Block>, obj: nat, data: seq<int>, ps: seq<Piece>, i0: nat, i1: nat, j: nat,
                 offset: nat, end: nat)
    requires Tiles(d, obj, data) && AllExts(d) && i0 <= i1 <= |d| && ps == PiecesOf(d[i0..i1]) && j < |ps|
    requires offset < end <= |data| < U64
    requires BpOnDisk(disk, d[i0 + j].data.bp) && 1 <= d[i0 + j].data.bp.count <= EXTENT_BLOCKS
    ensures PieceGood(disk, data, ps[j], offset, end, TileStart(d, i0 + j), TileStart(d, i0 + j + 1))
  {
    PieceBytes(d, obj, data, i0, i1, j, PieceData(ps[j]));
    TileNext(d, obj, data, i0 + j);
  }

  lemma TileOnDisk(s: Items, disk: seq<Block>, n: Super, obj: nat, data: seq<int>, i: nat)
    requires DataOk(s, disk, n) && i < |DataItems(s, obj)| && Tiles(DataItems(s, obj), obj, data)
    ensures var x := DataItems(s, obj)[i]; x.data.Ext? && BpOnDisk(disk, x.data.bp) && 1 <= x.data.bp.count <= EXTENT_BLOCKS
  {
    assert TileAt(DataItems(s, obj), obj, data, i);
    assert DataItems(s, obj)[i] == s[Pos(s, DataLo(obj)) + i];
  }

  lemma PieceBytes(d: Items, obj: nat, data: seq<int>, i0: nat, i1: nat, j: nat, bytes: seq<int>)
    requires Tiles(d, obj, data) && AllExts(d) && i0 <= i1 <= |d| && j < i1 - i0 && |data| < U64
    requires var x := d[i0 + j]; var buf := Bytes(x.data.bp.sum);
             bytes == buf[..if x.data.length < |buf| then x.data.length else |buf|]
    ensures PiecesOf(d[i0..i1])[j].offset == TileStart(d, i0 + j)
    ensures |bytes| == d[i0 + j].data.length
    ensures TileStart(d, i0 + j) + |bytes| == if TileStart(d, i0 + j + 1) <= |data| then TileStart(d, i0 + j + 1) else |data|
    ensures bytes == data[TileStart(d, i0 + j)..TileStart(d, i0 + j) + |bytes|]
  {
    var i := i0 + j;
    TileNext(d, obj, data, i);
    TileBytes(d, obj, data, i);
    KeyParted(obj, K_EXTENT, TileStart(d, i));
  }

  // --- Reading a whole file ---

  /** The piece can be read, and gives the bytes from `reach` up to `reach'`, within a buffer of
      `room` bytes. */
  ghost predicate WholeGood(disk: seq<Block>, data: seq<int>, p: Piece, reach: nat, reach': nat, room: nat) {
    match p
    case InlinePiece(bytes) => bytes == data && reach == 0 && |data| <= reach' && |data| <= room
    case ExtentPiece(offset, _, bp) =>
      && BpOnDisk(disk, bp) && 1 <= bp.count <= EXTENT_BLOCKS && offset == reach
      && |Bytes(bp.sum)| == bp.count * BLOCK && reach' == reach + bp.count * BLOCK <= room
      && forall q :: 0 <= q < bp.count * BLOCK && reach + q < |data| ==> Bytes(bp.sum)[q] == data[reach + q]
  }

  ghost predicate AllWhole(disk: seq<Block>, data: seq<int>, ps: seq<Piece>, reaches: seq<nat>, room: nat) {
    && |reaches| == |ps| + 1 && reaches[0] == 0 && |data| <= reaches[|ps|]
    && forall j: nat {:trigger ps[j]} :: j < |ps| ==> WholeGood(disk, data, ps[j], reaches[j], reaches[j + 1], room)
  }

  lemma WholeSays(s: Items, disk: seq<Block>, n: Super, obj: nat, data: seq<int>, ps: seq<Piece>, i0: nat, i1: nat,
                  j: nat)
    requires DataOk(s, disk, n) && Stores(s, obj, data) && j < |ps|
    requires Assembles(DataItems(s, obj), obj, data, ps, i0, i1, 0, |data|) && (|data| > INLINE_MAX ==> i0 == 0)
    ensures WholeGood(disk, data, ps[j], Reach(DataItems(s, obj), data, i0, j, 0, |data|), Reach(DataItems(s, obj), data, i0, j + 1, 0, |data|), DataBlocks(|data|) * BLOCK)
  {
    if |data| > INLINE_MAX {
      TileOnDisk(s, disk, n, obj, data, j);
      WholeTile(DataItems(s, obj), disk, obj, data, ps, i1, j);
    }
  }

  lemma WholeTile(d: Items, disk: seq<Block>, obj: nat, data: seq<int>, ps: seq<Piece>, i1: nat, j: nat)
    requires Tiles(d, obj, data) && BlocksIn(d) == DataBlocks(|data|) && |data| < U64
    requires i1 <= |d| && AllExts(d) && ps == PiecesOf(d[..i1]) && j < |ps|
    requires BpOnDisk(disk, d[j].data.bp) && 1 <= d[j].data.bp.count <= EXTENT_BLOCKS
    ensures WholeGood(disk, data, ps[j], TileStart(d, j), TileStart(d, j + 1), DataBlocks(|data|) * BLOCK)
  {
    TileBytes(d, obj, data, j);
    TileNext(d, obj, data, j);
    KeyParted(obj, K_EXTENT, TileStart(d, j));
    BlocksOrder(d, j + 1, |d|);
    assert d[..|d|] == d;
    TileTail(d, obj, data, j);
  }

  lemma TileTail(d: Items, obj: nat, data: seq<int>, j: nat)
    requires Tiles(d, obj, data) && j < |d| && d[j].data.Ext?
    ensures var bytes := Bytes(d[j].data.bp.sum);
            |bytes| == d[j].data.bp.count * BLOCK
            && forall q :: 0 <= q < |bytes| && TileStart(d, j) + q < |data| ==> bytes[q] == data[TileStart(d, j) + q]
  {
    assert TileAt(d, obj, data, j);
    BytesAt(data, BlocksIn(d[..j]), d[j].data.bp.count);
  }

  lemma FromStart(d: Items, obj: nat, data: seq<int>, i: nat)
    requires Tiles(d, obj, data) && i <= |d|
    ensures TileStart(d, 0) == 0 && (TileStart(d, i) == 0 ==> i == 0)
  {
    assert d[..0] == [];
    if i > 0 {
      TileNext(d, obj, data, 0);
      BlocksOrder(d, 1, i);
    }
  }

  lemma AllWholeGood(s: Items, disk: seq<Block>, n: Super, obj: nat, data: seq<int>, ps: seq<Piece>, i0: nat, i1: nat)
      returns (reaches: seq<nat>)
    requires DataOk(s, disk, n) && Stores(s, obj, data)
    requires Assembles(DataItems(s, obj), obj, data, ps, i0, i1, 0, |data|)
    ensures AllWhole(disk, data, ps, reaches, DataBlocks(|data|) * BLOCK)
  {
    if |data| > INLINE_MAX {
      FromStart(DataItems(s, obj), obj, data, i0);
    }
    reaches := seq(|ps| + 1, j requires 0 <= j => Reach(DataItems(s, obj), data, i0, j, 0, |data|));
    forall j: nat | j < |ps| ensures WholeGood(disk, data, ps[j], reaches[j], reaches[j + 1], DataBlocks(|data|) * BLOCK) {
      WholeSays(s, disk, n, obj, data, ps, i0, i1, j);
    }
  }

  /** Object `obj`'s whole contents, `size` bytes. */
  method ReadObject(fs: Fs, obj: nat, size: nat, ghost data: seq<int>) returns (r: Result<seq<int>>)
    requires fs.Valid([]) && Stores(fs.Content(), obj, data) && size == |data|
    modifies fs`cache, fs`clock
    ensures fs.Valid([])
    ensures r.Err? ==> fs.Failed(r.error)
    ensures r.Ok? ==> r.value == data
  {
    var pieces, i0, i1 := Pieces(fs, obj, 0, size, data);
    if pieces.Err? {
      return Err(pieces.error);
    }
    fs.ToMid([]);
    ghost var reaches := AllWholeGood(fs.Content(), fs.dev.cur, fs.sb, obj, data, pieces.value, i0, i1);
    r := FillBuffer(fs, pieces.value, size, data, reaches);
  }

  method FillBuffer(fs: Fs, pieces: seq<Piece>, size: nat, ghost data: seq<int>, ghost reaches: seq<nat>)
      returns (r: Result<seq<int>>)
    requires AllWhole(fs.dev.cur, data, pieces, reaches, DataBlocks(|data|) * BLOCK) && size == |data|
    ensures r.Err? ==> r.error == Io && fs.dev.flaky
    ensures r.Ok? ==> r.value == data
  {
    // The buffer is as long as the blocks that cover the file.
    var rounded := DataBlocks(size) * BLOCK;
    var out := seq(rounded, _ => 0);
    var j := 0;
    while j < |pieces|
      invariant 0 <= j <= |pieces| && |out| == rounded
      invariant forall q {:trigger out[q]} :: 0 <= q < |data| && q < reaches[j] ==> out[q] == data[q]
    {
      match pieces[j] {
        case InlinePiece(bytes) =>
          out := Copy(out, 0, bytes, 0, if |bytes| < size then |bytes| else size);
        case ExtentPiece(offset, _, bp) =>
          if offset + bp.count * BLOCK > rounded {
            return Err(Damaged);
          }
          var buf :- ReadExtent(fs, bp);
          out := Copy(out, offset, buf, 0, |buf|);
      }
      j := j + 1;
    }
    assert out[..size] == data;
    return Ok(out[..size]);
  }
}
