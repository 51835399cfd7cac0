/** A mounted KonjacFS volume. */
module Kfs {
  import opened Wrappers
  import opened KfsTypes
  import opened KfsItems
  import opened KfsTree
  import opened KfsState
  import opened KfsSpace
  import opened KfsDisk
  import opened KfsEdit
  import opened KfsBalance
  import opened KfsWrite
  import opened KfsBitmap
  import opened KfsCommit
  import opened KfsBooks

  const CACHE_SLOTS: nat := 256
  const MAX_DEPTH: nat := 16
  /** The most nodes that setting or removing `n` items can put in memory: each at most `3 * MAX_DEPTH + 1`. */
  function Copies(n: nat): nat { 49 * n }

  /** The most blocks a commit writes with so many nodes in memory. */
  function CommitCost(nodes: nat, total: nat): nat { nodes + MapCost(Bitmaps(total)) }

  /** What an operation has to go on with: the blocks it can have, and how many nodes it has in memory. */
  datatype Means = Means(room: nat, nodes: nat)

  /** After at most `n` changes of items, which take no blocks. */
  predicate Spent(was: Means, now: Means, n: nat) {
    now.room >= was.room && now.nodes <= was.nodes + Copies(n)
  }

  /** A cached tree node: where it was, what it must hash to, when it was last used. */
  datatype CacheSlot = CacheSlot(block: nat, sum: seq<Block>, last: nat, data: Block)

  /** Every cached node hashes to the checksum it is filed under. */
  ghost predicate CacheOk(cache: seq<CacheSlot>) {
    forall i {:trigger cache[i]} :: 0 <= i < |cache| ==> [cache[i].data] == cache[i].sum && cache[i].data.NodeB?
  }

  class Fs {
    const dev: Disk
    ghost const kept: Promise
    /** The newest committed superblock. */
    var sb: Super
    var total: nat
    var txg: nat
    var next: nat

    // Free space.
    /** One flag per block: whether the next committed state will have it. */
    var bits: seq<bool>
    /** One flag per block: whether the last committed state has it though the next one will not. */
    var held: seq<bool>
    /** A pointer for every block of the bitmap; the flags beside it say whose bits differ from the disk. */
    var bitmap: seq<Bp>
    var bitmapDirty: seq<bool>
    /** The bitmap index's nodes. */
    var index: seq<Bp>
    /** Allocation goes forward from here. */
    var cursor: nat

    // The tree-node cache.
    var cache: seq<CacheSlot>
    var clock: nat

    // The operation in progress.
    var root: Child
    var nodes: Arena
    var dirty: bool

    /** The volume described by superblock `s`, before its bitmap is loaded. */
    constructor (disk: Disk, s: Super, ghost p: Promise)
      ensures dev == disk && kept == p && sb == s && total == s.total && txg == s.txg && next == s.next
      ensures root == Child.Disk(s.root) && nodes == [] && !dirty && cursor == DATA_START && CacheOk(cache)
      ensures cache == []
    {
      kept := p;
      dev, sb, total, txg, next := disk, s, s.total, s.txg, s.next;
      bits, held, bitmap, bitmapDirty, index := [], [], [], [], [];
      cursor := DATA_START;
      cache, clock := [], 0;
      root, nodes, dirty := Child.Disk(s.root), [], false;
    }

    // --- Free space ---

    ghost predicate Space()
      reads this
    {
      SpaceOk(bits, held, bitmapDirty, total)
    }

    method SetUsed(start: nat, count: nat)
      requires Space() && start + count <= total
      modifies this`bits, this`bitmapDirty, this`cursor
      ensures Filled(old(bits), bits, start, start + count, true)
      ensures Dirtied(old(bitmapDirty), bitmapDirty, start, start + count)
      ensures cursor == start + count
    {
      var b := start;
      while b < start + count
        invariant start <= b <= start + count
        invariant Filled(old(bits), bits, start, b, true)
        invariant Dirtied(old(bitmapDirty), bitmapDirty, start, b)
      {
        bits := bits[b := true];
        bitmapDirty := bitmapDirty[b / BITS_PER_BITMAP := true];
        b := b + 1;
      }
      cursor := start + count;
    }

    /** The first run of `want` allocatable blocks inside `lo..hi`, if there is one, as a search block by block
        would find it; otherwise the longest run among these and those `best` stands for. Words without a clear
        bit are stepped over whole. */
    method FindIn(lo: nat, hi: nat, want: nat, best: Option<(nat, nat)>)
      returns (hit: bool, r: Option<(nat, nat)>)
      requires Space() && DATA_START <= lo && hi <= total
      requires best.Some? ==> RunFound(bits, held, total, best.value, want)
      ensures r.Some? ==> RunFound(bits, held, total, r.value, want)
      ensures hit ==> r.Some? && r.value.1 == want
      ensures hit ==> lo <= r.value.0 && r.value.0 + want <= hi && NoRun(bits, held, lo, r.value.0 + want - 1, want)
      ensures !hit ==> NoRun(bits, held, lo, hi, RunLength(r) + 1) && RunLength(best) <= RunLength(r)
      ensures !hit ==> Missed(bits, held, lo, hi, want) && (RunLength(best) < want ==> RunLength(r) < want)
    {
      r := best;
      LookedNone(bits, held, lo, RunLength(r), want);
      var start, len, b := lo, 0, lo;
      while b < hi
        invariant lo <= b && (lo <= hi ==> b <= hi)
        invariant len > 0 ==> start + len == b
        invariant want > 0 ==> len < want
        invariant r.Some? ==> RunFound(bits, held, total, r.value, want)
        invariant RunLength(best) <= RunLength(r) && (RunLength(best) < want ==> RunLength(r) < want)
        invariant Looked(bits, held, lo, b, len, RunLength(r), want)
      {
        if b % WORD == 0 && b + WORD <= hi && WordFull(b) {
          LookedUsed(bits, held, lo, b, b + WORD, len, RunLength(r), want);
          len := 0;
          b := b + WORD;
          continue;
        }
        if IsFree(bits, held, b) {
          LookedFree(bits, held, lo, b, len, RunLength(r), want);
          if len == 0 {
            start := b;
          }
          len := len + 1;
          if len == want {
            return true, Some((start, len));
          }
          if r.None? || len > r.value.1 {
            r := Some((start, len));
          }
        } else {
          LookedUsed(bits, held, lo, b, b + 1, len, RunLength(r), want);
          len := 0;
        }
        b := b + 1;
      }
      assert Open(SearchSeal, 0);
      hit := false;
    }

    /** The word of 64 bits at `b` has every block used or held. */
    predicate WordFull(b: nat)
      requires |bits| == |held| && b + WORD <= |bits|
      reads this
    {
      forall i :: b <= i < b + WORD ==> bits[i] || held[i]
    }

    function Clamped(): nat
      reads this
    {
      if cursor < DATA_START then DATA_START else if cursor > total then total else cursor
    }

    /** A run inside the volume, all of it allocatable, of at most `want` blocks. One of `want` blocks is the first
        behind the cursor, or when there is none there the first before it; a shorter one is given only when neither
        part has a longer one. */
    method FindRun(want: nat) returns (r: Option<(nat, nat)>)
      requires Space()
      ensures r.Some? ==> RunFound(bits, held, total, r.value, want)
      ensures r.None? ==> forall b :: DATA_START <= b < total ==> !IsFree(bits, held, b)
      ensures r.Some? ==> Best(bits, held, Clamped(), total, r.value, want)
    {
      var c := Clamped();
      var hit;
      hit, r := FindIn(c, total, want, None);
      if hit {
        return;
      }
      var first := r;
      hit, r := FindIn(DATA_START, c, want, r);
      if !hit {
        NoRunWeaken(bits, held, c, total, RunLength(first) + 1, RunLength(r) + 1);
        if r.None? {
          forall b | DATA_START <= b < total ensures !IsFree(bits, held, b) {
            assert FreeRun(bits, held, b, 1) <==> IsFree(bits, held, b);
          }
        }
      }
    }

    ghost function Spare(): nat
      reads this
    {
      SpareIn(Spc(), total)
    }

    /** Marks one run of `count` blocks used, or fails and changes nothing. */
    method Alloc(count: nat) returns (r: Result<nat>)
      requires Space() && count > 0
      modifies this`bits, this`bitmapDirty, this`cursor
      ensures r.Ok? ==>
        && DATA_START <= r.value && r.value + count <= total
        && FreeRun(old(bits), held, r.value, count)
        && Filled(old(bits), bits, r.value, r.value + count, true)
        && Dirtied(old(bitmapDirty), bitmapDirty, r.value, r.value + count)
      ensures r.Ok? ==> |old(bits)| == |held| && FirstRun(old(bits), held, old(Clamped()), total, r.value, count)
      ensures r.Ok? && count == 1 ==> !Guarded(old(Spc()), r.value) && Spc() == TakeOne(old(Spc()), r.value) && Space()
      ensures r.Err? ==>
        && r.error == Full && bits == old(bits) && bitmapDirty == old(bitmapDirty)
        && NoRun(bits, held, old(Clamped()), total, count) && NoRun(bits, held, DATA_START, old(Clamped()), count)
        && (count == 1 ==> forall b :: DATA_START <= b < total ==> !IsFree(bits, held, b))
      ensures count == 1 ==> if r.Ok? then Spare() == old(Spare()) - 1 else old(Spare()) == 0
    {
      var run := FindRun(count);
      assert Open(SearchSeal, 0);
      match run {
        case Some((start, len)) =>
          if len == count {
            SetUsed(start, count);
            if count == 1 {
              assert IsFree(old(bits), held, start);
              TookOne(old(Spc()), Spc(), start, total);
              SpareTakeOne(old(Spc()), start, total);
            }
            return Ok(start);
          }
          NoRunWeaken(bits, held, Clamped(), total, len + 1, count);
          NoRunWeaken(bits, held, DATA_START, Clamped(), len + 1, count);
          return Err(Full);
        case None =>
          forall s: nat | DATA_START <= s && s + count <= total ensures !FreeRun(bits, held, s, count) {
            assert !IsFree(bits, held, s);
          }
          NoneSpare(Spc(), total);
          return Err(Full);
      }
    }

    /** The run's blocks are no longer used. They become held if the pointer is of the committed state, and
        allocatable otherwise; every other block keeps its state. */
    method Free(bp: Bp)
      requires Space()
      modifies this`bits, this`held, this`bitmapDirty
      ensures Filled(old(bits), bits, bp.block, FreeEnd(bp, total), false)
      ensures if bp.birth <= txg then Filled(old(held), held, bp.block, FreeEnd(bp, total), true) else held == old(held)
      ensures Dirtied(old(bitmapDirty), bitmapDirty, bp.block, FreeEnd(bp, total))
      ensures bp.count == 1 && DATA_START <= bp.block < total && bp.birth <= txg ==> Spc() == FreeOne(old(Spc()), bp.block)
      ensures Space()
    {
      var deferred := bp.birth <= txg;
      var b := bp.block;
      while b < bp.block + bp.count
        invariant bp.block <= b <= bp.block + bp.count
        invariant b == bp.block || b <= FreeEnd(bp, total)
        invariant |bits| == |held| == |old(bits)|
        invariant Filled(old(bits), bits, bp.block, b, false)
        invariant if deferred then Filled(old(held), held, bp.block, b, true) else held == old(held)
        invariant Dirtied(old(bitmapDirty), bitmapDirty, bp.block, b)
      {
        if b < DATA_START || b >= total {
          break;
        }
        bits := bits[b := false];
        if deferred {
          held := held[b := true];
        }
        bitmapDirty := bitmapDirty[b / BITS_PER_BITMAP := true];
        b := b + 1;
      }
      if bp.count == 1 && DATA_START <= bp.block < total && deferred {
        FreedOne(old(Spc()), Spc(), bp.block, total);
      }
    }

    /** How many blocks `Alloc` could still hand out. */
    method Available() returns (n: nat)
      requires Space()
      ensures n == FreeCount(bits, held, total)
    {
      var used, b := 0, 0;
      while b < |bits|
        invariant 0 <= b <= |bits|
        invariant used == b - FreeCount(bits, held, b) >= 0
        invariant b > total ==> FreeCount(bits, held, b) == FreeCount(bits, held, total)
      {
        if bits[b] || held[b] {
          used := used + 1;
        }
        b := b + 1;
      }
      n := total - (used - (|bits| - total));
    }

    method FreeBlocks() returns (n: nat)
      requires Space()
      ensures n == Zeros(bits)
    {
      var used, b := 0, 0;
      while b < |bits|
        invariant 0 <= b <= |bits|
        invariant used == b - Zeros(bits[..b]) >= 0
        invariant b >= total ==> used >= b - total
      {
        assert bits[..b + 1][..b] == bits[..b];
        if bits[b] {
          used := used + 1;
        }
        b := b + 1;
      }
      assert bits[..|bits|] == bits;
      n := total - (used - (|bits| - total));
    }

    ghost function Spc(): Spc
      reads this
    {
      KfsSpace.Spc.Spc(bits, held, bitmapDirty)
    }

    // --- Tree ---

    ghost function W(): World
      reads this, dev
    {
      World(nodes, dev.cur, txg)
    }

    method CacheGet(bp: Bp) returns (r: Option<Block>)
      requires CacheOk(cache)
      modifies this`cache, this`clock
      ensures CacheOk(cache)
      ensures r.Some? ==> [r.value] == bp.sum && r.value.NodeB? && old(cache) != []
    {
      clock := clock + 1;
      var i := 0;
      while i < |cache|
        invariant 0 <= i <= |cache|
      {
        if cache[i].block == bp.block && cache[i].sum == bp.sum {
          r := Some(cache[i].data);
          cache := cache[i := cache[i].(last := clock)];
          return;
        }
        i := i + 1;
      }
      r := None;
    }

    /** Caches a node, in place of the least recently used one if there is no room. */
    method CachePut(block: nat, data: Block)
      requires CacheOk(cache) && data.NodeB?
      modifies this`cache
      ensures CacheOk(cache)
    {
      var slot := CacheSlot(block, [data], clock, data);
      if |cache| < CACHE_SLOTS {
        cache := cache + [slot];
      } else {
        var oldest, i := 0, 1;
        while i < |cache|
          invariant 0 <= oldest < |cache|
        {
          if cache[i].last < cache[oldest].last {
            oldest := i;
          }
          i := i + 1;
        }
        cache := cache[oldest := slot];
      }
    }

    /** Succeeds only with the very block the pointer was made for, whether the cache or the disk supplied it. */
    method LoadNode(bp: Bp) returns (r: Result<Block>)
      requires CacheOk(cache)
      modifies this`cache, this`clock
      ensures CacheOk(cache)
      ensures r.Ok? ==> [r.value] == bp.sum && r.value.NodeB?
      ensures r.Ok? && old(cache) == [] ==> Matches(dev.cur, bp)
      ensures r.Err? && r.error == Io ==> dev.flaky || |dev.cur| <= bp.block
      ensures r.Err? && r.error != Io ==>
        r.error == Damaged && bp.block < |dev.cur| && !([dev.cur[bp.block]] == bp.sum && dev.cur[bp.block].NodeB?)
    {
      var hit := CacheGet(bp);
      if hit.Some? {
        return Ok(hit.value);
      }
      var b :- dev.Read(bp.block, 1);
      assert b == [dev.cur[bp.block]];
      if b != bp.sum {
        return Err(Damaged);
      }
      if !b[0].NodeB? {
        return Err(Damaged);
      }
      CachePut(bp.block, b[0]);
      return Ok(b[0]);
    }

    /** A slot in memory that holds the same node as `c`. For a node that was on disk this is a new slot, and one
        block moves from used to held; the meaning of every other child stays what it was. */
    method Own(c: Child) returns (r: Result<nat>)
      requires Space() && CacheOk(cache) && ChildOk(W(), c)
      requires c.Disk? ==> DATA_START <= c.bp.block < total && bits[c.bp.block]
      modifies this`nodes, this`bits, this`held, this`bitmapDirty, this`cache, this`clock
      ensures CacheOk(cache) && (r.Err? ==> r.error == Io && dev.flaky)
      ensures r.Ok? ==>
        CopiedTo(old(nodes), nodes, c, r.value, |old(nodes)|) && Released(old(Spc()), Spc(), c, total)
    {
      match c {
        case Mem(i) =>
          StepNone(Spc(), total);
          return Ok(i);
        case Disk(bp) =>
          var raw :- LoadNode(bp);
          Free(bp);
          StepOne(old(Spc()), bp.block, total);
          nodes := nodes + [FromBlock(raw)];
          return Ok(|nodes| - 1);
      }
    }

    /** Afterwards node `i` and the nodes in `extra` each fit a block, and their items put end to end are those
        the node had. */
    method Split(i: nat, ghost l: nat, ghost lo: Key, ghost hi: Key) returns (extra: seq<Entry>)
      requires Loose(W(), i, l, lo, hi)
      modifies this`nodes
      ensures RunShape(W(), [Entry(lo, Mem(i))] + extra, l, lo, hi)
      ensures SplitInto(old(nodes), nodes, i, [Entry(lo, Mem(i))] + extra, l)
      ensures |extra| <= 2 && (l > 0 ==> |extra| <= 1) && |nodes| == |old(nodes)| + |extra|
      ensures NodeSize(old(nodes[i])) <= BLOCK ==> extra == [] && nodes == old(nodes)
      ensures NodeSize(old(nodes[i])) > BLOCK ==> DividedEvenly(old(nodes[i]), KidNodes(nodes, Node(l + 1, [], [Entry(lo, Mem(i))] + extra)))
    {
      if NodeSize(nodes[i]) <= BLOCK {
        extra := [];
        NotSplit(W(), i, l, lo, hi);
        assert [Entry(lo, Mem(i))] + extra == [Entry(lo, Mem(i))];
        return;
      }
      var level := nodes[i].level;
      if level == 0 {
        extra := SplitLeaf(i, lo, hi);
      } else {
        extra := SplitInterior(i, l - 1, lo, hi);
      }
    }

    method SplitInterior(i: nat, ghost l: nat, ghost lo: Key, ghost hi: Key) returns (extra: seq<Entry>)
      requires Loose(W(), i, l + 1, lo, hi) && |nodes[i].kids| > MAX_KIDS
      modifies this`nodes
      ensures RunShape(W(), [Entry(lo, Mem(i))] + extra, l + 1, lo, hi)
      ensures SplitInto(old(nodes), nodes, i, [Entry(lo, Mem(i))] + extra, l + 1)
      ensures |extra| == 1 && |nodes| == |old(nodes)| + 1
      ensures DividedEvenly(old(nodes[i]), KidNodes(nodes, Node(l + 2, [], [Entry(lo, Mem(i))] + extra)))
    {
      var level, kids := nodes[i].level, nodes[i].kids;
      var h := (|kids| + 1) / 2;
      nodes := nodes[i := Node(level, [], kids[..h])] + [Node(level, [], kids[h..])];
      extra := [Entry(kids[h].key, Mem(|nodes| - 1))];
      InteriorSplit(old(W()), W(), i, h, l, lo, hi);
      assert [Entry(lo, Mem(i))] + extra == [Entry(lo, Mem(i)), extra[0]];
    }

    method SplitLeaf(i: nat, ghost lo: Key, ghost hi: Key) returns (extra: seq<Entry>)
      requires Loose(W(), i, 0, lo, hi) && Payload(nodes[i].items) > ROOM
      modifies this`nodes
      ensures RunShape(W(), [Entry(lo, Mem(i))] + extra, 0, lo, hi)
      ensures SplitInto(old(nodes), nodes, i, [Entry(lo, Mem(i))] + extra, 0)
      ensures |extra| <= 2 && |nodes| == |old(nodes)| + |extra|
      ensures DividedEvenly(old(nodes[i]), KidNodes(nodes, Node(1, [], [Entry(lo, Mem(i))] + extra)))
    {
      var parts := PartItems(nodes[i].items);
      extra := PutParts(i, parts, lo);
      ghost var g := [Entry(lo, Mem(i))] + extra;
      LeafSplit(old(W()), W(), i, parts, g, lo, hi);
      LeavesHold(nodes, i, |old(nodes)|, parts, g, lo);
    }

    /** Puts the first part in node `i` and each other part in a new leaf. */
    method PutParts(i: nat, parts: seq<Items>, ghost lo: Key) returns (extra: seq<Entry>)
      requires i < |nodes| && parts != [] && Fitting(parts)
      modifies this`nodes
      ensures |extra| == |parts| - 1 && |nodes| == |old(nodes)| + |extra| && Grown(old(nodes), nodes, i)
      ensures nodes[i] == Node(0, parts[0], [])
      ensures var g := [Entry(lo, Mem(i))] + extra;
              forall t {:trigger g[t]} :: 1 <= t < |g| ==> g[t] == NewLeaf(parts, |old(nodes)|, t)
      ensures forall t {:trigger parts[t]} :: 1 <= t < |parts| ==> nodes[|old(nodes)| + t - 1] == Node(0, parts[t], [])
    {
      ghost var n := |nodes|;
      nodes := nodes[i := Node(0, parts[0], [])];
      extra := [];
      var j := 1;
      while j < |parts|
        invariant 1 <= j <= |parts| && |extra| == j - 1
        invariant Grown(old(nodes), nodes, i) && |nodes| == n + j - 1
        invariant nodes[i] == Node(0, parts[0], [])
        invariant forall t {:trigger extra[t]} :: 0 <= t < |extra| ==> extra[t] == NewLeaf(parts, n, t + 1)
        invariant forall t {:trigger parts[t]} :: 1 <= t < j ==> nodes[n + t - 1] == Node(0, parts[t], [])
      {
        nodes := nodes + [Node(0, parts[j], [])];
        extra := extra + [Entry(parts[j][0].key, Mem(|nodes| - 1))];
        j := j + 1;
      }
      ghost var g := [Entry(lo, Mem(i))] + extra;
      forall t | 1 <= t < |g| ensures g[t] == NewLeaf(parts, n, t) {
        assert g[t] == extra[t - 1];
      }
    }

    /** Makes child `p` of node `i` changeable, under lower bound `k`. */
    method OwnKid(i: nat, p: nat, k: Key, ghost l: nat, ghost lo: Key, ghost hi: Key) returns (r: Result<nat>)
      requires Ready(W(), Spc(), Mem(i), l + 1, lo, hi, total) && CacheOk(cache)
      requires p < |nodes[i].kids| && k <= nodes[i].kids[p].key
      modifies this`nodes, this`bits, this`held, this`bitmapDirty, this`cache, this`clock
      ensures CacheOk(cache) && (r.Err? ==> r.error == Io && dev.flaky)
      ensures r.Ok? ==> var kids := old(nodes[i].kids);
        && CopiedTo(old(nodes), nodes, kids[p].child, r.value, i) && Released(old(Spc()), Spc(), kids[p].child, total)
        && nodes[i] == Node(l + 1, [], kids[p := Entry(k, Mem(r.value))])
        && Ready(W(), Spc(), Mem(r.value), l, k, Next(kids, p, hi), total)
        && Uses(nodes, Mem(r.value), l, Slot(i)) == 0
    {
      ghost var w, s, kids := W(), Spc(), nodes[i].kids;
      ghost var e, next := kids[p], Next(kids, p, hi);
      InteriorFacts(w, s, i, l, lo, hi, total);
      ChildReady(w, s, i, p, l, lo, hi, total);
      if e.child.Disk? {
        DiskReady(w, s, e.child, l, e.key, next, total);
      }
      var c :- Own(nodes[i].kids[p].child);
      assert At(i);
      nodes := nodes[i := nodes[i].(kids := nodes[i].kids[p := Entry(k, Mem(c))])];
      OwnedReady(w, W(), s, Spc(), e.child, c, i, l, e.key, k, next, total);
      return Ok(c);
    }

    /** The subtree at `i` together with `extra` holds the old items with `key` set to `data`, every node of it
        fitting its block. */
    method InsertAt(i: nat, key: Key, data: Data, depth: nat, ghost l: nat, ghost lo: Key, ghost hi: Key)
      returns (r: Result<seq<Entry>>)
      requires Ready(W(), Spc(), Mem(i), l, lo, hi, total) && CacheOk(cache)
      requires lo <= key && Under(key, hi) && ITEM_HEADER + DataSize(data) <= ROOM
      modifies this`nodes, this`bits, this`held, this`bitmapDirty, this`cache, this`clock
      ensures CacheOk(cache)
      ensures r.Err? ==> (r.error == Io && dev.flaky) || (r.error == TooDeep && depth + l > MAX_DEPTH)
      ensures r == Err(TooDeep) ==> LevelsKept(old(nodes), nodes)
      ensures r.Ok? ==> depth + l <= MAX_DEPTH && |nodes| <= old(|nodes|) + 2 * l + 2
      ensures r.Ok? ==> |r.value| <= 2
      ensures r.Ok? ==>
        Inserted(old(W()), W(), old(Spc()), Spc(), i, [Entry(lo, Mem(i))] + r.value, key, data, l, lo, hi, total)
      decreases l, 2
    {
      if depth > MAX_DEPTH {
        return Err(TooDeep);
      }
      if nodes[i].level == 0 {
        r := InsertInLeaf(i, key, data, lo, hi);
        return;
      }
      ghost var w, s, items := W(), Spc(), Put(TreeItems(nodes, Mem(i), l), key, data);
      InteriorFacts(w, s, i, l - 1, lo, hi, total);
      var p := ChildIndex(nodes[i].kids, key);
      var _ :- InsertBelow(i, p, key, data, depth, l - 1, lo, hi);
      r := SplitGrafted(w, s, i, l - 1, lo, hi, items);
    }

    /** One step down for an interior node: what `InsertAt` promises of child `p` becomes true of node `i`, which
        may be overfull until it is split. */
    method InsertBelow(i: nat, p: nat, key: Key, data: Data, depth: nat, ghost l: nat, ghost lo: Key, ghost hi: Key)
      returns (r: Result<()>)
      requires Ready(W(), Spc(), Mem(i), l + 1, lo, hi, total) && CacheOk(cache)
      requires IsChildIndex(nodes[i].kids, key, p)
      requires lo <= key && Under(key, hi) && ITEM_HEADER + DataSize(data) <= ROOM
      modifies this`nodes, this`bits, this`held, this`bitmapDirty, this`cache, this`clock
      ensures CacheOk(cache)
      ensures r.Err? ==> (r.error == Io && dev.flaky) || (r.error == TooDeep && depth + 1 + l > MAX_DEPTH)
      ensures r == Err(TooDeep) ==> LevelsKept(old(nodes), nodes)
      ensures r.Ok? ==> depth + 1 + l <= MAX_DEPTH && |nodes| <= old(|nodes|) + 2 * l + 3
      ensures r.Ok? ==>
        && i < |nodes| && nodes[i].kids != [] && |nodes[i].kids| <= MAX_KIDS + 2
        && Grafted(old(W()), W(), old(Spc()), Spc(), i, l, lo, hi, Put(TreeItems(old(nodes), Mem(i), l + 1), key, data), total)
      decreases l + 1, 1
    {
      ghost var w0, s0, kids := W(), Spc(), nodes[i].kids;
      InteriorFacts(w0, s0, i, l, lo, hi, total);
      ChildBounds(kids, key, p, lo, hi);
      var k := if key < nodes[i].kids[p].key then key else nodes[i].kids[p].key;
      var extra, c, w1, s1 := InsertUnder(i, p, k, key, data, depth, l, lo, hi);
      if extra.Err? {
        return Err(extra.error);
      }
      ghost var w2, s2 := W(), Spc();
      nodes := nodes[i := nodes[i].(kids := nodes[i].kids[..p + 1] + extra.value + nodes[i].kids[p + 1..])];
      InPlace(kids, p, Entry(k, Mem(c)), extra.value);
      InsertedBelow(w0, w1, w2, W(), s0, s1, s2, i, p, c, [Entry(k, Mem(c))] + extra.value, key, data, k, l, lo, hi,
                    total);
      return Ok(());
    }

    /** Makes child `p` changeable, under lower bound `k`, and inserts under it. */
    method InsertUnder(i: nat, p: nat, k: Key, key: Key, data: Data, depth: nat, ghost l: nat, ghost lo: Key,
                       ghost hi: Key)
      returns (r: Result<seq<Entry>>, c: nat, ghost w1: World, ghost s1: Spc)
      requires Ready(W(), Spc(), Mem(i), l + 1, lo, hi, total) && CacheOk(cache)
      requires p < |nodes[i].kids| && k <= nodes[i].kids[p].key && k <= key && Under(key, Next(nodes[i].kids, p, hi))
      requires ITEM_HEADER + DataSize(data) <= ROOM
      modifies this`nodes, this`bits, this`held, this`bitmapDirty, this`cache, this`clock
      ensures CacheOk(cache)
      ensures r.Err? ==> (r.error == Io && dev.flaky) || (r.error == TooDeep && depth + 1 + l > MAX_DEPTH)
      ensures r == Err(TooDeep) ==> LevelsKept(old(nodes), nodes)
      ensures r.Ok? ==> depth + 1 + l <= MAX_DEPTH && |nodes| <= old(|nodes|) + 2 * l + 3
      ensures r.Ok? ==>
        var kids, g := old(nodes[i].kids), [Entry(k, Mem(c))] + r.value;
        && |r.value| <= 2
        && ChildBecame(old(W()), w1, W(), old(Spc()), s1, Spc(), i, kids[p], c, g, l, total)
        && RunShape(W(), g, l, k, Next(kids, p, hi))
        && RunItems(nodes, g, l) == Put(TreeItems(w1.arena, Mem(c), l), key, data)
        && i < |nodes| && nodes[i] == Node(l + 1, [], kids[p := Entry(k, Mem(c))])
      decreases l + 1, 0
    {
      w1, s1, c := W(), Spc(), 0;
      ghost var kids := nodes[i].kids;
      var owned := OwnKid(i, p, k, l, lo, hi);
      if owned.Err? {
        return Err(owned.error), c, w1, s1;
      }
      c := owned.value;
      w1, s1 := W(), Spc();
      r := InsertAt(c, key, data, depth + 1, l, k, Next(kids, p, hi));
      assert At(i);
    }

    /** The end of an insertion in an interior node: split it if its children have become too many. */
    method SplitGrafted(ghost w: World, ghost s: Spc, i: nat, ghost l: nat, ghost lo: Key, ghost hi: Key,
                        ghost items: Items)
      returns (r: Result<seq<Entry>>)
      requires Grafted(w, W(), s, Spc(), i, l, lo, hi, items, total) && Under(lo, hi)
      requires nodes[i].kids != [] && |nodes[i].kids| <= MAX_KIDS + 2
      modifies this`nodes
      ensures r.Ok? && |r.value| <= 1 && |nodes| == |old(nodes)| + |r.value|
      ensures var g := [Entry(lo, Mem(i))] + r.value;
        && RunShape(W(), g, l + 1, lo, hi) && RunItems(nodes, g, l + 1) == items
        && Became(w, W(), s, Spc(), i, g, l + 1, total)
    {
      ghost var w1, kids, kids' := W(), w.arena[i].kids, nodes[i].kids;
      RebuiltLoose(w, w1, kids, kids', i, l, lo, hi);
      var more := Split(i, l + 1, lo, hi);
      RebuiltThenSplit(w, w1, W(), s, Spc(), i, kids, kids', [Entry(lo, Mem(i))] + more, l, lo, hi, total);
      return Ok(more);
    }

    method InsertInLeaf(i: nat, key: Key, data: Data, ghost lo: Key, ghost hi: Key) returns (r: Result<seq<Entry>>)
      requires Ready(W(), Spc(), Mem(i), 0, lo, hi, total) && CacheOk(cache)
      requires lo <= key && Under(key, hi) && ITEM_HEADER + DataSize(data) <= ROOM
      modifies this`nodes
      ensures r.Ok? && |r.value| <= 2 && |nodes| == |old(nodes)| + |r.value|
      ensures Inserted(old(W()), W(), Spc(), Spc(), i, [Entry(lo, Mem(i))] + r.value, key, data, 0, lo, hi, total)
    {
      ghost var w0 := W();
      PutInLeaf(i, key, data);
      ghost var w1 := W();
      LeafLoose(w0, w1, i, key, data, lo, hi);
      StepNone(Spc(), total);
      var extra := Split(i, 0, lo, hi);
      ThenSplit(w0, w1, W(), Spc(), Spc(), i, [Entry(lo, Mem(i))] + extra, 0, total);
      return Ok(extra);
    }

    method PutInLeaf(i: nat, key: Key, data: Data)
      requires i < |nodes| && Sorted(nodes[i].items)
      modifies this`nodes
      ensures nodes == old(nodes)[i := old(nodes[i]).(items := Put(old(nodes[i]).items, key, data))]
    {
      var items := nodes[i].items;
      var found, p := BinarySearch(items, key);
      var it := Item(key, data);
      PutInPlace(items, key, data);
      nodes := nodes[i := nodes[i].(items := if found then items[p := it] else items[..p] + [it] + items[p..])];
    }

    /** The size of a node in bytes, with nothing changed. */
    method SizeOf(c: Child) returns (r: Result<nat>)
      requires CacheOk(cache) && ChildOk(W(), c)
      modifies this`cache, this`clock
      ensures CacheOk(cache) && (r.Err? ==> r.error == Io && dev.flaky)
      ensures r.Ok? ==> r.value == NodeSize(NodeOf(nodes, c))
    {
      match c {
        case Mem(i) =>
          return Ok(NodeSize(nodes[i]));
        case Disk(bp) =>
          var n :- LoadNode(bp);
          return Ok(NodeSize(FromBlock(n)));
      }
    }

    method RemoveAt(i: nat, key: Key, depth: nat, ghost l: nat, ghost lo: Key, ghost hi: Key)
        returns (r: Result<Option<Data>>)
      requires Ready(W(), Spc(), Mem(i), l, lo, hi, total) && CacheOk(cache)
      modifies this`nodes, this`bits, this`held, this`bitmapDirty, this`cache, this`clock
      ensures CacheOk(cache)
      ensures r.Err? ==> (r.error == Io && dev.flaky) || (r.error == TooDeep && depth + l > MAX_DEPTH)
      ensures r == Err(TooDeep) ==> LevelsKept(old(nodes), nodes)
      ensures r.Ok? ==> depth + l <= MAX_DEPTH && |nodes| <= old(|nodes|) + 3 * l
      ensures r.Ok? ==> r.value == Find(old(TreeItems(nodes, Mem(i), l)), key)
      ensures r.Ok? ==> TreeRemoved(old(W()), W(), old(Spc()), Spc(), i, key, l, lo, hi, total)
      ensures r.Ok? ==> Pruned(old(nodes), old(NodeOf(nodes, Mem(i))), nodes, i, key, l)
      decreases l, 1
    {
      if depth > MAX_DEPTH {
        return Err(TooDeep);
      }
      if nodes[i].level == 0 {
        r := RemoveInLeaf(i, key, lo, hi);
        return;
      }
      ghost var w0, s0, m := W(), Spc(), l - 1;
      InteriorFacts(w0, s0, i, m, lo, hi, total);
      var p := ChildIndex(nodes[i].kids, key);
      var c;
      ghost var w1, s1;
      r, c, w1, s1 := RemoveUnder(i, p, key, depth, m, lo, hi);
      if r.Ok? {
        ghost var w2, s2 := W(), Spc();
        var _ :- Rebalance(i, p, c, key, w0, w1, s0, s1, m, lo, hi);
        PrunedUp(w0, w1, w2, nodes, s0, s1, s2, i, p, c, key, m, lo, hi, total);
      }
    }

    /** Makes child `p` changeable and removes under it. */
    method RemoveUnder(i: nat, p: nat, key: Key, depth: nat, ghost l: nat, ghost lo: Key, ghost hi: Key)
      returns (r: Result<Option<Data>>, c: nat, ghost w1: World, ghost s1: Spc)
      requires Ready(W(), Spc(), Mem(i), l + 1, lo, hi, total) && CacheOk(cache)
      requires IsChildIndex(nodes[i].kids, key, p)
      modifies this`nodes, this`bits, this`held, this`bitmapDirty, this`cache, this`clock
      ensures CacheOk(cache)
      ensures r.Err? ==> (r.error == Io && dev.flaky) || (r.error == TooDeep && depth + 1 + l > MAX_DEPTH)
      ensures r == Err(TooDeep) ==> LevelsKept(old(nodes), nodes)
      ensures r.Ok? ==> depth + 1 + l <= MAX_DEPTH && |nodes| <= old(|nodes|) + 3 * l + 1
      ensures r.Ok? ==> r.value == Find(old(TreeItems(nodes, Mem(i), l + 1)), key)
      ensures r.Ok? ==>
        var kids := old(nodes[i].kids);
        && CopiedTo(old(nodes), w1.arena, kids[p].child, c, i) && SameDisk(old(W()), w1)
        && Released(old(Spc()), s1, kids[p].child, total)
        && w1.arena[i] == Node(l + 1, [], kids[p := Entry(kids[p].key, Mem(c))])
        && Uses(w1.arena, Mem(c), l, Slot(i)) == 0
        && TreeRemoved(w1, W(), s1, Spc(), c, key, l, kids[p].key, Next(kids, p, hi), total)
        && Pruned(w1.arena, NodeOf(w1.arena, Mem(c)), nodes, c, key, l)
      decreases l + 1, 0
    {
      w1, s1, c := W(), Spc(), 0;
      ghost var w0, s0, kids := W(), Spc(), nodes[i].kids;
      var owned := OwnKid(i, p, nodes[i].kids[p].key, l, lo, hi);
      if owned.Err? {
        return Err(owned.error), c, w1, s1;
      }
      c := owned.value;
      w1, s1 := W(), Spc();
      FoundBelow(w0, w1, s0, i, p, c, key, l, lo, hi, total);
      r := RemoveAt(c, key, depth + 1, l, kids[p].key, Next(kids, p, hi));
    }

    method RemoveInLeaf(i: nat, key: Key, ghost lo: Key, ghost hi: Key) returns (r: Result<Option<Data>>)
      requires Ready(W(), Spc(), Mem(i), 0, lo, hi, total)
      modifies this`nodes
      ensures r == Ok(Find(old(TreeItems(nodes, Mem(i), 0)), key))
      ensures TreeRemoved(old(W()), W(), Spc(), Spc(), i, key, 0, lo, hi, total)
      ensures nodes == old(nodes)[i := Node(0, Cut(old(nodes[i].items), key), [])]
    {
      var items := nodes[i].items;
      var found, p := BinarySearch(items, key);
      r := Ok(if found then Some(items[p].data) else None);
      Halves(items, p);
      nodes := nodes[i := nodes[i].(items := if found then items[..p] + items[p + 1..] else items)];
      LeafRemoved(old(W()), W(), Spc(), i, key, lo, hi, total);
    }

    /** Takes a node one of whose children has lost an item to one that is in order again: no empty child, and no
        two neighbours merged unless the result fits a block. The items do not change. */
    method Rebalance(i: nat, p: nat, c: nat, ghost key: Key, ghost w0: World, ghost w1: World, ghost s0: Spc,
                     ghost s1: Spc, ghost l: nat, ghost lo: Key, ghost hi: Key)
      returns (r: Result<()>)
      requires CacheOk(cache) && i < |w0.arena|
      requires Ready(w0, s0, Mem(i), l + 1, lo, hi, total) && IsChildIndex(w0.arena[i].kids, key, p)
      requires var kids := w0.arena[i].kids;
        && CopiedTo(w0.arena, w1.arena, kids[p].child, c, i) && SameDisk(w0, w1) && Released(s0, s1, kids[p].child, total)
        && w1.arena[i] == Node(l + 1, [], kids[p := Entry(kids[p].key, Mem(c))])
        && Uses(w1.arena, Mem(c), l, Slot(i)) == 0
        && TreeRemoved(w1, W(), s1, Spc(), c, key, l, kids[p].key, Next(kids, p, hi), total)
      modifies this`nodes, this`bits, this`held, this`bitmapDirty, this`cache, this`clock
      ensures CacheOk(cache) && (r.Err? ==> r.error == Io && dev.flaky)
      ensures r.Ok? ==> TreeRemoved(w0, W(), s0, Spc(), i, key, l + 1, lo, hi, total)
      ensures r.Ok? ==> i < |old(nodes)| && old(nodes[i].kids) == w0.arena[i].kids[p := Entry(w0.arena[i].kids[p].key, Mem(c))]
      ensures r.Ok? ==> Balanced(old(KidNodes(nodes, nodes[i])), p, KidNodes(nodes, nodes[i]))
      ensures r.Ok? ==> |nodes| <= old(|nodes|) + 2
    {
      var dropped := DropIfEmpty(i, p, c, key, w0, w1, s0, s1, l, lo, hi);
      if dropped {
        NoneOwn(w0, s0, i, p, c, l, lo, hi, total);
        KidDropped(old(nodes), i, p, nodes[i]);
        return Ok(());
      }
      ghost var w2, s2 := W(), Spc();
      RemovedReady(w0, w2, s0, s2, i, key, l + 1, lo, hi, total);
      var merged :- MergeSparse(i, p, c, l, lo, hi);
      if merged {
        RemovedThenMerged(w0, w2, W(), s0, s2, Spc(), i, key, l, lo, hi, total);
      }
      return Ok(());
    }

    /** The second half of rebalancing: a child that takes up at most a quarter of a block is merged with a
        neighbour. */
    method MergeSparse(i: nat, p: nat, c: nat, ghost l: nat, ghost lo: Key, ghost hi: Key) returns (r: Result<bool>)
      requires Ready(W(), Spc(), Mem(i), l + 1, lo, hi, total) && CacheOk(cache)
      requires p < |nodes[i].kids| && nodes[i].kids[p].child == Mem(c) && c < |nodes| && !IsEmpty(nodes[c])
      modifies this`nodes, this`bits, this`held, this`bitmapDirty, this`cache, this`clock
      ensures CacheOk(cache) && (r.Err? ==> r.error == Io && dev.flaky)
      ensures r.Ok? ==> |nodes| <= old(|nodes|) + 2
      ensures r == Ok(false) ==> nodes == old(nodes) && Spc() == old(Spc())
      ensures r == Ok(true) ==>
        && Grafted(old(W()), W(), old(Spc()), Spc(), i, l, lo, hi, old(TreeItems(nodes, Mem(i), l + 1)), total)
        && 0 < |nodes[i].kids| <= MAX_KIDS
      ensures r.Ok? ==> i < |nodes| && Balanced(old(KidNodes(nodes, nodes[i])), p, KidNodes(nodes, nodes[i]))
    {
      var used := NodeSize(nodes[c]);
      if used > BLOCK / 4 {
        return Ok(false);
      }
      // The neighbour after, then the one before.
      r := MergeIfFits(i, p, p + 1, used, l, lo, hi);
      if r == Ok(false) && p > 0 {
        r := MergeIfFits(i, p, p - 1, used, l, lo, hi);
      }
    }

    /** Merges child `p` of node `i`, of size `used`, with its neighbour `q` if there is one and both
        fit in a block. */
    method MergeIfFits(i: nat, p: nat, q: nat, used: nat, ghost l: nat, ghost lo: Key, ghost hi: Key)
        returns (r: Result<bool>)
      requires Ready(W(), Spc(), Mem(i), l + 1, lo, hi, total) && CacheOk(cache)
      requires p < |nodes[i].kids| && (q == p + 1 || p == q + 1)
      requires used == NodeSize(NodeOf(nodes, nodes[i].kids[p].child))
      modifies this`nodes, this`bits, this`held, this`bitmapDirty, this`cache, this`clock
      ensures CacheOk(cache) && (r.Err? ==> r.error == Io && dev.flaky)
      ensures r.Ok? ==> |nodes| <= old(|nodes|) + 2
      ensures r.Ok? ==> (r.value <==> Fit(old(KidNodes(nodes, nodes[i])), if q > p then p else q))
      ensures r == Ok(false) ==> nodes == old(nodes) && Spc() == old(Spc())
      ensures r == Ok(true) ==>
        && Grafted(old(W()), W(), old(Spc()), Spc(), i, l, lo, hi, old(TreeItems(nodes, Mem(i), l + 1)), total)
        && 0 < |nodes[i].kids| <= MAX_KIDS
        && KidNodes(nodes, nodes[i]) == JoinedAt(old(KidNodes(nodes, nodes[i])), if q > p then p else q)
    {
      InteriorFacts(W(), Spc(), i, l, lo, hi, total);
      if q >= |nodes[i].kids| {
        return Ok(false);
      }
      KidShape(W(), nodes[i].kids, q, l, lo, hi);
      var size :- SizeOf(nodes[i].kids[q].child);
      if used + size - HEADER > BLOCK {
        return Ok(false);
      }
      var _ :- MergeKids(i, if q > p then p else q, l, lo, hi);
      return Ok(true);
    }

    /** The first half of rebalancing: child `p`, changed in slot `c`, is dropped if it's empty. */
    method DropIfEmpty(i: nat, p: nat, c: nat, ghost key: Key, ghost w0: World, ghost w1: World, ghost s0: Spc,
                       ghost s1: Spc, ghost l: nat, ghost lo: Key, ghost hi: Key)
      returns (dropped: bool)
      requires i < |w0.arena|
      requires Ready(w0, s0, Mem(i), l + 1, lo, hi, total) && IsChildIndex(w0.arena[i].kids, key, p)
      requires var kids := w0.arena[i].kids;
        && CopiedTo(w0.arena, w1.arena, kids[p].child, c, i) && SameDisk(w0, w1) && Released(s0, s1, kids[p].child, total)
        && w1.arena[i] == Node(l + 1, [], kids[p := Entry(kids[p].key, Mem(c))])
        && Uses(w1.arena, Mem(c), l, Slot(i)) == 0
        && TreeRemoved(w1, W(), s1, Spc(), c, key, l, kids[p].key, Next(kids, p, hi), total)
      modifies this`nodes
      ensures TreeRemoved(w0, W(), s0, Spc(), i, key, l + 1, lo, hi, total)
      ensures c < |old(nodes)| && (dropped <==> IsEmpty(old(nodes[c])))
      ensures i < |old(nodes)| && old(nodes[i].kids) == w0.arena[i].kids[p := Entry(w0.arena[i].kids[p].key, Mem(c))]
      ensures dropped ==> nodes[i].kids == old(nodes[i].kids[..p] + nodes[i].kids[p + 1..]) && nodes == old(nodes)[i := nodes[i]]
      ensures !dropped ==> nodes == old(nodes)
      ensures !dropped ==> c < |nodes| && nodes[i].kids == w0.arena[i].kids[p := Entry(w0.arena[i].kids[p].key, Mem(c))]
    {
      ghost var w2, kids := W(), w0.arena[i].kids;
      assert At(i);
      dropped := IsEmpty(nodes[c]);
      if dropped {
        nodes := nodes[i := nodes[i].(kids := nodes[i].kids[..p] + nodes[i].kids[p + 1..])];
      }
      ghost var kids' := kids[..p] + Remains(w2.arena, c, kids[p].key) + kids[p + 1..];
      DropAt(kids, p, Entry(kids[p].key, Mem(c)));
      assert nodes[i].kids == kids';
      assert nodes == w2.arena[i := Node(l + 1, [], kids')];
      InteriorFacts(w0, s0, i, l, lo, hi, total);
      RemovedBelow(w0, w1, w2, W(), s0, s1, Spc(), i, p, c, key, l, lo, hi, total);
      GraftedRemoved(w0, W(), s0, Spc(), i, key, l, lo, hi, total);
    }

    /** Merges children `x` and `x + 1` of node `i`, which fit in one block. */
    method MergeKids(i: nat, x: nat, ghost l: nat, ghost lo: Key, ghost hi: Key) returns (r: Result<()>)
      requires Ready(W(), Spc(), Mem(i), l + 1, lo, hi, total) && CacheOk(cache)
      requires x + 1 < |nodes[i].kids|
      requires NodeSize(NodeOf(nodes, nodes[i].kids[x].child)) + NodeSize(NodeOf(nodes, nodes[i].kids[x + 1].child)) - HEADER <= BLOCK
      modifies this`nodes, this`bits, this`held, this`bitmapDirty, this`cache, this`clock
      ensures CacheOk(cache) && (r.Err? ==> r.error == Io && dev.flaky)
      ensures r.Ok? ==> Grafted(old(W()), W(), old(Spc()), Spc(), i, l, lo, hi, old(TreeItems(nodes, Mem(i), l + 1)), total)
      ensures r.Ok? ==> |nodes[i].kids| == old(|nodes[i].kids|) - 1 && |nodes| <= old(|nodes|) + 2
      ensures r.Ok? ==> KidNodes(nodes, nodes[i]) == JoinedAt(old(KidNodes(nodes, nodes[i])), x)
    {
      ghost var w0, s0, kids := W(), Spc(), nodes[i].kids;
      var owned, li, ri, w1, s1 := OwnPair(i, x, l, lo, hi);
      if owned.Err? {
        return owned;
      }
      ghost var w2, s2 := W(), Spc();
      var right := nodes[ri];
      nodes := nodes[ri := EMPTY];
      nodes := nodes[li := Node(nodes[li].level, nodes[li].items + right.items, nodes[li].kids + right.kids)];
      ghost var w3 := W();
      nodes := nodes[i := nodes[i].(kids := nodes[i].kids[x := nodes[i].kids[x].(child := Mem(li))])];
      nodes := nodes[i := nodes[i].(kids := nodes[i].kids[..x + 1] + nodes[i].kids[x + 2..])];
      DropSecond(kids, x, Entry(kids[x].key, Mem(li)));
      KidsMerged(w0, w1, w2, w3, W(), s0, s1, s2, i, x, li, ri, l, lo, hi, total);
      KidsJoined(w0, w1, w2, w3, W(), s0, i, x, li, ri, l, lo, hi, total);
      return Ok(());
    }

    /** Makes children `x` and `x + 1` of node `i` changeable (node `i` does not point at the copies
        yet). */
    method OwnPair(i: nat, x: nat, ghost l: nat, ghost lo: Key, ghost hi: Key)
      returns (r: Result<()>, li: nat, ri: nat, ghost w1: World, ghost s1: Spc)
      requires Ready(W(), Spc(), Mem(i), l + 1, lo, hi, total) && CacheOk(cache)
      requires x + 1 < |nodes[i].kids|
      modifies this`nodes, this`bits, this`held, this`bitmapDirty, this`cache, this`clock
      ensures CacheOk(cache) && (r.Err? ==> r.error == Io && dev.flaky)
      ensures r.Ok? ==> var eL, eR := old(nodes[i].kids[x]), old(nodes[i].kids[x + 1]);
        && CopiedTo(old(nodes), w1.arena, eL.child, li, |old(nodes)|) && SameDisk(old(W()), w1) && Released(old(Spc()), s1, eL.child, total)
        && CopiedTo(w1.arena, nodes, eR.child, ri, |w1.arena|) && SameDisk(w1, W()) && Released(s1, Spc(), eR.child, total)
        && i < |nodes| && li < |nodes| && ri < |nodes| && li != ri && li != i && ri != i
        && nodes[i] == old(nodes[i]) && nodes[li].level == nodes[ri].level
    {
      ghost var w0, s0 := W(), Spc();
      li, ri, w1, s1 := 0, 0, w0, s0;
      KidMarked(w0, s0, i, x, l, lo, hi, total);
      li :- Own(nodes[i].kids[x].child);
      w1, s1 := W(), Spc();
      assert At(i) && nodes[i] == w0.arena[i];
      NextMarked(w0, w1, s0, s1, i, x, li, l, lo, hi, total);
      ri :- Own(nodes[i].kids[x + 1].child);
      assert At(i) && nodes[i] == w0.arena[i];
      PairDiffers(w0, w1, W(), s0, i, x, li, ri, l, lo, hi, total);
      return Ok(()), li, ri, w1, s1;
    }

    ghost function RootLevel(): nat
      reads this
    {
      Level(nodes, root)
    }

    /** The tree in its present state, the operation in progress included. */
    ghost predicate TreeOk()
      reads this, dev
    {
      Ready(W(), Spc(), root, RootLevel(), 0, 0, total) && CacheOk(cache)
    }

    /** What the tree holds. */
    ghost function Content(): Items
      reads this
    {
      TreeItems(nodes, root, RootLevel())
    }

    /** The root as a node the operation may change. */
    method OwnRoot() returns (r: Result<nat>)
      requires TreeOk()
      modifies this`root, this`dirty, this`nodes, this`bits, this`held, this`bitmapDirty, this`cache, this`clock
      ensures CacheOk(cache) && (r.Err? ==> r.error == Io && dev.flaky)
      ensures r.Ok? ==> root == Mem(r.value) && r.value < |nodes| && TreeOk() && dirty
      ensures r.Ok? ==> Content() == old(Content()) && RootLevel() == old(RootLevel())
      ensures r.Ok? ==> CopiedTo(old(nodes), nodes, old(root), r.value, |old(nodes)|)
      ensures r.Ok? ==> Moved(old(W()), W(), old(Spc()), Spc(), old(root), root, RootLevel(), RootLevel(), total)
    {
      dirty := true;
      if root.Disk? {
        DiskReady(W(), Spc(), root, RootLevel(), 0, 0, total);
      }
      var i :- Own(root);
      RootOwned(old(W()), W(), old(Spc()), Spc(), root, i, old(RootLevel()), total);
      root := Mem(i);
      return Ok(i);
    }

    /** The content becomes the old content updated at `key`; on an error the operation must be aborted. */
    method Insert(key: Key, data: Data) returns (r: Result<()>)
      requires TreeOk() && ITEM_HEADER + DataSize(data) <= ROOM
      modifies this`root, this`dirty, this`nodes, this`bits, this`held, this`bitmapDirty, this`cache, this`clock
      ensures CacheOk(cache)
      ensures r.Err? ==> (r.error == Io && dev.flaky) || (r.error == TooDeep && RootLevel() > MAX_DEPTH)
      ensures r.Ok? ==> TreeOk() && dirty && Content() == Put(old(Content()), key, data)
      ensures r.Ok? ==> old(RootLevel()) <= MAX_DEPTH && |nodes| <= old(|nodes|) + 2 * old(RootLevel()) + 4
      ensures r.Ok? ==> Moved(old(W()), W(), old(Spc()), Spc(), old(root), root, old(RootLevel()), RootLevel(), total)
    {
      var i :- OwnRoot();
      ghost var w1, s1, l := W(), Spc(), RootLevel();
      var more := InsertAt(i, key, data, 0, l, 0, 0);
      assert At(i);
      var extra :- more;
      GrowRoot(i, extra, key, w1, s1, l);
      MovedTrans(old(W()), w1, W(), old(Spc()), s1, Spc(), old(root), Mem(i), root, l, l, RootLevel(), total);
      return Ok(());
    }

    /** When `extra` is not empty, the tree gets one level more, with the same items under one root. */
    method GrowRoot(i: nat, extra: seq<Entry>, key: Key, ghost w1: World, ghost s1: Spc, ghost l: nat)
      requires Ready(w1, s1, Mem(i), l, 0, 0, total) && CacheOk(cache) && root == Mem(i) && |extra| <= 2
      requires RunShape(W(), [Entry(0, Mem(i))] + extra, l, 0, 0)
      requires Became(w1, W(), s1, Spc(), i, [Entry(0, Mem(i))] + extra, l, total)
      modifies this`root, this`nodes
      ensures TreeOk() && Content() == RunItems(old(nodes), [Entry(0, Mem(i))] + extra, l)
      ensures Moved(w1, W(), s1, Spc(), Mem(i), root, l, RootLevel(), total)
      ensures |nodes| <= old(|nodes|) + 1
    {
      ghost var w2, s2 := W(), Spc();
      KidShape(w2, [Entry(0, Mem(i))] + extra, 0, l, 0, 0);
      if extra != [] {
        var level := nodes[i].level + 1;
        var first := FirstKey(nodes[i]);
        Tighten(w2, Mem(i), l, 0, extra[0].key);
        nodes := nodes + [Node(level, [], [Entry(if first.Some? then first.value else key, Mem(i))] + extra)];
        RootSplit(w1, w2, W(), s1, s2, i, extra, first.value, l, total);
        root := Mem(|nodes| - 1);
      } else {
        assert [Entry(0, Mem(i))] + extra == [Entry(0, Mem(i))];
        RunOne(nodes, Entry(0, Mem(i)), l);
        RootBecame(w1, w2, s1, s2, i, l, total);
        StepSafe(s1, s2, total);
        BecameReady(w1, w2, s1, s2, i, Entry(0, Mem(i)), l, 0, 0, total);
      }
    }

    /** The content becomes the old content without `key`, and the result is what was there. */
    method Remove(key: Key) returns (r: Result<Option<Data>>)
      requires TreeOk()
      modifies this`root, this`dirty, this`nodes, this`bits, this`held, this`bitmapDirty, this`cache, this`clock
      ensures CacheOk(cache)
      ensures r.Err? ==> (r.error == Io && dev.flaky) || (r.error == TooDeep && RootLevel() > MAX_DEPTH)
      ensures r.Ok? ==> TreeOk() && dirty && Content() == Cut(old(Content()), key)
      ensures r.Ok? ==> old(RootLevel()) <= MAX_DEPTH && |nodes| <= old(|nodes|) + 3 * old(RootLevel()) + 1
      ensures r.Ok? ==> r.value == Find(old(Content()), key)
      ensures r.Ok? ==> Moved(old(W()), W(), old(Spc()), Spc(), old(root), root, old(RootLevel()), RootLevel(), total)
      ensures r.Ok? ==> Shrunk(old(nodes), old(NodeOf(nodes, root)), nodes, root, key, old(RootLevel()))
      ensures r.Ok? && root.Mem? ==> |NodeOf(nodes, root).kids| != 1
    {
      ghost var l := RootLevel();
      r := RemoveFrom(key, l);
      if r.Ok? {
        ghost var w1, s1, c := W(), Spc(), root;
        LowerRoot(l);
        MovedTrans(old(W()), w1, W(), old(Spc()), s1, Spc(), old(root), c, root, l, l, RootLevel(), total);
      }
    }

    /** The removal itself, after which the root may be left with one child or none. */
    method RemoveFrom(key: Key, ghost l: nat) returns (r: Result<Option<Data>>)
      requires TreeOk() && l == RootLevel()
      modifies this`root, this`dirty, this`nodes, this`bits, this`held, this`bitmapDirty, this`cache, this`clock
      ensures CacheOk(cache)
      ensures r.Err? ==> (r.error == Io && dev.flaky) || (r.error == TooDeep && RootLevel() > MAX_DEPTH)
      ensures r.Ok? ==> l <= MAX_DEPTH && |nodes| <= old(|nodes|) + 3 * l + 1
      ensures r.Ok? ==> Space() && dirty && root.Mem? && root.slot < |nodes|
      ensures r.Ok? ==> IsEmpty(nodes[root.slot]) || Ready(W(), Spc(), root, l, 0, 0, total)
      ensures r.Ok? ==> TreeItems(nodes, root, l) == Cut(old(Content()), key) && r.value == Find(old(Content()), key)
      ensures r.Ok? ==> Moved(old(W()), W(), old(Spc()), Spc(), old(root), root, l, l, total)
      ensures r.Ok? ==> Pruned(old(nodes), old(NodeOf(nodes, root)), nodes, root.slot, key, l)
    {
      var i :- OwnRoot();
      ghost var w1, s1 := W(), Spc();
      r := RemoveAt(i, key, 0, l, 0, 0);
      assert At(i);
      if r.Ok? {
        RootPruned(old(W()), w1, nodes, old(root), i, key, l);
        RootBecame(w1, W(), s1, Spc(), i, l, total);
        StepSafe(s1, Spc(), total);
        if !IsEmpty(nodes[i]) {
          RemovedReady(w1, W(), s1, Spc(), i, key, l, 0, 0, total);
        }
        MovedTrans(old(W()), w1, W(), old(Spc()), s1, Spc(), old(root), root, root, l, l, l, total);
      }
    }

    /** Takes levels off until the root is a leaf or has two children; the items stay the same. */
    method LowerRoot(ghost l: nat)
      requires Space() && CacheOk(cache) && root.Mem? && root.slot < |nodes|
      requires IsEmpty(nodes[root.slot]) || Ready(W(), Spc(), root, l, 0, 0, total)
      modifies this`root, this`nodes
      ensures TreeOk() && Content() == TreeItems(old(nodes), old(root), l)
      ensures Moved(old(W()), W(), Spc(), Spc(), old(root), root, l, RootLevel(), total)
      ensures root == Top(old(nodes), old(root), l) && nodes == Trimmed(old(nodes), root)
      ensures root.Mem? ==> |NodeOf(nodes, root).kids| != 1
    {
      ghost var m := l;
      while root.Mem? && nodes[root.slot].level != 0 && |nodes[root.slot].kids| <= 1
        invariant root.Mem? ==> root.slot < |nodes|
        invariant Space() && CacheOk(cache)
        invariant (root.Mem? && IsEmpty(nodes[root.slot])) || Ready(W(), Spc(), root, m, 0, 0, total)
        invariant SameTree(old(nodes), old(root), l, nodes, root, m)
        invariant Top(old(nodes), root, m) == Top(old(nodes), old(root), l)
        invariant nodes == old(nodes) || (m == 0 && root.Mem? && nodes == Trimmed(old(nodes), root))
        decreases m, if root.Mem? then nodes[root.slot].level else 0
      {
        var n := nodes[root.slot];
        if n.kids != [] {
          OneKid(W(), Spc(), root.slot, m - 1, total);
          assert Top(nodes, root, m) == Top(nodes, n.kids[0].child, m - 1);
          root := n.kids[0].child;
          m := m - 1;
        } else {
          assert Top(nodes, root, m) == root && Top(old(nodes), root, 0) == root;
          EmptyTree(nodes, root.slot, m);
          nodes := nodes[root.slot := Node(0, [], [])];
          EmptyTree(nodes, root.slot, 0);
          m := 0;
        }
      }
      if root.Mem? && IsEmpty(nodes[root.slot]) {
        EmptyTree(nodes, root.slot, m);
        EmptyTree(nodes, root.slot, 0);
        EmptyReady(W(), Spc(), root.slot, total);
      }
      StepNone(Spc(), total);
    }

    /** Hands every item under `c` with a key `>= start` to the callback, in key order, until it
        answers no: returns what it was handed, and whether to go on. */
    method ScanChild(c: Child, start: Key, more: Item -> bool, depth: nat, ghost l: nat, ghost lo: Key, ghost hi: Key)
      returns (r: Result<(Items, bool)>)
      requires Shape(W(), c, l, lo, hi) && CacheOk(cache)
      modifies this`cache, this`clock
      ensures CacheOk(cache)
      ensures r.Err? ==> (r.error == Io && dev.flaky) || (r.error == TooDeep && depth + l > MAX_DEPTH)
      ensures r.Ok? ==> r.value == Visit(TreeItems(nodes, c, l), start, more)
      decreases l, 0
    {
      if depth > MAX_DEPTH {
        return Err(TooDeep);
      }
      var n, first;
      match c {
        case Mem(i) =>
          n := nodes[i];
          if n.level != 0 {
            first := ChildIndex(n.kids, start);
          }
        case Disk(bp) =>
          var raw :- LoadNode(bp);
          n := FromBlock(raw);
          if n.level != 0 {
            first := LastNotAfter(n.kids, start);
          }
      }
      if n.level == 0 {
        var out, go := ScanLeaf(n.items, start, more);
        return Ok((out, go));
      }
      VisitFrom(W(), n.kids, first, start, more, l - 1, lo, hi);
      r := ScanKids(n.kids, first, start, more, depth + 1, l - 1, lo, hi);
    }

    method ScanKids(kids: seq<Entry>, first: nat, start: Key,
                    more: Item -> bool, depth: nat, ghost l: nat, ghost lo: Key, ghost hi: Key)
      returns (r: Result<(Items, bool)>)
      requires RunShape(W(), kids, l, lo, hi) && first <= |kids| && CacheOk(cache)
      modifies this`cache, this`clock
      ensures CacheOk(cache)
      ensures r.Err? ==> (r.error == Io && dev.flaky) || (r.error == TooDeep && depth + l > MAX_DEPTH)
      ensures r.Ok? ==> r.value == Visit(RunItems(nodes, kids[first..], l), start, more)
      decreases l, 1
    {
      var ks := kids[first..];
      var out, j := [], 0;
      while j < |ks|
        invariant 0 <= j <= |ks| && CacheOk(cache)
        invariant Visit(RunItems(nodes, ks[..j], l), start, more) == (out, true)
      {
        KidShape(W(), kids, first + j, l, lo, hi);
        var v :- ScanChild(ks[j].child, start, more, depth, l, kids[first + j].key, Next(kids, first + j, hi));
        VisitNext(nodes, ks, j, out, start, more, l);
        out := out + v.0;
        if !v.1 {
          return Ok((out, false));
        }
        j := j + 1;
      }
      assert ks[..j] == ks;
      return Ok((out, true));
    }

    /** The items of the current content with keys from `start` on, in order, ending with the first for which
        `more` is false. */
    method Scan(start: Key, more: Item -> bool) returns (r: Result<Items>)
      requires TreeOk()
      modifies this`cache, this`clock
      ensures TreeOk()
      ensures r.Err? ==> (r.error == Io && dev.flaky) || (r.error == TooDeep && RootLevel() > MAX_DEPTH)
      ensures r.Ok? ==> r.value == Visit(Content(), start, more).0
    {
      var v :- ScanChild(root, start, more, 0, RootLevel(), 0, 0);
      return Ok(v.0);
    }

    method Get(key: Key) returns (r: Result<Option<Data>>)
      requires TreeOk()
      modifies this`cache, this`clock
      ensures TreeOk()
      ensures r.Err? ==> (r.error == Io && dev.flaky) || (r.error == TooDeep && RootLevel() > MAX_DEPTH)
      ensures r.Ok? ==> r.value == Find(Content(), key)
    {
      var v :- Scan(key, _ => false);
      ItemsOrdered(W(), root, RootLevel(), 0, 0);
      VisitFirst(Content(), key);
      return Ok(if v != [] && v[0].key == key then Some(v[0].data) else None);
    }

    // --- Commits ---

    /** The volume as the commit being written will have it. */
    ghost function Wn(): World
      reads this, dev
    {
      World(nodes, dev.cur, txg + 1)
    }

    /** The disk is sound, and no block of the committed state can be allocated. */
    ghost predicate DevOk()
      reads this, dev
    {
      && dev.Valid() && dev.landing == None && total <= |dev.cur|
      && forall b: nat {:trigger dev.spec.uses(dev.landed, b)} :: dev.spec.uses(dev.landed, b) ==> Guarded(Spc(), b)
    }

    /** Writes one block the committed state does not use. */
    method WriteOne(x: nat, raw: Block) returns (r: Result<()>)
      requires DevOk() && DATA_START <= x < total && !dev.spec.uses(dev.landed, x)
      modifies dev`pending, dev`cur, dev`history
      ensures DevOk() && Since(old(dev.history), dev.history)
      ensures r.Err? ==> r.error == Io && dev.flaky
      ensures r.Ok? ==> OneChanged(old(dev.cur), dev.cur, x, raw)
    {
      r := dev.Write(x, [raw]);
    }

    /** One new block, holding `raw`. */
    method Place(raw: Block) returns (r: Result<nat>)
      requires Space() && DevOk()
      modifies this`bits, this`bitmapDirty, this`cursor, dev`pending, dev`cur, dev`history
      ensures DevOk() && Since(old(dev.history), dev.history)
      ensures r.Err? ==> (r.error == Full && old(Spare()) == 0) || (r.error == Io && dev.flaky)
      ensures r.Ok? ==> Spare() == old(Spare()) - 1
      ensures r.Ok? ==> Space() && PutAtFree(old(Wn()), Wn(), old(Spc()), Spc(), r.value, raw, total)
    {
      var block :- Alloc(1);
      PutUntouched(old(Wn()), World(nodes, dev.cur[block := raw], txg + 1), old(Spc()), Spc(), block, raw, total);
      GrowEnlarged(old(Spc()), Spc(), total);
      var _ :- WriteOne(block, raw);
      return Ok(block);
    }

    /** The pointer it returns leads, on the disk with the pending writes, to a subtree with the same items and no
        node left in memory. */
    method WriteChild(c: Child, ghost l: nat, ghost lo: Key, ghost hi: Key) returns (r: Result<Bp>)
      requires Ready(Wn(), Spc(), c, l, lo, hi, total) && CacheOk(cache) && DevOk()
      modifies this`nodes, this`bits, this`bitmapDirty, this`cursor, this`cache, dev`pending, dev`cur, dev`history
      ensures CacheOk(cache) && DevOk() && Since(old(dev.history), dev.history)
      ensures r.Err? ==> (r.error == Full && old(Spare()) < old(InMemory(nodes, c, l))) || (r.error == Io && dev.flaky)
      ensures r.Ok? ==> Spare() == old(Spare()) - old(InMemory(nodes, c, l))
      ensures r.Ok? ==> WrittenOut(old(Wn()), Wn(), old(Spc()), Spc(), c, r.value, l, lo, hi, total) && Space()
      decreases l, 1
    {
      match c {
        case Disk(bp) =>
          GrowNone(Spc(), total);
          return Ok(bp);
        case Mem(i) =>
          ghost var w0, s0, h := Wn(), Spc(), dev.history;
          if nodes[i].level == 0 {
            LeafOut(w0, s0, i, lo, hi, total);
          } else {
            var _ :- WriteKids(i, l - 1, lo, hi);
          }
          ghost var h' := dev.history;
          r := WriteNode(i, w0, s0, l, lo, hi);
          SinceTrans(h, h', dev.history);
      }
    }

    /** Writes node `i`, whose children are all on disk. */
    method WriteNode(i: nat, ghost w0: World, ghost s0: Spc, ghost l: nat, ghost lo: Key, ghost hi: Key)
        returns (r: Result<Bp>)
      requires ChildrenOut(w0, Wn(), s0, Spc(), i, l, lo, hi, total) && Space() && CacheOk(cache) && DevOk()
      modifies this`bits, this`bitmapDirty, this`cursor, this`cache, dev`pending, dev`cur, dev`history
      ensures CacheOk(cache) && DevOk() && Since(old(dev.history), dev.history)
      ensures r.Err? ==> (r.error == Full && old(Spare()) == 0) || (r.error == Io && dev.flaky)
      ensures r.Ok? ==> Spare() == old(Spare()) - 1
      ensures r.Ok? ==> WrittenOut(w0, Wn(), s0, Spc(), Mem(i), r.value, l, lo, hi, total) && Space()
    {
      ghost var w, s := Wn(), Spc();
      var raw := ToBlock(nodes[i], txg + 1);
      var block :- Place(raw);
      CachePut(block, raw);
      NodeOut(w0, w, Wn(), s0, s, Spc(), i, block, l, lo, hi, total);
      return Ok(Bp(block, 1, txg + 1, [raw]));
    }

    /** Writes interior node `i`'s children. */
    method WriteKids(i: nat, ghost l: nat, ghost lo: Key, ghost hi: Key) returns (r: Result<()>)
      requires Ready(Wn(), Spc(), Mem(i), l + 1, lo, hi, total) && CacheOk(cache) && DevOk()
      modifies this`nodes, this`bits, this`bitmapDirty, this`cursor, this`cache, dev`pending, dev`cur, dev`history
      ensures CacheOk(cache) && DevOk() && Since(old(dev.history), dev.history)
      ensures r.Err? ==>
        (r.error == Full && old(Spare()) < old(RunInMemory(nodes, nodes[i].kids, l))) || (r.error == Io && dev.flaky)
      ensures r.Ok? ==> Spare() == old(Spare()) - old(RunInMemory(nodes, nodes[i].kids, l))
      ensures r.Ok? ==> ChildrenOut(old(Wn()), Wn(), old(Spc()), Spc(), i, l + 1, lo, hi, total) && Space()
      decreases l, 3
    {
      ghost var w0, s0, kids0, done := Wn(), Spc(), nodes[i].kids, [];
      PartlyStart(w0, s0, i, l, lo, hi, total);
      var j := 0;
      while j < |nodes[i].kids|
        invariant i < |nodes| && |done| == j <= |kids0| == |nodes[i].kids|
        invariant CacheOk(cache) && DevOk() && Space() && Since(old(dev.history), dev.history)
        invariant Partly(w0, Wn(), s0, Spc(), i, kids0, done, l, lo, hi, total)
        invariant Spare() + RunInMemory(w0.arena, kids0, l) == old(Spare()) + RunInMemory(nodes, kids0[j..], l)
      {
        ghost var h := dev.history;
        assert kids0[j..][0] == kids0[j] && kids0[j..][1..] == kids0[j + 1..];
        var out := WriteKid(i, j, w0, s0, kids0, done, l, lo, hi);
        SinceTrans(old(dev.history), h, dev.history);
        var bp :- out;
        done := done + [Entry(kids0[j].key, Child.Disk(bp))];
        j := j + 1;
      }
      InteriorOut(w0, Wn(), s0, Spc(), i, done, l, lo, hi, total);
      return Ok(());
    }

    /** Writes node `i`'s next child. */
    method WriteKid(i: nat, j: nat, ghost w0: World, ghost s0: Spc, ghost kids0: seq<Entry>, ghost done: seq<Entry>,
                    ghost l: nat, ghost lo: Key, ghost hi: Key)
      returns (r: Result<Bp>)
      requires Partly(w0, Wn(), s0, Spc(), i, kids0, done, l, lo, hi, total) && j == |done| < |kids0|
      requires i < |nodes| && |nodes[i].kids| == |kids0| && CacheOk(cache) && DevOk()
      modifies this`nodes, this`bits, this`bitmapDirty, this`cursor, this`cache, dev`pending, dev`cur, dev`history
      ensures CacheOk(cache) && DevOk() && Since(old(dev.history), dev.history)
      ensures r.Err? ==>
        (r.error == Full && old(Spare()) < old(InMemory(nodes, kids0[j].child, l))) || (r.error == Io && dev.flaky)
      ensures r.Ok? ==> Spare() == old(Spare()) - old(InMemory(nodes, kids0[j].child, l))
      ensures r.Ok? ==> RunInMemory(nodes, kids0[j + 1..], l) == old(RunInMemory(nodes, kids0[j + 1..], l))
      ensures r.Ok? ==> Partly(w0, Wn(), s0, Spc(), i, kids0, done + [Entry(kids0[j].key, Child.Disk(r.value))], l, lo, hi, total) && Space()
      ensures r.Ok? ==> i < |nodes| && |nodes[i].kids| == |kids0|
      decreases l, 2
    {
      ghost var w, s := Wn(), Spc();
      PartlyKid(w0, w, s0, s, i, kids0, done, l, lo, hi, total);
      KidNotHere(w, done, kids0, l, i);
      var bp :- WriteChild(nodes[i].kids[j].child, l, kids0[j].key, NextKey(kids0[j + 1..], hi));
      ghost var w', s' := Wn(), Spc();
      assert At(i);
      nodes := nodes[i := nodes[i].(kids := nodes[i].kids[j := nodes[i].kids[j].(child := Child.Disk(bp))])];
      PartlyNext(w0, w, w', Wn(), s0, s, s', i, kids0, done, bp, l, lo, hi, total);
      RestInMemory(w0, w, w', Wn(), s0, s, s', i, kids0, done, bp, l, lo, hi, total);
      return Ok(bp);
    }

    /** Every block of the old index turns from used to held. */
    method FreeIndex(ghost base: nat -> nat)
      requires Space() && DevOk() && Clean(Spc(), bitmap) && Tally(Spc(), total, base, bitmap, index)
      requires forall i {:trigger index[i]} :: 0 <= i < |index| ==> index[i].count == 1 && index[i].birth <= txg
      modifies this`bits, this`held, this`bitmapDirty, this`index
      ensures Space() && DevOk() && Clean(Spc(), bitmap) && Tally(Spc(), total, base, bitmap, [])
      ensures index == [] && Spare() == old(Spare())
    {
      var was, j := index, 0;
      index := [];
      assert was[0..] == was;
      while j < |was|
        invariant 0 <= j <= |was| && index == [] && Spare() == old(Spare())
        invariant Space() && DevOk() && Clean(Spc(), bitmap) && Tally(Spc(), total, base, bitmap, was[j..])
      {
        ghost var s, rest := Spc(), was[j..];
        TallyFree(s, total, base, bitmap, rest);
        assert rest[0] == was[j] && rest[1..] == was[j + 1..];
        Free(was[j]);
        SpareFreeOne(s, was[j].block, total);
        OneSafe(s, was[j].block, total);
        CleanKept(s, Spc(), bitmap, total);
        j := j + 1;
      }
      assert was[j..] == [];
    }

    /** Blocks for the new index's nodes. */
    method Reserve(n: nat, ghost base: nat -> nat) returns (r: Result<seq<nat>>)
      requires Space() && DevOk() && Clean(Spc(), bitmap) && Tally(Spc(), total, base, bitmap, [])
      modifies this`bits, this`bitmapDirty, this`cursor
      ensures Space() && DevOk() && (r.Err? ==> r.error == Full && old(Spare()) < n)
      ensures r.Ok? ==> Spare() == old(Spare()) - n
      ensures r.Ok? ==> |r.value| == n && Clean(Spc(), bitmap) && Tally(Spc(), total, base, bitmap, Bares(r.value))
      ensures r.Ok? ==> forall i {:trigger r.value[i]} :: 0 <= i < n ==> !dev.spec.uses(dev.landed, r.value[i])
    {
      var blocks := [];
      assert Bares(blocks) == [];
      while |blocks| < n
        invariant |blocks| <= n && Spare() == old(Spare()) - |blocks|
        invariant Space() && DevOk() && Clean(Spc(), bitmap) && Tally(Spc(), total, base, bitmap, Bares(blocks))
        invariant forall i {:trigger blocks[i]} :: 0 <= i < |blocks| ==> !dev.spec.uses(dev.landed, blocks[i])
      {
        ghost var s := Spc();
        var block :- Alloc(1);
        TallyTake(s, total, base, bitmap, Bares(blocks), block);
        BaresPush(blocks, block);
        OneEnlarged(s, block, total);
        CleanKept(s, Spc(), bitmap, total);
        blocks := blocks + [block];
      }
      return Ok(blocks);
    }

    /** The first changed bitmap block that has not moved, if there is one. */
    method FirstUnmoved(moved: seq<bool>) returns (k: nat)
      requires |moved| == |bitmapDirty|
      ensures k <= |moved|
      ensures k < |moved| ==> bitmapDirty[k] && !moved[k]
      ensures k == |moved| ==> forall j {:trigger bitmapDirty[j]} :: 0 <= j < |moved| && bitmapDirty[j] ==> moved[j]
    {
      k := 0;
      while k < |moved| && !(bitmapDirty[k] && !moved[k])
        invariant k <= |moved|
        invariant forall j {:trigger bitmapDirty[j]} :: 0 <= j < k && bitmapDirty[j] ==> moved[j]
      {
        k := k + 1;
      }
    }

    /** `used` says which blocks the committed state uses. */
    ghost predicate Knows(used: nat -> bool)
      reads dev
    {
      forall b: nat {:trigger used(b)} :: used(b) <==> dev.spec.uses(dev.landed, b)
    }

    /** Afterwards no changed bitmap block is where the committed state has it. Each move may itself change a block
        of the bitmap; as a block moves at most once the rounds come to an end. */
    method MoveBitmap(ghost base: nat -> nat, ghost extra: seq<Bp>, ghost used: nat -> bool)
        returns (r: Result<seq<bool>>)
      requires Space() && DevOk() && Knows(used) && |bitmap| == |bitmapDirty|
      requires Clean(Spc(), bitmap) && Tally(Spc(), total, base, bitmap, extra)
      requires forall k: nat {:trigger bitmap[k]} :: k < |bitmap| ==> bitmap[k].count == 1 && bitmap[k].birth <= txg
      modifies this`bits, this`held, this`bitmapDirty, this`cursor, this`bitmap
      ensures Space() && DevOk() && (r.Err? ==> r.error == Full && old(Spare()) < old(|bitmap|))
      ensures r.Ok? ==> Tally(Spc(), total, base, bitmap, extra) && Clean(Spc(), old(bitmap))
      ensures r.Ok? ==> |bitmap| == |bitmapDirty|
      ensures r.Ok? ==> MovedTo(old(bitmap), bitmap, r.value, used)
      ensures r.Ok? ==> forall k: nat {:trigger bitmapDirty[k]} :: k < |bitmap| && bitmapDirty[k] ==> r.value[k]
    {
      ghost var was := bitmap;
      var moved := seq(|bitmap|, _ => false);
      AllZeros(moved);
      var k := FirstUnmoved(moved);
      while k < |moved|
        invariant |moved| == |bitmap| == |bitmapDirty| == |was|
        invariant 0 <= k <= |moved| && (k < |moved| ==> !moved[k])
        invariant k == |moved| ==> forall j: nat {:trigger bitmapDirty[j]} :: j < |moved| && bitmapDirty[j] ==> moved[j]
        invariant Space() && DevOk() && Clean(Spc(), was) && Tally(Spc(), total, base, bitmap, extra)
        invariant MovedTo(was, bitmap, moved, used)
        invariant Spare() + |moved| == old(Spare()) + Zeros(moved)
        decreases Zeros(moved)
      {
        assert At(k);
        ZerosSet(moved, k);
        ghost var b0 := bitmap;
        var x :- MoveOne(k, base, extra, was);
        MovedNext(was, b0, moved, used, k, x);
        moved := moved[k := true];
        k := FirstUnmoved(moved);
      }
      return Ok(moved);
    }

    method MoveOne(k: nat, ghost base: nat -> nat, ghost extra: seq<Bp>, ghost was: seq<Bp>) returns (r: Result<nat>)
      requires Space() && DevOk() && k < |bitmap| && bitmap[k].count == 1 && bitmap[k].birth <= txg
      requires Clean(Spc(), was) && Tally(Spc(), total, base, bitmap, extra)
      modifies this`bits, this`held, this`bitmapDirty, this`cursor, this`bitmap
      ensures Space() && DevOk() && (r.Err? ==> r.error == Full && old(Spare()) == 0)
      ensures r.Ok? ==> Spare() == old(Spare()) - 1
      ensures r.Ok? ==> Clean(Spc(), was) && Tally(Spc(), total, base, bitmap, extra)
      ensures r.Ok? ==> bitmap == old(bitmap)[k := old(bitmap[k]).(block := r.value)]
      ensures r.Ok? ==> !dev.spec.uses(dev.landed, r.value)
      ensures |bitmapDirty| == old(|bitmapDirty|)
    {
      ghost var s := Spc();
      var before := bitmap[k];
      var block :- Alloc(1);
      ghost var s' := Spc();
      TallyMove(s, total, base, bitmap, extra, k, block);
      OneEnlarged(s, block, total);
      CleanKept(s, s', was, total);
      Free(before);
      SpareFreeOne(s', before.block, total);
      OneSafe(s', before.block, total);
      CleanKept(s', Spc(), was, total);
      bitmap := bitmap[k := bitmap[k].(block := block)];
      return Ok(block);
    }

    /** Writes the bitmap blocks that moved. The bits are final now. */
    method WriteLeaves(moved: seq<bool>, ghost base: nat -> nat, ghost extra: seq<Bp>, ghost used: nat -> bool)
        returns (r: Result<()>)
      requires Space() && DevOk() && Knows(used) && |bitmap| == |bitmapDirty|
      requires Tally(Spc(), total, base, bitmap, extra)
      requires LeavesTo(bits, dev.cur, bitmap, moved, 0, txg + 1, used)
      modifies this`bitmap, dev`pending, dev`cur, dev`history
      ensures DevOk() && Since(old(dev.history), dev.history)
      ensures r.Err? ==> r.error == Io && dev.flaky
      ensures r.Ok? ==> |bitmap| == |bitmapDirty| && Tally(Spc(), total, base, bitmap, extra)
      ensures r.Ok? ==> LeavesDone(bits, dev.cur, bitmap, txg + 1) && BaseKept(base, old(dev.cur), dev.cur)
    {
      ghost var s := Spc();
      var k := 0;
      while k < |bitmap|
        invariant k <= |bitmap| == |bitmapDirty| == |moved| && Spc() == s
        invariant DevOk() && Since(old(dev.history), dev.history) && BaseKept(base, old(dev.cur), dev.cur)
        invariant Writing(s, total, base, bitmap, extra, dev.cur, moved, k, txg + 1, used)
      {
        if moved[k] {
          ghost var d, h := dev.cur, dev.history;
          r := WriteLeaf(k, moved, base, extra, used);
          SinceTrans(old(dev.history), h, dev.history);
          if r.Err? {
            return;
          }
          BaseKeptTrans(base, old(dev.cur), d, dev.cur);
        } else {
          LeafSkipped(s, total, base, bitmap, extra, dev.cur, moved, k, txg + 1, used);
        }
        k := k + 1;
      }
      AllWritten(s, total, base, bitmap, extra, dev.cur, moved, txg + 1, used);
      return Ok(());
    }

    method WriteLeaf(k: nat, moved: seq<bool>, ghost base: nat -> nat, ghost extra: seq<Bp>, ghost used: nat -> bool)
        returns (r: Result<()>)
      requires Space() && DevOk() && Knows(used) && |bitmap| == |bitmapDirty|
      requires Writing(Spc(), total, base, bitmap, extra, dev.cur, moved, k, txg + 1, used)
      requires k < |bitmap| == |moved| && moved[k]
      modifies this`bitmap, dev`pending, dev`cur, dev`history
      ensures DevOk() && Since(old(dev.history), dev.history)
      ensures r.Err? ==> r.error == Io && dev.flaky
      ensures Spc() == old(Spc()) && |bitmap| == |bitmapDirty|
      ensures r.Ok? ==> Writing(Spc(), total, base, bitmap, extra, dev.cur, moved, k + 1, txg + 1, used)
      ensures r.Ok? ==> BaseKept(base, old(dev.cur), dev.cur)
    {
      ghost var s, leaves := Spc(), bitmap;
      LeafReady(s, total, base, leaves, extra, dev.cur, moved, k, txg + 1, used);
      var raw := BitsB(ChunkAt(bits, k));
      var x := bitmap[k].block;
      var _ :- WriteOne(x, raw);
      LeafWritten(s, total, base, leaves, extra, old(dev.cur), dev.cur, moved, k, txg + 1, used);
      bitmap := bitmap[k := Bp(x, 1, txg + 1, [raw])];
      assert Spc() == s;
      assert DevOk();
      return Ok(());
    }

    /** The index is being built: what the bitmap blocks and the nodes so far should be is on disk, and
        nothing else has changed since the disk read `d`. (Sealed: see `Open`.) */
    ghost predicate Laying(d: seq<Block>, h: History, blocks: seq<nat>, base: nat -> nat)
      reads this, dev
    {
      forall n: nat {:trigger Open(LayingSeal, n)} :: Open(LayingSeal, n) ==>
        && DevOk() && Since(h, dev.history) && LeavesDone(bits, dev.cur, bitmap, txg + 1)
        && BaseKept(base, d, dev.cur) && Placed(dev.cur, index, blocks, txg + 1)
    }

    /** The blocks reserved for the index are nobody else's. */
    ghost predicate Reserved(blocks: seq<nat>, base: nat -> nat)
      reads this, dev
    {
      && Space() && Tally(Spc(), total, base, bitmap, Bares(blocks))
      && forall i {:trigger blocks[i]} :: 0 <= i < |blocks| ==> !dev.spec.uses(dev.landed, blocks[i])
    }

    /** Writes the index bottom up, into exactly the blocks reserved for it; returns its root. */
    method BuildIndex(blocks: seq<nat>, ghost d: seq<Block>, ghost h: History, ghost base: nat -> nat)
        returns (r: Result<Bp>, ghost top: nat)
      requires Laying(d, h, blocks, base) && Reserved(blocks, base) && index == [] && |bitmap| >= 1
      requires |blocks| == NodesFor(|bitmap|)
      modifies this`index, dev`pending, dev`cur, dev`history
      ensures r.Err? ==> r.error == Io && dev.flaky && DevOk() && Since(h, dev.history)
      ensures r.Ok? ==> Laying(d, h, blocks, base) && |index| == |blocks|
      ensures r.Ok? ==> 1 <= top == Levels(|bitmap|) && IndexShape(r.value, top) && IndexLeaves(r.value, top) == bitmap
      ensures r.Ok? ==> multiset(IndexNodes(r.value, top)) == multiset(index)
    {
      top := 0;
      var level, depth := bitmap, 0;
      while true
        invariant top == depth && |level| >= 1
        invariant Laying(d, h, blocks, base) && Reserved(blocks, base) && |index| + NodesFor(|level|) == |blocks|
        invariant Over(level, depth, bitmap, index)
        invariant depth + Levels(|level|) == Levels(|bitmap|)
        decreases |level|
      {
        depth := depth + 1;
        var up := BuildLevel(level, blocks, depth, d, h, base);
        if up.Err? {
          return Err(up.error), top;
        }
        level := up.value;
        top := depth;
        if |level| == 1 {
          IndexDone(level, top, bitmap, index);
          return Ok(level[0]), top;
        }
      }
    }

    /** One level of the index: a node for every group of `INDEX_MAX` pointers. */
    method BuildLevel(level: seq<Bp>, blocks: seq<nat>, depth: nat, ghost d: seq<Block>, ghost h: History,
                      ghost base: nat -> nat)
      returns (r: Result<seq<Bp>>)
      requires Laying(d, h, blocks, base) && Reserved(blocks, base) && |level| >= 1 && depth >= 1
      requires |index| + Groups(|level|) <= |blocks| && Over(level, depth - 1, bitmap, index)
      modifies this`index, dev`pending, dev`cur, dev`history
      ensures r.Err? ==> r.error == Io && dev.flaky && DevOk() && Since(h, dev.history)
      ensures r.Ok? ==> Laying(d, h, blocks, base) && Reserved(blocks, base)
      ensures r.Ok? ==> |r.value| == Groups(|level|) && |index| == old(|index|) + |r.value|
      ensures r.Ok? ==> Over(r.value, depth, bitmap, index)
    {
      var up, p := [], 0;
      CoversStart(level, depth - 1, bitmap, index);
      GroupsStart(|level|);
      while p < |level|
        invariant p <= |level| && Grouped(|level|, |up|, p)
        invariant |index| == old(|index|) + |up|
        invariant Laying(d, h, blocks, base) && Reserved(blocks, base)
        invariant Covers(up, level, p, depth - 1, bitmap, index)
      {
        var q := if p + INDEX_MAX < |level| then p + INDEX_MAX else |level|;
        GroupsNext(|level|, |up|, p);
        var bp := NextGroup(level, up, p, q, blocks, depth, d, h, base);
        if bp.Err? {
          return Err(bp.error);
        }
        up := up + [bp.value];
        p := q;
      }
      GroupsEnd(|level|, |up|, p);
      CoversAll(up, level, depth - 1, bitmap, index);
      return Ok(up);
    }

    /** A level's next node, over its pointers `p` to `q`. */
    method NextGroup(level: seq<Bp>, ghost up: seq<Bp>, p: nat, q: nat, blocks: seq<nat>, depth: nat,
                     ghost d: seq<Block>, ghost h: History, ghost base: nat -> nat)
      returns (r: Result<Bp>)
      requires Laying(d, h, blocks, base) && Reserved(blocks, base) && |index| < |blocks|
      requires depth >= 1 && p < q <= |level| && q - p <= INDEX_MAX && Covers(up, level, p, depth - 1, bitmap, index)
      modifies this`index, dev`pending, dev`cur, dev`history
      ensures r.Err? ==> r.error == Io && dev.flaky && DevOk() && Since(h, dev.history)
      ensures r.Ok? ==> Laying(d, h, blocks, base) && Reserved(blocks, base) && |index| == old(|index|) + 1
      ensures r.Ok? ==> Covers(up + [r.value], level, q, depth - 1, bitmap, index)
    {
      ghost var i0 := index;
      var bp :- WriteIndexNode(IndexB(depth, txg + 1, level[p..q]), blocks, d, h, base);
      CoversNext(up, level, p, q, depth - 1, bitmap, i0, bp, txg + 1);
      return Ok(bp);
    }

    /** Writes an index node into the next reserved block. There always is one: the count made when
        reserving them is exact. */
    method WriteIndexNode(raw: Block, blocks: seq<nat>, ghost d: seq<Block>, ghost h: History, ghost base: nat -> nat)
        returns (r: Result<Bp>)
      requires Laying(d, h, blocks, base) && Reserved(blocks, base) && |index| < |blocks|
      modifies this`index, dev`pending, dev`cur, dev`history
      ensures r.Err? ==> r.error == Io && dev.flaky && DevOk() && Since(h, dev.history)
      ensures r.Ok? ==> r.value.count == 1 && r.value.sum == [raw] && index == old(index) + [r.value]
      ensures r.Ok? ==> Laying(d, h, blocks, base) && Reserved(blocks, base)
    {
      assert Open(LayingSeal, 0);
      ghost var d1, h1 := dev.cur, dev.history;
      var block := blocks[|index|];
      ExtraAlone(Spc(), total, base, bitmap, Bares(blocks), |index|);
      var wrote := WriteOne(block, raw);
      SinceTrans(h, h1, dev.history);
      if wrote.Err? {
        return Err(wrote.error);
      }
      IndexWritten(Spc(), total, base, bitmap, blocks, d1, dev.cur, index, txg + 1, raw);
      BaseKeptTrans(base, d, d1, dev.cur);
      index := index + [Bp(block, 1, txg + 1, [raw])];
      return Ok(Bp(block, 1, txg + 1, [raw]));
    }

    /** The pointer it returns leads to an index of bitmap blocks that hold exactly the bits in memory at the end,
        in which these blocks themselves are counted once each. */
    method WriteBitmap(ghost base: nat -> nat) returns (r: Result<Bp>, ghost top: nat)
      requires Space() && DevOk() && |bitmap| == |bitmapDirty| >= 1
      requires Clean(Spc(), bitmap) && Tally(Spc(), total, base, bitmap, index)
      requires OldLeaves(dev.cur, bitmap, txg) && Old(index, txg)
      modifies this`bits, this`held, this`bitmapDirty, this`cursor, this`bitmap, this`index, dev`pending, dev`cur
      modifies dev`history
      ensures DevOk() && Since(old(dev.history), dev.history)
      ensures r.Err? ==>
        (r.error == Full && old(Spare()) < old(MapCost(|bitmap|))) || (r.error == Io && dev.flaky)
      ensures r.Ok? ==> Space() && Tally(Spc(), total, base, bitmap, index) && |bitmap| == |bitmapDirty|
      ensures r.Ok? ==> forall k {:trigger bitmapDirty[k]} :: 0 <= k < |bitmapDirty| ==> !bitmapDirty[k]
      ensures r.Ok? ==> LeavesDone(bits, dev.cur, bitmap, txg + 1) && BaseKept(base, old(dev.cur), dev.cur)
      ensures r.Ok? ==> AllOnDisk(dev.cur, index) && AllBorn(index, txg + 1)
      ensures r.Ok? ==> 1 <= top == Levels(|bitmap|) && IndexShape(r.value, top) && IndexLeaves(r.value, top) == bitmap
      ensures r.Ok? ==> multiset(IndexNodes(r.value, top)) == multiset(index)
    {
      top := 0;
      ghost var landed, p := dev.landed, dev.spec;
      ghost var used := (b: nat) => p.uses(landed, b);
      var blocks, moved;
      blocks, moved := Rearrange(base, used);
      if blocks.Err? {
        return Err(blocks.error), top;
      }
      r, top := WriteArranged(blocks.value, moved, base, used);
    }

    /** Settles where the new bitmap goes: blocks for the index, and new places for what changed. */
    method Rearrange(ghost base: nat -> nat, ghost used: nat -> bool) returns (r: Result<seq<nat>>, moved: seq<bool>)
      requires Space() && DevOk() && Knows(used) && |bitmap| == |bitmapDirty| >= 1
      requires Clean(Spc(), bitmap) && Tally(Spc(), total, base, bitmap, index)
      requires OldLeaves(dev.cur, bitmap, txg) && Old(index, txg)
      modifies this`bits, this`held, this`bitmapDirty, this`cursor, this`bitmap, this`index
      ensures DevOk() && (r.Err? ==> r.error == Full && old(Spare()) < old(MapCost(|bitmap|)))
      ensures r.Ok? ==> Space() && index == [] && |bitmap| == |bitmapDirty| == old(|bitmap|)
      ensures r.Ok? ==> Tally(Spc(), total, base, bitmap, Bares(r.value)) && |r.value| == NodesFor(|bitmap|)
      ensures r.Ok? ==> forall i {:trigger r.value[i]} :: 0 <= i < |r.value| ==> !used(r.value[i])
      ensures r.Ok? ==> LeavesTo(bits, dev.cur, bitmap, moved, 0, txg + 1, used)
    {
      moved := [];
      var n := |bitmap|;
      FreeIndex(base);
      var nodes := CountNodes(n);
      var blocks := Reserve(nodes, base);
      if blocks.Err? {
        return blocks, [];
      }
      var m := MoveBitmap(base, Bares(blocks.value), used);
      if m.Err? {
        return Err(m.error), [];
      }
      ToWrite(Spc(), dev.cur, old(bitmap), bitmap, m.value, txg, used);
      return blocks, m.value;
    }

    method WriteArranged(blocks: seq<nat>, moved: seq<bool>, ghost base: nat -> nat, ghost used: nat -> bool)
        returns (r: Result<Bp>, ghost top: nat)
      requires Space() && DevOk() && Knows(used) && |bitmap| == |bitmapDirty| >= 1 && index == []
      requires Tally(Spc(), total, base, bitmap, Bares(blocks)) && |blocks| == NodesFor(|bitmap|)
      requires forall i {:trigger blocks[i]} :: 0 <= i < |blocks| ==> !used(blocks[i])
      requires LeavesTo(bits, dev.cur, bitmap, moved, 0, txg + 1, used)
      modifies this`bitmapDirty, this`bitmap, this`index, dev`pending, dev`cur, dev`history
      ensures DevOk() && Since(old(dev.history), dev.history)
      ensures r.Err? ==> r.error == Io && dev.flaky
      ensures r.Ok? ==> Space() && Tally(Spc(), total, base, bitmap, index) && |bitmap| == |bitmapDirty|
      ensures r.Ok? ==> forall k {:trigger bitmapDirty[k]} :: 0 <= k < |bitmapDirty| ==> !bitmapDirty[k]
      ensures r.Ok? ==> LeavesDone(bits, dev.cur, bitmap, txg + 1) && BaseKept(base, old(dev.cur), dev.cur)
      ensures r.Ok? ==> AllOnDisk(dev.cur, index) && AllBorn(index, txg + 1)
      ensures r.Ok? ==> 1 <= top == Levels(|bitmap|) && IndexShape(r.value, top) && IndexLeaves(r.value, top) == bitmap
      ensures r.Ok? ==> multiset(IndexNodes(r.value, top)) == multiset(index)
    {
      top := 0;
      var wrote := WriteLeaves(moved, base, Bares(blocks), used);
      if wrote.Err? {
        return Err(wrote.error), top;
      }
      ghost var s := Spc();
      bitmapDirty := seq(|bitmapDirty|, _ => false);
      TallyBits(s, Spc(), total, base, bitmap, Bares(blocks));
      r, top := BuildIndex(blocks, old(dev.cur), old(dev.history), base);
      if r.Ok? {
        assert Open(LayingSeal, 0);
        IndexTally(Spc(), total, base, bitmap, blocks, dev.cur, index, txg + 1);
      }
    }

    // --- The volume as a whole ---

    /** The disk is sound and its newest landed commit is the one this volume was last at. */
    ghost predicate Backed()
      reads this, dev
    {
      && dev.spec == KfsSpec(kept) && dev.landed == sb && total == sb.total && txg == sb.txg
      && dev.Valid() && dev.landing == None && total <= |dev.cur|
    }

    /** The bitmap in memory and on disk agree where nothing has changed. */
    ghost predicate MapOk()
      reads this, dev
    {
      |bitmap| == |bitmapDirty| >= 1 && Clean(Spc(), bitmap) && OldLeaves(dev.cur, bitmap, txg) && Old(index, txg)
    }

    /** The extents of every file. */
    ghost function Data(): seq<Bp>
      reads this
    {
      Extents(Content())
    }

    /** The free space is accounted for exactly: what is marked used is the tree, the runs in `data`,
        and the bitmap itself. (Sealed: see `Open`.) */
    ghost predicate Mid(data: seq<Bp>)
      reads this, dev
    {
      forall n: nat {:trigger Open(VolumeSeal, n)} :: Open(VolumeSeal, n) ==>
        && Backed() && DevOk() && Space() && TreeOk() && MapOk()
        && Books(Spc(), total, nodes, root, RootLevel(), data, bitmap, index)
    }

    /** What holds between the steps of every operation, `extra` being the allocated blocks that no
        file has yet. */
    ghost predicate Valid(extra: seq<Bp>)
      reads this, dev
    {
      forall n: nat {:trigger Open(VolumeSeal, n)} :: Open(VolumeSeal, n) ==>
        && Backed() && DevOk() && Space() && TreeOk() && MapOk()
        && Books(Spc(), total, nodes, root, RootLevel(), Data() + extra, bitmap, index)
        && DataOk(Content(), dev.cur, sb) && AllNew(extra, sb)
    }

    /** No operation is in progress: the volume is exactly its last commit. */
    ghost predicate AtRest()
      reads this
    {
      && nodes == [] && root == Child.Disk(sb.root) && !dirty && next == sb.next
      && Fresh(Spc(), sb) && bitmap == StateLeaves(sb) && multiset(index) == multiset(StateIndex(sb))
      && (forall b {:trigger held[b]} :: 0 <= b < |held| ==> !held[b])
      && (forall k {:trigger bitmapDirty[k]} :: 0 <= k < |bitmapDirty| ==> !bitmapDirty[k])
    }

    lemma ValidBacked(extra: seq<Bp>)
      requires Valid(extra)
      ensures Backed() && DevOk() && CacheOk(cache)
    {
      assert Open(VolumeSeal, 0);
    }

    lemma ValidSpace(extra: seq<Bp>)
      requires Valid(extra)
      ensures Space() && total <= |bits| == |held| && Room() == FreeCount(bits, held, total)
    {
      assert Open(VolumeSeal, 0);
    }

    lemma RestValid()
      requires Backed() && AtRest() && CacheOk(cache)
      ensures Valid([]) && Content() == StateItems(sb) && kept(Content(), next)
    {
      LandedReads(kept, dev.Now(), dev.cur, dev.history);
      FreshOk(dev.cur, sb, Spc());
      FreshTally(dev.cur, sb, Spc(), index);
      FreshMap(dev.cur, sb, Spc(), index);
      FreshTree(dev.cur, sb, Spc());
      FreshData(dev.cur, sb);
      assert Data() + [] == Data();
      DataOkIf(Content(), dev.cur, sb);
    }

    /** What a finished commit means: the operation's contents are durable, under the next
        transaction number, with the space exactly accounted for; and the commit before it is still
        complete on disk, its superblock in place. */
    ghost predicate Landed(was: Super, items: Items)
      reads this, dev
    {
      && Valid([]) && AtRest() && Content() == StateItems(sb) == items
      && sb.txg == was.txg + 1 && sb.next == next && sb.total == was.total
      && dev.pending == [] && Complete(dev.durable, sb) && Newest(dev.durable, sb)
      && Complete(dev.durable, was) && dev.durable[RingSlot(was.txg)] == SuperB(was)
    }

    /** How many blocks a commit may have to write: every node in memory, the index of the bitmap, and the bitmap. */
    ghost function ToCommit(): nat
      reads this
    {
      InMemory(nodes, root, RootLevel()) + MapCost(|bitmap|)
    }

    lemma AllSpare()
      requires Valid([])
      ensures Spare() == Room()
    {
      assert Open(VolumeSeal, 0);
      forall b: nat | b < DATA_START ensures BitAt(Spc(), b) == 1 {
        assert At(b);
      }
      SpareIsRoom(Spc(), total);
    }

    lemma CommitBound()
      requires Valid([])
      ensures ToCommit() <= CommitCost(|nodes|, sb.total)
    {
      assert Open(VolumeSeal, 0);
      FewInMemory(W(), root, RootLevel(), 0, 0);
    }

    lemma RoomAtRest()
      requires AtRest() && total == sb.total
      ensures Room() == RestRoom(sb)
    {
      FreshRoom(Spc(), sb);
    }

    /** Makes the operation's changes permanent. Without an error of the disk, it fails only if there is less room
        than it may have to write. */
    method Commit() returns (r: Result<()>)
      requires Valid([]) && (if dirty then kept(Content(), next) else AtRest())
      modifies this`nodes, this`root, this`dirty, this`bits, this`held, this`bitmapDirty, this`cursor, this`bitmap
      modifies this`index,
               this`cache, this`sb, this`txg, dev`durable, dev`pending, dev`cur, dev`landed, dev`landing, dev`history
      ensures Since(old(dev.history), dev.history) && CacheOk(cache)
      ensures r.Err? ==> Backed() && (r.error == Full || (r.error == Io && dev.flaky)) && sb == old(sb)
      ensures r == Err(Full) ==> old(Room()) < old(ToCommit())
      ensures r.Ok? && !old(dirty) ==> Valid([]) && AtRest() && sb == old(sb) && Content() == old(Content())
      ensures r.Ok? && old(dirty) ==> Landed(old(sb), old(Content()))
    {
      ValidBacked([]);
      AllSpare();
      if !dirty {
        return Ok(());
      }
      ghost var l, items, h := RootLevel(), Content(), dev.history;
      var bp :- WriteRoot();
      ghost var w, h1 := Wn(), dev.history;
      var bitmapRoot, top := WriteMap(bp, l, items);
      SinceTrans(h, h1, dev.history);
      if bitmapRoot.Err? {
        return Err(bitmapRoot.error);
      }
      ghost var h2 := dev.history;
      r := Finish(bp, bitmapRoot.value, w, l, items, top);
      SinceTrans(h, h2, dev.history);
    }

    /** The tree of the commit being written is on disk, its root at `bp`. */
    ghost predicate RootDone(bp: Bp, l: nat, items: Items)
      reads this, dev
    {
      forall n: nat {:trigger Open(VolumeSeal, n)} :: Open(VolumeSeal, n) ==>
        && Backed() && DevOk() && CacheOk(cache) && Space() && MapOk()
        && Shape(Wn(), Child.Disk(bp), l, 0, 0) && TreeItems(nodes, Child.Disk(bp), l) == items
        && Tally(Spc(), total, Base(nodes, Child.Disk(bp), l, Extents(items)), bitmap, index)
        && AllOnDisk(dev.cur, Extents(items)) && AllBorn(Extents(items), txg + 1)
    }

    /** So is the bitmap, its index's root at `bitmapRoot`. */
    ghost predicate MapDone(bp: Bp, bitmapRoot: Bp, w: World, l: nat, items: Items, top: nat)
      reads this, dev
    {
      forall n: nat {:trigger Open(VolumeSeal, n)} :: Open(VolumeSeal, n) ==>
        && Backed() && DevOk() && CacheOk(cache) && w.txg == txg + 1 && TreeItems(w.arena, Child.Disk(bp), l) == items
        && Built(w, dev.cur, Spc(), bp, l, Extents(items), bitmap, index, total)
        && IndexShape(bitmapRoot, top) && IndexLeaves(bitmapRoot, top) == bitmap && multiset(IndexNodes(bitmapRoot, top)) == multiset(index)
        && top == Levels(Bitmaps(total))
        && forall k {:trigger bitmapDirty[k]} :: 0 <= k < |bitmapDirty| ==> !bitmapDirty[k]
    }

    /** The first part of a commit: the tree. */
    method WriteRoot() returns (r: Result<Bp>)
      requires Valid([])
      modifies this`nodes, this`bits, this`bitmapDirty, this`cursor, this`cache, dev`pending, dev`cur, dev`history
      ensures Since(old(dev.history), dev.history)
      ensures r.Err? ==> Backed() && CacheOk(cache) && (r.error == Full || (r.error == Io && dev.flaky))
      ensures r == Err(Full) ==> old(Spare()) < old(InMemory(nodes, root, RootLevel()))
      ensures r.Ok? ==> Spare() == old(Spare()) - old(InMemory(nodes, root, RootLevel()))
      ensures r.Ok? ==> RootDone(r.value, old(RootLevel()), old(Content()))
    {
      assert Open(VolumeSeal, 0);
      ghost var l, data := RootLevel(), Data();
      assert Data() + [] == Data();
      DataOkGives(Content(), dev.cur, sb);
      NewBorn(data, sb);
      ghost var w0, s0 := Wn(), Spc();
      NextTxg(W(), w0, root, l, s0, total);
      var bp :- WriteChild(root, l, 0, 0);
      RootWritten(w0, Wn(), s0, Spc(), root, bp, l, data, bitmap, index, txg, total);
      return Ok(bp);
    }

    /** The second: the free-space bitmap. */
    method WriteMap(bp: Bp, ghost l: nat, ghost items: Items) returns (r: Result<Bp>, ghost top: nat)
      requires RootDone(bp, l, items)
      modifies this`bits, this`held, this`bitmapDirty, this`cursor, this`bitmap, this`index, dev`pending, dev`cur
      modifies dev`history
      ensures Since(old(dev.history), dev.history)
      ensures r.Err? ==> Backed() && CacheOk(cache) && (r.error == Full || (r.error == Io && dev.flaky))
      ensures r == Err(Full) ==> old(Spare()) < old(MapCost(|bitmap|))
      ensures r.Ok? ==> MapDone(bp, r.value, old(Wn()), l, items, top)
    {
      assert Open(VolumeSeal, 0);
      ghost var w, base := Wn(), Base(nodes, Child.Disk(bp), l, Extents(items));
      r, top := WriteBitmap(base);
      if r.Ok? {
        assert Built(w, dev.cur, Spc(), bp, l, Extents(items), bitmap, index, total);
      }
    }

    /** The last part: flush, write the superblock, flush; what the commit freed can be reused. */
    method Finish(bp: Bp, bitmapRoot: Bp, ghost w: World, ghost l: nat, ghost items: Items, ghost top: nat)
        returns (r: Result<()>)
      requires MapDone(bp, bitmapRoot, w, l, items, top) && kept(items, next)
      modifies this`nodes, this`root, this`dirty, this`held, this`sb, this`txg,
               dev`durable, dev`pending, dev`cur, dev`landed, dev`landing, dev`history
      ensures Since(old(dev.history), dev.history) && CacheOk(cache)
      ensures r.Err? ==> Backed() && r.error == Io && dev.flaky && sb == old(sb)
      ensures r.Ok? ==> Landed(old(sb), items)
    {
      assert Open(VolumeSeal, 0);
      var _ :- dev.Flush();
      ghost var h := dev.history;
      var free := FreeBlocks();
      var n := sb.(txg := txg + 1, root := bp, bitmap := bitmapRoot, free := free, next := next);
      CommitComplete(w, dev.cur, Spc(), bp, l, Extents(items), bitmap, index, top, n);
      Settle(n);
      SinceTrans(old(dev.history), h, dev.history);
      return Ok(());
    }

    /** Writes superblock `n`, whose state is complete on disk, and starts afresh from it. */
    method Settle(n: Super)
      requires Backed() && CacheOk(cache) && dev.pending == [] && Complete(dev.durable, n)
      requires n.txg == txg + 1 && n.total == total && n.next == next && kept(StateItems(n), n.next)
      requires Fresh(Spc(), n) && bitmap == StateLeaves(n) && multiset(index) == multiset(StateIndex(n))
      requires forall k {:trigger bitmapDirty[k]} :: 0 <= k < |bitmapDirty| ==> !bitmapDirty[k]
      modifies this`nodes, this`root, this`dirty, this`held, this`sb, this`txg,
               dev`durable, dev`pending, dev`cur, dev`landed, dev`landing, dev`history
      ensures Since(old(dev.history), dev.history) && CacheOk(cache)
      ensures Landed(old(sb), StateItems(n))
    {
      LandSuper(n);
      root := Child.Disk(n.root);
      nodes := [];
      held := seq(|held|, _ => false);
      dirty := false;
      RestValid();
      LandedReads(kept, dev.Now(), dev.cur, dev.history);
    }

    method LandSuper(n: Super)
      requires Backed() && dev.pending == [] && Complete(dev.durable, n)
      requires n.txg == txg + 1 && n.total == total && kept(StateItems(n), n.next)
      modifies this`sb, this`txg, dev`durable, dev`pending, dev`cur, dev`landed, dev`landing, dev`history
      ensures Backed() && sb == n && Since(old(dev.history), dev.history) && dev.pending == []
      ensures DATA_START <= |dev.durable|
      ensures Complete(dev.durable, old(sb)) && dev.durable[RingSlot(old(sb).txg)] == SuperB(old(sb))
    {
      StillThere(kept, dev.Now(), dev.cur, dev.history, n);
      dev.Land(n);
      sb := n;
      txg := txg + 1;
    }

    // --- Reading a volume back ---

    /** Succeeds with the bits the committed state has, or fails if some block of its bitmap cannot be trusted. */
    method LoadBitmap() returns (r: Result<()>)
      modifies this`bits, this`held, this`bitmap, this`bitmapDirty, this`index
      ensures total == sb.total && Complete(dev.cur, sb) ==>
        && (r.Err? ==> r.error == Io && dev.flaky)
        && (r.Ok? ==> Fresh(Spc(), sb))
      ensures r.Ok? ==> forall b {:trigger held[b]} :: 0 <= b < |held| ==> !held[b]
      ensures r.Ok? ==> forall k {:trigger bitmapDirty[k]} :: 0 <= k < |bitmapDirty| ==> !bitmapDirty[k]
      ensures r.Ok? ==> bits == FlatBits(bitmap) && |bitmap| == Bitmaps(total)
      ensures r.Ok? ==> AllMatch(dev.cur, bitmap) && AllMatch(dev.cur, index)
      ensures r.Ok? && Proper(sb) ==> bitmap == StateLeaves(sb) && index == StateIndex(sb)
    {
      if Complete(dev.cur, sb) {
        CompleteProper(dev.cur, sb);
      }
      var _ :- FindMap();
      var loaded :- ReadLeaves();
      bits := loaded;
      held := seq(|bits|, _ => false);
      bitmapDirty := seq(|bitmap|, _ => false);
      return Ok(());
    }

    /** Finds the bitmap's blocks through its index. */
    method FindMap() returns (r: Result<()>)
      modifies this`bitmap, this`index
      ensures r.Err? && total == sb.total && Complete(dev.cur, sb) ==> r.error == Io && dev.flaky
      ensures r.Ok? ==> |bitmap| == Bitmaps(total) && AllMatch(dev.cur, index)
      ensures r.Ok? && Proper(sb) ==> bitmap == StateLeaves(sb) && index == StateIndex(sb)
    {
      if Complete(dev.cur, sb) {
        MapReads(dev.cur, sb);
      }
      if Proper(sb) {
        SoundShape(sb);
      }
      var n := Bitmaps(total);
      bitmap := [];
      index := [];
      var _ :- WalkIndex(sb.bitmap, 0, IndexLevel(sb));
      if |bitmap| != n {
        return Err(Damaged);
      }
      return Ok(());
    }

    /** The bits in the bitmap blocks, checksums verified. */
    method ReadLeaves() returns (r: Result<seq<bool>>)
      ensures r.Ok? ==> r.value == FlatBits(bitmap) && AllMatch(dev.cur, bitmap)
      ensures r.Err? && Complete(dev.cur, sb) && bitmap == StateLeaves(sb) ==> r.error == Io && dev.flaky
    {
      var loaded, k := [], 0;
      while k < |bitmap|
        invariant 0 <= k <= |bitmap|
        invariant loaded == FlatBits(bitmap[..k]) && AllMatch(dev.cur, bitmap[..k])
      {
        if Complete(dev.cur, sb) && bitmap == StateLeaves(sb) {
          LeafReads(dev.cur, sb, k);
        }
        var b :- dev.Read(bitmap[k].block, 1);
        if b != bitmap[k].sum {
          return Err(Damaged);
        }
        OneMoreMatch(dev.cur, bitmap, k, b);
        loaded := loaded + LeafBits(bitmap[k]);
        FlatBitsNext(bitmap, k);
        k := k + 1;
      }
      assert bitmap[..k] == bitmap;
      return Ok(loaded);
    }

    lemma OneMoreMatch(disk: seq<Block>, bps: seq<Bp>, k: nat, b: seq<Block>)
      requires k < |bps| && AllMatch(disk, bps[..k]) && bps[k].block < |disk|
      requires b == disk[bps[k].block..bps[k].block + 1] == bps[k].sum
      ensures AllMatch(disk, bps[..k + 1])
    {
      var s := bps[..k + 1];
      forall i | 0 <= i < k + 1 ensures Matches(disk, s[i]) {
        assert i < k ==> s[i] == bps[..k][i];
      }
    }

    /** Collects the index nodes from `bp` down and the bitmap blocks they lead to, checksums
        verified. */
    method WalkIndex(bp: Bp, depth: nat, ghost l: nat) returns (r: Result<()>)
      requires depth <= 9
      modifies this`bitmap, this`index
      ensures Walkable(dev.cur, bp, l, depth) && r.Err? ==> r.error == Io && dev.flaky
      ensures Shapely(bp, l, depth) && r.Ok? ==> bitmap == old(bitmap) + IndexLeaves(bp, l)
      ensures Shapely(bp, l, depth) && r.Ok? ==> index == old(index) + IndexNodes(bp, l)
      ensures AllMatch(dev.cur, old(index)) && r.Ok? ==> AllMatch(dev.cur, index)
      decreases 9 - depth, 0
    {
      if depth > 8 {
        return Err(TooDeep);
      }
      ghost var good, shaped, matched := Walkable(dev.cur, bp, l, depth), Shapely(bp, l, depth), AllMatch(dev.cur,
                                                  index);
      var b :- ReadIndexNode(bp, l, depth);
      index := index + [bp];
      var bps, i := b.bps, 0;
      ghost var m, b0, i0 := if l == 0 then 0 else l - 1, bitmap, index;
      assert bps[..0] == [];
      while i < |bps|
        invariant 0 <= i <= |bps|
        invariant shaped ==> bitmap == b0 + Leaves(bps[..i], m) && index == i0 + Nodes(bps[..i], m)
        invariant matched ==> AllMatch(dev.cur, index)
      {
        if shaped && m > 0 {
          ShapeKids(bps, m, i);
        }
        if good && m > 0 {
          WalkKid(dev.cur, bp, l, depth, i);
        }
        WalkNext(bps, i, m);
        var _ :- WalkChild(b.level, bps[i], depth + 1, m);
        OneMoreTo(b0, Leaves(bps[..i], m), LeavesUnder(bps[i], m));
        OneMoreTo(i0, Nodes(bps[..i], m), NodesUnder(bps[i], m));
        i := i + 1;
      }
      assert bps[..i] == bps;
      OneMoreTo(old(index), [bp], Nodes(bps, m));
      return Ok(());
    }

    method ReadIndexNode(bp: Bp, ghost l: nat, ghost depth: nat) returns (r: Result<Block>)
      ensures r.Ok? ==> bp.sum == [r.value] && r.value.IndexB? && IndexBps(bp) == r.value.bps && Matches(dev.cur, bp)
      ensures r.Err? && Walkable(dev.cur, bp, l, depth) ==> r.error == Io && dev.flaky
    {
      if Walkable(dev.cur, bp, l, depth) {
        WalkTop(dev.cur, bp, l, depth);
      }
      var b :- dev.Read(bp.block, 1);
      if b != bp.sum {
        return Err(Damaged);
      }
      if !b[0].IndexB? || b[0].level == 0 || |b[0].bps| > INDEX_MAX {
        return Err(Damaged);
      }
      return Ok(b[0]);
    }

    /** A child of an index node at level `level`. */
    method WalkChild(level: nat, bp: Bp, depth: nat, ghost m: nat) returns (r: Result<()>)
      requires depth <= 9
      modifies this`bitmap, this`index
      ensures level == m + 1 && (m > 0 ==> Walkable(dev.cur, bp, m, depth)) && r.Err? ==> r.error == Io && dev.flaky
      ensures level == m + 1 && (m > 0 ==> Shapely(bp, m, depth)) && r.Ok? ==>
        bitmap == old(bitmap) + LeavesUnder(bp, m) && index == old(index) + NodesUnder(bp, m)
      ensures AllMatch(dev.cur, old(index)) && r.Ok? ==> AllMatch(dev.cur, index)
      decreases 9 - depth, 1
    {
      if level == 1 {
        bitmap := bitmap + [bp];
        return Ok(());
      }
      r := WalkIndex(bp, depth, m);
    }

    /** The content is once more that of the last superblock, with the books of that state. */
    method Abort() returns (r: Result<()>)
      requires Backed() && CacheOk(cache)
      modifies this`nodes, this`root, this`next, this`dirty, this`bits, this`held, this`bitmap, this`bitmapDirty
      modifies this`index
      ensures r.Err? ==> r.error == Io && dev.flaky
      ensures r.Ok? ==> Valid([]) && AtRest() && Content() == StateItems(sb) && kept(Content(), next)
    {
      nodes := [];
      root := Child.Disk(sb.root);
      next := sb.next;
      dirty := false;
      LastReads();
      var _ :- LoadBitmap();
      RestValid();
      return Ok(());
    }

    lemma LastReads()
      requires Backed()
      ensures Complete(dev.cur, sb) && Proper(sb)
    {
      LandedReads(kept, dev.Now(), dev.cur, dev.history);
      CompleteProper(dev.cur, sb);
    }

    // --- Changing files ---

    lemma ToMid(extra: seq<Bp>)
      requires Valid(extra)
      ensures Mid(Data() + extra) && DataOk(Content(), dev.cur, sb) && AllNew(extra, sb)
      ensures Sorted(Content()) && Backed() && CacheOk(cache) && DevOk()
    {
      assert Open(VolumeSeal, 0);
      ItemsOrdered(W(), root, RootLevel(), 0, 0);
    }

    lemma FromMid(data: seq<Bp>, extra: seq<Bp>)
      requires Mid(data) && SameRuns(data, Data() + extra) && DataOk(Content(), dev.cur, sb) && AllNew(extra, sb)
      ensures Valid(extra)
    {
      assert Open(VolumeSeal, 0);
      BooksSame(Spc(), total, nodes, root, RootLevel(), data, Data() + extra, bitmap, index);
    }

    /** Adds or replaces an item, whatever file data is lying about. */
    method SetItem(key: Key, data: Data, ghost runs: seq<Bp>) returns (r: Result<()>)
      requires Mid(runs) && ITEM_HEADER + DataSize(data) <= ROOM
      modifies this`root, this`dirty, this`nodes, this`bits, this`held, this`bitmapDirty, this`cache, this`clock
      ensures r.Err? ==> Failed(r.error)
      ensures r.Ok? ==> Mid(runs) && dirty && Content() == Put(old(Content()), key, data)
      ensures r.Ok? ==> Room() == old(Room()) && Spent(old(Has()), Has(), 1)
    {
      assert Open(VolumeSeal, 0);
      ghost var w, s, c, l := W(), Spc(), root, RootLevel();
      var _ :- Insert(key, data);
      BooksMoved(w, W(), s, Spc(), c, root, l, RootLevel(), runs, bitmap, index, total);
      return Ok(());
    }

    method DropItem(key: Key, ghost runs: seq<Bp>) returns (r: Result<Option<Data>>)
      requires Mid(runs)
      modifies this`root, this`dirty, this`nodes, this`bits, this`held, this`bitmapDirty, this`cache, this`clock
      ensures r.Err? ==> Failed(r.error)
      ensures r.Ok? ==> Mid(runs) && dirty && Content() == Cut(old(Content()), key)
      ensures r.Ok? ==> r.value == Find(old(Content()), key)
      ensures r.Ok? ==> Room() == old(Room()) && Spent(old(Has()), Has(), 1)
    {
      assert Open(VolumeSeal, 0);
      ghost var w, s, c, l := W(), Spc(), root, RootLevel();
      var was :- Remove(key);
      BooksMoved(w, W(), s, Spc(), c, root, l, RootLevel(), runs, bitmap, index, total);
      return Ok(was);
    }

    ghost function Room(): nat
      reads this
    {
      RoomIn(Spc(), total)
    }

    ghost function Has(): Means
      reads this
    {
      Means(Room(), |nodes|)
    }

    /** What may go wrong without anything being wrong with the volume. */
    ghost predicate Excuse(e: Error)
      reads this, dev
    {
      (e == TooDeep && RootLevel() > MAX_DEPTH) || (e == Io && dev.flaky)
    }

    /** The last commit can be gone back to. (Sealed: see `Open`.) */
    ghost predicate Intact()
      reads this, dev
    {
      forall n: nat {:trigger Open(VolumeSeal, n)} :: Open(VolumeSeal, n) ==> Backed() && CacheOk(cache)
    }

    /** The last commit is intact, whatever has become of the operation. */
    ghost predicate Failed(e: Error)
      reads this, dev
    {
      Intact() && Excuse(e)
    }

    lemma ValidIntact(extra: seq<Bp>)
      requires Valid(extra)
      ensures Intact()
    {
      assert Open(VolumeSeal, 0);
    }

    /** As above, or the disk is full. */
    ghost predicate Stuck(e: Error)
      reads this, dev
    {
      Intact() && (Excuse(e) || e == Full)
    }

    /** While there is room there is a block to be had. */
    lemma RoomFree(extra: seq<Bp>) returns (b: nat)
      requires Valid(extra) && Room() > 0
      ensures DATA_START <= b < total <= |bits| == |held| && IsFree(bits, held, b)
    {
      assert Open(VolumeSeal, 0);
      b := SomeFree(bits, held, total);
      assert At(b);
    }

    /** The next unused object number. */
    method NewObject(ghost extra: seq<Bp>) returns (obj: nat)
      requires Valid(extra)
      modifies this`next
      ensures Valid(extra) && obj == old(next) && next == obj + 1 && Has() == old(Has())
    {
      assert Open(VolumeSeal, 0);
      obj := next;
      next := next + 1;
    }

    /** A scan in the middle of an operation. */
    method Look(start: Key, more: Item -> bool, ghost extra: seq<Bp>) returns (r: Result<Items>)
      requires Valid(extra)
      modifies this`cache, this`clock
      ensures Valid(extra)
      ensures r.Err? ==> Failed(r.error)
      ensures r.Ok? ==> r.value == Visit(Content(), start, more).0
    {
      assert Open(VolumeSeal, 0);
      r := Scan(start, more);
    }

    method GetItem(key: Key, ghost extra: seq<Bp>) returns (r: Result<Option<Data>>)
      requires Valid(extra)
      modifies this`cache, this`clock
      ensures Valid(extra)
      ensures r.Err? ==> Failed(r.error)
      ensures r.Ok? ==> r.value == Find(Content(), key)
    {
      assert Open(VolumeSeal, 0);
      r := Get(key);
    }

    /** Allocates the run `start..start + got`, which a search has found. */
    method TakeRun(start: nat, got: nat, ghost extra: seq<Bp>)
      requires Valid(extra) && got > 0 && |bits| == |held| && total <= |bits|
      requires DATA_START <= start && start + got <= total && FreeRun(bits, held, start, got)
      modifies this`bits, this`bitmapDirty, this`cursor
      ensures Valid(extra + [Bp(start, got, txg + 1, [])]) && |bits| == |held| && total <= |bits|
      ensures Room() == old(Room()) - got
    {
      Accounted(extra);
      ghost var s, w, data := Spc(), W(), Data();
      SetUsed(start, got);
      assert W() == w;
      assert Data() == data;
      RunTaken(s, Bp(start, got, txg + 1, []), extra);
    }

    /** The parts of `Valid` that are about free space, for the free space `s`. (Sealed: see `Open`.) */
    ghost predicate AccountsFor(w: World, s: Spc, c: Child, data: seq<Bp>, extra: seq<Bp>, leaves: seq<Bp>, i: seq<Bp>, n: Super) {
      forall x: nat {:trigger Open(VolumeSeal, x)} :: Open(VolumeSeal, x) ==>
        && Ready(w, s, c, Level(w.arena, c), 0, 0, n.total) && Clean(s, leaves) && AllNew(extra, n)
        && Books(s, n.total, w.arena, c, Level(w.arena, c), data + extra, leaves, i)
        && OldLeaves(w.disk, leaves, n.txg) && Old(i, n.txg)
        && forall b: nat {:trigger StateUses(n, b)} :: StateUses(n, b) > 0 ==> Guarded(s, b)
    }

    lemma Accounted(extra: seq<Bp>)
      requires Valid(extra)
      ensures AccountsFor(W(), Spc(), root, Data(), extra, bitmap, index, sb)
      ensures Backed() && CacheOk(cache) && Space() && |bitmap| == |bitmapDirty| >= 1 && DataOk(Content(), dev.cur, sb)
    {
      assert Open(VolumeSeal, 0);
      forall b: nat | StateUses(sb, b) > 0 ensures Guarded(Spc(), b) {
        assert dev.spec.uses(dev.landed, b);
      }
    }

    lemma RunTaken(s: Spc, run: Bp, extra: seq<Bp>)
      requires AccountsFor(W(), s, root, Data(), extra, bitmap, index, sb)
      requires Backed() && CacheOk(cache) && Space() && |bitmap| == |bitmapDirty| >= 1 && DataOk(Content(), dev.cur, sb)
      requires run.birth == sb.txg + 1 && Flipped(s, Spc(), run.block, run.block + run.count, true) && held == s.held
      requires DATA_START <= run.block && run.block + run.count <= total <= |s.bits| == |s.held|
      requires FreeRun(s.bits, s.held, run.block, run.count)
      ensures Valid(extra + [run]) && |bits| == |held| && total <= |bits|
      ensures Room() == RoomIn(s, total) - run.count
    {
      assert Open(VolumeSeal, 0);
      RunTakes(W(), s, Spc(), root, RootLevel(), Data(), extra, bitmap, index, total, sb, run);
    }

    /** Frees run `i` of `data`. */
    method GiveRun(bp: Bp, ghost data: seq<Bp>, ghost i: nat)
      requires Mid(data) && i < |data| && data[i] == bp && NewData(bp, sb)
      modifies this`bits, this`held, this`bitmapDirty
      ensures Mid(data[..i] + data[i + 1..]) && Room() >= old(Room())
    {
      assert Open(VolumeSeal, 0);
      ghost var s, rest := Spc(), data[..i] + data[i + 1..];
      RunOut(data, i);
      if bp.count > 0 {
        RunInData(s, total, nodes, root, RootLevel(), data, bitmap, index, i);
      }
      Free(bp);
      TreeFreed(W(), s, Spc(), root, RootLevel(), data, rest, bp, bitmap, index, total);
      CleanFlipped(s, Spc(), bp.block, FreeEnd(bp, total), false, bitmap, total);
      BooksFreed(s, Spc(), total, nodes, root, RootLevel(), data, bitmap, index, bp, rest);
      RoomFreed(s, Spc(), total, nodes, root, RootLevel(), data, bitmap, index, bp, rest);
      StillCovered(s, bp);
    }

    /** Freeing file data takes nothing from the committed state. */
    lemma StillCovered(s: Spc, bp: Bp)
      requires Backed() && SpcOk(s, total) && NewData(bp, sb)
      requires forall b: nat {:trigger dev.spec.uses(dev.landed, b)} :: dev.spec.uses(dev.landed, b) ==> Guarded(s, b)
      requires Flipped(s, Spc(), bp.block, FreeEnd(bp, total), false)
      requires if bp.birth <= txg then Filled(s.held, held, bp.block, FreeEnd(bp, total), true) else held == s.held
      ensures DevOk()
    {
      forall b: nat | dev.spec.uses(dev.landed, b) ensures Guarded(Spc(), b) {
        assert StateUses(sb, b) > 0;
        assert Guarded(s, b);
        assert held[b] == s.held[b] || held[b];
        assert bp.birth > txg ==> BpUses(bp, b) == 0;
      }
    }

    /** Writes part of an allocated run that no file has yet. */
    method FillRun(ghost run: Bp, at: nat, blocks: seq<Block>) returns (r: Result<()>)
      requires Valid([run]) && run.birth == txg + 1 && run.block <= at && at + |blocks| <= run.block + run.count
      requires |blocks| > 0
      modifies dev`pending, dev`cur, dev`history
      ensures Since(old(dev.history), dev.history)
      ensures r.Err? ==> Failed(r.error)
      ensures r.Ok? ==> Valid([run]) && BpOnDisk(dev.cur, Bp(at, |blocks|, txg + 1, blocks))
    {
      assert Open(VolumeSeal, 0);
      ghost var w, l := W(), RootLevel();
      ghost var data := Data() + [run];
      assert data[|data| - 1] == run;
      RunInData(Spc(), total, nodes, root, l, data, bitmap, index, |data| - 1);
      NewAt([run], sb, 0);
      forall i: nat | at <= i < at + |blocks| ensures !dev.spec.uses(dev.landed, i) {
        assert StateUses(sb, i) > 0 ==> BpUses(run, i) == 0;
      }
      var _ :- dev.Write(at, blocks);
      assert dev.cur[at..at + |blocks|] == blocks;
      RunWritten(w, dev.cur, Spc(), root, l, Content(), run, bitmap, index, total, sb, txg);
      return Ok(());
    }
  }

  /** The volume superblock `s` describes, if its state reads back: always when the state is complete
      and the disk reports no error, and never when part of what is checked is damaged. */
  method OpenVolume(dev: Disk, s: Super, ghost kept: Promise) returns (r: Result<Fs>)
    ensures r.Ok? ==> fresh(r.value) && r.value.dev == dev && r.value.kept == kept && r.value.sb == s
    ensures r.Ok? ==> CacheOk(r.value.cache)
    ensures Complete(dev.cur, s) ==>
      && (r.Err? ==> r.error == Io && dev.flaky)
      && (r.Ok? ==> r.value.AtRest() && r.value.total == s.total <= |dev.cur| && r.value.txg == s.txg)
    ensures r.Ok? && Proper(s) ==> Readable(dev.cur, s)
  {
    if Complete(dev.cur, s) {
      FreshData(dev.cur, s);
    }
    if s.total > |dev.cur| {
      return Err(Damaged);
    }
    var fs := new Fs(dev, s, kept);
    var _ :- LoadState(fs);
    return Ok(fs);
  }

  /** Loads a new volume's bitmap, and checks that its tree has a root. */
  method LoadState(fs: Fs) returns (r: Result<()>)
    requires fs.nodes == [] && fs.root == Child.Disk(fs.sb.root) && !fs.dirty && fs.next == fs.sb.next
    requires fs.total == fs.sb.total <= |fs.dev.cur|
    requires fs.cache == [] && CacheOk(fs.cache)
    modifies fs`bits, fs`held, fs`bitmap, fs`bitmapDirty, fs`index, fs`cache, fs`clock
    ensures CacheOk(fs.cache)
    ensures Complete(fs.dev.cur, fs.sb) && r.Err? ==> r.error == Io && fs.dev.flaky
    ensures Complete(fs.dev.cur, fs.sb) && r.Ok? ==> fs.AtRest()
    ensures r.Ok? && Proper(fs.sb) ==> Readable(fs.dev.cur, fs.sb)
  {
    if Complete(fs.dev.cur, fs.sb) {
      RootReads(fs.dev.cur, fs.sb);
      CompleteProper(fs.dev.cur, fs.sb);
    }
    var _ :- fs.LoadBitmap();
    var _ :- fs.LoadNode(fs.sb.root);
    return Ok(());
  }

  ghost predicate InRing(disk: seq<Block>, s: Super) {
    exists i {:trigger disk[i]} :: SB_FIRST <= i < SB_FIRST + SB_SLOTS && i < |disk| && disk[i] == SuperB(s)
  }

  ghost predicate AllInRing(disk: seq<Block>, found: seq<Super>) {
    forall j {:trigger found[j]} :: 0 <= j < |found| ==> InRing(disk, found[j])
  }

  ghost predicate HasTxg(found: seq<Super>, txg: nat) {
    exists j {:trigger found[j]} :: 0 <= j < |found| && found[j].txg == txg
  }

  /** A superblock of every transaction number there is in the first `n` slots has been found. */
  ghost predicate AllFound(disk: seq<Block>, found: seq<Super>, n: nat) {
    forall i {:trigger disk[i]} :: SB_FIRST <= i < SB_FIRST + n && i < |disk| && disk[i].SuperB? ==> HasTxg(found, disk[i].sb.txg)
  }

  lemma FoundNext(disk: seq<Block>, found: seq<Super>, slot: nat, block: Block)
    requires AllInRing(disk, found) && AllFound(disk, found, slot) && slot < SB_SLOTS
    requires SB_FIRST + slot < |disk| && block == disk[SB_FIRST + slot]
    ensures !block.SuperB? || HasTxg(found, block.sb.txg) ==> AllFound(disk, found, slot + 1)
    ensures block.SuperB? ==> AllInRing(disk, found + [block.sb]) && AllFound(disk, found + [block.sb], slot + 1)
  {
    if block.SuperB? {
      var found' := found + [block.sb];
      forall j | 0 <= j < |found'| ensures InRing(disk, found'[j]) {
        assert j < |found| ==> found'[j] == found[j];
      }
      forall i | SB_FIRST <= i < SB_FIRST + slot + 1 && i < |disk| && disk[i].SuperB? ensures HasTxg(found', disk[i].sb.txg) {
        if i == SB_FIRST + slot {
          assert found'[|found|] == block.sb;
        } else {
          var j :| 0 <= j < |found| && found[j].txg == disk[i].sb.txg;
          assert found'[j] == found[j];
        }
      }
    }
  }

  /** Every valid superblock in the ring, the first of those with the same transaction number. A read
      error ends the search. */
  method FindSupers(dev: Disk) returns (found: seq<Super>)
    ensures AllInRing(dev.cur, found)
    ensures forall i, j :: 0 <= i < j < |found| ==> found[i].txg != found[j].txg
    ensures !dev.flaky && SB_FIRST + SB_SLOTS <= |dev.cur| ==> AllFound(dev.cur, found, SB_SLOTS)
  {
    found := [];
    var slot := 0;
    while slot < SB_SLOTS
      invariant 0 <= slot <= SB_SLOTS
      invariant AllInRing(dev.cur, found) && AllFound(dev.cur, found, slot)
      invariant forall i, j :: 0 <= i < j < |found| ==> found[i].txg != found[j].txg
    {
      var b := dev.Read(SB_FIRST + slot, 1);
      if b.Err? {
        break;
      }
      var block := b.value[0];
      assert block == dev.cur[SB_FIRST + slot..SB_FIRST + slot + 1][0];
      FoundNext(dev.cur, found, slot, block);
      if block.SuperB? && forall i | 0 <= i < |found| :: found[i].txg != block.sb.txg {
        found := found + [block.sb];
      }
      slot := slot + 1;
    }
  }

  ghost predicate Descending(s: seq<Super>) {
    forall i, j :: 0 <= i <= j < |s| ==> s[i].txg >= s[j].txg
  }

  /** The superblocks, newest first. */
  method NewestFirst(found: seq<Super>) returns (sorted: seq<Super>)
    ensures multiset(sorted) == multiset(found) && Descending(sorted)
  {
    sorted := [];
    var n := 0;
    while n < |found|
      invariant 0 <= n <= |found|
      invariant multiset(sorted) == multiset(found[..n]) && Descending(sorted)
    {
      var p := 0;
      while p < |sorted| && sorted[p].txg >= found[n].txg
        invariant 0 <= p <= |sorted|
        invariant p > 0 ==> sorted[p - 1].txg >= found[n].txg
      {
        p := p + 1;
      }
      SlottedIn(sorted, found, n, p);
      sorted := sorted[..p] + [found[n]] + sorted[p..];
      n := n + 1;
    }
    assert found[..n] == found;
  }

  lemma OneIn<T>(s: seq<T>, p: nat, x: T)
    requires p <= |s|
    ensures multiset(s[..p] + [x] + s[p..]) == multiset(s) + multiset{x}
  {
    assert s == s[..p] + s[p..];
  }

  lemma SlottedIn(sorted: seq<Super>, found: seq<Super>, n: nat, p: nat)
    requires n < |found| && multiset(sorted) == multiset(found[..n]) && p <= |sorted| && Descending(sorted)
    requires p > 0 ==> sorted[p - 1].txg >= found[n].txg
    requires p < |sorted| ==> found[n].txg >= sorted[p].txg
    ensures multiset(sorted[..p] + [found[n]] + sorted[p..]) == multiset(found[..n + 1])
    ensures Descending(sorted[..p] + [found[n]] + sorted[p..])
  {
    OneIn(sorted, p, found[n]);
    assert found[..n + 1] == found[..n] + [found[n]];
    StillDescending(sorted, found[n], p);
  }

  lemma StillDescending(sorted: seq<Super>, x: Super, p: nat)
    requires p <= |sorted| && Descending(sorted)
    requires p > 0 ==> sorted[p - 1].txg >= x.txg
    requires p < |sorted| ==> x.txg >= sorted[p].txg
    ensures Descending(sorted[..p] + [x] + sorted[p..])
  {
    var s := sorted[..p] + [x] + sorted[p..];
    forall i, j | 0 <= i <= j < |s| ensures s[i].txg >= s[j].txg {
      assert i < p ==> s[i] == sorted[i] && sorted[i].txg >= sorted[p - 1].txg;
      assert j > p ==> s[j] == sorted[j - 1] && sorted[p].txg >= sorted[j - 1].txg;
    }
  }

  /** `b` is the newest superblock in the ring but for `a`. */
  ghost predicate NextNewest(disk: seq<Block>, a: Super, b: Super) {
    && InRing(disk, b) && b.txg < a.txg
    && forall i {:trigger disk[i]} :: SB_FIRST <= i < SB_FIRST + SB_SLOTS && i < |disk| && disk[i].SuperB? ==>
         disk[i].sb == a || disk[i].sb.txg < b.txg || disk[i].sb == b
  }

  /** The newest commit has been damaged where mounting it would notice, the one before is complete. */
  ghost predicate Damage(disk: seq<Block>, a: Super, b: Super) {
    Newest(disk, a) && NextNewest(disk, a, b) && Proper(a) && !Readable(disk, a) && Complete(disk, b)
  }

  /** Then the first state that can be read is that one. */
  lemma FallsBack(disk: seq<Block>, found: seq<Super>, sorted: seq<Super>, k: nat, a: Super, b: Super)
    requires Damage(disk, a, b) && AllInRing(disk, found) && AllFound(disk, found, SB_SLOTS)
    requires multiset(sorted) == multiset(found) && Descending(sorted) && k <= |sorted|
    requires forall j :: 0 <= j < k ==> !Complete(disk, sorted[j])
    requires k < |sorted| && Proper(sorted[k]) ==> Readable(disk, sorted[k])
    ensures k < |sorted| && sorted[k] == b
  {
    var i :| SB_FIRST <= i < SB_FIRST + SB_SLOTS && i < |disk| && disk[i] == SuperB(b);
    var n :| 0 <= n < |found| && found[n].txg == b.txg;
    assert InRing(disk, found[n]) && found[n] == b;
    assert b in multiset(sorted);
    var j :| 0 <= j < |sorted| && sorted[j] == b;
    assert k <= j && sorted[k].txg >= sorted[j].txg;
    assert sorted[k] in multiset(found);
    var m :| 0 <= m < |found| && found[m] == sorted[k];
    assert InRing(disk, found[m]);
  }

  /** Mounts the newest superblock whose state can be read. On a disk that is sound and reports no
      error, that is the newest commit that landed; if that one has since been damaged, it is the one
      before (which Commit leaves complete). */
  method Mount(dev: Disk, ghost kept: Promise) returns (r: Result<Fs>)
    ensures r.Ok? ==> fresh(r.value) && r.value.dev == dev && r.value.kept == kept
    ensures dev.Valid() && dev.spec == KfsSpec(kept) && dev.landing == None && !dev.flaky ==>
      && r.Ok? && r.value.sb == dev.landed && r.value.Valid([]) && r.value.AtRest()
      && r.value.Content() == StateItems(dev.landed) && kept(r.value.Content(), r.value.next)
    ensures forall a, b {:trigger NextNewest(dev.cur, a, b)} :: Damage(dev.cur, a, b) && !dev.flaky ==>
      r.Ok? && r.value.sb == b && r.value.AtRest()
  {
    var found := FindSupers(dev);
    var sorted := NewestFirst(found);
    ghost var k;
    r, k := FirstReadable(dev, sorted, kept);
    if dev.Valid() && dev.spec == KfsSpec(kept) && dev.landing == None && !dev.flaky {
      LandedReads(kept, dev.Now(), dev.cur, dev.history);
      NewestIsFirst(dev, found, sorted);
      assert k == 0;
      r.value.RestValid();
    }
    forall a, b | Damage(dev.cur, a, b) && !dev.flaky ensures k < |sorted| && sorted[k] == b {
      FallsBack(dev.cur, found, sorted, k, a, b);
    }
  }

  /** The first of these volumes whose state reads back. */
  method FirstReadable(dev: Disk, sorted: seq<Super>, ghost kept: Promise) returns (r: Result<Fs>, ghost k: nat)
    ensures k <= |sorted| && (r.Ok? <==> k < |sorted|)
    ensures r.Ok? ==> fresh(r.value) && r.value.dev == dev && r.value.kept == kept && CacheOk(r.value.cache)
    ensures r.Ok? ==> r.value.sb == sorted[k]
    ensures r.Ok? && Proper(sorted[k]) ==> Readable(dev.cur, sorted[k])
    ensures r.Ok? && Complete(dev.cur, sorted[k]) ==>
      r.value.AtRest() && r.value.total == sorted[k].total <= |dev.cur| && r.value.txg == sorted[k].txg
    ensures !dev.flaky ==> forall j :: 0 <= j < k ==> !Complete(dev.cur, sorted[j])
  {
    var firstError := Damaged;
    var n := 0;
    while n < |sorted|
      invariant 0 <= n <= |sorted|
      invariant !dev.flaky ==> forall j :: 0 <= j < n ==> !Complete(dev.cur, sorted[j])
    {
      var fs := OpenVolume(dev, sorted[n], kept);
      if fs.Ok? {
        return fs, n;
      }
      if n == 0 {
        firstError := fs.error;
      }
      n := n + 1;
    }
    return Err(firstError), n;
  }

  lemma NewestIsFirst(dev: Disk, found: seq<Super>, sorted: seq<Super>)
    requires Newest(dev.cur, dev.landed) && AllInRing(dev.cur, found) && AllFound(dev.cur, found, SB_SLOTS)
    requires multiset(sorted) == multiset(found) && Descending(sorted)
    ensures sorted != [] && sorted[0] == dev.landed
  {
    assert dev.cur[RingSlot(dev.landed.txg)] == SuperB(dev.landed);
    var n :| 0 <= n < |found| && found[n].txg == dev.landed.txg;
    assert InRing(dev.cur, found[n]) && found[n] == dev.landed;
    assert found[n] in multiset(sorted);
    var j :| 0 <= j < |sorted| && sorted[j] == found[n];
    assert sorted[0].txg >= sorted[j].txg;
    assert sorted[0] in multiset(found);
    var m :| 0 <= m < |found| && found[m] == sorted[0];
    assert InRing(dev.cur, found[m]);
  }

  /** Crash safety over whole runs. `h` is everything a sound disk has been through; at any moment `m`
      of it the machine stops, and the disk keeps `img`: any part of the writes not flushed yet, its
      newest superblock possibly torn. Mounting what is left finds exactly the last commit that had
      landed or the one that was landing, complete, with its space accounted for. */
  method Reboot(img: seq<Block>, ghost m: Moment, ghost h: History, ghost kept: Promise)
      returns (dev: Disk, r: Result<Fs>)
    requires AllRecoverable(KfsSpec(kept), h) && Happened(m, h) && CrashImage(m.durable, m.pending, img)
    ensures fresh(dev) && dev.Valid() && (dev.landed == m.landed || m.landing == Some(dev.landed))
    ensures !dev.flaky ==>
      && r.Ok? && r.value.dev == dev && r.value.sb == dev.landed && r.value.kept == kept
      && r.value.Valid([]) && r.value.AtRest() && r.value.Content() == StateItems(dev.landed)
      && kept(r.value.Content(), r.value.next)
  {
    KfsFramed(kept);
    ItHappened(KfsSpec(kept), m, h);
    CrashSafe(KfsSpec(kept), m, img);
    ghost var s := if Recoverable(KfsSpec(kept), Moment(img, [], m.landed, None)) then m.landed else m.landing.value;
    dev := new Disk(img, KfsSpec(kept), s);
    r := Mount(dev, kept);
  }
}
