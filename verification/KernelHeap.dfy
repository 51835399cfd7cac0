/** The kernel's heap: first-fit from a list of free blocks kept in address order, the list's headers
    lying in the free memory itself, and beyond them a region nothing has been handed out from yet. */
module KernelHeap {
  import opened Wrappers

  const HEAP_BASE: nat := 0xFFFF_9000_0000_0000
  const HEAP_SIZE: nat := 96 * 1024 * 1024
  const MIN_ALIGN: nat := 16
  const MIN_BLOCK: nat := 16
  const WORD_END: nat := 0x1_0000_0000_0000_0000

  /** What a free block starts with. */
  datatype FreeBlock = FreeBlock(size: nat, next: Option<nat>)

  /** A block: where, and how big. */
  datatype Blk = Blk(addr: nat, size: nat)

  function End(b: Blk): nat { b.addr + b.size }

  /** A size as it is handed out. */
  function Rounded(size: nat): nat {
    var n := if size < MIN_BLOCK then MIN_BLOCK else size;
    (n + MIN_ALIGN - 1) / MIN_ALIGN * MIN_ALIGN
  }

  predicate Whole(n: nat) { n > 0 && n % MIN_ALIGN == 0 }

  lemma RoundedWhole(size: nat)
    ensures Whole(Rounded(size)) && size <= Rounded(size) && MIN_BLOCK <= Rounded(size) < size + MIN_BLOCK + MIN_ALIGN
  {
    var n := if size < MIN_BLOCK then MIN_BLOCK else size;
    var q := (n + MIN_ALIGN - 1) / MIN_ALIGN;
    assert q * MIN_ALIGN % MIN_ALIGN == 0;
  }

  // --- Tiling ---

  /** Blocks in strictly ascending order, no two touching, none touching the edge. */
  ghost predicate Spacing(free: seq<Blk>, base: nat, bump: nat) {
    && (forall i {:trigger free[i]} :: 0 <= i < |free| ==> base <= free[i].addr && free[i].size > 0 && End(free[i]) < bump)
    && forall i, j {:trigger free[i], free[j]} :: 0 <= i < j < |free| ==> End(free[i]) < free[j].addr
  }

  ghost predicate AllWhole(free: seq<Blk>) {
    forall i {:trigger free[i]} :: 0 <= i < |free| ==> Whole(free[i].size) && free[i].addr % MIN_ALIGN == 0
  }

  ghost predicate FreeOk(free: seq<Blk>, base: nat, bump: nat) {
    Spacing(free, base, bump) && AllWhole(free)
  }

  /** The blocks handed out (address and size), none overlapping another. */
  ghost predicate LiveOk(live: map<nat, nat>, base: nat, bump: nat) {
    && (forall a {:trigger live[a]} :: a in live ==> base <= a && Whole(live[a]) && a % MIN_ALIGN == 0 && a + live[a] <= bump)
    && forall a, b {:trigger live[a], live[b]} :: a in live && b in live && a < b ==> a + live[a] <= b
  }

  ghost predicate Disjoint(free: seq<Blk>, live: map<nat, nat>) {
    forall i, a {:trigger free[i], live[a]} :: 0 <= i < |free| && a in live ==> End(free[i]) <= a || a + live[a] <= free[i].addr
  }

  predicate InFree(free: seq<Blk>, x: nat) {
    exists i {:trigger free[i]} :: 0 <= i < |free| && free[i].addr <= x < End(free[i])
  }

  predicate InLive(live: map<nat, nat>, x: nat) { exists a {:trigger live[a]} :: a in live && a <= x < a + live[a] }

  /** Every address below the edge is in a free block or one handed out. */
  ghost predicate Covered(free: seq<Blk>, live: map<nat, nat>, base: nat, bump: nat) {
    forall x: nat {:trigger InFree(free, x)} {:trigger InLive(live, x)} :: base <= x < bump ==> InFree(free, x) || InLive(live, x)
  }

  /** The free blocks, the blocks handed out and the untouched region partition the heap. */
  ghost predicate Tiling(free: seq<Blk>, live: map<nat, nat>, base: nat, bump: nat) {
    && base <= bump && base % MIN_ALIGN == 0 && bump % MIN_ALIGN == 0
    && FreeOk(free, base, bump) && LiveOk(live, base, bump) && Disjoint(free, live) && Covered(free, live, base, bump)
  }

  /** The same, sealed (see `Open`). */
  ghost predicate Tiled(free: seq<Blk>, live: map<nat, nat>, base: nat, bump: nat) {
    forall n: nat {:trigger Open(HeapSeal, n)} :: Open(HeapSeal, n) ==> Tiling(free, live, base, bump)
  }

  /** Just the list's spacing, sealed too. */
  ghost predicate Spread(free: seq<Blk>, base: nat, bump: nat) {
    forall n: nat {:trigger Open(HeapSeal, n)} :: Open(HeapSeal, n) ==> Spacing(free, base, bump)
  }

  lemma TiledSpread(free: seq<Blk>, live: map<nat, nat>, base: nat, bump: nat)
    requires Tiled(free, live, base, bump)
    ensures Spread(free, base, bump)
  {
    assert Open(HeapSeal, 0);
  }

  /** With nothing handed out there is nothing on the list, and the edge is back where it began. */
  lemma AllFreed(free: seq<Blk>, live: map<nat, nat>, base: nat, bump: nat)
    requires Tiling(free, live, base, bump) && live == map[]
    ensures free == [] && bump == base
  {
    FreeBelow(free, base, bump);
  }

  lemma FreeBelow(free: seq<Blk>, base: nat, bump: nat)
    requires Spacing(free, base, bump)
    ensures base < bump ==> !InFree(free, bump - 1)
    ensures bump <= base ==> free == []
  {
    assert free != [] ==> free[0] in free;
  }

  /** The list and the edge depend only on what is handed out now, not on how it came to be so. */
  lemma OneHeap(free: seq<Blk>, bump: nat, free': seq<Blk>, bump': nat, live: map<nat, nat>, base: nat)
    requires Tiling(free, live, base, bump) && Tiling(free', live, base, bump')
    ensures free == free' && bump == bump'
  {
    EdgeBelow(free, bump, bump', live, base);
    EdgeBelow(free', bump', bump, live, base);
    forall x: nat ensures InFree(free, x) <==> InFree(free', x) {
      FreeIsRest(free, bump, live, base, x);
      FreeIsRest(free', bump', live, base, x);
    }
    SameCover(free, free', base, bump);
  }

  /** The edge is where the last block handed out ends. */
  lemma EdgeBelow(free: seq<Blk>, bump: nat, edge: nat, live: map<nat, nat>, base: nat)
    requires Tiling(free, live, base, bump) && base <= edge && LiveOk(live, base, edge)
    ensures bump <= edge
  {
    if base < bump {
      assert !InFree(free, bump - 1);
      assert InLive(live, bump - 1);
      var a :| a in live && a <= bump - 1 < a + live[a];
    }
  }

  lemma FreeIsRest(free: seq<Blk>, bump: nat, live: map<nat, nat>, base: nat, x: nat)
    requires Tiling(free, live, base, bump)
    ensures InFree(free, x) <==> base <= x < bump && !InLive(live, x)
  {
    if InFree(free, x) {
      var i :| 0 <= i < |free| && free[i].addr <= x < End(free[i]);
      forall a | a in live ensures !(a <= x < a + live[a]) {
        assert End(free[i]) <= a || a + live[a] <= free[i].addr;
      }
    }
  }

  /** Two lists of blocks that do not touch and cover the same addresses are the same. */
  lemma {:induction false} SameCover(s: seq<Blk>, t: seq<Blk>, base: nat, bump: nat)
    requires Spacing(s, base, bump) && Spacing(t, base, bump)
    requires forall x: nat :: InFree(s, x) <==> InFree(t, x)
    ensures s == t
  {
    if s == [] {
      if t != [] {
        assert InFree(t, t[0].addr);
      }
    } else {
      assert InFree(s, s[0].addr);
      assert t != [];
      assert InFree(t, t[0].addr);
      SameFirst(s, t, base, bump);
      SameFirst(t, s, base, bump);
      SameRest(s, t, base, bump);
      SameCover(s[1..], t[1..], base, bump);
      assert s == [s[0]] + s[1..] && t == [t[0]] + t[1..];
    }
  }

  lemma SameRest(s: seq<Blk>, t: seq<Blk>, base: nat, bump: nat)
    requires Spacing(s, base, bump) && Spacing(t, base, bump) && s != [] && t != [] && s[0] == t[0]
    requires forall x: nat :: InFree(s, x) <==> InFree(t, x)
    ensures Spacing(s[1..], base, bump) && Spacing(t[1..], base, bump)
    ensures forall x: nat :: InFree(s[1..], x) <==> InFree(t[1..], x)
  {
    forall x: nat ensures InFree(s[1..], x) <==> InFree(t[1..], x) {
      RestCovers(s, base, bump, x);
      RestCovers(t, base, bump, x);
    }
  }

  lemma RestCovers(s: seq<Blk>, base: nat, bump: nat, x: nat)
    requires Spacing(s, base, bump) && s != []
    ensures InFree(s[1..], x) <==> InFree(s, x) && !(s[0].addr <= x < End(s[0]))
  {
    if InFree(s[1..], x) {
      var i :| 0 <= i < |s[1..]| && s[1..][i].addr <= x < End(s[1..][i]);
      assert s[1..][i] == s[i + 1] && End(s[0]) < s[i + 1].addr;
    }
    if InFree(s, x) && !(s[0].addr <= x < End(s[0])) {
      var i :| 0 <= i < |s| && s[i].addr <= x < End(s[i]);
      assert s[i] == s[1..][i - 1];
    }
  }

  lemma SameFirst(s: seq<Blk>, t: seq<Blk>, base: nat, bump: nat)
    requires Spacing(s, base, bump) && Spacing(t, base, bump) && s != [] && t != []
    requires forall x: nat :: InFree(s, x) <==> InFree(t, x)
    ensures t[0].addr <= s[0].addr && (t[0].addr == s[0].addr ==> End(s[0]) <= End(t[0]))
  {
    assert InFree(s, s[0].addr);
    var i :| 0 <= i < |t| && t[i].addr <= s[0].addr < End(t[i]);
    assert i > 0 ==> End(t[0]) < t[i].addr;
    assert t[0].addr == s[0].addr && End(t[0]) < End(s[0]) ==> InFree(s, End(t[0]));
    GapAfter(t, base, bump);
  }

  lemma GapAfter(t: seq<Blk>, base: nat, bump: nat)
    requires Spacing(t, base, bump) && t != []
    ensures !InFree(t, End(t[0]))
  {
    forall j | 0 <= j < |t| ensures !(t[j].addr <= End(t[0]) < End(t[j])) {
      assert j > 0 ==> End(t[0]) < t[j].addr;
    }
  }

  // --- Handing a block out ---

  /** What is left of the list when block `i` has `size` bytes taken off its front. */
  function Carve(free: seq<Blk>, i: nat, size: nat): seq<Blk>
    requires i < |free| && size <= free[i].size
  {
    free[..i] + LeftOf(free, i, size)
  }

  /** What is left of block `i`, if anything, and the blocks after it. */
  function LeftOf(free: seq<Blk>, i: nat, size: nat): seq<Blk>
    requires i < |free| && size <= free[i].size
  {
    var left := free[i].size - size;
    if left >= MIN_BLOCK then [Blk(free[i].addr + size, left)] + free[i + 1..] else free[i + 1..]
  }

  lemma CarveTiled(free: seq<Blk>, live: map<nat, nat>, base: nat, bump: nat, i: nat, size: nat)
    requires Tiling(free, live, base, bump) && i < |free| && Whole(size) && size <= free[i].size
    ensures free[i].addr !in live
    ensures Tiling(Carve(free, i, size), live[free[i].addr := size], base, bump)
  {
    NotLive(free, live, base, bump, i);
    CarveFree(free, base, bump, i, size);
    CarveLive(free, live, base, bump, i, size);
    CarveApart(free, live, base, bump, i, size);
    forall x: nat | base <= x < bump ensures InFree(Carve(free, i, size), x) || InLive(live[free[i].addr := size], x) {
      CarveCover(free, live, base, bump, i, size, x);
    }
  }

  lemma NotLive(free: seq<Blk>, live: map<nat, nat>, base: nat, bump: nat, i: nat)
    requires Tiling(free, live, base, bump) && i < |free|
    ensures free[i].addr !in live
    ensures forall a {:trigger live[a]} :: a in live ==> End(free[i]) <= a || a + live[a] <= free[i].addr
  {
  }

  lemma CarveFree(free: seq<Blk>, base: nat, bump: nat, i: nat, size: nat)
    requires FreeOk(free, base, bump) && i < |free| && Whole(size) && size <= free[i].size
    ensures FreeOk(Carve(free, i, size), base, bump)
  {
    var free' := Carve(free, i, size);
    forall j | 0 <= j < |free'|
      ensures base <= free'[j].addr && Whole(free'[j].size) && free'[j].addr % MIN_ALIGN == 0 && End(free'[j]) < bump
    {
      CarveWhole(free, base, bump, i, size, j);
    }
    forall j, l {:trigger free'[j], free'[l]} | 0 <= j < l < |free'| ensures End(free'[j]) < free'[l].addr {
      CarveOrder(free, base, bump, i, size, j, l);
    }
  }

  lemma CarveOrder(free: seq<Blk>, base: nat, bump: nat, i: nat, size: nat, j: nat, l: nat)
    requires Spacing(free, base, bump) && i < |free| && size <= free[i].size && j < l < |Carve(free, i, size)|
    ensures End(Carve(free, i, size)[j]) < Carve(free, i, size)[l].addr
  {
    var a := CarvePart(free, i, size, j);
    var b := CarvePart(free, i, size, l);
    assert End(free[a]) < free[b].addr;
  }

  lemma CarveWhole(free: seq<Blk>, base: nat, bump: nat, i: nat, size: nat, j: nat)
    requires FreeOk(free, base, bump) && i < |free| && Whole(size) && size <= free[i].size && j < |Carve(free, i, size)|
    ensures var b := Carve(free, i, size)[j]; base <= b.addr && Whole(b.size) && b.addr % MIN_ALIGN == 0 && End(b) < bump
  {
    var k := CarvePart(free, i, size, j);
    assert Whole(free[k].size) && free[k].addr % MIN_ALIGN == 0;
    CutWhole(free[k].addr, free[k].size, size);
  }

  lemma CutWhole(addr: nat, n: nat, size: nat)
    requires addr % MIN_ALIGN == 0 && Whole(n) && Whole(size)
    ensures (addr + size) % MIN_ALIGN == 0 && (size < n ==> Whole(n - size))
  {
  }

  /** Each is one of those there were, or what is left of one. */
  lemma CarvePart(free: seq<Blk>, i: nat, size: nat, j: nat) returns (k: nat)
    requires i < |free| && size <= free[i].size && j < |Carve(free, i, size)|
    ensures k < |free| && k == if j < i || |Carve(free, i, size)| == |free| then j else j + 1
    ensures var b := Carve(free, i, size)[j];
            End(b) == End(free[k]) && if j == i && k == j then b.addr == free[k].addr + size && b.size >= MIN_BLOCK else b == free[k]
  {
    CarveFrom(free, i, size);
    k := if j < i || |Carve(free, i, size)| == |free| then j else j + 1;
  }

  lemma CarveLive(free: seq<Blk>, live: map<nat, nat>, base: nat, bump: nat, i: nat, size: nat)
    requires Tiling(free, live, base, bump) && i < |free| && Whole(size) && size <= free[i].size
    ensures LiveOk(live[free[i].addr := size], base, bump)
  {
    NotLive(free, live, base, bump, i);
    var a := free[i].addr;
    var live' := live[a := size];
    forall b, c {:trigger live'[b], live'[c]} | b in live' && c in live' && b < c ensures b + live'[b] <= c {
      assert b != a ==> live'[b] == live[b];
      assert c != a ==> live'[c] == live[c];
    }
  }

  lemma CarveApart(free: seq<Blk>, live: map<nat, nat>, base: nat, bump: nat, i: nat, size: nat)
    requires Tiling(free, live, base, bump) && i < |free| && Whole(size) && size <= free[i].size
    ensures Disjoint(Carve(free, i, size), live[free[i].addr := size])
  {
    var a := free[i].addr;
    var free', live' := Carve(free, i, size), live[a := size];
    CarveFrom(free, i, size);
    NotLive(free, live, base, bump, i);
    forall j, b {:trigger free'[j], live'[b]} | 0 <= j < |free'| && b in live' ensures End(free'[j]) <= b || b + live'[b] <= free'[j].addr {
      var k := if j < i then j else if |free'| < |free| then j + 1 else j;
      if b == a {
        assert k < i ==> End(free[k]) < free[i].addr;
        assert k > i ==> End(free[i]) < free[k].addr;
      } else {
        assert live'[b] == live[b];
        assert End(free[k]) <= b || b + live[b] <= free[k].addr;
      }
    }
  }

  lemma CarveCover(free: seq<Blk>, live: map<nat, nat>, base: nat, bump: nat, i: nat, size: nat, x: nat)
    requires Tiling(free, live, base, bump) && i < |free| && Whole(size) && size <= free[i].size && base <= x < bump
    ensures InFree(Carve(free, i, size), x) || InLive(live[free[i].addr := size], x)
  {
    var live' := live[free[i].addr := size];
    NotLive(free, live, base, bump, i);
    if InLive(live, x) {
      var b :| b in live && b <= x < b + live[b];
      assert b in live' && live'[b] == live[b];
    } else {
      assert InFree(free, x);
      CarveCovers(free, i, size, x);
      assert live'[free[i].addr] == size;
    }
  }

  /** Where the blocks left come from. */
  lemma CarveFrom(free: seq<Blk>, i: nat, size: nat)
    requires i < |free| && size <= free[i].size
    ensures var free' := Carve(free, i, size);
            forall j {:trigger free'[j]} :: 0 <= j < |free'| ==>
              if j < i then free'[j] == free[j]
              else if |free'| < |free| then free'[j] == free[j + 1]
              else if j == i then free'[j] == Blk(free[i].addr + size, free[i].size - size)
              else free'[j] == free[j]
  {
  }

  lemma CarveCovers(free: seq<Blk>, i: nat, size: nat, x: nat)
    requires i < |free| && size <= free[i].size && free[i].size % MIN_ALIGN == 0 && size % MIN_ALIGN == 0
    requires InFree(free, x)
    ensures InFree(Carve(free, i, size), x) || free[i].addr <= x < free[i].addr + size
  {
    var free' := Carve(free, i, size);
    var j :| 0 <= j < |free| && free[j].addr <= x < End(free[j]);
    if |free'| < |free| {
      assert free[i].size == size;
      assert j < i ==> free'[j] == free[j];
      assert j > i ==> free'[j - 1] == free[j];
    } else {
      assert j != i ==> free'[j] == free[j];
      assert free'[i] == Blk(free[i].addr + size, free[i].size - size);
    }
  }

  lemma BumpTiled(free: seq<Blk>, live: map<nat, nat>, base: nat, bump: nat, size: nat)
    requires Tiling(free, live, base, bump) && Whole(size)
    ensures bump !in live
    ensures Tiling(free, live[bump := size], base, bump + size)
  {
    var live' := live[bump := size];
    forall x: nat | base <= x < bump + size ensures InFree(free, x) || InLive(live', x) {
      if x < bump && InLive(live, x) {
        var b :| b in live && b <= x < b + live[b];
        assert b in live' && live'[b] == live[b];
      } else if x >= bump {
        assert live'[bump] == size;
      }
    }
    forall i, a {:trigger free[i], live'[a]} | 0 <= i < |free| && a in live' ensures End(free[i]) <= a || a + live'[a] <= free[i].addr {
      assert a != bump ==> live'[a] == live[a];
    }
    forall b, c {:trigger live'[b], live'[c]} | b in live' && c in live' && b < c ensures b + live'[b] <= c {
      assert b != bump ==> live'[b] == live[b];
      assert c != bump ==> live'[c] == live[c];
    }
  }

  // --- Taking a block back ---

  /** How many of the free blocks are not past `addr`. */
  ghost predicate Splits(free: seq<Blk>, p: nat, addr: nat) {
    && p <= |free|
    && (forall i {:trigger free[i]} :: 0 <= i < p ==> free[i].addr <= addr)
    && (forall i {:trigger free[i]} :: p <= i < |free| ==> addr < free[i].addr)
  }

  /** A freed block merged with the free blocks it touches: those before, itself, those after. */
  datatype Merge = Merge(front: seq<Blk>, block: Blk, rest: seq<Blk>)

  function Alone(free: seq<Blk>, p: nat, addr: nat, size: nat): Merge
    requires p <= |free|
  {
    Merge(free[..p], Blk(addr, size), free[p..])
  }

  function MergeRight(m: Merge): Merge {
    if m.rest != [] && End(m.block) == m.rest[0].addr then
      Merge(m.front, Blk(m.block.addr, m.block.size + m.rest[0].size), m.rest[1..])
    else m
  }

  function MergeLeft(m: Merge): Merge {
    var n := |m.front|;
    if n > 0 && End(m.front[n - 1]) == m.block.addr then
      Merge(m.front[..n - 1], Blk(m.front[n - 1].addr, m.front[n - 1].size + m.block.size), m.rest)
    else m
  }

  /** The list and the edge once a block has been taken back. */
  function Settle(m: Merge, bump: nat): (seq<Blk>, nat) {
    if m.rest == [] && End(m.block) == bump then (m.front, m.block.addr) else (m.front + ([m.block] + m.rest), bump)
  }

  function Released(free: seq<Blk>, bump: nat, p: nat, addr: nat, size: nat): (seq<Blk>, nat)
    requires p <= |free|
  {
    Settle(MergeLeft(MergeRight(Alone(free, p, addr, size))), bump)
  }

  predicate InMerge(m: Merge, x: nat) {
    InFree(m.front, x) || m.block.addr <= x < End(m.block) || InFree(m.rest, x)
  }

  /** The pieces are in order and cover the free blocks and the one freed. `apart` says how far the block
      is known not to touch its neighbours: neither, not the next, not either. */
  ghost predicate Merged(free: seq<Blk>, live: map<nat, nat>, base: nat, bump: nat, addr: nat, m: Merge, left: bool,
                         right: bool)
    requires addr in live
  {
    && FreeOk(m.front, base, bump) && FreeOk(m.rest, base, bump)
    && Whole(m.block.size) && m.block.addr % MIN_ALIGN == 0 && base <= m.block.addr && End(m.block) <= bump
    && (forall i {:trigger m.front[i]} :: 0 <= i < |m.front| ==>
          if left then End(m.front[i]) < m.block.addr
          else End(m.front[i]) <= m.block.addr && (i < |m.front| - 1 ==> End(m.front[i]) < m.block.addr))
    && (forall i {:trigger m.rest[i]} :: 0 <= i < |m.rest| ==>
          if right then End(m.block) < m.rest[i].addr
          else End(m.block) <= m.rest[i].addr && (i > 0 ==> End(m.block) < m.rest[i].addr))
    && (forall x: nat {:trigger InMerge(m, x)} :: InFree(free, x) || addr <= x < addr + live[addr] ==> InMerge(m, x))
    && Disjoint(m.front, live - {addr}) && Disjoint(m.rest, live - {addr}) && Disjoint([m.block], live - {addr})
  }

  lemma Beside(free: seq<Blk>, live: map<nat, nat>, base: nat, bump: nat, p: nat, addr: nat)
    requires Tiling(free, live, base, bump) && addr in live && Splits(free, p, addr)
    ensures forall i {:trigger free[..p][i]} :: 0 <= i < p ==> free[..p][i] == free[i] && End(free[i]) <= addr && (i < p - 1 ==> End(free[i]) < addr)
    ensures forall i {:trigger free[p..][i]} :: 0 <= i < |free| - p ==>
              free[p..][i] == free[p + i] && addr + live[addr] <= free[p + i].addr && (i > 0 ==> addr + live[addr] < free[p + i].addr)
  {
    forall i | 0 <= i < p ensures End(free[i]) <= addr && (i < p - 1 ==> End(free[i]) < addr) {
      FreeOrLive(free, live, i, addr);
      assert i < p - 1 ==> End(free[i]) < free[p - 1].addr;
    }
    forall j | p <= j < |free| ensures addr + live[addr] <= free[j].addr && (j > p ==> addr + live[addr] < free[j].addr) {
      FreeOrLive(free, live, p, addr);
      assert j > p ==> End(free[p]) < free[j].addr;
    }
  }

  lemma FreeOrLive(free: seq<Blk>, live: map<nat, nat>, i: nat, a: nat)
    requires Disjoint(free, live) && i < |free| && a in live
    ensures End(free[i]) <= a || a + live[a] <= free[i].addr
  {
  }

  lemma PartOk(free: seq<Blk>, live: map<nat, nat>, base: nat, bump: nat, lo: nat, hi: nat)
    requires FreeOk(free, base, bump) && Disjoint(free, live) && lo <= hi <= |free|
    ensures FreeOk(free[lo..hi], base, bump) && Disjoint(free[lo..hi], live)
  {
    var s := free[lo..hi];
    forall i | 0 <= i < |s| ensures s[i] == free[lo + i] {
    }
    forall i, a {:trigger s[i], live[a]} | 0 <= i < |s| && a in live ensures End(s[i]) <= a || a + live[a] <= s[i].addr {
      assert s[i] == free[lo + i];
    }
  }

  lemma FewerLive(free: seq<Blk>, live: map<nat, nat>, addr: nat)
    requires Disjoint(free, live)
    ensures Disjoint(free, live - {addr})
  {
  }

  lemma MergeNone(free: seq<Blk>, live: map<nat, nat>, base: nat, bump: nat, p: nat, addr: nat)
    requires Tiling(free, live, base, bump) && addr in live && Splits(free, p, addr)
    ensures Merged(free, live, base, bump, addr, Alone(free, p, addr, live[addr]), false, false)
  {
    var front, rest := free[..p], free[p..];
    assert free[0..p] == front && free[p..|free|] == rest;
    PartOk(free, live, base, bump, 0, p);
    PartOk(free, live, base, bump, p, |free|);
    FewerLive(front, live, addr);
    FewerLive(rest, live, addr);
    Beside(free, live, base, bump, p, addr);
    forall x: nat | InFree(free, x) || addr <= x < addr + live[addr] ensures InMerge(Alone(free, p, addr, live[addr]), x) {
      if InFree(free, x) {
        InParts(free, p, x);
      }
    }
    LoneApart(live, base, bump, addr);
  }

  lemma LoneApart(live: map<nat, nat>, base: nat, bump: nat, addr: nat)
    requires LiveOk(live, base, bump) && addr in live
    ensures Disjoint([Blk(addr, live[addr])], live - {addr})
  {
    forall a | a in live && a != addr ensures addr + live[addr] <= a || a + live[a] <= addr {
    }
  }

  lemma InParts(free: seq<Blk>, p: nat, x: nat)
    requires p <= |free| && InFree(free, x)
    ensures InFree(free[..p], x) || InFree(free[p..], x)
  {
    var i :| 0 <= i < |free| && free[i].addr <= x < End(free[i]);
    if i < p {
      assert free[..p][i] == free[i];
    } else {
      assert free[p..][i - p] == free[i];
    }
  }

  lemma MergedRight(free: seq<Blk>, live: map<nat, nat>, base: nat, bump: nat, addr: nat, m: Merge)
    requires LiveOk(live, base, bump) && addr in live && Merged(free, live, base, bump, addr, m, false, false)
    ensures Merged(free, live, base, bump, addr, MergeRight(m), false, true)
  {
    if m.rest != [] && End(m.block) == m.rest[0].addr {
      MergedNext(free, live, base, bump, addr, m);
    } else {
      forall i | 0 <= i < |m.rest| ensures End(m.block) < m.rest[i].addr {
        assert End(m.block) <= m.rest[i].addr;
      }
    }
  }

  lemma MergedNext(free: seq<Blk>, live: map<nat, nat>, base: nat, bump: nat, addr: nat, m: Merge)
    requires LiveOk(live, base, bump) && addr in live && Merged(free, live, base, bump, addr, m, false, false)
    requires m.rest != [] && End(m.block) == m.rest[0].addr
    ensures Merged(free, live, base, bump, addr, MergeRight(m), false, true)
  {
    var first, rest := m.rest[0], m.rest[1..];
    assert m.rest[1..|m.rest|] == rest;
    PartOk(m.rest, live - {addr}, base, bump, 1, |m.rest|);
    Joined(live - {addr}, m.block, first, m.rest);
    forall i | 0 <= i < |rest| ensures End(first) < rest[i].addr {
      assert rest[i] == m.rest[i + 1];
    }
    forall x: nat | InFree(free, x) || addr <= x < addr + live[addr] ensures InMerge(MergeRight(m), x) {
      assert InMerge(m, x);
      RestCovers(m.rest, base, bump, x);
    }
    SumWhole(m.block.size, first.size);
  }

  lemma SumWhole(a: nat, b: nat)
    requires Whole(a) && Whole(b)
    ensures Whole(a + b)
  {
  }

  lemma Joined(live: map<nat, nat>, a: Blk, b: Blk, s: seq<Blk>)
    requires End(a) == b.addr && Disjoint([a], live) && Disjoint(s, live) && b in s
    requires forall x {:trigger live[x]} :: x in live ==> live[x] > 0
    ensures Disjoint([Blk(a.addr, a.size + b.size)], live)
  {
    forall x | x in live ensures End(b) <= x || x + live[x] <= a.addr {
      FreeOrLive([a], live, 0, x);
      var i :| 0 <= i < |s| && s[i] == b;
      FreeOrLive(s, live, i, x);
    }
  }

  lemma MergedLeft(free: seq<Blk>, live: map<nat, nat>, base: nat, bump: nat, addr: nat, m: Merge)
    requires LiveOk(live, base, bump) && addr in live && Merged(free, live, base, bump, addr, m, false, true)
    ensures Merged(free, live, base, bump, addr, MergeLeft(m), true, true)
  {
    if m.front != [] && End(m.front[|m.front| - 1]) == m.block.addr {
      MergedLast(free, live, base, bump, addr, m);
    } else {
      forall i | 0 <= i < |m.front| ensures End(m.front[i]) < m.block.addr {
        assert End(m.front[i]) <= m.block.addr;
      }
    }
  }

  lemma MergedLast(free: seq<Blk>, live: map<nat, nat>, base: nat, bump: nat, addr: nat, m: Merge)
    requires LiveOk(live, base, bump) && addr in live && Merged(free, live, base, bump, addr, m, false, true)
    requires m.front != [] && End(m.front[|m.front| - 1]) == m.block.addr
    ensures Merged(free, live, base, bump, addr, MergeLeft(m), true, true)
  {
    var n := |m.front|;
    var last, front := m.front[n - 1], m.front[..n - 1];
    assert m.front[0..n - 1] == front;
    PartOk(m.front, live - {addr}, base, bump, 0, n - 1);
    JoinedLeft(live - {addr}, m.front, last, m.block);
    forall i | 0 <= i < |front| ensures End(front[i]) < last.addr {
      assert front[i] == m.front[i];
    }
    forall x: nat | InFree(free, x) || addr <= x < addr + live[addr] ensures InMerge(MergeLeft(m), x) {
      assert InMerge(m, x);
      if InFree(m.front, x) {
        LastCovers(m.front, x);
      }
    }
    SumWhole(last.size, m.block.size);
  }

  lemma JoinedLeft(live: map<nat, nat>, s: seq<Blk>, a: Blk, b: Blk)
    requires End(a) == b.addr && Disjoint([b], live) && Disjoint(s, live) && a in s
    requires forall x {:trigger live[x]} :: x in live ==> live[x] > 0
    ensures Disjoint([Blk(a.addr, a.size + b.size)], live)
  {
    forall x | x in live ensures End(b) <= x || x + live[x] <= a.addr {
      FreeOrLive([b], live, 0, x);
      var i :| 0 <= i < |s| && s[i] == a;
      FreeOrLive(s, live, i, x);
    }
  }

  lemma LastCovers(s: seq<Blk>, x: nat)
    requires s != [] && InFree(s, x)
    ensures s[|s| - 1].addr <= x < End(s[|s| - 1]) || InFree(s[..|s| - 1], x)
  {
    var i :| 0 <= i < |s| && s[i].addr <= x < End(s[i]);
    assert i < |s| - 1 ==> s[..|s| - 1][i] == s[i];
  }

  /** The heap tiles as before once a block has been taken back. */
  lemma ReleaseTiled(free: seq<Blk>, live: map<nat, nat>, base: nat, bump: nat, p: nat, addr: nat)
    requires Tiling(free, live, base, bump) && addr in live && Splits(free, p, addr)
    ensures var (free', bump') := Released(free, bump, p, addr, live[addr]);
            Tiling(free', live - {addr}, base, bump')
  {
    var m := Alone(free, p, addr, live[addr]);
    MergeNone(free, live, base, bump, p, addr);
    MergedRight(free, live, base, bump, addr, m);
    MergedLeft(free, live, base, bump, addr, MergeRight(m));
    SettleTiled(free, live, base, bump, addr, MergeLeft(MergeRight(m)));
  }

  lemma SettleTiled(free: seq<Blk>, live: map<nat, nat>, base: nat, bump: nat, addr: nat, m: Merge)
    requires Tiling(free, live, base, bump) && addr in live && Merged(free, live, base, bump, addr, m, true, true)
    ensures Tiling(Settle(m, bump).0, live - {addr}, base, Settle(m, bump).1)
  {
    if m.rest == [] && End(m.block) == bump {
      forall a {:trigger (live - {addr})[a]} | a in live - {addr} ensures a + live[a] <= m.block.addr {
        FreeOrLive([m.block], live - {addr}, 0, a);
        assert a + live[a] <= bump;
      }
      forall x: nat | base <= x < m.block.addr ensures InFree(m.front, x) || InLive(live - {addr}, x) {
        MergedCover(free, live, base, bump, addr, m, x);
      }
    } else {
      JoinOk(m, base, bump);
      JoinApart(m, live - {addr});
      forall x: nat | base <= x < bump ensures InFree(m.front + ([m.block] + m.rest), x) || InLive(live - {addr}, x) {
        MergedCover(free, live, base, bump, addr, m, x);
        JoinCovers(m, x);
      }
    }
  }

  lemma MergedCover(free: seq<Blk>, live: map<nat, nat>, base: nat, bump: nat, addr: nat, m: Merge, x: nat)
    requires Tiling(free, live, base, bump) && addr in live && Merged(free, live, base, bump, addr, m, true, true)
    requires base <= x < bump
    ensures InMerge(m, x) || InLive(live - {addr}, x)
    ensures m.rest == [] ==> !InFree(m.rest, x)
  {
    if InLive(live, x) && !(addr <= x < addr + live[addr]) {
      var a :| a in live && a <= x < a + live[a];
      assert (live - {addr})[a] == live[a];
    } else {
      assert InFree(free, x) || addr <= x < addr + live[addr];
      assert InMerge(m, x);
    }
  }

  lemma JoinOk(m: Merge, base: nat, bump: nat)
    requires FreeOk(m.front, base, bump) && FreeOk(m.rest, base, bump) && !(m.rest == [] && End(m.block) == bump)
    requires Whole(m.block.size) && m.block.addr % MIN_ALIGN == 0 && base <= m.block.addr && End(m.block) <= bump
    requires forall i {:trigger m.front[i]} :: 0 <= i < |m.front| ==> End(m.front[i]) < m.block.addr
    requires forall i {:trigger m.rest[i]} :: 0 <= i < |m.rest| ==> End(m.block) < m.rest[i].addr
    ensures FreeOk(m.front + ([m.block] + m.rest), base, bump)
  {
    assert m.rest != [] ==> End(m.block) < m.rest[0].addr && End(m.rest[0]) < bump;
  }

  lemma JoinApart(m: Merge, live: map<nat, nat>)
    requires Disjoint(m.front, live) && Disjoint([m.block], live) && Disjoint(m.rest, live)
    ensures Disjoint(m.front + ([m.block] + m.rest), live)
  {
    var s := m.front + ([m.block] + m.rest);
    forall i, a {:trigger s[i], live[a]} | 0 <= i < |s| && a in live ensures End(s[i]) <= a || a + live[a] <= s[i].addr {
      if i < |m.front| {
        FreeOrLive(m.front, live, i, a);
      } else if i == |m.front| {
        FreeOrLive([m.block], live, 0, a);
      } else {
        FreeOrLive(m.rest, live, i - |m.front| - 1, a);
      }
    }
  }

  lemma JoinCovers(m: Merge, x: nat)
    ensures InMerge(m, x) ==> InFree(m.front + ([m.block] + m.rest), x)
  {
    var s := m.front + ([m.block] + m.rest);
    assert s[|m.front|] == m.block;
    if InFree(m.front, x) {
      var i :| 0 <= i < |m.front| && m.front[i].addr <= x < End(m.front[i]);
      assert s[i] == m.front[i];
    } else if InFree(m.rest, x) {
      var i :| 0 <= i < |m.rest| && m.rest[i].addr <= x < End(m.rest[i]);
      assert s[|m.front| + 1 + i] == m.rest[i];
    }
  }

  // --- The list as it lies in memory ---

  function AddrAt(free: seq<Blk>, i: nat): Option<nat> { if i < |free| then Some(free[i].addr) else None }

  /** Block `i` of `part` has its header in memory, leading to the next or, from the last, to `last`. */
  ghost predicate HeaderAt(mem: map<nat, FreeBlock>, part: seq<Blk>, i: nat, last: Option<nat>)
    requires i < |part|
  {
    part[i].addr in mem && mem[part[i].addr] == FreeBlock(part[i].size, if i + 1 < |part| then Some(part[i + 1].addr) else last)
  }

  ghost predicate ThreadTo(mem: map<nat, FreeBlock>, part: seq<Blk>, last: Option<nat>) {
    forall i: nat {:trigger HeaderAt(mem, part, i, last)} :: i < |part| ==> HeaderAt(mem, part, i, last)
  }

  /** The headers found from `head` on are those of `free`. */
  ghost predicate Threaded(mem: map<nat, FreeBlock>, head: Option<nat>, free: seq<Blk>) {
    head == AddrAt(free, 0) && ThreadTo(mem, free, None)
  }

  /** Whatever is done to memory in use, the list is not affected. */
  lemma ThreadedElsewhere(mem: map<nat, FreeBlock>, mem': map<nat, FreeBlock>, head: Option<nat>, free: seq<Blk>,
                          live: map<nat, nat>)
    requires Threaded(mem, head, free) && Disjoint(free, live)
    requires forall i {:trigger free[i]} :: 0 <= i < |free| ==> free[i].size > 0
    requires forall x: nat :: !InLive(live, x) ==> (x in mem' <==> x in mem) && (x in mem ==> mem'[x] == mem[x])
    ensures Threaded(mem', head, free)
  {
    forall i: nat | i < |free| ensures HeaderAt(mem', free, i, None) {
      assert HeaderAt(mem, free, i, None);
      assert !InLive(live, free[i].addr) by {
        forall a | a in live ensures !(a <= free[i].addr < a + live[a]) {
          FreeOrLive(free, live, i, a);
        }
      }
    }
  }

  /** A list threaded in two parts. */
  lemma ThreadGap(mem: map<nat, FreeBlock>, head: Option<nat>, front: seq<Blk>, rest: seq<Blk>)
    requires head == AddrAt(front + rest, 0) && ThreadTo(mem, front, AddrAt(rest, 0)) && ThreadTo(mem, rest, None)
    ensures Threaded(mem, head, front + rest)
  {
    var s, n := front + rest, |front|;
    forall i: nat | i < |s| ensures HeaderAt(mem, s, i, None) {
      if i < n {
        assert HeaderAt(mem, front, i, AddrAt(rest, 0));
      } else {
        assert HeaderAt(mem, rest, i - n, None);
      }
    }
  }

  lemma ThreadCut(mem: map<nat, FreeBlock>, head: Option<nat>, free: seq<Blk>, i: nat)
    requires Threaded(mem, head, free) && i <= |free|
    ensures ThreadTo(mem, free[..i], AddrAt(free, i)) && ThreadTo(mem, free[i..], None)
  {
    var a, b := free[..i], free[i..];
    var last := AddrAt(free, i);
    forall j: nat | j < |a| ensures HeaderAt(mem, a, j, last) {
      assert HeaderAt(mem, free, j, None);
    }
    forall j: nat | j < |b| ensures HeaderAt(mem, b, j, None) {
      assert HeaderAt(mem, free, i + j, None);
    }
  }

  lemma ThreadHeader(mem: map<nat, FreeBlock>, head: Option<nat>, free: seq<Blk>, i: nat)
    requires Threaded(mem, head, free) && i < |free|
    ensures free[i].addr in mem && mem[free[i].addr] == FreeBlock(free[i].size, AddrAt(free, i + 1))
  {
    assert HeaderAt(mem, free, i, None);
  }

  /** Headers written elsewhere do not matter. */
  lemma ThreadKept(mem: map<nat, FreeBlock>, part: seq<Blk>, last: Option<nat>, a: nat, x: FreeBlock)
    requires ThreadTo(mem, part, last) && forall i {:trigger part[i]} :: 0 <= i < |part| ==> part[i].addr != a
    ensures ThreadTo(mem[a := x], part, last)
  {
    var mem' := mem[a := x];
    forall i: nat | i < |part| ensures HeaderAt(mem', part, i, last) {
      assert HeaderAt(mem, part, i, last);
    }
  }

  /** Making the last header of a part lead somewhere else. */
  lemma ThreadTurned(mem: map<nat, FreeBlock>, part: seq<Blk>, last: Option<nat>, last': Option<nat>, base: nat,
                     bump: nat)
    requires ThreadTo(mem, part, last) && Spread(part, base, bump) && part != []
    ensures var a := part[|part| - 1].addr; a in mem && ThreadTo(mem[a := mem[a].(next := last')], part, last')
  {
    assert Open(HeapSeal, 0);
    var n := |part| - 1;
    assert HeaderAt(mem, part, n, last);
    var mem' := mem[part[n].addr := mem[part[n].addr].(next := last')];
    forall i: nat | i < |part| ensures HeaderAt(mem', part, i, last') {
      assert HeaderAt(mem, part, i, last);
      assert i < n ==> End(part[i]) < part[n].addr;
    }
  }

  /** No other free block starts within one. */
  lemma NoneWithin(free: seq<Blk>, base: nat, bump: nat, i: nat, x: nat)
    requires Spread(free, base, bump) && i < |free| && free[i].addr <= x < End(free[i])
    ensures forall j {:trigger free[j]} :: 0 <= j < |free| && j != i ==> free[j].addr != x
  {
    assert Open(HeapSeal, 0);
    forall j | 0 <= j < |free| && j != i ensures free[j].addr != x {
      assert j < i ==> End(free[j]) < free[i].addr;
      assert i < j ==> End(free[i]) < free[j].addr;
    }
  }

  class Heap {
    var head: Option<nat>
    /** The headers written into memory so far. */
    var mem: map<nat, FreeBlock>
    /** The edge: nothing from here on has been handed out. */
    var bump: nat
    var limit: nat
    ghost var free: seq<Blk>
    /** What is handed out: address and size. */
    ghost var live: map<nat, nat>

    ghost predicate Valid()
      reads this
    {
      && Threaded(mem, head, free) && Tiled(free, live, HEAP_BASE, bump)
      && bump <= limit == HEAP_BASE + HEAP_SIZE
    }

    constructor ()
      ensures Valid() && free == [] && live == map[] && bump == HEAP_BASE
    {
      head, mem, bump, limit := None, map[], HEAP_BASE, HEAP_BASE + HEAP_SIZE;
      free, live := [], map[];
    }

    /** Takes `size` bytes off the front of the first free block that has them. */
    method PopFit(size: nat) returns (r: Option<nat>, ghost i: nat)
      requires Threaded(mem, head, free) && Spread(free, HEAP_BASE, bump) && size > 0
      modifies this`head, this`mem, this`free
      ensures i <= |old(free)| && (r.Some? <==> i < |old(free)|)
      ensures forall j {:trigger old(free)[j]} :: 0 <= j < i ==> old(free)[j].size < size
      ensures r.None? ==> free == old(free) && Threaded(mem, head, free)
      ensures r.Some? ==>
        && old(free)[i].size >= size && r.value == old(free)[i].addr
        && free == Carve(old(free), i, size) && Threaded(mem, head, free)
    {
      var prev, current := None, head;
      i := 0;
      while current.Some?
        invariant Threaded(mem, head, free) && Spread(free, HEAP_BASE, bump) && free == old(free)
        invariant i <= |free| && current == AddrAt(free, i) && prev == if i == 0 then None else Some(free[i - 1].addr)
        invariant forall j {:trigger free[j]} :: 0 <= j < i ==> free[j].size < size
        decreases |free| - i
      {
        ThreadHeader(mem, head, free, i);
        var block := mem[current.value];
        if block.size >= size {
          Unlink(prev, current.value, block, size, i);
          return current, i;
        }
        prev := current;
        current := block.next;
        i := i + 1;
      }
      return None, i;
    }

    /** The list after a block has been carved: a shorter block stands where it was, or none does. */
    method Unlink(prev: Option<nat>, node: nat, block: FreeBlock, size: nat, ghost i: nat)
      requires Threaded(mem, head, free) && Spread(free, HEAP_BASE, bump) && 0 < size <= block.size
      requires i < |free| && node == free[i].addr && node in mem
      requires block == mem[node] == FreeBlock(free[i].size, AddrAt(free, i + 1))
      requires prev == if i == 0 then None else Some(free[i - 1].addr)
      modifies this`head, this`mem, this`free
      ensures free == Carve(old(free), i, size) && Threaded(mem, head, free)
    {
      ghost var front, rest := free[..i], LeftOf(free, i, size);
      UnlinkFacts(mem, head, free, HEAP_BASE, bump, i, size);
      var replacement := PutTail(node, block, size, i);
      Relink(prev, replacement, front, Some(node), rest, bump);
      free := front + rest;
    }

    lemma UnlinkFacts(mem: map<nat, FreeBlock>, head: Option<nat>, free: seq<Blk>, base: nat, bump: nat, i: nat,
                      size: nat)
      requires Threaded(mem, head, free) && Spread(free, base, bump) && i < |free| && 0 < size <= free[i].size
      ensures var front, rest := free[..i], LeftOf(free, i, size);
              && Spread(front, base, bump) && free[i].addr in mem && mem[free[i].addr].size == free[i].size
              && (front != [] ==> head == Some(front[0].addr) && front[|front| - 1].addr == free[i - 1].addr)
              && (forall j {:trigger rest[j]} :: 0 <= j < |rest| && front != [] ==> rest[j].addr != front[|front| - 1].addr)
              && AddrAt(rest, 0) == if free[i].size - size >= MIN_BLOCK then Some(free[i].addr + size) else AddrAt(free[i + 1..], 0)
    {
      LeftApart(free, base, bump, i, size);
      HeadKept(mem, head, free, base, bump, i);
      LeftAddr(free, i, size);
      ThreadHeader(mem, head, free, i);
    }

    /** Writes the header of what is left, if anything is. */
    method PutTail(node: nat, block: FreeBlock, size: nat, ghost i: nat) returns (replacement: Option<nat>)
      requires Threaded(mem, head, free) && Spread(free, HEAP_BASE, bump) && 0 < size <= block.size
      requires i < |free| && node == free[i].addr && node in mem
      requires block == mem[node] == FreeBlock(free[i].size, AddrAt(free, i + 1))
      modifies this`mem
      ensures replacement == if block.size - size >= MIN_BLOCK then Some(node + size) else AddrAt(free[i + 1..], 0)
      ensures ThreadTo(mem, free[..i], Some(free[i].addr)) && ThreadTo(mem, LeftOf(free, i, size), None)
    {
      CutAround(mem, head, free, HEAP_BASE, bump, i);
      var leftover := block.size - size;
      replacement := block.next;
      if leftover >= MIN_BLOCK {
        var tail: nat := node + size;
        TailPut(mem, free, HEAP_BASE, bump, i, size);
        mem := mem[tail := FreeBlock(leftover, block.next)];
        replacement := Some(tail);
      }
    }

    lemma LeftAddr(free: seq<Blk>, i: nat, size: nat)
      requires i < |free| && size <= free[i].size
      ensures AddrAt(LeftOf(free, i, size), 0) == if free[i].size - size >= MIN_BLOCK then Some(free[i].addr + size) else AddrAt(free[i + 1..], 0)
    {
    }

    lemma TailPut(mem: map<nat, FreeBlock>, free: seq<Blk>, base: nat, bump: nat, i: nat, size: nat)
      requires Spread(free, base, bump) && i < |free| && 0 < size && size + MIN_BLOCK <= free[i].size
      requires ThreadTo(mem, free[..i], Some(free[i].addr)) && ThreadTo(mem, free[i + 1..], None)
      ensures var mem' := mem[free[i].addr + size := FreeBlock(free[i].size - size, AddrAt(free[i + 1..], 0))];
              ThreadTo(mem', free[..i], Some(free[i].addr)) && ThreadTo(mem', LeftOf(free, i, size), None)
    {
      var tail, left := free[i].addr + size, free[i].size - size;
      TailKept(mem, free, base, bump, i, tail, FreeBlock(left, AddrAt(free[i + 1..], 0)));
      TailFirst(mem, free[i + 1..], Blk(tail, left));
    }

    lemma HeadKept(mem: map<nat, FreeBlock>, head: Option<nat>, free: seq<Blk>, base: nat, bump: nat, i: nat)
      requires Threaded(mem, head, free) && Spread(free, base, bump) && i < |free|
      ensures Spread(free[..i], base, bump)
      ensures i > 0 ==> free[..i] != [] && head == Some(free[..i][0].addr) && free[..i][i - 1] == free[i - 1]
    {
      assert Open(HeapSeal, 0);
      forall j | 0 <= j < i ensures free[..i][j] == free[j] {
      }
    }

    /** What is known of the list on either side of a block. */
    lemma CutAround(mem: map<nat, FreeBlock>, head: Option<nat>, free: seq<Blk>, base: nat, bump: nat, i: nat)
      requires Threaded(mem, head, free) && Spread(free, base, bump) && i < |free|
      ensures ThreadTo(mem, free[..i], Some(free[i].addr)) && ThreadTo(mem, free[i + 1..], None)
      ensures free[i].addr in mem && mem[free[i].addr] == FreeBlock(free[i].size, AddrAt(free[i + 1..], 0))
    {
      ThreadCut(mem, head, free, i);
      ThreadCut(mem, head, free, i + 1);
      ThreadHeader(mem, head, free, i);
    }

    /** Writing a header inside the block leaves both sides alone. */
    lemma TailKept(mem: map<nat, FreeBlock>, free: seq<Blk>, base: nat, bump: nat, i: nat, tail: nat, x: FreeBlock)
      requires Spread(free, base, bump) && i < |free| && free[i].addr <= tail < End(free[i])
      requires ThreadTo(mem, free[..i], Some(free[i].addr)) && ThreadTo(mem, free[i + 1..], None)
      ensures ThreadTo(mem[tail := x], free[..i], Some(free[i].addr)) && ThreadTo(mem[tail := x], free[i + 1..], None)
      ensures i > 0 ==> free[i - 1].addr != tail
      ensures forall j {:trigger free[i + 1..][j]} :: 0 <= j < |free| - i - 1 ==> free[i + 1..][j].addr != tail
    {
      NoneWithin(free, base, bump, i, tail);
      var front, rest := free[..i], free[i + 1..];
      forall j | 0 <= j < |front| ensures front[j].addr != tail {
        assert front[j] == free[j];
      }
      forall j | 0 <= j < |rest| ensures rest[j].addr != tail {
        assert rest[j] == free[i + 1 + j];
      }
      ThreadKept(mem, front, Some(free[i].addr), tail, x);
      ThreadKept(mem, rest, None, tail, x);
    }

    /** What comes after a block starts elsewhere than what comes before it. */
    lemma LeftApart(free: seq<Blk>, base: nat, bump: nat, i: nat, size: nat)
      requires Spread(free, base, bump) && i < |free| && 0 < size <= free[i].size
      ensures var front, rest := free[..i], LeftOf(free, i, size);
              forall j {:trigger rest[j]} :: 0 <= j < |rest| && front != [] ==> rest[j].addr != front[|front| - 1].addr
    {
      assert Open(HeapSeal, 0);
      var front, rest := free[..i], LeftOf(free, i, size);
      forall j | 0 <= j < |rest| && front != [] ensures rest[j].addr != front[|front| - 1].addr {
        var k := CarvePart(free, i, size, i + j);
        assert (front + rest)[i + j] == rest[j];
        assert End(free[i - 1]) < free[k].addr;
      }
    }

    /** A new header before the rest of the list. */
    lemma TailFirst(mem: map<nat, FreeBlock>, rest: seq<Blk>, b: Blk)
      requires ThreadTo(mem, rest, None) && forall j {:trigger rest[j]} :: 0 <= j < |rest| ==> rest[j].addr != b.addr
      ensures ThreadTo(mem[b.addr := FreeBlock(b.size, AddrAt(rest, 0))], [b] + rest, None)
    {
      var s, mem' := [b] + rest, mem[b.addr := FreeBlock(b.size, AddrAt(rest, 0))];
      forall j: nat | j < |s| ensures HeaderAt(mem', s, j, None) {
        assert j > 0 ==> HeaderAt(mem, rest, j - 1, None);
      }
    }

    /** Makes what led to a block lead to what takes its place. */
    method Relink(prev: Option<nat>, replacement: Option<nat>, ghost front: seq<Blk>, ghost was: Option<nat>,
                  ghost rest: seq<Blk>, ghost edge: nat)
      requires prev == if front == [] then None else Some(front[|front| - 1].addr)
      requires ThreadTo(mem, front, was) && ThreadTo(mem, rest, None) && Spread(front, HEAP_BASE, edge)
      requires front != [] ==> head == Some(front[0].addr)
      requires forall j {:trigger rest[j]} :: 0 <= j < |rest| && front != [] ==> rest[j].addr != front[|front| - 1].addr
      requires replacement == AddrAt(rest, 0)
      modifies this`head, this`mem
      ensures Threaded(mem, head, front + rest)
    {
      match prev {
        case Some(p) =>
          ThreadTurned(mem, front, was, replacement, HEAP_BASE, edge);
          ThreadKept(mem, rest, None, p, mem[p].(next := replacement));
          mem := mem[p := mem[p].(next := replacement)];
        case None =>
          head := replacement;
      }
      ThreadGap(mem, head, front, rest);
    }

    /** Finds a block's neighbours on the list: the free block before the last one not past it, that one,
        and the next. */
    method FindPlace(addr: nat) returns (beforePrev: Option<nat>, prev: Option<nat>, next: Option<nat>, ghost p: nat)
      requires Threaded(mem, head, free) && Spread(free, HEAP_BASE, bump)
      ensures Splits(free, p, addr) && next == AddrAt(free, p)
      ensures prev == (if p == 0 then None else Some(free[p - 1].addr))
      ensures beforePrev == if p <= 1 then None else Some(free[p - 2].addr)
    {
      beforePrev, prev, next, p := None, None, head, 0;
      while next.Some? && next.value <= addr
        invariant p <= |free| && next == AddrAt(free, p)
        invariant prev == (if p == 0 then None else Some(free[p - 1].addr))
        invariant beforePrev == if p <= 1 then None else Some(free[p - 2].addr)
        invariant forall i {:trigger free[i]} :: 0 <= i < p ==> free[i].addr <= addr
        decreases |free| - p
      {
        ThreadHeader(mem, head, free, p);
        beforePrev := prev;
        prev := next;
        next := mem[next.value].next;
        p := p + 1;
      }
      NextPast(free, HEAP_BASE, bump, p, addr);
    }

    lemma NextPast(free: seq<Blk>, base: nat, bump: nat, p: nat, addr: nat)
      requires Spread(free, base, bump) && p <= |free| && (p < |free| ==> addr < free[p].addr)
      ensures forall i {:trigger free[i]} :: p <= i < |free| ==> addr < free[i].addr
    {
      assert Open(HeapSeal, 0);
      forall i | p <= i < |free| ensures addr < free[i].addr {
        assert i > p ==> End(free[p]) < free[i].addr;
      }
    }

    /** The merge with the block after, as far as the list in memory goes. */
    ghost predicate RightDone(m: Merge, was: Option<nat>, prev: Option<nat>, next: Option<nat>)
      reads this
    {
      && ThreadTo(mem, m.front, was) && ThreadTo(mem, m.rest, None) && next == AddrAt(m.rest, 0)
      && (m.front != [] ==> head == Some(m.front[0].addr))
      && prev == if m.front == [] then None else Some(m.front[|m.front| - 1].addr)
    }

    method TakeRight(addr: nat, size: nat, prev: Option<nat>, next: Option<nat>, ghost p: nat)
        returns (sz: nat, after: Option<nat>)
      requires Threaded(mem, head, free) && p <= |free|
      requires next == AddrAt(free, p) && prev == if p == 0 then None else Some(free[p - 1].addr)
      ensures var m := MergeRight(Alone(free, p, addr, size)); m.block == Blk(addr, sz) && RightDone(m, AddrAt(free, p), prev, after)
    {
      PartsDone(p, addr, size, prev, next);
      sz, after := size, next;
      ghost var rest := free[p..];
      if next.Some? && addr + size == next.value {
        ThreadRest(mem, rest);
        sz := sz + mem[next.value].size;
        after := mem[next.value].next;
      }
    }

    lemma PartsDone(p: nat, addr: nat, size: nat, prev: Option<nat>, next: Option<nat>)
      requires Threaded(mem, head, free) && p <= |free|
      requires next == AddrAt(free, p) && prev == if p == 0 then None else Some(free[p - 1].addr)
      ensures RightDone(Alone(free, p, addr, size), AddrAt(free, p), prev, next)
    {
      ThreadCut(mem, head, free, p);
    }

    lemma ThreadRest(mem: map<nat, FreeBlock>, rest: seq<Blk>)
      requires ThreadTo(mem, rest, None) && rest != []
      ensures ThreadTo(mem, rest[1..], None) && rest[0].addr in mem
      ensures mem[rest[0].addr] == FreeBlock(rest[0].size, AddrAt(rest[1..], 0))
    {
      assert HeaderAt(mem, rest, 0, None);
      var s := rest[1..];
      forall j: nat | j < |s| ensures HeaderAt(mem, s, j, None) {
        assert HeaderAt(mem, rest, j + 1, None);
      }
    }

    /** The block is on the list, joined with what it touches; `link` leads to it. */
    ghost predicate Placed(m: Merge, block: nat, link: Option<nat>, next: Option<nat>)
      reads this
    {
      && Threaded(mem, head, m.front + ([m.block] + m.rest)) && block == m.block.addr && block in mem && mem[block].size == m.block.size
      && next == AddrAt(m.rest, 0) && link == if m.front == [] then None else Some(m.front[|m.front| - 1].addr)
    }

    /** Puts a block on the list between others. */
    method PutBlock(addr: nat, size: nat, prev: Option<nat>, next: Option<nat>, ghost m: Merge, ghost was: Option<nat>)
      requires RightDone(m, was, prev, next) && m.block == Blk(addr, size) && Spread(m.front, HEAP_BASE, bump)
      requires forall i {:trigger m.front[i]} :: 0 <= i < |m.front| ==> m.front[i].addr < addr
      requires forall i {:trigger m.rest[i]} :: 0 <= i < |m.rest| ==> addr < m.rest[i].addr
      modifies this`head, this`mem
      ensures Placed(m, addr, prev, next)
    {
      ThreadKept(mem, m.front, was, addr, FreeBlock(size, next));
      TailFirst(mem, m.rest, m.block);
      mem := mem[addr := FreeBlock(size, next)];
      ghost var rest := [m.block] + m.rest;
      forall j | 0 <= j < |rest| && m.front != [] ensures rest[j].addr != m.front[|m.front| - 1].addr {
        assert j > 0 ==> rest[j] == m.rest[j - 1];
      }
      Relink(prev, Some(addr), m.front, was, rest, bump);
      assert (m.front + rest)[|m.front|] == m.block;
      ThreadHeader(mem, head, m.front + rest, |m.front|);
    }

    /** Makes the free block before a block take it in. */
    method GrowBlock(addr: nat, size: nat, beforePrev: Option<nat>, prev: nat, next: Option<nat>, ghost m: Merge,
                     ghost was: Option<nat>)
      requires RightDone(m, was, Some(prev), next) && m.block == Blk(addr, size) && Spread(m.front, HEAP_BASE, bump)
      requires End(m.front[|m.front| - 1]) == addr
      requires forall i {:trigger m.rest[i]} :: 0 <= i < |m.rest| ==> addr < m.rest[i].addr
      requires beforePrev == if |m.front| <= 1 then None else Some(m.front[|m.front| - 2].addr)
      modifies this`mem
      ensures Placed(MergeLeft(m), prev, beforePrev, next)
    {
      Grown(mem, head, HEAP_BASE, bump, m, was, size, prev, next);
      mem := mem[prev := FreeBlock(mem[prev].size + size, next)];
    }

    lemma Grown(mem: map<nat, FreeBlock>, head: Option<nat>, base: nat, bump: nat, m: Merge, was: Option<nat>,
                size: nat, prev: nat, next: Option<nat>)
      requires ThreadTo(mem, m.front, was) && ThreadTo(mem, m.rest, None) && next == AddrAt(m.rest, 0)
      requires Spread(m.front, base, bump)
      requires m.front != [] && head == Some(m.front[0].addr) && prev == m.front[|m.front| - 1].addr
      requires m.block.size == size && End(m.front[|m.front| - 1]) == m.block.addr
      requires forall i {:trigger m.rest[i]} :: 0 <= i < |m.rest| ==> m.block.addr < m.rest[i].addr
      ensures prev in mem && mem[prev].size + size == MergeLeft(m).block.size && prev == MergeLeft(m).block.addr
      ensures var m', mem' := MergeLeft(m), mem[prev := FreeBlock(mem[prev].size + size, next)];
              Threaded(mem', head, m'.front + ([m'.block] + m'.rest))
    {
      assert Open(HeapSeal, 0);
      var n := |m.front| - 1;
      var front, last := m.front[..n], m.front[n];
      var block := Blk(prev, last.size + size);
      ThreadFront(mem, m.front, was);
      var mem' := mem[prev := FreeBlock(block.size, next)];
      assert ThreadTo(mem', front, Some(prev)) by {
        forall i | 0 <= i < n ensures front[i].addr != prev {
          assert front[i] == m.front[i] && End(m.front[i]) < last.addr;
        }
        ThreadKept(mem, front, Some(prev), prev, FreeBlock(block.size, next));
      }
      TailFirst(mem, m.rest, block);
      ThreadGap(mem', head, front, [block] + m.rest);
    }

    lemma ThreadFront(mem: map<nat, FreeBlock>, front: seq<Blk>, was: Option<nat>)
      requires ThreadTo(mem, front, was) && front != []
      ensures ThreadTo(mem, front[..|front| - 1], Some(front[|front| - 1].addr))
      ensures front[|front| - 1].addr in mem && mem[front[|front| - 1].addr].size == front[|front| - 1].size
    {
      var s, last := front[..|front| - 1], Some(front[|front| - 1].addr);
      assert HeaderAt(mem, front, |front| - 1, was);
      forall j: nat | j < |s| ensures HeaderAt(mem, s, j, last) {
        assert HeaderAt(mem, front, j, was);
      }
    }

    method Place(addr: nat, size: nat, beforePrev: Option<nat>, prev: Option<nat>, next: Option<nat>, ghost m: Merge,
                 ghost was: Option<nat>)
      returns (block: nat, link: Option<nat>)
      requires RightDone(m, was, prev, next) && m.block == Blk(addr, size) && Spread(m.front, HEAP_BASE, bump)
      requires beforePrev == if |m.front| <= 1 then None else Some(m.front[|m.front| - 2].addr)
      requires forall i {:trigger m.front[i]} :: 0 <= i < |m.front| ==> m.front[i].addr < addr
      requires forall i {:trigger m.rest[i]} :: 0 <= i < |m.rest| ==> addr < m.rest[i].addr
      modifies this`head, this`mem
      ensures Placed(MergeLeft(m), block, link, next)
    {
      if prev.Some? {
        ThreadFront(mem, m.front, was);
      }
      if prev.Some? && prev.value + mem[prev.value].size == addr {
        GrowBlock(addr, size, beforePrev, prev.value, next, m, was);
        block, link := prev.value, beforePrev;
      } else {
        PutBlock(addr, size, prev, next, m, was);
        block, link := addr, prev;
      }
    }

    /** If the block just settled touches the edge, it leaves the list and the edge moves down to it. */
    method GiveBack(block: nat, link: Option<nat>, next: Option<nat>, ghost m: Merge)
      requires Placed(m, block, link, next) && Spread(m.front, HEAP_BASE, bump)
      modifies this`head, this`mem, this`bump
      ensures var (f, b) := Settle(m, old(bump)); Threaded(mem, head, f) && bump == b
    {
      if next.None? && block + mem[block].size == bump {
        FrontPlaced(m);
        bump := block;
        Relink(link, None, m.front, Some(block), [], old(bump));
        assert m.front + [] == m.front;
      }
    }

    lemma FrontPlaced(m: Merge)
      requires Threaded(mem, head, m.front + ([m.block] + m.rest))
      ensures ThreadTo(mem, m.front, Some(m.block.addr)) && (m.front != [] ==> head == Some(m.front[0].addr))
    {
      var s := m.front + ([m.block] + m.rest);
      ThreadCut(mem, head, s, |m.front|);
      assert s[..|m.front|] == m.front && s[|m.front|] == m.block;
    }

    /** Takes a block back, joined with the free blocks and the region beyond the edge that it touches. */
    method Release(addr: nat, size: nat)
      requires Valid() && addr in live && live[addr] == size
      modifies this`head, this`mem, this`bump, this`free, this`live
      ensures Valid() && live == old(live) - {addr}
    {
      TiledSpread(free, live, HEAP_BASE, bump);
      var beforePrev, prev, next, p := FindPlace(addr);
      ghost var m, was := MergeRight(Alone(free, p, addr, size)), AddrAt(free, p);
      ghost var settled := Settle(MergeLeft(m), bump);
      ReleaseFacts(free, live, HEAP_BASE, bump, p, addr);
      var sz, after := TakeRight(addr, size, prev, next, p);
      var block, link := Place(addr, sz, beforePrev, prev, after, m, was);
      GiveBack(block, link, after, MergeLeft(m));
      free := settled.0;
      live := live - {addr};
    }

    lemma ReleaseFacts(free: seq<Blk>, live: map<nat, nat>, base: nat, bump: nat, p: nat, addr: nat)
      requires Tiled(free, live, base, bump) && addr in live && Splits(free, p, addr)
      ensures var m := MergeRight(Alone(free, p, addr, live[addr]));
              && Spread(m.front, base, bump) && Spread(MergeLeft(m).front, base, bump) && m.front == free[..p]
              && (forall i {:trigger m.front[i]} :: 0 <= i < |m.front| ==> m.front[i].addr < addr)
              && (forall i {:trigger m.rest[i]} :: 0 <= i < |m.rest| ==> addr < m.rest[i].addr)
              && Tiled(Settle(MergeLeft(m), bump).0, live - {addr}, base, Settle(MergeLeft(m), bump).1)
    {
      assert Open(HeapSeal, 0);
      var m := Alone(free, p, addr, live[addr]);
      ReleaseTiled(free, live, base, bump, p, addr);
      MergeNone(free, live, base, bump, p, addr);
      MergedRight(free, live, base, bump, addr, m);
      MergedLeft(free, live, base, bump, addr, MergeRight(m));
      BeforeAfter(free, live, base, bump, addr, MergeRight(m));
    }

    lemma BeforeAfter(free: seq<Blk>, live: map<nat, nat>, base: nat, bump: nat, addr: nat, m: Merge)
      requires addr in live && Merged(free, live, base, bump, addr, m, false, true)
      ensures forall i {:trigger m.front[i]} :: 0 <= i < |m.front| ==> m.front[i].addr < m.block.addr
      ensures forall i {:trigger m.rest[i]} :: 0 <= i < |m.rest| ==> m.block.addr < m.rest[i].addr
    {
    }

    /** Hands out a block: the first on the list that is big enough, or else the next bytes past the edge.
        (The sum is a 64-bit one. Only a request that takes it past the end of the address space, and that
        no free block meets, leaves the heap in disorder; no smaller one does.) */
    method Alloc(size: nat, align: nat) returns (r: Option<nat>)
      requires Valid() && size < WORD_END / 2
      modifies this`head, this`mem, this`bump, this`free, this`live
      ensures align > MIN_ALIGN ==> r.None?
      ensures r.None? ==> Valid() && live == old(live) && free == old(free) && bump == old(bump)
      ensures r.None? && align <= MIN_ALIGN ==> NoneFits(free, Rounded(size)) && bump + Rounded(size) > limit
      ensures r.Some? && !(NoneFits(old(free), Rounded(size)) && Overruns(old(bump), Rounded(size))) ==>
        && Valid() && r.value !in old(live) && live == old(live)[r.value := Rounded(size)]
        && (NoneFits(old(free), Rounded(size)) ==> r.value == old(bump))
        && (!NoneFits(old(free), Rounded(size)) ==> bump == old(bump) && FirstFit(old(free), Rounded(size), r.value))
      ensures align <= MIN_ALIGN && NoneFits(old(free), Rounded(size)) && Overruns(old(bump), Rounded(size)) ==> r.Some? && !Valid()
    {
      if align > MIN_ALIGN {
        return None;
      }
      var n := Rounded(size);
      RoundedWhole(size);
      TiledSpread(free, live, HEAP_BASE, bump);
      var at, i := PopFit(n);
      if at.Some? {
        CarveSealed(old(free), live, HEAP_BASE, bump, i, n);
        live := live[at.value := n];
        return at;
      }
      r := TakeEdge(n);
    }

    /** Hands out the next bytes past the edge. */
    method TakeEdge(n: nat) returns (r: Option<nat>)
      requires Valid() && Whole(n) && n < WORD_END / 2 + 2 * MIN_ALIGN
      modifies this`bump, this`live
      ensures r.None? ==> Valid() && live == old(live) && bump == old(bump) && bump + n > limit
      ensures r.Some? ==> r.value == old(bump)
      ensures r.Some? && !Overruns(old(bump), n) ==> Valid() && old(bump) !in old(live)
      ensures r.Some? && !Overruns(old(bump), n) ==> live == old(live)[old(bump) := n]
      ensures Overruns(old(bump), n) ==> r.Some? && !Valid()
    {
      var edge := (bump + n) % WORD_END;
      WrapSum(bump, n);
      if edge > limit {
        return None;
      }
      r := Some(bump);
      EdgeMoved(free, live, bump, n, edge);
      live := live[bump := n];
      bump := edge;
    }

    lemma EdgeMoved(free: seq<Blk>, live: map<nat, nat>, bump: nat, n: nat, edge: nat)
      requires Tiled(free, live, HEAP_BASE, bump) && Whole(n) && n < WORD_END / 2 + 2 * MIN_ALIGN && bump < WORD_END
      requires edge == if Overruns(bump, n) then bump + n - WORD_END else bump + n
      ensures if Overruns(bump, n) then !Tiled(free, live[bump := n], HEAP_BASE, edge)
              else bump !in live && Tiled(free, live[bump := n], HEAP_BASE, edge)
    {
      if Overruns(bump, n) {
        OutOfOrder(free, live[bump := n], HEAP_BASE, edge);
      } else {
        BumpSealed(free, live, HEAP_BASE, bump, n);
      }
    }

    /** Takes back what was handed out for a request of `size` bytes. */
    method Dealloc(ptr: nat, size: nat)
      requires Valid() && ptr in live && live[ptr] == Rounded(size)
      modifies this`head, this`mem, this`bump, this`free, this`live
      ensures Valid() && live == old(live) - {ptr}
      ensures live == map[] ==> head == None && bump == HEAP_BASE
    {
      Release(ptr, Rounded(size));
      if live == map[] {
        AllFreedSealed(free, live, HEAP_BASE, bump);
      }
    }
  }

  predicate NoneFits(free: seq<Blk>, size: nat) { forall i :: 0 <= i < |free| ==> free[i].size < size }

  ghost predicate FirstFit(free: seq<Blk>, size: nat, addr: nat) {
    exists i :: 0 <= i < |free| && free[i].size >= size && free[i].addr == addr && forall j :: 0 <= j < i ==> free[j].size < size
  }

  predicate Overruns(bump: nat, n: nat) { bump + n >= WORD_END }

  /** Such requests exist: the largest one there can be, of a heap nothing is on the list of. */
  lemma LargestOverruns()
    ensures Overruns(HEAP_BASE, Rounded(WORD_END / 2 - 1)) && NoneFits([], Rounded(WORD_END / 2 - 1))
  {
    assert Rounded(WORD_END / 2 - 1) == WORD_END / 2;
  }

  lemma WrapSum(a: nat, b: nat)
    requires a < WORD_END && b < WORD_END
    ensures (a + b) % WORD_END == if Overruns(a, b) then a + b - WORD_END else a + b
  {
  }

  lemma CarveSealed(free: seq<Blk>, live: map<nat, nat>, base: nat, bump: nat, i: nat, size: nat)
    requires Tiled(free, live, base, bump) && i < |free| && Whole(size) && size <= free[i].size
    ensures free[i].addr !in live && Tiled(Carve(free, i, size), live[free[i].addr := size], base, bump)
  {
    assert Open(HeapSeal, 0);
    CarveTiled(free, live, base, bump, i, size);
  }

  lemma BumpSealed(free: seq<Blk>, live: map<nat, nat>, base: nat, bump: nat, size: nat)
    requires Tiled(free, live, base, bump) && Whole(size)
    ensures bump !in live && Tiled(free, live[bump := size], base, bump + size)
  {
    assert Open(HeapSeal, 0);
    BumpTiled(free, live, base, bump, size);
  }

  lemma AllFreedSealed(free: seq<Blk>, live: map<nat, nat>, base: nat, bump: nat)
    requires Tiled(free, live, base, bump) && live == map[]
    ensures free == [] && bump == base
  {
    assert Open(HeapSeal, 0);
    AllFreed(free, live, base, bump);
  }

  lemma OutOfOrder(free: seq<Blk>, live: map<nat, nat>, base: nat, bump: nat)
    requires bump < base
    ensures !Tiled(free, live, base, bump)
  {
    if Tiled(free, live, base, bump) {
      assert Open(HeapSeal, 0);
    }
  }
}
