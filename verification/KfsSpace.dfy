/** Free space as values: the bits in use, the bits held for the committed state, and what a
    search through them means. */
module KfsSpace {
  import opened Wrappers
  import opened KfsTypes
  import opened KfsState

  ghost predicate SpaceOk(bits: seq<bool>, held: seq<bool>, dirty: seq<bool>, total: nat) {
    && DATA_START <= total < U64
    && |dirty| == Bitmaps(total)
    && |bits| == |held| == |dirty| * BITS_PER_BITMAP
    && total <= |bits|
    && forall b {:trigger bits[b]} :: total <= b < |bits| ==> bits[b]
  }

  predicate IsFree(bits: seq<bool>, held: seq<bool>, b: nat)
    requires |bits| == |held|
  {
    b < |bits| && !bits[b] && !held[b]
  }

  /** The blocks `s..s + n` are all free. */
  ghost predicate FreeRun(bits: seq<bool>, held: seq<bool>, s: nat, n: nat)
    requires |bits| == |held|
  {
    forall b {:trigger IsFree(bits, held, b)} :: s <= b < s + n ==> IsFree(bits, held, b)
  }

  /** No run of `n` free blocks lies in `lo..hi`. */
  ghost predicate NoRun(bits: seq<bool>, held: seq<bool>, lo: nat, hi: nat, n: nat)
    requires |bits| == |held|
  {
    forall s: nat {:trigger FreeRun(bits, held, s, n)} :: lo <= s && s + n <= hi ==> !FreeRun(bits, held, s, n)
  }

  lemma NoRunWeaken(bits: seq<bool>, held: seq<bool>, lo: nat, hi: nat, n: nat, n': nat)
    requires |bits| == |held| && NoRun(bits, held, lo, hi, n) && n <= n'
    ensures NoRun(bits, held, lo, hi, n')
  {
    forall s: nat | lo <= s && s + n' <= hi ensures !FreeRun(bits, held, s, n') {
      assert !FreeRun(bits, held, s, n);
    }
  }

  lemma NotRun(bits: seq<bool>, held: seq<bool>, s: nat, n: nat, i: nat)
    requires |bits| == |held| && s <= i < s + n && !IsFree(bits, held, i)
    ensures !FreeRun(bits, held, s, n)
  {
  }

  /** A search has gone through `lo..b`; the last `len` blocks are free (and no more than those), and
      no run there is longer than `best`. */
  ghost predicate Searched(bits: seq<bool>, held: seq<bool>, lo: nat, b: nat, len: nat, best: nat)
    requires |bits| == |held|
  {
    && lo + len <= b && len <= best
    && FreeRun(bits, held, b - len, len)
    && (lo < b - len ==> !IsFree(bits, held, b - len - 1))
    && NoRun(bits, held, lo, b, best + 1)
  }

  lemma SearchedFree(bits: seq<bool>, held: seq<bool>, lo: nat, b: nat, len: nat, best: nat)
    requires |bits| == |held| && Searched(bits, held, lo, b, len, best) && IsFree(bits, held, b)
    ensures Searched(bits, held, lo, b + 1, len + 1, if len + 1 > best then len + 1 else best)
  {
    var best' := if len + 1 > best then len + 1 else best;
    NoRunWeaken(bits, held, lo, b, best + 1, best' + 1);
    var n := best' + 1;
    forall s: nat | lo <= s && s + n <= b + 1 ensures !FreeRun(bits, held, s, n) {
      if s + n == b + 1 {
        NotRun(bits, held, s, n, b - len - 1);
      }
    }
  }

  lemma SearchedUsed(bits: seq<bool>, held: seq<bool>, lo: nat, b: nat, b': nat, len: nat, best: nat)
    requires |bits| == |held| && Searched(bits, held, lo, b, len, best) && b < b'
    requires forall i: nat :: b <= i < b' ==> !IsFree(bits, held, i)
    ensures Searched(bits, held, lo, b', 0, best)
  {
    var n := best + 1;
    forall s: nat | lo <= s && s + n <= b' ensures !FreeRun(bits, held, s, n) {
      if s + n > b {
        NotRun(bits, held, s, n, s + best);
      }
    }
  }

  /** No run of the length asked for has been passed over. */
  ghost predicate Missed(bits: seq<bool>, held: seq<bool>, lo: nat, b: nat, want: nat)
    requires |bits| == |held|
  {
    want > 0 ==> NoRun(bits, held, lo, b, want)
  }

  /** A search for `want` blocks has gone through `lo..b`. (Sealed: see `Open`.) */
  ghost predicate Looked(bits: seq<bool>, held: seq<bool>, lo: nat, b: nat, len: nat, best: nat, want: nat)
    requires |bits| == |held|
  {
    forall n: nat {:trigger Open(SearchSeal, n)} :: Open(SearchSeal, n) ==>
      Searched(bits, held, lo, b, len, best) && Missed(bits, held, lo, b, want)
  }

  lemma LookedNone(bits: seq<bool>, held: seq<bool>, lo: nat, best: nat, want: nat)
    requires |bits| == |held|
    ensures Looked(bits, held, lo, lo, 0, best, want)
  {
  }

  lemma LookedFree(bits: seq<bool>, held: seq<bool>, lo: nat, b: nat, len: nat, best: nat, want: nat)
    requires |bits| == |held| && Looked(bits, held, lo, b, len, best, want) && IsFree(bits, held, b)
    requires want > 0 ==> len < want
    ensures lo + len <= b && FreeRun(bits, held, b - len, len + 1)
    ensures if len + 1 == want then NoRun(bits, held, lo, b, want)
            else Looked(bits, held, lo, b + 1, len + 1, if len + 1 > best then len + 1 else best, want)
  {
    assert Open(SearchSeal, 0);
    SearchedFree(bits, held, lo, b, len, best);
    if len + 1 != want {
      forall s: nat | want > 0 && lo <= s && s + want <= b + 1 ensures !FreeRun(bits, held, s, want) {
        if s + want == b + 1 {
          NotRun(bits, held, s, want, b - len - 1);
        }
      }
    }
  }

  lemma LookedUsed(bits: seq<bool>, held: seq<bool>, lo: nat, b: nat, b': nat, len: nat, best: nat, want: nat)
    requires |bits| == |held| && Looked(bits, held, lo, b, len, best, want) && b < b'
    requires forall i: nat :: b <= i < b' ==> !IsFree(bits, held, i)
    ensures Looked(bits, held, lo, b', 0, best, want)
  {
    assert Open(SearchSeal, 0);
    SearchedUsed(bits, held, lo, b, b', len, best);
    forall s: nat | want > 0 && lo <= s && s + want <= b' ensures !FreeRun(bits, held, s, want) {
      if s + want > b {
        NotRun(bits, held, s, want, s + want - 1);
      }
    }
  }

  /** A run of free blocks `run.0 .. run.0 + run.1` in the data area, no longer than asked for. */
  ghost predicate RunFound(bits: seq<bool>, held: seq<bool>, total: nat, run: (nat, nat), want: nat)
    requires |bits| == |held|
  {
    && run.1 >= 1 && DATA_START <= run.0 && run.0 + run.1 <= total
    && FreeRun(bits, held, run.0, run.1)
    && (want > 0 ==> run.1 <= want)
  }

  /** The run of `n` blocks at `s` is the first that a search from `c` on, and then from the start to `c`, meets. */
  ghost predicate FirstRun(bits: seq<bool>, held: seq<bool>, c: nat, total: nat, s: nat, n: nat)
    requires |bits| == |held|
  {
    && s + n >= 1
    && if c <= s then NoRun(bits, held, c, s + n - 1, n)
       else s + n <= c && NoRun(bits, held, c, total, n) && NoRun(bits, held, DATA_START, s + n - 1, n)
  }

  /** A search for `want` blocks from `c` on gives `run`: the first run of that length it meets, or if there is none
      a shorter one than which no side of `c` has a longer. (Sealed: see `Open`.) */
  ghost predicate Best(bits: seq<bool>, held: seq<bool>, c: nat, total: nat, run: (nat, nat), want: nat)
    requires |bits| == |held|
  {
    forall x: nat {:trigger Open(SearchSeal, x)} :: Open(SearchSeal, x) ==>
      if run.1 == want then FirstRun(bits, held, c, total, run.0, want)
      else NoRun(bits, held, c, total, run.1 + 1) && NoRun(bits, held, DATA_START, c, run.1 + 1)
  }

  function RunLength(r: Option<(nat, nat)>): nat {
    if r.Some? then r.value.1 else 0
  }

  /** Blocks `lo..hi` lie partly in bitmap block `k`. */
  predicate Touches(lo: nat, hi: nat, k: nat) {
    lo < hi && k * BITS_PER_BITMAP < hi && lo < (k + 1) * BITS_PER_BITMAP
  }

  /** Free blocks among the first `n`. */
  function FreeCount(bits: seq<bool>, held: seq<bool>, n: nat): nat
    requires n <= |bits| == |held|
  {
    if n == 0 then 0 else FreeCount(bits, held, n - 1) + Bit(IsFree(bits, held, n - 1))
  }

  lemma {:induction false} SomeFree(bits: seq<bool>, held: seq<bool>, n: nat) returns (b: nat)
    requires n <= |bits| == |held| && FreeCount(bits, held, n) > 0
    ensures b < n && IsFree(bits, held, b)
  {
    if IsFree(bits, held, n - 1) {
      b := n - 1;
    } else {
      b := SomeFree(bits, held, n - 1);
    }
  }

  /** Where a `free` of `bp` stops: it never leaves the data area. */
  function FreeEnd(bp: Bp, total: nat): nat {
    if bp.block < DATA_START || bp.block >= total then bp.block
    else if bp.block + bp.count < total then bp.block + bp.count
    else total
  }

  /** `bits'` is `bits` with `lo..hi` set to `v`. */
  ghost predicate Filled(bits: seq<bool>, bits': seq<bool>, lo: nat, hi: nat, v: bool) {
    && |bits'| == |bits|
    && forall b {:trigger bits'[b]} :: 0 <= b < |bits| ==> bits'[b] == if lo <= b < hi then v else bits[b]
  }

  ghost predicate Dirtied(dirty: seq<bool>, dirty': seq<bool>, lo: nat, hi: nat) {
    && |dirty'| == |dirty|
    && forall k {:trigger dirty'[k]} :: 0 <= k < |dirty| ==> dirty'[k] == (dirty[k] || Touches(lo, hi, k))
  }

  lemma {:induction false} FreeCountFilled(bits: seq<bool>, held: seq<bool>, bits': seq<bool>, lo: nat, hi: nat, n: nat)
    requires |bits| == |held| && Filled(bits, bits', lo, hi, true) && lo <= hi && n <= |bits|
    requires FreeRun(bits, held, lo, hi - lo)
    ensures FreeCount(bits, held, n) ==
            FreeCount(bits', held, n) + if n <= lo then 0 else if n <= hi then n - lo else hi - lo
  {
    if n > 0 {
      FreeCountFilled(bits, held, bits', lo, hi, n - 1);
      if lo <= n - 1 < hi { assert IsFree(bits, held, n - 1); }
    }
  }

  // --- Steps that free blocks ---

  /** The free-space state: what is used, what is held, which bitmap blocks have changed. */
  datatype Spc = Spc(bits: seq<bool>, held: seq<bool>, dirty: seq<bool>)

  ghost predicate SpcOk(s: Spc, total: nat) {
    SpaceOk(s.bits, s.held, s.dirty, total)
  }

  function BitAt(s: Spc, b: nat): nat {
    if b < |s.bits| then Bit(s.bits[b]) else 0
  }

  predicate Guarded(s: Spc, b: nat)
  {
    b < |s.bits| && b < |s.held| && (s.bits[b] || s.held[b])
  }

  /** Block `b` freed, and held for the committed state. */
  function FreeOne(s: Spc, b: nat): Spc {
    if b < |s.bits| && b < |s.held| && b / BITS_PER_BITMAP < |s.dirty|
    then Spc(s.bits[b := false], s.held[b := true], s.dirty[b / BITS_PER_BITMAP := true])
    else s
  }

  function FreeAll(s: Spc, bs: seq<nat>): Spc {
    if bs == [] then s else FreeOne(FreeAll(s, bs[..|bs| - 1]), bs[|bs| - 1])
  }

  /** Each block was a used data block when its turn came. */
  ghost predicate Freeable(s: Spc, bs: seq<nat>, total: nat) {
    bs == [] ||
    (var n := |bs| - 1;
     Freeable(s, bs[..n], total) && DATA_START <= bs[n] < total && BitAt(FreeAll(s, bs[..n]), bs[n]) == 1)
  }

  /** From `s` to `s'`, some data blocks were freed and held, and nothing else happened. */
  ghost predicate Step(s: Spc, s': Spc, total: nat) {
    exists bs :: Freeable(s, bs, total) && FreeAll(s, bs) == s'
  }

  lemma StepNone(s: Spc, total: nat)
    ensures Step(s, s, total)
  {
    assert Freeable(s, [], total) && FreeAll(s, []) == s;
  }

  lemma StepOne(s: Spc, b: nat, total: nat)
    requires DATA_START <= b < total && BitAt(s, b) == 1
    ensures Step(s, FreeOne(s, b), total)
  {
    assert [b][..0] == [];
    assert Freeable(s, [b][..0], total);
    assert Freeable(s, [b], total) && FreeAll(s, [b]) == FreeOne(s, b);
  }

  lemma {:induction false} FreeAllConcat(s: Spc, x: seq<nat>, y: seq<nat>, total: nat)
    requires Freeable(s, x, total) && Freeable(FreeAll(s, x), y, total)
    ensures Freeable(s, x + y, total) && FreeAll(s, x + y) == FreeAll(FreeAll(s, x), y)
  {
    if y == [] {
      assert x + y == x;
    } else {
      assert (x + y)[..|x + y| - 1] == x + y[..|y| - 1];
      FreeAllConcat(s, x, y[..|y| - 1], total);
    }
  }

  lemma StepTrans(s: Spc, s': Spc, s'': Spc, total: nat)
    requires Step(s, s', total) && Step(s', s'', total)
    ensures Step(s, s'', total)
  {
    var x :| Freeable(s, x, total) && FreeAll(s, x) == s';
    var y :| Freeable(s', y, total) && FreeAll(s', y) == s'';
    FreeAllConcat(s, x, y, total);
  }

  /** Such steps leave what can be allocated exactly as it was. */
  lemma StepGuards(s: Spc, s': Spc, total: nat)
    requires Step(s, s', total) && SpcOk(s, total)
    ensures SpcOk(s', total) && forall b: nat {:trigger Guarded(s', b)} :: Guarded(s', b) <==> Guarded(s, b)
    ensures total <= |s.bits| == |s.held| && total <= |s'.bits| == |s'.held|
    ensures FreeCount(s'.bits, s'.held, total) == FreeCount(s.bits, s.held, total)
  {
    var bs :| Freeable(s, bs, total) && FreeAll(s, bs) == s';
    FreeAllSafe(s, bs, total);
    FreeAllGuards(s, bs, total);
    SameFreeCount(s, s', total);
  }

  lemma {:induction false} FreeAllGuards(s: Spc, bs: seq<nat>, total: nat)
    requires SpcOk(s, total) && Freeable(s, bs, total)
    ensures forall b: nat {:trigger Guarded(FreeAll(s, bs), b)} :: Guarded(FreeAll(s, bs), b) <==> Guarded(s, b)
  {
    if bs != [] {
      var init, x := bs[..|bs| - 1], bs[|bs| - 1];
      FreeAllGuards(s, init, total);
      FreeAllSafe(s, init, total);
      assert x / BITS_PER_BITMAP < |FreeAll(s, init).dirty|;
      forall b: nat ensures Guarded(FreeAll(s, bs), b) <==> Guarded(s, b) {
        assert Guarded(FreeAll(s, init), b) <==> Guarded(s, b);
      }
    }
  }

  lemma {:induction false} SameFreeCount(s: Spc, s': Spc, n: nat)
    requires n <= |s.bits| == |s.held| && n <= |s'.bits| == |s'.held|
    requires forall b: nat {:trigger Guarded(s', b)} :: Guarded(s', b) <==> Guarded(s, b)
    ensures FreeCount(s'.bits, s'.held, n) == FreeCount(s.bits, s.held, n)
  {
    if n > 0 {
      SameFreeCount(s, s', n - 1);
      assert Guarded(s', n - 1) <==> Guarded(s, n - 1);
    }
  }

  /** What such steps keep: no block becomes available, only data blocks change, and every bitmap
      block that changed is marked as changed. */
  ghost predicate Safe(s: Spc, s': Spc, total: nat) {
    && SpcOk(s, total) && SpcOk(s', total)
    && (forall b: nat {:trigger Guarded(s', b)} :: Guarded(s, b) ==> Guarded(s', b))
    && (forall b: nat {:trigger BitAt(s', b)} :: b < DATA_START || total <= b ==> BitAt(s', b) == BitAt(s, b))
    && (forall k: nat {:trigger s'.dirty[k]} :: k < |s.dirty| && s.dirty[k] ==> s'.dirty[k])
    && (forall b: nat {:trigger s'.bits[b]} :: b < |s.bits| && s'.bits[b] != s.bits[b] ==> s'.dirty[b / BITS_PER_BITMAP])
  }

  lemma StepSafe(s: Spc, s': Spc, total: nat)
    requires Step(s, s', total) && SpcOk(s, total)
    ensures Safe(s, s', total)
  {
    var bs :| Freeable(s, bs, total) && FreeAll(s, bs) == s';
    FreeAllSafe(s, bs, total);
  }

  lemma {:induction false} FreeAllSafe(s: Spc, bs: seq<nat>, total: nat)
    requires SpcOk(s, total) && Freeable(s, bs, total)
    ensures Safe(s, FreeAll(s, bs), total)
  {
    if bs != [] {
      var init, b := bs[..|bs| - 1], bs[|bs| - 1];
      assert bs[|bs| - 1] == b;
      FreeAllSafe(s, init, total);
      OneSafe(FreeAll(s, init), b, total);
      SafeTrans(s, FreeAll(s, init), FreeAll(s, bs), total);
    }
  }

  lemma OneSafe(s: Spc, b: nat, total: nat)
    requires SpcOk(s, total) && DATA_START <= b < total
    ensures Safe(s, FreeOne(s, b), total)
  {
    assert b / BITS_PER_BITMAP < |s.dirty|;
  }

  lemma SafeTrans(s: Spc, s': Spc, s'': Spc, total: nat)
    requires Safe(s, s', total) && Safe(s', s'', total)
    ensures Safe(s, s'', total)
  {
    forall b: nat | b < |s.bits| && s''.bits[b] != s.bits[b] ensures s''.dirty[b / BITS_PER_BITMAP] {
      if s'.bits[b] != s.bits[b] {
        assert s'.dirty[b / BITS_PER_BITMAP];
      }
    }
    forall b: nat | Guarded(s, b) ensures Guarded(s'', b) {
      assert Guarded(s', b);
    }
    forall b: nat | b < DATA_START || total <= b ensures BitAt(s'', b) == BitAt(s, b) {
      assert BitAt(s', b) == BitAt(s, b);
    }
  }

  /** What `free` does with a pointer to one block of the committed state. */
  lemma FreedOne(s: Spc, s': Spc, b: nat, total: nat)
    requires SpcOk(s, total) && SpcOk(s', total) && DATA_START <= b < total
    requires Filled(s.bits, s'.bits, b, b + 1, false) && Filled(s.held, s'.held, b, b + 1, true)
    requires Dirtied(s.dirty, s'.dirty, b, b + 1)
    ensures s' == FreeOne(s, b)
  {
    var k := b / BITS_PER_BITMAP;
    assert Touches(b, b + 1, k);
    forall j: nat | j < |s.dirty| ensures s'.dirty[j] == (s.dirty[j] || j == k) {
      assert Touches(b, b + 1, j) ==> j == k;
    }
    assert s'.bits == s.bits[b := false];
    assert s'.held == s.held[b := true];
    assert s'.dirty == s.dirty[k := true];
  }

  /** How many blocks an operation can still have. */
  ghost function RoomIn(s: Spc, total: nat): nat {
    if total <= |s.bits| == |s.held| then FreeCount(s.bits, s.held, total) else 0
  }

  /** Blocks of the data area neither used nor held, below `n`. */
  ghost function SpareIn(s: Spc, n: nat): nat {
    if n <= DATA_START then 0 else SpareIn(s, n - 1) + Bit(!Guarded(s, n - 1))
  }

  lemma {:induction false} SpareSame(s: Spc, s': Spc, n: nat)
    requires forall b: nat {:trigger Guarded(s', b)} :: b < n ==> (Guarded(s', b) <==> Guarded(s, b))
    ensures SpareIn(s', n) == SpareIn(s, n)
  {
    if n > DATA_START {
      SpareSame(s, s', n - 1);
      assert Guarded(s', n - 1) <==> Guarded(s, n - 1);
    }
  }

  lemma {:induction false} SpareTaken(s: Spc, s': Spc, b: nat, n: nat)
    requires DATA_START <= b < n && !Guarded(s, b)
    requires forall i: nat {:trigger Guarded(s', i)} :: i < n ==> (Guarded(s', i) <==> Guarded(s, i) || i == b)
    ensures SpareIn(s', n) == SpareIn(s, n) - 1
  {
    assert Guarded(s', n - 1) <==> Guarded(s, n - 1) || n - 1 == b;
    if b < n - 1 {
      SpareTaken(s, s', b, n - 1);
    } else {
      SpareSame(s, s', n - 1);
    }
  }

  lemma {:induction false} NoneSpare(s: Spc, n: nat)
    requires n <= |s.bits| == |s.held| && forall b :: DATA_START <= b < n ==> !IsFree(s.bits, s.held, b)
    ensures SpareIn(s, n) == 0
  {
    if n > DATA_START {
      NoneSpare(s, n - 1);
      assert !IsFree(s.bits, s.held, n - 1);
    }
  }

  lemma {:induction false} SpareIsRoom(s: Spc, n: nat)
    requires n <= |s.bits| == |s.held| && forall b: nat {:trigger BitAt(s, b)} :: b < DATA_START ==> BitAt(s, b) == 1
    ensures FreeCount(s.bits, s.held, n) == SpareIn(s, n)
  {
    if n > 0 {
      SpareIsRoom(s, n - 1);
      assert n - 1 < DATA_START ==> BitAt(s, n - 1) == 1;
    }
  }

  lemma SpareTakeOne(s: Spc, b: nat, total: nat)
    requires SpcOk(s, total) && DATA_START <= b < total && !Guarded(s, b)
    ensures SpareIn(TakeOne(s, b), total) == SpareIn(s, total) - 1
  {
    assert b / BITS_PER_BITMAP < |s.dirty|;
    SpareTaken(s, TakeOne(s, b), b, total);
  }

  lemma SpareFreeOne(s: Spc, b: nat, total: nat)
    requires SpcOk(s, total) && BitAt(s, b) == 1
    ensures SpareIn(FreeOne(s, b), total) == SpareIn(s, total)
  {
    SpareSame(s, FreeOne(s, b), total);
  }

  /** What can be had is not used up by changes that leave every free block free. */
  lemma {:induction false} RoomGrows(s: Spc, s': Spc, n: nat)
    requires n <= |s.bits| == |s.held| && n <= |s'.bits| == |s'.held|
    requires forall b: nat {:trigger Guarded(s', b)} :: b < n && Guarded(s', b) ==> Guarded(s, b)
    ensures FreeCount(s'.bits, s'.held, n) >= FreeCount(s.bits, s.held, n)
  {
    if n > 0 {
      RoomGrows(s, s', n - 1);
      assert Guarded(s', n - 1) ==> Guarded(s, n - 1);
    }
  }

  // --- Steps that take blocks ---

  /** Free block `b` taken. */
  function TakeOne(s: Spc, b: nat): Spc {
    if b < |s.bits| && b / BITS_PER_BITMAP < |s.dirty|
    then Spc(s.bits[b := true], s.held, s.dirty[b / BITS_PER_BITMAP := true])
    else s
  }

  function TakeAll(s: Spc, bs: seq<nat>): Spc {
    if bs == [] then s else TakeOne(TakeAll(s, bs[..|bs| - 1]), bs[|bs| - 1])
  }

  /** Each block was a free data block when its turn came. */
  ghost predicate Takeable(s: Spc, bs: seq<nat>, total: nat) {
    bs == [] ||
    (var n := |bs| - 1;
     Takeable(s, bs[..n], total) && DATA_START <= bs[n] < total && !Guarded(TakeAll(s, bs[..n]), bs[n]))
  }

  /** From `s` to `s'`, some free data blocks were taken, and nothing else happened. */
  ghost predicate Grow(s: Spc, s': Spc, total: nat) {
    exists bs :: Takeable(s, bs, total) && TakeAll(s, bs) == s'
  }

  lemma GrowNone(s: Spc, total: nat)
    ensures Grow(s, s, total)
  {
    assert Takeable(s, [], total) && TakeAll(s, []) == s;
  }

  lemma GrowOne(s: Spc, b: nat, total: nat)
    requires DATA_START <= b < total && !Guarded(s, b)
    ensures Grow(s, TakeOne(s, b), total)
  {
    assert [b][..0] == [];
    assert Takeable(s, [b][..0], total);
    assert Takeable(s, [b], total) && TakeAll(s, [b]) == TakeOne(s, b);
  }

  lemma {:induction false} TakeAllConcat(s: Spc, x: seq<nat>, y: seq<nat>, total: nat)
    requires Takeable(s, x, total) && Takeable(TakeAll(s, x), y, total)
    ensures Takeable(s, x + y, total) && TakeAll(s, x + y) == TakeAll(TakeAll(s, x), y)
  {
    if y == [] {
      assert x + y == x;
    } else {
      assert (x + y)[..|x + y| - 1] == x + y[..|y| - 1];
      TakeAllConcat(s, x, y[..|y| - 1], total);
    }
  }

  lemma GrowTrans(s: Spc, s': Spc, s'': Spc, total: nat)
    requires Grow(s, s', total) && Grow(s', s'', total)
    ensures Grow(s, s'', total)
  {
    var x :| Takeable(s, x, total) && TakeAll(s, x) == s';
    var y :| Takeable(s', y, total) && TakeAll(s', y) == s'';
    TakeAllConcat(s, x, y, total);
  }

  /** What taking blocks keeps: used and held blocks stay so, blocks taken were free data blocks,
      and every bitmap block that changed is marked as changed. */
  ghost predicate Enlarged(s: Spc, s': Spc, total: nat) {
    && Safe(s, s', total) && s'.held == s.held
    && (forall b: nat {:trigger BitAt(s', b)} :: BitAt(s', b) >= BitAt(s, b))
    && (forall b: nat {:trigger BitAt(s', b)} :: BitAt(s', b) > BitAt(s, b) ==> !Guarded(s, b) && DATA_START <= b < total)
  }

  lemma GrowEnlarged(s: Spc, s': Spc, total: nat)
    requires Grow(s, s', total) && SpcOk(s, total)
    ensures Enlarged(s, s', total)
  {
    var bs :| Takeable(s, bs, total) && TakeAll(s, bs) == s';
    TakeAllEnlarged(s, bs, total);
  }

  lemma {:induction false} TakeAllEnlarged(s: Spc, bs: seq<nat>, total: nat)
    requires SpcOk(s, total) && Takeable(s, bs, total)
    ensures Enlarged(s, TakeAll(s, bs), total)
  {
    if bs != [] {
      var init, b := bs[..|bs| - 1], bs[|bs| - 1];
      TakeAllEnlarged(s, init, total);
      OneEnlarged(TakeAll(s, init), b, total);
      EnlargedTrans(s, TakeAll(s, init), TakeAll(s, bs), total);
    }
  }

  lemma OneEnlarged(s: Spc, b: nat, total: nat)
    requires SpcOk(s, total) && DATA_START <= b < total && !Guarded(s, b)
    ensures Enlarged(s, TakeOne(s, b), total)
  {
    assert b / BITS_PER_BITMAP < |s.dirty|;
  }

  lemma EnlargedTrans(s: Spc, s': Spc, s'': Spc, total: nat)
    requires Enlarged(s, s', total) && Enlarged(s', s'', total)
    ensures Enlarged(s, s'', total)
  {
    SafeTrans(s, s', s'', total);
    forall b: nat
      ensures BitAt(s'', b) >= BitAt(s, b)
      ensures BitAt(s'', b) > BitAt(s, b) ==> !Guarded(s, b) && DATA_START <= b < total
    {
      assert BitAt(s', b) >= BitAt(s, b);
      assert BitAt(s', b) == BitAt(s, b) ==> Guarded(s, b) ==> Guarded(s', b);
    }
  }

  /** What `alloc(1)` does. */
  lemma TookOne(s: Spc, s': Spc, b: nat, total: nat)
    requires SpcOk(s, total) && DATA_START <= b < total
    requires Filled(s.bits, s'.bits, b, b + 1, true) && s'.held == s.held && Dirtied(s.dirty, s'.dirty, b, b + 1)
    ensures s' == TakeOne(s, b)
  {
    var k := b / BITS_PER_BITMAP;
    assert Touches(b, b + 1, k);
    assert s'.bits == s.bits[b := true];
    forall j: nat | j < |s.dirty| ensures s'.dirty[j] == (s.dirty[j] || j == k) {
      assert Touches(b, b + 1, j) ==> j == k;
    }
    assert s'.dirty == s.dirty[k := true];
  }
}
