/** What a file's items say its contents are. */
module KfsFiles {
  import opened Wrappers
  import opened KfsTypes
  import opened KfsItems
  import opened KfsState

  // --- Taking keys apart ---

  function ObjOf(k: Key): nat { k / U64 / 256 }

  function KindOf(k: Key): nat { k / U64 % 256 }

  function OffOf(k: Key): nat { k % U64 }

  lemma KeyParted(o: nat, kind: nat, off: nat)
    requires KeyParts(o, kind, off)
    ensures ObjOf(K(o, kind, off)) == o && KindOf(K(o, kind, off)) == kind && OffOf(K(o, kind, off)) == off
  {
    var h := o * 256 + kind;
    assert (h * U64 + off) / U64 == h;
  }

  lemma KeyMade(k: Key)
    ensures KeyParts(ObjOf(k), KindOf(k), OffOf(k)) && k == K(ObjOf(k), KindOf(k), OffOf(k))
  {
  }

  /** One object's items are a range of keys, and so are those of one kind. */
  lemma KeyRanges(k: Key, o: nat, kind: nat)
    requires kind < 256
    ensures ObjOf(k) == o <==> K(o, 0, 0) <= k < K(o + 1, 0, 0)
    ensures ObjOf(k) == o && KindOf(k) == kind <==> K(o, kind, 0) <= k < K(o, kind + 1, 0)
    ensures ObjOf(k) == o && (KindOf(k) == 3 || KindOf(k) == 4) <==> K(o, 3, 0) <= k < K(o, 5, 0)
  {
    var h := k / U64;
    assert h * U64 <= k < (h + 1) * U64;
    assert ObjOf(k) == h / 256 && KindOf(k) == h % 256;
    assert h == ObjOf(k) * 256 + KindOf(k);
  }

  // --- Ranges of items ---

  ghost function Inside(s: Items, lo: Key, hi: Key): Items
    requires Pos(s, lo) <= Pos(s, hi)
  {
    s[Pos(s, lo)..Pos(s, hi)]
  }

  /** The run cut in three at two keys. */
  ghost predicate Cut3(s: Items, lo: Key, hi: Key, a: Items, d: Items, b: Items) {
    && s == a + d + b && Below(a, lo)
    && (forall i :: 0 <= i < |d| ==> lo <= d[i].key < hi)
    && (forall i :: 0 <= i < |b| ==> hi <= b[i].key)
  }

  lemma CutAtKeys(s: Items, lo: Key, hi: Key) returns (a: Items, d: Items, b: Items)
    requires Sorted(s) && lo <= hi
    ensures Pos(s, lo) <= Pos(s, hi)
    ensures a == s[..Pos(s, lo)] && d == Inside(s, lo, hi) && b == s[Pos(s, hi)..]
    ensures Cut3(s, lo, hi, a, d, b) && Sorted(a + b)
  {
    var p, q := Pos(s, lo), Pos(s, hi);
    PosOrder(s, lo, hi);
    PosAfter(s, lo);
    PosAfter(s, hi);
    PosSpec(s, lo);
    PosSpec(s, hi);
    a, d, b := s[..p], s[p..q], s[q..];
    InThree(s, 0, p, q, |s|);
    assert s == a + d + b;
    SkipSorted(s, p, q);
  }

  lemma SkipSorted(s: Items, p: nat, q: nat)
    requires Sorted(s) && p <= q <= |s|
    ensures Sorted(s[..p] + s[q..])
  {
    var t := s[..p] + s[q..];
    forall i, j | 0 <= i < j < |t| ensures t[i].key < t[j].key {
      assert t[i] == s[if i < p then i else i - p + q];
      assert t[j] == s[if j < p then j else j - p + q];
    }
  }

  // --- File contents ---

  function DataBlocks(n: nat): nat { (n + BLOCK - 1) / BLOCK }

  /** Block `i` of the data, the end padded with zeros. */
  function BlockOf(data: seq<int>, i: nat): Block {
    DataB(seq(BLOCK, j requires 0 <= j => if i * BLOCK + j < |data| then data[i * BLOCK + j] else 0))
  }

  function BlocksOf(data: seq<int>, i: nat, count: nat): seq<Block> {
    seq(count, j requires 0 <= j => BlockOf(data, i + j))
  }

  function Count(d: Data): nat { if d.Ext? then d.bp.count else 0 }

  /** Blocks the extents have, all together. */
  function BlocksIn(d: Items): nat {
    if d == [] then 0 else BlocksIn(d[..|d| - 1]) + Count(d[|d| - 1].data)
  }

  /** Extent `i` holds the blocks of `data` that follow those of the extents before it. */
  ghost predicate TileAt(d: Items, obj: nat, data: seq<int>, i: nat)
    requires i < |d|
  {
    var at := BlocksIn(d[..i]);
    && d[i].key == K(obj, K_EXTENT, at * BLOCK) && d[i].data.Ext?
    && var bp := d[i].data.bp;
    && 1 <= bp.count <= EXTENT_BLOCKS && at + bp.count <= DataBlocks(|data|)
    && d[i].data.length == (if (at + bp.count) * BLOCK <= |data| then bp.count * BLOCK else |data| - at * BLOCK)
    && bp.sum == BlocksOf(data, at, bp.count)
  }

  ghost predicate Tiles(d: Items, obj: nat, data: seq<int>) {
    forall i: nat {:trigger TileAt(d, obj, data, i)} :: i < |d| ==> TileAt(d, obj, data, i)
  }

  /** Items `d` are object `obj`'s data items, and say that its contents are `data`. */
  ghost predicate Holds(d: Items, obj: nat, data: seq<int>) {
    if |data| <= INLINE_MAX then d == [Item(K(obj, K_INLINE, 0), Inl(data))]
    else Tiles(d, obj, data) && BlocksIn(d) == DataBlocks(|data|)
  }

  /** One more extent. */
  lemma TilesPush(d: Items, obj: nat, data: seq<int>, x: Item)
    requires Tiles(d, obj, data) && x.data.Ext?
    requires var at, bp := BlocksIn(d), x.data.bp;
             && x.key == K(obj, K_EXTENT, at * BLOCK)
             && 1 <= bp.count <= EXTENT_BLOCKS && at + bp.count <= DataBlocks(|data|)
             && x.data.length == (if (at + bp.count) * BLOCK <= |data| then bp.count * BLOCK else |data| - at * BLOCK)
             && bp.sum == BlocksOf(data, at, bp.count)
    ensures Tiles(d + [x], obj, data) && BlocksIn(d + [x]) == BlocksIn(d) + x.data.bp.count
  {
    var e := d + [x];
    assert e[..|d|] == d;
    forall i: nat | i < |e| ensures TileAt(e, obj, data, i) {
      if i < |d| {
        assert TileAt(d, obj, data, i);
        assert e[..i] == d[..i];
      }
    }
  }

  lemma {:induction false} BlocksOrder(d: Items, i: nat, j: nat)
    requires i <= j <= |d|
    ensures BlocksIn(d[..i]) <= BlocksIn(d[..j])
    ensures i < j && d[i].data.Ext? ==> BlocksIn(d[..i]) + d[i].data.bp.count <= BlocksIn(d[..j])
    decreases j
  {
    if i < j {
      assert d[..j][..j - 1] == d[..j - 1];
      if i < j - 1 {
        BlocksOrder(d, i, j - 1);
      }
    }
  }

  /** Where tile `i` starts, and where it ends. */
  function TileStart(d: Items, i: nat): nat
    requires i <= |d|
  {
    BlocksIn(d[..i]) * BLOCK
  }

  /** The tiles from `i` on start where those before it end. */
  lemma TileNext(d: Items, obj: nat, data: seq<int>, i: nat)
    requires Tiles(d, obj, data) && i < |d|
    ensures d[i].data.Ext?
    ensures TileStart(d, i + 1) == TileStart(d, i) + d[i].data.bp.count * BLOCK
    ensures TileStart(d, i) < |data|
    ensures TileStart(d, i) + d[i].data.length == if TileStart(d, i + 1) <= |data| then TileStart(d, i + 1) else |data|
    ensures 0 < d[i].data.length <= EXTENT_MAX
    ensures d[i].key == K(obj, K_EXTENT, TileStart(d, i))
  {
    assert TileAt(d, obj, data, i);
    assert d[..i + 1][..i] == d[..i];
  }

  /** The bytes of a run of blocks. */
  function Bytes(bs: seq<Block>): seq<int> {
    if bs == [] then [] else Bytes(bs[..|bs| - 1]) + (if bs[|bs| - 1].DataB? then bs[|bs| - 1].bytes else [])
  }

  /** Byte `q` of the blocks of `data` from `at` on. */
  lemma {:induction false} BytesAt(data: seq<int>, at: nat, count: nat)
    ensures var bytes := Bytes(BlocksOf(data, at, count));
            && |bytes| == count * BLOCK
            && forall q :: 0 <= q < |bytes| ==> bytes[q] == if at * BLOCK + q < |data| then data[at * BLOCK + q] else 0
    decreases count
  {
    var bs := BlocksOf(data, at, count);
    if count > 0 {
      BytesAt(data, at, count - 1);
      assert bs[..count - 1] == BlocksOf(data, at, count - 1);
      var front, bytes := Bytes(bs[..count - 1]), Bytes(bs);
      assert bytes == front + BlockOf(data, at + count - 1).bytes;
      forall q | 0 <= q < |bytes| ensures bytes[q] == if at * BLOCK + q < |data| then data[at * BLOCK + q] else 0 {
        if q >= |front| {
          assert bytes[q] == BlockOf(data, at + count - 1).bytes[q - |front|];
        }
      }
    }
  }

  // --- Object `obj`'s data items, within all the items ---

  function DataLo(obj: nat): Key { K(obj, K_INLINE, 0) }

  function DataHi(obj: nat): Key { K(obj, K_EXTENT + 1, 0) }

  /** Dropping the first of the items between two keys. */
  lemma CutFirst(a: Items, d: Items, b: Items, lo: Key, hi: Key)
    requires Sorted(a + d + b) && Cut3(a + d + b, lo, hi, a, d, b) && d != []
    ensures Cut(a + d + b, d[0].key) == a + d[1..] + b && Find(a + d + b, d[0].key) == Some(d[0].data)
    ensures Sorted(a + d[1..] + b) && Cut3(a + d[1..] + b, lo, hi, a, d[1..], b)
  {
    var s, k := a + d + b, d[0].key;
    assert s[|a|] == d[0];
    assert |a| > 0 ==> s[|a| - 1] == a[|a| - 1];
    PosIs(s, k, |a|);
    assert s[..|a|] == a && s[|a| + 1..] == d[1..] + b;
    assert a + (d[1..] + b) == a + d[1..] + b;
    CutSorted(s, k);
  }

  /** Adding an item after those between two keys. */
  lemma PutLast(a: Items, d: Items, b: Items, lo: Key, hi: Key, k: Key, x: Data)
    requires Sorted(a + d + b) && Cut3(a + d + b, lo, hi, a, d, b) && lo <= k < hi
    requires forall i :: 0 <= i < |d| ==> d[i].key < k
    ensures Put(a + d + b, k, x) == a + (d + [Item(k, x)]) + b && Find(a + d + b, k) == None
    ensures Sorted(a + (d + [Item(k, x)]) + b) && Cut3(a + (d + [Item(k, x)]) + b, lo, hi, a, d + [Item(k, x)], b)
  {
    PlaceOfLast(a, d, b, lo, hi, k);
    PutSlices(a + d, b, k, x);
    assert a + d + [Item(k, x)] + b == a + (d + [Item(k, x)]) + b;
    PutSorted(a + d + b, k, x);
  }

  lemma PlaceOfLast(a: Items, d: Items, b: Items, lo: Key, hi: Key, k: Key)
    requires Sorted(a + d + b) && Cut3(a + d + b, lo, hi, a, d, b) && lo <= k < hi
    requires forall i :: 0 <= i < |d| ==> d[i].key < k
    ensures Pos(a + d + b, k) == |a + d| && Hit(a + d + b, k) == 0
  {
    var s, p := a + d + b, |a| + |d|;
    assert p > 0 ==> s[p - 1] == if d != [] then d[|d| - 1] else a[|a| - 1];
    assert p < |s| ==> s[p] == b[0];
    PosIs(s, k, p);
  }

  lemma PutSlices(a: Items, b: Items, k: Key, x: Data)
    requires Pos(a + b, k) == |a| && Hit(a + b, k) == 0
    ensures Put(a + b, k, x) == a + [Item(k, x)] + b && Find(a + b, k) == None
  {
    assert (a + b)[..|a|] == a && (a + b)[|a|..] == b;
  }

  /** Every tile so far has a smaller key than the next will. */
  lemma TilesBelow(d: Items, obj: nat, data: seq<int>)
    requires Tiles(d, obj, data)
    ensures forall i :: 0 <= i < |d| ==> d[i].key < K(obj, K_EXTENT, BlocksIn(d) * BLOCK)
  {
    assert d[..|d|] == d;
    forall i | 0 <= i < |d| ensures d[i].key < K(obj, K_EXTENT, BlocksIn(d) * BLOCK) {
      assert TileAt(d, obj, data, i);
      BlocksOrder(d, i, |d|);
    }
  }

  /** Items that change only between two keys look the same elsewhere. */
  lemma FindElsewhere(a: Items, d: Items, d': Items, b: Items, lo: Key, hi: Key, k: Key)
    requires Sorted(a + d + b) && Cut3(a + d + b, lo, hi, a, d, b)
    requires Sorted(a + d' + b) && Cut3(a + d' + b, lo, hi, a, d', b)
    requires lo <= hi && (k < lo || hi <= k)
    ensures Find(a + d' + b, k) == Find(a + d + b, k)
  {
    FindOutside(a, d, b, lo, hi, k);
    FindOutside(a, d', b, lo, hi, k);
  }

  lemma FindOutside(a: Items, d: Items, b: Items, lo: Key, hi: Key, k: Key)
    requires Sorted(a + d + b) && Cut3(a + d + b, lo, hi, a, d, b)
    requires lo <= hi && (k < lo || hi <= k)
    ensures Find(a + d + b, k) == if k < lo then Find(a, k) else Find(b, k)
  {
    var s := a + d + b;
    if k < lo {
      PosSpec(a, k);
      var p := Pos(a, k);
      assert p > 0 ==> s[p - 1] == a[p - 1];
      assert p < |s| ==> s[p] == if p < |a| then a[p] else if d != [] then d[0] else b[0];
      PosIs(s, k, p);
      assert p == |a| && p < |s| ==> k < s[p].key;
    } else {
      PosSpec(b, k);
      var n := |a| + |d|;
      var p := Pos(b, k);
      assert n + p > 0 ==> s[n + p - 1] == if p > 0 then b[p - 1] else if d != [] then d[|d| - 1] else a[|a| - 1];
      assert n + p < |s| ==> s[n + p] == b[p];
      assert n > 0 && d == [] ==> a[|a| - 1].key < lo;
      PosIs(s, k, n + p);
    }
  }

  /** What is left of the run without the items between two keys. */
  ghost function Outside(s: Items, lo: Key, hi: Key): Items
    requires Pos(s, lo) <= Pos(s, hi)
  {
    s[..Pos(s, lo)] + s[Pos(s, hi)..]
  }

  /** The items between two keys, picked one by one. */
  function Chosen(s: Items, lo: Key, hi: Key): Items {
    if s == [] then []
    else
      var rest, x := Chosen(s[..|s| - 1], lo, hi), s[|s| - 1];
      if lo <= x.key < hi then rest + [x] else rest
  }

  lemma {:induction false} ChosenConcat(x: Items, y: Items, lo: Key, hi: Key)
    ensures Chosen(x + y, lo, hi) == Chosen(x, lo, hi) + Chosen(y, lo, hi)
  {
    if y == [] {
      assert x + y == x;
    } else {
      assert (x + y)[..|x + y| - 1] == x + y[..|y| - 1];
      ChosenConcat(x, y[..|y| - 1], lo, hi);
    }
  }

  lemma {:induction false} ChosenNone(s: Items, lo: Key, hi: Key)
    requires forall i :: 0 <= i < |s| ==> !(lo <= s[i].key < hi)
    ensures Chosen(s, lo, hi) == []
  {
    if s != [] {
      ChosenNone(s[..|s| - 1], lo, hi);
    }
  }

  lemma {:induction false} ChosenAll(s: Items, lo: Key, hi: Key)
    requires forall i :: 0 <= i < |s| ==> lo <= s[i].key < hi
    ensures Chosen(s, lo, hi) == s
  {
    if s != [] {
      ChosenAll(s[..|s| - 1], lo, hi);
    }
  }

  lemma ChosenInside(s: Items, lo: Key, hi: Key, p: nat, q: nat)
    requires Sorted(s) && lo <= hi && p <= q <= |s|
    requires Pos(s, lo) <= Pos(s, hi) && p <= Pos(s, lo) && Pos(s, hi) <= q
    ensures Chosen(s[p..q], lo, hi) == Inside(s, lo, hi)
  {
    var m, n := Pos(s, lo), Pos(s, hi);
    var x, y, z := s[p..m], s[m..n], s[n..q];
    InThree(s, p, m, n, q);
    ChosenConcat(x, y + z, lo, hi);
    ChosenConcat(y, z, lo, hi);
    ThreeRanges(s, lo, hi, p, q);
    ChosenNone(x, lo, hi);
    ChosenAll(y, lo, hi);
    ChosenNone(z, lo, hi);
  }

  lemma InThree<T>(s: seq<T>, p: nat, m: nat, n: nat, q: nat)
    requires p <= m <= n <= q <= |s|
    ensures s[p..q] == s[p..m] + (s[m..n] + s[n..q])
  {
  }

  lemma ThreeRanges(s: Items, lo: Key, hi: Key, p: nat, q: nat)
    requires Sorted(s) && lo <= hi && p <= Pos(s, lo) <= Pos(s, hi) <= q <= |s|
    ensures forall i :: 0 <= i < Pos(s, lo) - p ==> s[p..Pos(s, lo)][i].key < lo
    ensures forall i :: 0 <= i < Pos(s, hi) - Pos(s, lo) ==> lo <= s[Pos(s, lo)..Pos(s, hi)][i].key < hi
    ensures forall i :: 0 <= i < q - Pos(s, hi) ==> hi <= s[Pos(s, hi)..q][i].key
  {
    PosSpec(s, lo);
    PosSpec(s, hi);
    PosAfter(s, lo);
    PosAfter(s, hi);
  }

  function DropLo(obj: nat, dataOnly: bool): Key { if dataOnly then DataLo(obj) else K(obj, 0, 0) }

  function DropHi(obj: nat, dataOnly: bool): Key { if dataOnly then DataHi(obj) else K(obj + 1, 0, 0) }

  predicate Doomed(k: Key, obj: nat, dataOnly: bool) {
    ObjOf(k) == obj && (!dataOnly || KindOf(k) == K_INLINE || KindOf(k) == K_EXTENT)
  }

  lemma DoomedRange(k: Key, obj: nat, dataOnly: bool)
    ensures Doomed(k, obj, dataOnly) <==> DropLo(obj, dataOnly) <= k < DropHi(obj, dataOnly)
    ensures K(obj, 0, 0) <= DropLo(obj, dataOnly) <= DropHi(obj, dataOnly) <= K(obj + 1, 0, 0)
  {
    KeyRanges(k, obj, 3);
  }

  /** What a scan of an object's items sees, of those to be dropped. */
  lemma SeenDoomed(s: Items, obj: nat, dataOnly: bool, seen: Items)
    requires Sorted(s) && seen == Visit(s, K(obj, 0, 0), (it: Item) => ObjOf(it.key) == obj).0
    ensures Pos(s, DropLo(obj, dataOnly)) <= Pos(s, DropHi(obj, dataOnly))
    ensures Chosen(seen, DropLo(obj, dataOnly), DropHi(obj, dataOnly)) == Inside(s, DropLo(obj, dataOnly), DropHi(obj, dataOnly))
  {
    var lo, hi := DropLo(obj, dataOnly), DropHi(obj, dataOnly);
    var from, to := K(obj, 0, 0), K(obj + 1, 0, 0);
    var more := (it: Item) => ObjOf(it.key) == obj;
    forall x: Item | from <= x.key ensures more(x) <==> x.key < to {
      KeyRanges(x.key, obj, 0);
    }
    DoomedRange(0, obj, dataOnly);
    VisitRange(s, from, to, more);
    PosOrder(s, from, lo);
    PosOrder(s, lo, hi);
    PosOrder(s, hi, to);
    var p, e := Pos(s, from), Pos(s, to);
    var q := if e < |s| then e + 1 else |s|;
    ToEnd(s, p);
    assert seen == s[p..q];
    ChosenInside(s, lo, hi, p, q);
  }

  lemma ToEnd<T>(s: seq<T>, p: nat)
    requires p <= |s|
    ensures s[p..] == s[p..|s|]
  {
  }

  // --- Reading ---

  /** What a reader puts together: bytes kept in the tree itself, or a run of blocks from some offset on. */
  datatype Piece = InlinePiece(bytes: seq<int>) | ExtentPiece(offset: nat, length: nat, bp: Bp)

  function PieceOf(x: Item): Piece
    requires x.data.Ext?
  {
    ExtentPiece(OffOf(x.key), x.data.length, x.data.bp)
  }

  predicate AllExts(d: Items) {
    forall i :: 0 <= i < |d| ==> d[i].data.Ext?
  }

  function PiecesOf(d: Items): seq<Piece>
    requires AllExts(d)
  {
    seq(|d|, i requires 0 <= i < |d| => PieceOf(d[i]))
  }

  /** Where tile `i`'s bytes end. */
  function TileEnd(d: Items, i: nat): nat
    requires i < |d| && d[i].data.Ext?
  {
    TileStart(d, i) + d[i].data.length
  }

  /** The tiles from `i` on are those that reach past `from`. */
  ghost predicate PastFrom(d: Items, from: nat, i: nat)
    requires AllExts(d)
  {
    && i <= |d|
    && (forall j: nat {:trigger TileEnd(d, j)} :: j < i ==> TileEnd(d, j) <= from)
    && (forall j: nat {:trigger TileEnd(d, j)} :: i <= j < |d| ==> TileEnd(d, j) > from)
  }

  lemma TilesExts(d: Items, obj: nat, data: seq<int>)
    requires Tiles(d, obj, data)
    ensures AllExts(d)
  {
    forall i | 0 <= i < |d| ensures d[i].data.Ext? { assert TileAt(d, obj, data, i); }
  }

  /** The tiles do not overlap. */
  lemma TilesOrder(d: Items, obj: nat, data: seq<int>, i: nat, j: nat)
    requires Tiles(d, obj, data) && i < j < |d| && AllExts(d)
    ensures TileEnd(d, i) == TileStart(d, i + 1) <= TileStart(d, j) < TileEnd(d, j)
  {
    TileNext(d, obj, data, i);
    TileNext(d, obj, data, j);
    BlocksOrder(d, i + 1, j);
  }

  lemma FirstPast(d: Items, obj: nat, data: seq<int>, from: nat) returns (i: nat)
    requires Tiles(d, obj, data) && AllExts(d)
    ensures PastFrom(d, from, i)
  {
    i := 0;
    while i < |d| && TileEnd(d, i) <= from
      invariant i <= |d| && forall j: nat {:trigger TileEnd(d, j)} :: j < i ==> TileEnd(d, j) <= from
    {
      i := i + 1;
    }
    forall j: nat | i <= j < |d| ensures TileEnd(d, j) > from {
      if i < j {
        TilesOrder(d, obj, data, i, j);
      }
    }
  }

  /** The first of them starts at or before `from`. */
  lemma PastStart(d: Items, obj: nat, data: seq<int>, from: nat, i: nat)
    requires Tiles(d, obj, data) && AllExts(d) && PastFrom(d, from, i) && from < |data|
    ensures TileStart(d, i) <= from
  {
    if i > 0 {
      assert TileEnd(d, i - 1) <= from;
      TileNext(d, obj, data, i - 1);
    } else {
      assert d[..0] == [];
    }
  }

  /** A search that starts `EXTENT_MAX - 1` bytes back misses no tile that reaches past `from`. */
  lemma NoneMissed(d: Items, obj: nat, data: seq<int>, from: nat, i: nat)
    requires Tiles(d, obj, data) && AllExts(d) && PastFrom(d, from, i) && Sorted(d)
    ensures Pos(d, K(obj, K_EXTENT, if from < EXTENT_MAX - 1 then 0 else from - (EXTENT_MAX - 1))) <= i
  {
    var k := K(obj, K_EXTENT, if from < EXTENT_MAX - 1 then 0 else from - (EXTENT_MAX - 1));
    var p := Pos(d, k);
    PosSpec(d, k);
    if i < |d| {
      TileNext(d, obj, data, i);
      assert TileEnd(d, i) > from;
      assert d[i].key >= k;
    }
  }

  /** The tiles below `to`. */
  lemma TilesTo(d: Items, obj: nat, data: seq<int>, to: nat)
    requires Tiles(d, obj, data) && AllExts(d) && Sorted(d)
    ensures var e := Pos(d, K(obj, K_EXTENT, to));
            && (forall i :: 0 <= i < e ==> TileStart(d, i) < to)
            && (e < |d| ==> to <= TileStart(d, e))
  {
    var k := K(obj, K_EXTENT, to);
    PosSpec(d, k);
    var e := Pos(d, k);
    forall i | 0 <= i < e ensures TileStart(d, i) < to {
      TileNext(d, obj, data, i);
    }
    if e < |d| {
      TileNext(d, obj, data, e);
    }
  }

  /** Byte `q` of tile `i`'s blocks. */
  lemma TileBytes(d: Items, obj: nat, data: seq<int>, i: nat)
    requires Tiles(d, obj, data) && i < |d|
    ensures d[i].data.Ext? && d[i].data.bp.count * BLOCK == |Bytes(d[i].data.bp.sum)| >= d[i].data.length
    ensures forall q :: 0 <= q < d[i].data.length ==>
      TileStart(d, i) + q < |data| && Bytes(d[i].data.bp.sum)[q] == data[TileStart(d, i) + q]
    ensures forall q :: 0 <= q < |Bytes(d[i].data.bp.sum)| && TileStart(d, i) + q >= |data| ==> Bytes(d[i].data.bp.sum)[q] == 0
  {
    assert TileAt(d, obj, data, i);
    TileNext(d, obj, data, i);
    BytesAt(data, BlocksIn(d[..i]), d[i].data.bp.count);
  }
}
