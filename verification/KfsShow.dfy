/** What a volume's items show: its files and folders. */
module KfsShow {
  import opened Wrappers
  import opened KfsTypes
  import opened KfsItems
  import opened KfsFiles
  import opened KfsNames

  ghost function InodeAt(s: Items, o: nat): Option<Data> { Find(s, K(o, K_INODE, 0)) }

  ghost function LinkAt(s: Items, d: nat, off: nat): Option<Data> { Find(s, K(d, K_DIR_ENTRY, off)) }

  /** Object `o`'s data items. */
  function DataOf(s: Items, o: nat): Items { Chosen(s, DataLo(o), DataHi(o)) }

  function InodeData(v: Names, o: nat): Option<Data> {
    if o in v.inodes then Some(Ino(v.inodes[o])) else None
  }

  function LinkData(v: Names, d: nat, off: nat): Option<Data> {
    if (d, off) in v.links then var l := v.links[(d, off)]; Some(Ent(l.child, l.dir, l.name)) else None
  }

  ghost predicate ContentsAt(s: Items, v: Names, o: nat) {
    if o in v.contents then |v.contents[o]| < U64 && Holds(DataOf(s, o), o, v.contents[o]) else DataOf(s, o) == []
  }

  /** An item is an inode, a directory entry, inline data or an extent. */
  predicate KindOk(k: Key) {
    (KindOf(k) == K_INODE && OffOf(k) == 0) || KindOf(k) == K_DIR_ENTRY || KindOf(k) == K_INLINE || KindOf(k) == K_EXTENT
  }

  /** The items show exactly these inodes, directory entries and file contents. */
  ghost predicate Shows(s: Items, v: Names) {
    && Sorted(s)
    && (forall o: nat {:trigger InodeAt(s, o)} :: InodeAt(s, o) == InodeData(v, o))
    && (forall d: nat, off: nat {:trigger LinkAt(s, d, off)} :: off < U64 ==> LinkAt(s, d, off) == LinkData(v, d, off))
    && (forall k {:trigger v.links[k]} :: k in v.links ==> k.1 < U64)
    && (forall o: nat {:trigger ContentsAt(s, v, o)} :: ContentsAt(s, v, o))
    && (forall i: nat {:trigger s[i]} :: i < |s| ==> KindOk(s[i].key))
  }

  // --- Distinct keys ---

  lemma KeysApart(o: nat, kind: nat, off: nat, o': nat, kind': nat, off': nat)
    requires KeyParts(o, kind, off) && KeyParts(o', kind', off')
    ensures K(o, kind, off) == K(o', kind', off') <==> o == o' && kind == kind' && off == off'
  {
    KeyParted(o, kind, off);
    KeyParted(o', kind', off');
  }

  /** A key outside a range does not matter to what is chosen from the range. */
  lemma ChosenPut(s: Items, k: Key, d: Data, lo: Key, hi: Key)
    requires !(lo <= k < hi)
    ensures Chosen(Put(s, k, d), lo, hi) == Chosen(s, lo, hi)
  {
    var a, b := s[..Pos(s, k)], s[Pos(s, k) + Hit(s, k)..];
    ChosenAround(s, k, lo, hi);
    ChosenConcat(a + [Item(k, d)], b, lo, hi);
    ChosenConcat(a, [Item(k, d)], lo, hi);
    ChosenNone([Item(k, d)], lo, hi);
  }

  lemma ChosenCut(s: Items, k: Key, lo: Key, hi: Key)
    requires !(lo <= k < hi)
    ensures Chosen(Cut(s, k), lo, hi) == Chosen(s, lo, hi)
  {
    ChosenAround(s, k, lo, hi);
    ChosenConcat(s[..Pos(s, k)], s[Pos(s, k) + Hit(s, k)..], lo, hi);
  }

  lemma ChosenAround(s: Items, k: Key, lo: Key, hi: Key)
    requires !(lo <= k < hi)
    ensures Chosen(s, lo, hi) == Chosen(s[..Pos(s, k)], lo, hi) + Chosen(s[Pos(s, k) + Hit(s, k)..], lo, hi)
  {
    var p := Pos(s, k);
    Halves(s, p);
    if Hit(s, k) == 1 {
      ChosenThree(s[..p], [s[p]], s[p + 1..], lo, hi);
      ChosenNone([s[p]], lo, hi);
    } else {
      ChosenConcat(s[..p], s[p..], lo, hi);
    }
  }

  lemma NotData(o: nat, kind: nat, off: nat, x: nat)
    requires KeyParts(o, kind, off) && kind < K_INLINE
    ensures !(DataLo(x) <= K(o, kind, off) < DataHi(x))
  {
    KeyParted(o, kind, off);
    KeyRanges(K(o, kind, off), x, 0);
  }

  // --- One item put or cut ---

  lemma ShowPutInode(s: Items, v: Names, o: nat, i: Inode)
    requires Shows(s, v)
    ensures Shows(Put(s, K(o, K_INODE, 0), Ino(i)), v.(inodes := v.inodes[o := i]))
  {
    var k, v' := K(o, K_INODE, 0), v.(inodes := v.inodes[o := i]);
    var t := Put(s, k, Ino(i));
    PutSorted(s, k, Ino(i));
    forall x: nat ensures InodeAt(t, x) == InodeData(v', x) {
      FindPut(s, k, Ino(i), K(x, K_INODE, 0));
      KeysApart(o, K_INODE, 0, x, K_INODE, 0);
      assert InodeAt(s, x) == InodeData(v, x);
    }
    forall d: nat, off: nat | off < U64 ensures LinkAt(t, d, off) == LinkData(v', d, off) {
      FindPut(s, k, Ino(i), K(d, K_DIR_ENTRY, off));
      KeysApart(o, K_INODE, 0, d, K_DIR_ENTRY, off);
      assert LinkAt(s, d, off) == LinkData(v, d, off);
    }
    forall x: nat ensures ContentsAt(t, v', x) {
      assert ContentsAt(s, v, x);
      NotData(o, K_INODE, 0, x);
      ChosenPut(s, k, Ino(i), DataLo(x), DataHi(x));
    }
    KeyParted(o, K_INODE, 0);
    PutKinds(s, k, Ino(i));
  }

  lemma PutKinds(s: Items, k: Key, d: Data)
    requires KindOk(k) && forall i: nat {:trigger s[i]} :: i < |s| ==> KindOk(s[i].key)
    ensures forall i: nat {:trigger Put(s, k, d)[i]} :: i < |Put(s, k, d)| ==> KindOk(Put(s, k, d)[i].key)
  {
    forall j: nat | j < |Put(s, k, d)| ensures KindOk(Put(s, k, d)[j].key) {
      if j != Pos(s, k) {
        var i := PutFrom(s, k, d, j);
      }
    }
  }

  lemma ShowPutLink(s: Items, v: Names, d: nat, off: nat, l: Link)
    requires Shows(s, v) && off < U64
    ensures Shows(Put(s, K(d, K_DIR_ENTRY, off), Ent(l.child, l.dir, l.name)), v.(links := v.links[(d, off) := l]))
  {
    var k, e, v' := K(d, K_DIR_ENTRY, off), Ent(l.child, l.dir, l.name), v.(links := v.links[(d, off) := l]);
    var t := Put(s, k, e);
    PutSorted(s, k, e);
    forall x: nat ensures InodeAt(t, x) == InodeData(v', x) {
      FindPut(s, k, e, K(x, K_INODE, 0));
      KeysApart(d, K_DIR_ENTRY, off, x, K_INODE, 0);
      assert InodeAt(s, x) == InodeData(v, x);
    }
    forall x: nat, f: nat | f < U64 ensures LinkAt(t, x, f) == LinkData(v', x, f) {
      FindPut(s, k, e, K(x, K_DIR_ENTRY, f));
      KeysApart(d, K_DIR_ENTRY, off, x, K_DIR_ENTRY, f);
      assert LinkAt(s, x, f) == LinkData(v, x, f);
    }
    forall x: nat ensures ContentsAt(t, v', x) {
      assert ContentsAt(s, v, x);
      NotData(d, K_DIR_ENTRY, off, x);
      ChosenPut(s, k, e, DataLo(x), DataHi(x));
    }
    KeyParted(d, K_DIR_ENTRY, off);
    PutKinds(s, k, e);
  }

  lemma ShowCutLink(s: Items, v: Names, d: nat, off: nat)
    requires Shows(s, v) && off < U64
    ensures Shows(Cut(s, K(d, K_DIR_ENTRY, off)), v.(links := v.links - {(d, off)}))
  {
    var k, v' := K(d, K_DIR_ENTRY, off), v.(links := v.links - {(d, off)});
    var t := Cut(s, k);
    CutSorted(s, k);
    forall x: nat ensures InodeAt(t, x) == InodeData(v', x) {
      FindCut(s, k, K(x, K_INODE, 0));
      KeysApart(d, K_DIR_ENTRY, off, x, K_INODE, 0);
      assert InodeAt(s, x) == InodeData(v, x);
    }
    forall x: nat, f: nat | f < U64 ensures LinkAt(t, x, f) == LinkData(v', x, f) {
      FindCut(s, k, K(x, K_DIR_ENTRY, f));
      KeysApart(d, K_DIR_ENTRY, off, x, K_DIR_ENTRY, f);
      assert LinkAt(s, x, f) == LinkData(v, x, f);
    }
    forall x: nat ensures ContentsAt(t, v', x) {
      assert ContentsAt(s, v, x);
      NotData(d, K_DIR_ENTRY, off, x);
      ChosenCut(s, k, DataLo(x), DataHi(x));
    }
    forall j: nat | j < |t| ensures KindOk(t[j].key) {
      var i := CutFrom(s, k, j);
    }
  }

  // --- A range of items replaced ---

  /** `s` and `t` differ only between two keys, where they have `d` and `e`. */
  ghost predicate Swapped(s: Items, t: Items, lo: Key, hi: Key, a: Items, d: Items, e: Items, b: Items) {
    && lo <= hi && s == a + d + b && t == a + e + b && Sorted(s) && Sorted(t)
    && Cut3(s, lo, hi, a, d, b) && Cut3(t, lo, hi, a, e, b)
  }

  lemma SwapFind(s: Items, t: Items, lo: Key, hi: Key, a: Items, d: Items, e: Items, b: Items, k: Key)
    requires Swapped(s, t, lo, hi, a, d, e, b) && !(lo <= k < hi)
    ensures Find(t, k) == Find(s, k)
  {
    FindElsewhere(a, d, e, b, lo, hi, k);
  }

  lemma SwapChosen(s: Items, t: Items, lo: Key, hi: Key, a: Items, d: Items, e: Items, b: Items, x: Key, y: Key)
    requires Swapped(s, t, lo, hi, a, d, e, b) && (y <= lo || hi <= x)
    ensures Chosen(t, x, y) == Chosen(s, x, y)
  {
    ChosenThree(a, d, b, x, y);
    ChosenThree(a, e, b, x, y);
    ChosenNone(d, x, y);
    ChosenNone(e, x, y);
  }

  lemma ChosenThree(a: Items, d: Items, b: Items, x: Key, y: Key)
    ensures Chosen(a + d + b, x, y) == Chosen(a, x, y) + Chosen(d, x, y) + Chosen(b, x, y)
  {
    ChosenConcat(a + d, b, x, y);
    ChosenConcat(a, d, x, y);
  }

  lemma SwapOwn(s: Items, t: Items, lo: Key, hi: Key, a: Items, d: Items, e: Items, b: Items)
    requires Swapped(s, t, lo, hi, a, d, e, b)
    ensures Chosen(t, lo, hi) == e && Chosen(s, lo, hi) == d
  {
    ChosenThree(a, d, b, lo, hi);
    ChosenThree(a, e, b, lo, hi);
    ChosenNone(a, lo, hi);
    ChosenNone(b, lo, hi);
    ChosenAll(d, lo, hi);
    ChosenAll(e, lo, hi);
  }

  lemma DataApart(o: nat, x: nat)
    requires o != x
    ensures DataHi(x) <= DataLo(o) || DataHi(o) <= DataLo(x)
  {
    if x < o {
      assert K(x + 1, 0, 0) <= K(o, 0, 0);
    } else {
      assert K(o + 1, 0, 0) <= K(x, 0, 0);
    }
  }

  /** Object `o`'s data items replaced. */
  lemma ShowSwapData(s: Items, t: Items, v: Names, v': Names, o: nat, a: Items, d: Items, e: Items, b: Items)
    requires Shows(s, v) && Swapped(s, t, DataLo(o), DataHi(o), a, d, e, b)
    requires v'.inodes == v.inodes && v'.links == v.links
    requires forall x :: x != o ==> (x in v'.contents <==> x in v.contents) && (x in v.contents ==> v'.contents[x] == v.contents[x])
    requires if o in v'.contents then |v'.contents[o]| < U64 && Holds(e, o, v'.contents[o]) else e == []
    ensures Shows(t, v')
  {
    var lo, hi := DataLo(o), DataHi(o);
    forall x: nat ensures InodeAt(t, x) == InodeData(v', x) {
      NotData(x, K_INODE, 0, o);
      SwapFind(s, t, lo, hi, a, d, e, b, K(x, K_INODE, 0));
      assert InodeAt(s, x) == InodeData(v, x);
    }
    forall x: nat, f: nat | f < U64 ensures LinkAt(t, x, f) == LinkData(v', x, f) {
      NotData(x, K_DIR_ENTRY, f, o);
      SwapFind(s, t, lo, hi, a, d, e, b, K(x, K_DIR_ENTRY, f));
      assert LinkAt(s, x, f) == LinkData(v, x, f);
    }
    forall x: nat ensures ContentsAt(t, v', x) {
      assert ContentsAt(s, v, x);
      if x == o {
        SwapOwn(s, t, lo, hi, a, d, e, b);
      } else {
        DataApart(o, x);
        SwapChosen(s, t, lo, hi, a, d, e, b, DataLo(x), DataHi(x));
      }
    }
    forall i: nat | i < |t| ensures KindOk(t[i].key) {
      SwapKind(s, t, o, a, d, e, b, i);
    }
  }

  lemma SwapKind(s: Items, t: Items, o: nat, a: Items, d: Items, e: Items, b: Items, i: nat)
    requires Swapped(s, t, DataLo(o), DataHi(o), a, d, e, b) && i < |t|
    requires forall j: nat {:trigger s[j]} :: j < |s| ==> KindOk(s[j].key)
    ensures KindOk(t[i].key)
  {
    if i < |a| {
      assert t[i] == s[i];
    } else if i < |a| + |e| {
      assert t[i] == e[i - |a|];
      KeyRanges(t[i].key, o, 0);
    } else {
      assert t[i] == b[i - |a| - |e|] == s[i - |e| + |d|];
    }
  }

  // --- An object's items all dropped ---

  /** All that the items show, without object `o`. */
  function Without(v: Names, o: nat): Names {
    Names(v.inodes - {o}, map k | k in v.links && k.0 != o :: v.links[k], v.contents - {o})
  }

  lemma ObjRange(o: nat, kind: nat, off: nat, x: nat)
    requires KeyParts(x, kind, off)
    ensures K(o, 0, 0) <= K(x, kind, off) < K(o + 1, 0, 0) <==> x == o
  {
    KeyParted(x, kind, off);
    KeyRanges(K(x, kind, off), o, 0);
  }

  lemma ShowDropped(s: Items, t: Items, v: Names, o: nat, a: Items, d: Items, b: Items)
    requires Shows(s, v) && Swapped(s, t, K(o, 0, 0), K(o + 1, 0, 0), a, d, [], b)
    ensures Shows(t, Without(v, o))
  {
    var lo, hi, v' := K(o, 0, 0), K(o + 1, 0, 0), Without(v, o);
    forall x: nat ensures InodeAt(t, x) == InodeData(v', x) {
      ObjRange(o, K_INODE, 0, x);
      DroppedFind(s, t, lo, hi, a, d, b, K(x, K_INODE, 0));
      assert InodeAt(s, x) == InodeData(v, x);
    }
    forall x: nat, f: nat | f < U64 ensures LinkAt(t, x, f) == LinkData(v', x, f) {
      ObjRange(o, K_DIR_ENTRY, f, x);
      DroppedFind(s, t, lo, hi, a, d, b, K(x, K_DIR_ENTRY, f));
      assert LinkAt(s, x, f) == LinkData(v, x, f);
    }
    forall x: nat ensures ContentsAt(t, v', x) {
      assert ContentsAt(s, v, x);
      if x == o {
        SwapOwn(s, t, lo, hi, a, d, [], b);
        ChosenNarrow(t, lo, hi, DataLo(o), DataHi(o));
      } else {
        ObjApart(o, x);
        SwapChosen(s, t, lo, hi, a, d, [], b, DataLo(x), DataHi(x));
      }
    }
    forall i: nat | i < |t| ensures KindOk(t[i].key) {
      assert t[i] == if i < |a| then s[i] else s[i + |d|];
    }
  }

  lemma ObjApart(o: nat, x: nat)
    requires o != x
    ensures DataHi(x) <= K(o, 0, 0) || K(o + 1, 0, 0) <= DataLo(x)
  {
    if x < o {
      assert K(x + 1, 0, 0) <= K(o, 0, 0);
    } else {
      assert K(o + 1, 0, 0) <= K(x, 0, 0);
    }
  }

  lemma DroppedFind(s: Items, t: Items, lo: Key, hi: Key, a: Items, d: Items, b: Items, k: Key)
    requires Swapped(s, t, lo, hi, a, d, [], b)
    ensures Find(t, k) == if lo <= k < hi then None else Find(s, k)
  {
    if lo <= k < hi {
      PlaceOfLast(a, [], b, lo, hi, k);
    } else {
      SwapFind(s, t, lo, hi, a, d, [], b, k);
    }
  }

  /** Nothing chosen from a range, nothing chosen from part of it. */
  lemma {:induction false} ChosenNarrow(s: Items, lo: Key, hi: Key, x: Key, y: Key)
    requires lo <= x && y <= hi && Chosen(s, lo, hi) == []
    ensures Chosen(s, x, y) == []
  {
    if s != [] {
      ChosenNarrow(s[..|s| - 1], lo, hi, x, y);
    }
  }

  // --- What they show is all there is to them ---

  /** The same items show only one thing. */
  lemma ShowsOne(s: Items, v: Names, w: Names)
    requires Shows(s, v) && Shows(s, w)
    ensures v.inodes == w.inodes && v.links == w.links && v.contents.Keys == w.contents.Keys
  {
    forall o: nat ensures o in v.inodes <==> o in w.inodes
      ensures o in v.inodes ==> v.inodes[o] == w.inodes[o]
    {
      assert InodeAt(s, o) == InodeData(v, o) == InodeData(w, o);
    }
    forall k: (nat, nat) ensures k in v.links <==> k in w.links
      ensures k in v.links ==> v.links[k] == w.links[k]
    {
      if k.1 < U64 {
        assert LinkAt(s, k.0, k.1) == LinkData(v, k.0, k.1) == LinkData(w, k.0, k.1);
        assert k == (k.0, k.1);
      }
    }
    forall o: nat ensures o in v.contents <==> o in w.contents {
      HoldsSome(s, v, o);
      HoldsSome(s, w, o);
    }
  }

  lemma HoldsSome(s: Items, v: Names, o: nat)
    requires Shows(s, v)
    ensures o in v.contents <==> DataOf(s, o) != []
  {
    assert ContentsAt(s, v, o);
  }
}
