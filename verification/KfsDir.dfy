/** Folders on a mounted volume: finding things by path, and adding and taking out entries. */
module KfsDir {
  import opened Wrappers
  import opened KfsTypes
  import opened KfsItems
  import opened KfsState
  import opened KfsSpace
  import opened KfsDisk
  import opened KfsEdit
  import opened KfsCommit
  import opened KfsBooks
  import opened KfsFiles
  import opened KfsNames
  import opened KfsPaths
  import opened KfsShow
  import opened KfsIo
  import opened Kfs

  /** The volume is sound and its items show `v`. */
  ghost predicate Showing(fs: Fs, v: Names)
    reads fs, fs.dev
  {
    fs.Valid([]) && Shows(fs.Content(), v)
  }

  /** An operation has stopped short: the last commit is intact. */
  ghost predicate Stopped(fs: Fs, e: Error)
    reads fs, fs.dev
  {
    fs.Intact() && (fs.Excuse(e) || e == Refused)
  }

  /** An operation has stopped short, if only because the disk is full. */
  ghost predicate Halted(fs: Fs, e: Error)
    reads fs, fs.dev
  {
    fs.Stuck(e) || Stopped(fs, e)
  }

  lemma StillBacked(fs: Fs)
    requires fs.Valid([])
    ensures fs.Intact()
  {
    fs.ValidIntact([]);
  }

  // --- Single items ---

  lemma PlainRuns(s: Items, k: Key, x: Data)
    requires !x.Ext? && (Find(s, k).Some? ==> !Find(s, k).value.Ext?)
    ensures SameRuns(Extents(s) + [], Extents(Put(s, k, x)) + [])
  {
    assert Extents(s) + [] == Extents(s) && Extents(Put(s, k, x)) + [] == Extents(Put(s, k, x));
    forall b: nat ensures BpsUses(Extents(s) + [], b) == BpsUses(Extents(Put(s, k, x)) + [], b) {
      PutUses(s, k, x, b);
    }
  }

  /** Adds or replaces an item that has nothing to do with file data. */
  method PutPlain(fs: Fs, k: Key, x: Data) returns (r: Result<()>)
    requires fs.Valid([]) && !x.Ext? && ITEM_HEADER + DataSize(x) <= ROOM
    requires Find(fs.Content(), k).Some? ==> !Find(fs.Content(), k).value.Ext?
    modifies fs`root, fs`dirty, fs`nodes, fs`bits, fs`held, fs`bitmapDirty, fs`cache, fs`clock
    ensures r.Err? ==> fs.Failed(r.error)
    ensures r.Ok? ==> fs.Valid([]) && fs.dirty && fs.Content() == Put(old(fs.Content()), k, x)
    ensures r.Ok? ==> Spent(old(fs.Has()), fs.Has(), 1)
  {
    fs.ToMid([]);
    ghost var s, runs := fs.Content(), fs.Data() + [];
    var _ :- fs.SetItem(k, x, runs);
    DataOkPut(s, k, x, fs.dev.cur, fs.sb);
    PlainRuns(s, k, x);
    fs.FromMid(runs, []);
    return Ok(());
  }

  /** Object `obj`'s inode. */
  method GetInode(fs: Fs, obj: nat, ghost v: Names) returns (r: Result<Inode>)
    requires Showing(fs, v)
    modifies fs`cache, fs`clock
    ensures Showing(fs, v)
    ensures r.Err? ==> fs.Intact()
    ensures r.Err? ==> (fs.Excuse(r.error) || (r.error == Damaged && obj !in v.inodes))
    ensures r.Ok? ==> obj in v.inodes && r.value == v.inodes[obj]
  {
    var d := fs.GetItem(K(obj, K_INODE, 0), []);
    StillBacked(fs);
    if d.Err? {
      return Err(d.error);
    }
    assert InodeAt(fs.Content(), obj) == InodeData(v, obj);
    match d.value {
      case Some(Ino(i)) => return Ok(i);
      case _ => return Err(Damaged);
    }
  }

  method PutInode(fs: Fs, obj: nat, i: Inode, ghost v: Names) returns (r: Result<()>)
    requires Showing(fs, v)
    modifies fs`root, fs`dirty, fs`nodes, fs`bits, fs`held, fs`bitmapDirty, fs`cache, fs`clock
    ensures r.Err? ==> fs.Failed(r.error)
    ensures r.Ok? ==> fs.dirty && Showing(fs, v.(inodes := v.inodes[obj := i]))
    ensures r.Ok? ==> Spent(old(fs.Has()), fs.Has(), 1)
  {
    assert InodeAt(fs.Content(), obj) == InodeData(v, obj);
    ShowPutInode(fs.Content(), v, obj, i);
    r := PutPlain(fs, K(obj, K_INODE, 0), Ino(i));
  }

  /** Folder `dir` with a new modification time, and `links` more links (or fewer, but never below 0). */
  function TouchedIn(v: Names, dir: nat, links: int, now: nat): Names
    requires dir in v.inodes
  {
    var n := v.inodes[dir].links + links;
    v.(inodes := v.inodes[dir := Touched(v.inodes[dir], if n < 0 then 0 else n, now)])
  }

  /** Reads, changes and writes back folder `dir`'s inode. */
  method Touch(fs: Fs, dir: nat, links: int, now: nat, ghost v: Names) returns (r: Result<()>)
    requires Showing(fs, v) && dir in v.inodes
    modifies fs`root, fs`dirty, fs`nodes, fs`bits, fs`held, fs`bitmapDirty, fs`cache, fs`clock
    ensures r.Err? ==> fs.Failed(r.error)
    ensures r.Ok? ==> fs.dirty && Showing(fs, TouchedIn(v, dir, links, now))
    ensures r.Ok? ==> Spent(old(fs.Has()), fs.Has(), 1)
  {
    var i := GetInode(fs, dir, v);
    if i.Err? {
      return Err(i.error);
    }
    var n := i.value.links + links;
    r := PutInode(fs, dir, Touched(i.value, if n < 0 then 0 else n, now), v);
  }

  // --- The eight slots of a name ---

  predicate InBucket(k: Key, dir: nat, base: nat) {
    ObjOf(k) == dir && KindOf(k) == K_DIR_ENTRY && base <= OffOf(k) < base + BUCKET
  }

  predicate Called(x: Item, n: Name) {
    x.data.Ent? && x.data.name == n
  }

  lemma BucketRange(k: Key, dir: nat, base: nat)
    requires base + BUCKET <= U64
    ensures InBucket(k, dir, base) <==> K(dir, K_DIR_ENTRY, base) <= k < K(dir, K_DIR_ENTRY, base + BUCKET)
  {
    KeyRanges(k, dir, K_DIR_ENTRY);
    KeyMade(k);
  }

  /** What an entry item shows. */
  lemma EntryShown(s: Items, v: Names, i: nat)
    requires Shows(s, v) && i < |s| && KindOf(s[i].key) == K_DIR_ENTRY
    ensures var k := (ObjOf(s[i].key), OffOf(s[i].key));
            k in v.links && s[i].data == Ent(v.links[k].child, v.links[k].dir, v.links[k].name)
  {
    KeyMade(s[i].key);
    FindAt(s, i);
    assert LinkAt(s, ObjOf(s[i].key), OffOf(s[i].key)) == LinkData(v, ObjOf(s[i].key), OffOf(s[i].key));
  }

  lemma EntryFound(s: Items, v: Names, k: (nat, nat)) returns (i: nat)
    requires Shows(s, v) && k in v.links
    ensures i < |s| && s[i].key == K(k.0, K_DIR_ENTRY, k.1)
    ensures s[i].data == Ent(v.links[k].child, v.links[k].dir, v.links[k].name)
  {
    assert LinkAt(s, k.0, k.1) == LinkData(v, k.0, k.1);
    i := FoundAt(s, K(k.0, K_DIR_ENTRY, k.1));
  }

  /** The scan for a name finds its entry, or there is none. */
  lemma LookupSees(s: Items, v: Names, next: nat, h: Hash, dir: nat, n: Name, seen: Items)
    requires Shows(s, v) && Tidy(v, next, h)
    requires seen == Visit(s, K(dir, K_DIR_ENTRY, h(n)), (it: Item) => InBucket(it.key, dir, h(n)) && !Called(it, n)).0
    ensures seen != [] && InBucket(seen[|seen| - 1].key, dir, h(n)) && Called(seen[|seen| - 1], n) ==>
      var x := seen[|seen| - 1];
      && ChildOf(v.links, dir, n) == Some((dir, OffOf(x.key))) && (dir, OffOf(x.key)) in v.links
      && x.data == Ent(v.links[(dir, OffOf(x.key))].child, v.links[(dir, OffOf(x.key))].dir, n)
    ensures !(seen != [] && InBucket(seen[|seen| - 1].key, dir, h(n)) && Called(seen[|seen| - 1], n)) ==> ChildOf(v.links, dir, n) == None
  {
    var base := h(n);
    var start := K(dir, K_DIR_ENTRY, base);
    var more := (it: Item) => InBucket(it.key, dir, base) && !Called(it, n);
    var e := VisitUntil(s, start, more);
    if e < |s| {
      assert seen[|seen| - 1] == s[e];
    }
    if e < |s| && InBucket(s[e].key, dir, base) && Called(s[e], n) {
      EntryShown(s, v, e);
      ChildIs(v.links, (dir, OffOf(s[e].key)));
    } else {
      ChildNone(v.links, dir, n);
      forall k | k in v.links && k.0 == dir ensures v.links[k].name != n {
        NotCalled(s, v, next, h, dir, n, e, k);
      }
      if e == |s| && seen != [] {
        assert seen[|seen| - 1] == s[e - 1];
        assert more(s[e - 1]);
      }
    }
  }

  lemma NotCalled(s: Items, v: Names, next: nat, h: Hash, dir: nat, n: Name, e: nat, k: (nat, nat))
    requires Shows(s, v) && Tidy(v, next, h) && k in v.links && k.0 == dir && e <= |s|
    requires Pos(s, K(dir, K_DIR_ENTRY, h(n))) <= e
    requires forall i :: Pos(s, K(dir, K_DIR_ENTRY, h(n))) <= i < e ==> !Called(s[i], n)
    requires e < |s| ==> !InBucket(s[e].key, dir, h(n))
    ensures v.links[k].name != n
  {
    assert LinkOk(v, h, k);
    if v.links[k].name == n {
      var i := EntryFound(s, v, k);
      var start := K(dir, K_DIR_ENTRY, h(n));
      KeyParted(dir, K_DIR_ENTRY, k.1);
      BucketRange(s[i].key, dir, h(n));
      PosSpec(s, start);
      PosAfter(s, start);
      assert i >= e;
      BucketRange(s[e].key, dir, h(n));
      OneBefore(s, e, i);
      assert false;
    }
  }

  /** The child called `n` in folder `dir`: `(object, whether a folder, entry's key offset)`. */
  method Lookup(fs: Fs, dir: nat, n: Name, h: Hash, ghost v: Names, ghost next: nat)
      returns (r: Result<Option<(nat, bool, nat)>>)
    requires Showing(fs, v) && Tidy(v, next, h)
    modifies fs`cache, fs`clock
    ensures Showing(fs, v)
    ensures r.Err? ==> fs.Failed(r.error)
    ensures r.Ok? && r.value.None? ==> ChildOf(v.links, dir, n) == None
    ensures r.Ok? && r.value.Some? ==>
      var (obj, isDir, off) := r.value.value;
      ChildOf(v.links, dir, n) == Some((dir, off)) && (dir, off) in v.links && v.links[(dir, off)] == Link(obj, isDir, n)
  {
    var base := h(n);
    var seen :- fs.Look(K(dir, K_DIR_ENTRY, base), (it: Item) => InBucket(it.key, dir, base) && !Called(it, n), []);
    LookupSees(fs.Content(), v, next, h, dir, n, seen);
    if seen != [] {
      var x := seen[|seen| - 1];
      if InBucket(x.key, dir, base) && Called(x, n) {
        return Ok(Some((x.data.child, x.data.dir, OffOf(x.key))));
      }
    }
    return Ok(None);
  }

  // --- Paths ---

  /** The object at `path`, and whether it is a folder. */
  method Resolve(fs: Fs, path: seq<char>, h: Hash, ghost v: Names, ghost next: nat) returns (r: Result<(nat, bool)>)
    requires Showing(fs, v) && Tidy(v, next, h)
    modifies fs`cache, fs`clock
    ensures Showing(fs, v)
    ensures r.Err? ==> Stopped(fs, r.error)
    ensures r.Err? && r.error == Refused ==> Walk(v.links, ROOT, Parts(path)) == None
    ensures r.Ok? ==> Walk(v.links, ROOT, Parts(path)) == Some(r.value.0) && r.value.0 in v.inodes
    ensures r.Ok? ==> r.value.1 == v.inodes[r.value.0].dir
  {
    var parts := Parts(path);
    var cur, j := (ROOT, true), 0;
    assert parts[..0] == [];
    while j < |parts|
      invariant 0 <= j <= |parts| && Showing(fs, v)
      invariant Walk(v.links, ROOT, parts[..j]) == Some(cur.0) && cur.0 in v.inodes && cur.1 == v.inodes[cur.0].dir
    {
      WalkStep(v.links, parts, j);
      if !cur.1 {
        NoChildren(v, next, h, cur.0, parts[j]);
        StillBacked(fs);
        return Err(Refused);
      }
      var found := Lookup(fs, cur.0, parts[j], h, v, next);
      if found.Err? {
        return Err(found.error);
      }
      match found.value {
        case None =>
          StillBacked(fs);
          return Err(Refused);
        case Some((obj, isDir, off)) =>
          assert LinkOk(v, h, (cur.0, off));
          cur := (obj, isDir);
      }
      j := j + 1;
    }
    assert parts[..j] == parts;
    return Ok(cur);
  }

  lemma WalkStep(ls: Links, parts: seq<Name>, j: nat)
    requires j < |parts| && Walk(ls, ROOT, parts[..j]).Some?
    ensures var x := Walk(ls, ROOT, parts[..j]).value;
            match ChildOf(ls, x, parts[j])
            case None => Walk(ls, ROOT, parts) == None
            case Some(k) => Walk(ls, ROOT, parts[..j + 1]) == Some(ls[k].child)
  {
    var x := Walk(ls, ROOT, parts[..j]).value;
    assert parts == parts[..j] + parts[j..] && parts[j..][0] == parts[j];
    WalkConcat(ls, ROOT, parts[..j], parts[j..]);
    assert parts[..j + 1] == parts[..j] + [parts[j]] && [parts[j]][1..] == [];
    WalkConcat(ls, ROOT, parts[..j], [parts[j]]);
  }

  /** A file has no entries. */
  lemma NoChildren(v: Names, next: nat, h: Hash, o: nat, n: Name)
    requires Tidy(v, next, h) && o in v.inodes && !v.inodes[o].dir
    ensures ChildOf(v.links, o, n) == None
  {
    ChildNone(v.links, o, n);
    forall k | k in v.links ensures k.0 != o {
      assert LinkOk(v, h, k);
    }
  }

  /** There is no folder for `path` to be in. */
  ghost predicate NoParent(v: Names, path: seq<char>) {
    SplitPath(path).Ok? ==>
      match Walk(v.links, ROOT, Parts(SplitPath(path).value.0))
      case None => true
      case Some(x) => x in v.inodes && !v.inodes[x].dir
  }

  /** The folder `path`'s last part is in, and that part. */
  method ParentOf(fs: Fs, path: seq<char>, h: Hash, ghost v: Names, ghost next: nat) returns (r: Result<(nat, Name)>)
    requires Showing(fs, v) && Tidy(v, next, h)
    modifies fs`cache, fs`clock
    ensures Showing(fs, v)
    ensures r.Err? ==> Stopped(fs, r.error)
    ensures r.Ok? ==> SplitPath(path).Ok? && Parts(path) == Parts(SplitPath(path).value.0) + [r.value.1]
    ensures r.Ok? ==> Walk(v.links, ROOT, Parts(SplitPath(path).value.0)) == Some(r.value.0) && r.value.0 in v.inodes
    ensures r.Ok? ==> v.inodes[r.value.0].dir
    ensures r.Ok? ==> r.value.1 == SplitPath(path).value.1 != [] && '/' !in r.value.1
    ensures r.Err? && r.error == Refused ==> NoParent(v, path)
  {
    var split := SplitPath(path);
    if split.Err? {
      StillBacked(fs);
      return Err(Refused);
    }
    SplitParts(path);
    var (parent, name) := split.value;
    var dir := Resolve(fs, parent, h, v, next);
    if dir.Err? {
      return Err(dir.error);
    }
    if !dir.value.1 {
      StillBacked(fs);
      return Err(Refused);
    }
    return Ok((dir.value.0, name));
  }

  lemma FoundAtPath(v: Names, next: nat, h: Hash, path: seq<char>, dir: nat, off: nat)
    requires Tidy(v, next, h) && SplitPath(path).Ok? && Walk(v.links, ROOT, Parts(SplitPath(path).value.0)) == Some(dir)
    requires ChildOf(v.links, dir, SplitPath(path).value.1) == Some((dir, off)) && (dir, off) in v.links
    ensures Walk(v.links, ROOT, Parts(path)) == Some(v.links[(dir, off)].child) && v.links[(dir, off)].child in v.inodes
    ensures v.inodes[v.links[(dir, off)].child].dir == v.links[(dir, off)].dir
    ensures !v.links[(dir, off)].dir ==> v.links[(dir, off)].child in v.contents
  {
    SplitParts(path);
    var name := SplitPath(path).value.1;
    WalkConcat(v.links, ROOT, Parts(SplitPath(path).value.0), [name]);
    assert [name][1..] == [];
    assert LinkOk(v, h, (dir, off)) && Counted(v, v.links[(dir, off)].child);
  }

  /** Where the last part of `path` is: folder, slot, object, and whether that is a folder. */
  method Locate(fs: Fs, path: seq<char>, h: Hash, ghost v: Names) returns (r: Result<(nat, nat, nat, bool)>)
    requires Showing(fs, v) && Tidy(v, fs.next, h)
    modifies fs`cache, fs`clock
    ensures Showing(fs, v)
    ensures r.Err? ==> Stopped(fs, r.error)
    ensures r.Err? && r.error == Refused ==> SplitPath(path).Err? || Walk(v.links, ROOT, Parts(path)) == None
    ensures r.Ok? ==> SplitPath(path).Ok? && Parts(path) != []
    ensures r.Ok? ==>
      var (dir, off, obj, isDir) := r.value;
      && (dir, off) in v.links && v.links[(dir, off)].child == obj && v.links[(dir, off)].dir == isDir
      && Walk(v.links, ROOT, Parts(path)[..|Parts(path)| - 1]) == Some(dir) && Walk(v.links, ROOT, Parts(path)) == Some(obj)
      && obj in v.inodes && v.inodes[obj].dir == isDir
  {
    var at := ParentOf(fs, path, h, v, fs.next);
    if at.Err? {
      if at.error == Refused && SplitPath(path).Ok? {
        NoWay(v, fs.next, h, path);
      }
      return Err(at.error);
    }
    var (dir, name) := at.value;
    var found := Lookup(fs, dir, name, h, v, fs.next);
    if found.Err? {
      return Err(found.error);
    }
    match found.value {
      case None =>
        NotThere(v, path, dir);
        StillBacked(fs);
        return Err(Refused);
      case Some((obj, isDir, off)) =>
        FoundAtPath(v, fs.next, h, path, dir, off);
        SplitParts(path);
        assert Parts(path)[..|Parts(path)| - 1] == Parts(SplitPath(path).value.0);
        return Ok((dir, off, obj, isDir));
    }
  }

  lemma {:induction false} RootTrimmed(path: seq<char>)
    requires IsRoot(path)
    ensures TrimEnd(path) == []
  {
    if path != [] {
      assert path[|path| - 1] in path;
      var p := path[..|path| - 1];
      assert forall c :: c in p ==> c in path;
      RootTrimmed(p);
    }
  }

  lemma RootLocated(path: seq<char>)
    requires IsRoot(path)
    ensures SplitPath(path).Err?
  {
    RootTrimmed(path);
  }

  lemma NoWay(v: Names, next: nat, h: Hash, path: seq<char>)
    requires Tidy(v, next, h) && SplitPath(path).Ok? && NoParent(v, path)
    ensures Walk(v.links, ROOT, Parts(path)) == None
  {
    SplitParts(path);
    var (parent, name) := SplitPath(path).value;
    WalkConcat(v.links, ROOT, Parts(parent), [name]);
    if Walk(v.links, ROOT, Parts(parent)).Some? {
      NoChildren(v, next, h, Walk(v.links, ROOT, Parts(parent)).value, name);
    }
  }

  lemma NotThere(v: Names, path: seq<char>, dir: nat)
    requires SplitPath(path).Ok? && Walk(v.links, ROOT, Parts(SplitPath(path).value.0)) == Some(dir)
    requires ChildOf(v.links, dir, SplitPath(path).value.1) == None
    ensures Walk(v.links, ROOT, Parts(path)) == None
  {
    SplitParts(path);
    WalkConcat(v.links, ROOT, Parts(SplitPath(path).value.0), [SplitPath(path).value.1]);
  }

  // --- Listing a folder ---

  /** One entry of a listing: name, object, whether a folder, entry's key offset. */
  datatype Listed = Listed(name: Name, child: nat, dir: bool, off: nat)

  /** `out` lists every entry of folder `dir`, once, in the order of their keys. */
  ghost predicate Lists(out: seq<Listed>, ls: Links, dir: nat) {
    && (forall i {:trigger out[i]} :: 0 <= i < |out| ==> (dir, out[i].off) in ls && ls[(dir, out[i].off)] == Link(out[i].child, out[i].dir, out[i].name))
    && (forall i, j :: 0 <= i < j < |out| ==> out[i].off < out[j].off)
    && (forall k {:trigger ls[k]} :: k in ls && k.0 == dir ==> exists i {:trigger out[i]} :: 0 <= i < |out| && out[i].off == k.1)
  }

  predicate IsEntry(k: Key, dir: nat) { ObjOf(k) == dir && KindOf(k) == K_DIR_ENTRY }

  /** Everything in folder `dir`. */
  method Entries(fs: Fs, dir: nat, ghost v: Names) returns (r: Result<seq<Listed>>)
    requires Showing(fs, v)
    modifies fs`cache, fs`clock
    ensures Showing(fs, v)
    ensures r.Err? ==> fs.Failed(r.error)
    ensures r.Ok? ==> Lists(r.value, v.links, dir)
  {
    var seen :- fs.Look(K(dir, K_DIR_ENTRY, 0), (it: Item) => IsEntry(it.key, dir), []);
    var out := ListSeen(seen, dir, fs.Content(), v);
    return Ok(out);
  }

  /** The listing of the entries a scan has seen. */
  method ListSeen(seen: Items, dir: nat, ghost s: Items, ghost v: Names) returns (out: seq<Listed>)
    requires Shows(s, v) && seen == Visit(s, K(dir, K_DIR_ENTRY, 0), (it: Item) => IsEntry(it.key, dir)).0
    ensures Lists(out, v.links, dir)
  {
    ghost var p, e := EntriesSeen(s, dir, seen);
    out := [];
    var j := 0;
    while j < |seen|
      invariant 0 <= j <= |seen| && |out| == if p + j <= e then j else e - p
      invariant forall i {:trigger out[i]} :: 0 <= i < |out| ==> ShownAs(s[p + i], out[i], dir)
    {
      SeenAt(s, p, e, seen, j);
      EntryOrNot(s, v, dir, p, e, p + j);
      if IsEntry(seen[j].key, dir) && seen[j].data.Ent? {
        out := out + [Listed(seen[j].data.name, seen[j].data.child, seen[j].data.dir, OffOf(seen[j].key))];
      }
      j := j + 1;
    }
    AllListed(s, v, dir, p, e, out);
  }

  lemma SeenAt(s: Items, p: nat, e: nat, seen: Items, j: nat)
    requires p <= e <= |s| && seen == (if e < |s| then s[p..e + 1] else s[p..]) && j < |seen|
    ensures p + j < |s| && p + j <= e && seen[j] == s[p + j]
  {
  }

  ghost predicate ShownAs(x: Item, l: Listed, dir: nat) {
    IsEntry(x.key, dir) && x.data == Ent(l.child, l.dir, l.name) && OffOf(x.key) == l.off
  }

  lemma EntriesSeen(s: Items, dir: nat, seen: Items) returns (p: nat, e: nat)
    requires Sorted(s) && seen == Visit(s, K(dir, K_DIR_ENTRY, 0), (it: Item) => IsEntry(it.key, dir)).0
    ensures p == Pos(s, K(dir, K_DIR_ENTRY, 0)) && e == Pos(s, K(dir, K_DIR_ENTRY + 1, 0)) && p <= e
    ensures seen == if e < |s| then s[p..e + 1] else s[p..]
  {
    var start, end := K(dir, K_DIR_ENTRY, 0), K(dir, K_DIR_ENTRY + 1, 0);
    var more := (it: Item) => IsEntry(it.key, dir);
    forall x: Item | start <= x.key ensures more(x) <==> x.key < end {
      KeyRanges(x.key, dir, K_DIR_ENTRY);
    }
    p, e := Pos(s, start), Pos(s, end);
    VisitRange(s, start, end, more);
  }

  /** Which of the items are entries of the folder. */
  lemma EntryOrNot(s: Items, v: Names, dir: nat, p: nat, e: nat, i: nat)
    requires Shows(s, v) && p == Pos(s, K(dir, K_DIR_ENTRY, 0)) && e == Pos(s, K(dir, K_DIR_ENTRY + 1, 0))
    requires p <= i < |s|
    ensures IsEntry(s[i].key, dir) <==> i < e
    ensures i < e ==> s[i].data.Ent?
  {
    PosSpec(s, K(dir, K_DIR_ENTRY + 1, 0));
    PosAfter(s, K(dir, K_DIR_ENTRY, 0));
    PosAfter(s, K(dir, K_DIR_ENTRY + 1, 0));
    KeyRanges(s[i].key, dir, K_DIR_ENTRY);
    if i < e {
      EntryShown(s, v, i);
    }
  }

  lemma AllListed(s: Items, v: Names, dir: nat, p: nat, e: nat, out: seq<Listed>)
    requires Shows(s, v) && p == Pos(s, K(dir, K_DIR_ENTRY, 0)) && e == Pos(s, K(dir, K_DIR_ENTRY + 1, 0)) && p <= e
    requires |out| == e - p && forall i {:trigger out[i]} :: 0 <= i < |out| ==> ShownAs(s[p + i], out[i], dir)
    ensures Lists(out, v.links, dir)
  {
    forall i | 0 <= i < |out|
      ensures (dir, out[i].off) in v.links && v.links[(dir, out[i].off)] == Link(out[i].child, out[i].dir, out[i].name)
    {
      assert ShownAs(s[p + i], out[i], dir);
      EntryShown(s, v, p + i);
    }
    forall i, j | 0 <= i < j < |out| ensures out[i].off < out[j].off {
      assert ShownAs(s[p + i], out[i], dir) && ShownAs(s[p + j], out[j], dir);
      KeyMade(s[p + i].key);
      KeyMade(s[p + j].key);
      assert s[p + i].key < s[p + j].key;
    }
    forall k | k in v.links && k.0 == dir ensures exists i {:trigger out[i]} :: 0 <= i < |out| && out[i].off == k.1 {
      var i := EntryFound(s, v, k);
      KeyParted(dir, K_DIR_ENTRY, k.1);
      PosSpec(s, K(dir, K_DIR_ENTRY, 0));
      KeyRanges(s[i].key, dir, K_DIR_ENTRY);
      assert i >= p;
      EntryOrNot(s, v, dir, p, e, i);
      assert ShownAs(s[p + (i - p)], out[i - p], dir);
      assert out[i - p].off == k.1;
    }
  }

  // --- Adding an entry ---

  /** Which of the eight slots from `base` on are taken, among the items seen. */
  ghost predicate UsedBy(used: seq<bool>, seen: Items, dir: nat, base: nat) {
    && |used| == BUCKET
    && forall j {:trigger used[j]} :: 0 <= j < BUCKET ==>
         (used[j] <==> exists i {:trigger seen[i]} :: 0 <= i < |seen| && InBucket(seen[i].key, dir, base) && OffOf(seen[i].key) == base + j)
  }

  method MarkUsed(seen: Items, dir: nat, base: nat) returns (used: seq<bool>)
    ensures UsedBy(used, seen, dir, base)
  {
    used := seq(BUCKET, _ => false);
    var i := 0;
    assert seen[..0] == [];
    while i < |seen|
      invariant 0 <= i <= |seen| && UsedBy(used, seen[..i], dir, base)
    {
      ghost var before := used;
      var k := seen[i].key;
      if InBucket(k, dir, base) {
        used := used[OffOf(k) - base := true];
      }
      UsedNext(before, used, seen, i, dir, base);
      i := i + 1;
    }
    assert seen[..i] == seen;
  }

  lemma UsedNext(used: seq<bool>, used': seq<bool>, seen: Items, i: nat, dir: nat, base: nat)
    requires i < |seen| && UsedBy(used, seen[..i], dir, base)
    requires var k := seen[i].key; used' == if InBucket(k, dir, base) then used[OffOf(k) - base := true] else used
    ensures UsedBy(used', seen[..i + 1], dir, base)
  {
    var s := seen[..i + 1];
    assert s[i] == seen[i] && forall n :: 0 <= n < i ==> s[n] == seen[..i][n];
    forall j | 0 <= j < BUCKET
      ensures used'[j] <==> exists n {:trigger s[n]} :: 0 <= n < |s| && InBucket(s[n].key, dir, base) && OffOf(s[n].key) == base + j
    {
      if used[j] {
        var n :| 0 <= n < i && InBucket(seen[..i][n].key, dir, base) && OffOf(seen[..i][n].key) == base + j;
        assert s[n] == seen[..i][n];
      }
    }
  }

  method FirstFree(used: seq<bool>) returns (slot: nat)
    ensures slot <= |used| && (slot < |used| ==> !used[slot]) && forall j :: 0 <= j < slot ==> used[j]
  {
    slot := 0;
    while slot < |used| && used[slot]
      invariant slot <= |used| && forall j :: 0 <= j < slot ==> used[j]
    {
      slot := slot + 1;
    }
  }

  predicate SlotIn(ls: Links, dir: nat, off: nat) { (dir, off) in ls }

  /** Every slot of the bucket has an entry. */
  ghost predicate BucketFull(ls: Links, dir: nat, base: nat) {
    forall off: nat {:trigger SlotIn(ls, dir, off)} :: base <= off < base + BUCKET ==> SlotIn(ls, dir, off)
  }

  lemma BucketSeen(s: Items, dir: nat, base: nat, seen: Items) returns (p: nat, e: nat)
    requires Sorted(s) && base + BUCKET <= U64
    requires seen == Visit(s, K(dir, K_DIR_ENTRY, base), (it: Item) => InBucket(it.key, dir, base)).0
    ensures p == Pos(s, K(dir, K_DIR_ENTRY, base)) && e == Pos(s, K(dir, K_DIR_ENTRY, base + BUCKET)) && p <= e
    ensures seen == if e < |s| then s[p..e + 1] else s[p..]
  {
    var start, end := K(dir, K_DIR_ENTRY, base), K(dir, K_DIR_ENTRY, base + BUCKET);
    var more := (it: Item) => InBucket(it.key, dir, base);
    forall x: Item | start <= x.key ensures more(x) <==> x.key < end {
      BucketRange(x.key, dir, base);
    }
    p, e := Pos(s, start), Pos(s, end);
    VisitRange(s, start, end, more);
  }

  /** A slot is used exactly when there is an entry there. */
  lemma SlotTaken(s: Items, v: Names, dir: nat, base: nat, seen: Items, used: seq<bool>, j: nat)
    requires Shows(s, v) && base + BUCKET <= U64 && j < BUCKET && UsedBy(used, seen, dir, base)
    requires seen == Visit(s, K(dir, K_DIR_ENTRY, base), (it: Item) => InBucket(it.key, dir, base)).0
    ensures used[j] <==> SlotIn(v.links, dir, base + j)
  {
    var p, e := BucketSeen(s, dir, base, seen);
    UsedIsTaken(s, v, dir, base, p, e, seen, used, j);
    TakenIsUsed(s, v, dir, base, p, e, seen, used, j);
  }

  lemma UsedIsTaken(s: Items, v: Names, dir: nat, base: nat, p: nat, e: nat, seen: Items, used: seq<bool>, j: nat)
    requires Shows(s, v) && p <= e <= |s| && seen == (if e < |s| then s[p..e + 1] else s[p..])
    requires j < BUCKET && UsedBy(used, seen, dir, base)
    ensures used[j] ==> SlotIn(v.links, dir, base + j)
  {
    if used[j] {
      var i :| 0 <= i < |seen| && InBucket(seen[i].key, dir, base) && OffOf(seen[i].key) == base + j;
      UsedIsEntry(s, v, dir, base, p, e, seen, i);
    }
  }

  lemma TakenIsUsed(s: Items, v: Names, dir: nat, base: nat, p: nat, e: nat, seen: Items, used: seq<bool>, j: nat)
    requires Shows(s, v) && base + BUCKET <= U64 && j < BUCKET && UsedBy(used, seen, dir, base)
    requires p == Pos(s, K(dir, K_DIR_ENTRY, base)) && e == Pos(s, K(dir, K_DIR_ENTRY, base + BUCKET)) && p <= e <= |s|
    requires seen == if e < |s| then s[p..e + 1] else s[p..]
    ensures SlotIn(v.links, dir, base + j) ==> used[j]
  {
    if SlotIn(v.links, dir, base + j) {
      var i := EntryIsSeen(s, v, dir, base, p, e, seen, j);
      assert InBucket(seen[i].key, dir, base);
    }
  }

  lemma UsedIsEntry(s: Items, v: Names, dir: nat, base: nat, p: nat, e: nat, seen: Items, i: nat)
    requires Shows(s, v) && p <= e <= |s| && seen == (if e < |s| then s[p..e + 1] else s[p..])
    requires i < |seen| && InBucket(seen[i].key, dir, base)
    ensures SlotIn(v.links, dir, OffOf(seen[i].key))
  {
    SeenAt(s, p, e, seen, i);
    EntryShown(s, v, p + i);
  }

  lemma EntryIsSeen(s: Items, v: Names, dir: nat, base: nat, p: nat, e: nat, seen: Items, j: nat) returns (i: nat)
    requires Shows(s, v) && base + BUCKET <= U64 && j < BUCKET && SlotIn(v.links, dir, base + j)
    requires p == Pos(s, K(dir, K_DIR_ENTRY, base)) && e == Pos(s, K(dir, K_DIR_ENTRY, base + BUCKET)) && p <= e <= |s|
    requires seen == if e < |s| then s[p..e + 1] else s[p..]
    ensures i < |seen| && InBucket(seen[i].key, dir, base) && OffOf(seen[i].key) == base + j
  {
    var x := EntryFound(s, v, (dir, base + j));
    SeenEntry(s, dir, base, j, p, e, x);
    i := x - p;
    SeenAt(s, p, e, seen, i);
  }

  lemma SeenEntry(s: Items, dir: nat, base: nat, j: nat, p: nat, e: nat, i: nat)
    requires Sorted(s) && base + BUCKET <= U64 && j < BUCKET && i < |s| && s[i].key == K(dir, K_DIR_ENTRY, base + j)
    requires p == Pos(s, K(dir, K_DIR_ENTRY, base)) && e == Pos(s, K(dir, K_DIR_ENTRY, base + BUCKET))
    ensures p <= i < e && InBucket(s[i].key, dir, base) && OffOf(s[i].key) == base + j
  {
    KeyParted(dir, K_DIR_ENTRY, base + j);
    BucketRange(s[i].key, dir, base);
    PosSpec(s, K(dir, K_DIR_ENTRY, base));
    PosAfter(s, K(dir, K_DIR_ENTRY, base + BUCKET));
  }

  /** The first slot of the bucket that the items seen leave free. */
  /** Every slot of the bucket at `base` below `off` has an entry. */
  ghost predicate UsedUpTo(ls: Links, dir: nat, base: nat, off: nat) {
    forall x: nat {:trigger SlotIn(ls, dir, x)} :: base <= x < off ==> SlotIn(ls, dir, x)
  }

  method FreeSlot(seen: Items, dir: nat, base: nat, ghost s: Items, ghost v: Names) returns (slot: nat)
    requires Shows(s, v) && base + BUCKET <= U64
    requires seen == Visit(s, K(dir, K_DIR_ENTRY, base), (it: Item) => InBucket(it.key, dir, base)).0
    ensures slot < BUCKET ==> (dir, base + slot) !in v.links && LinkAt(s, dir, base + slot) == None
    ensures slot < BUCKET ==> UsedUpTo(v.links, dir, base, base + slot)
    ensures slot >= BUCKET ==> BucketFull(v.links, dir, base)
  {
    var used := MarkUsed(seen, dir, base);
    slot := FirstFree(used);
    if slot < BUCKET {
      SlotTaken(s, v, dir, base, seen, used, slot);
      forall off: nat | base <= off < base + slot ensures SlotIn(v.links, dir, off) {
        SlotTaken(s, v, dir, base, seen, used, off - base);
      }
      assert LinkAt(s, dir, base + slot) == LinkData(v, dir, base + slot);
    } else {
      forall off: nat | base <= off < base + BUCKET ensures SlotIn(v.links, dir, off) {
        SlotTaken(s, v, dir, base, seen, used, off - base);
      }
    }
  }

  /** The first free slot of the bucket at `base`, as an offset; refuses if there is none. */
  method SlotFor(fs: Fs, dir: nat, base: nat, ghost v: Names) returns (r: Result<nat>)
    requires Showing(fs, v) && base + BUCKET <= U64
    modifies fs`cache, fs`clock
    ensures Showing(fs, v)
    ensures r.Err? ==> Stopped(fs, r.error)
    ensures r.Err? && r.error == Refused ==> BucketFull(v.links, dir, base)
    ensures r.Ok? ==> base <= r.value < base + BUCKET && (dir, r.value) !in v.links && UsedUpTo(v.links, dir, base, r.value)
    ensures r.Ok? ==> LinkAt(fs.Content(), dir, r.value) == None
  {
    var seen := fs.Look(K(dir, K_DIR_ENTRY, base), (it: Item) => InBucket(it.key, dir, base), []);
    if seen.Err? {
      return Err(seen.error);
    }
    var slot := FreeSlot(seen.value, dir, base, fs.Content(), v);
    if slot >= BUCKET {
      StillBacked(fs);
      return Err(Refused);
    }
    return Ok(base + slot);
  }

  method PutLink(fs: Fs, dir: nat, off: nat, l: Link, ghost v: Names) returns (r: Result<()>)
    requires Showing(fs, v) && |l.name| <= NAME_MAX && off < U64 && LinkAt(fs.Content(), dir, off) == None
    modifies fs`root, fs`dirty, fs`nodes, fs`bits, fs`held, fs`bitmapDirty, fs`cache, fs`clock
    ensures r.Err? ==> fs.Failed(r.error)
    ensures r.Ok? ==> fs.dirty && Showing(fs, v.(links := v.links[(dir, off) := l]))
    ensures r.Ok? ==> Spent(old(fs.Has()), fs.Has(), 1)
  {
    ShowPutLink(fs.Content(), v, dir, off, l);
    r := PutPlain(fs, K(dir, K_DIR_ENTRY, off), Ent(l.child, l.dir, l.name));
  }

  /** Adds an entry in the first of the name's eight slots that is free; if none is, refuses. */
  method AddEntry(fs: Fs, dir: nat, n: Name, child: nat, isDir: bool, h: Hash, ghost v: Names)
      returns (r: Result<()>, ghost off: nat)
    requires Showing(fs, v) && |n| <= NAME_MAX
    modifies fs`root, fs`dirty, fs`nodes, fs`bits, fs`held, fs`bitmapDirty, fs`cache, fs`clock
    ensures r.Err? ==> Stopped(fs, r.error)
    ensures r.Err? && r.error == Refused ==> BucketFull(v.links, dir, h(n))
    ensures r.Ok? ==> h(n) <= off < h(n) + BUCKET && (dir, off) !in v.links && fs.dirty
    ensures r.Ok? ==> UsedUpTo(v.links, dir, h(n), off)
    ensures r.Ok? ==> Showing(fs, v.(links := v.links[(dir, off) := Link(child, isDir, n)]))
    ensures r.Ok? ==> Spent(old(fs.Has()), fs.Has(), 1)
  {
    var slot := SlotFor(fs, dir, h(n), v);
    if slot.Err? {
      return Err(slot.error), 0;
    }
    r := PutLink(fs, dir, slot.value, Link(child, isDir, n), v);
    off := slot.value;
  }

  /** Takes out the entry in slot `off` of folder `dir`. */
  method DropEntry(fs: Fs, dir: nat, off: nat, ghost v: Names) returns (r: Result<()>)
    requires Showing(fs, v) && (dir, off) in v.links
    modifies fs`root, fs`dirty, fs`nodes, fs`bits, fs`held, fs`bitmapDirty, fs`cache, fs`clock
    ensures r.Err? ==> fs.Failed(r.error)
    ensures r.Ok? ==> fs.dirty && Showing(fs, v.(links := v.links - {(dir, off)}))
    ensures r.Ok? ==> Spent(old(fs.Has()), fs.Has(), 1)
  {
    ghost var l := v.links[(dir, off)];
    assert LinkAt(fs.Content(), dir, off) == LinkData(v, dir, off);
    ShowCutLink(fs.Content(), v, dir, off);
    r := TakeOut(fs, K(dir, K_DIR_ENTRY, off));
  }

  method TakeOut(fs: Fs, k: Key) returns (r: Result<()>)
    requires fs.Valid([]) && Find(fs.Content(), k).Some? && !Find(fs.Content(), k).value.Ext?
    modifies fs`root, fs`dirty, fs`nodes, fs`bits, fs`held, fs`bitmapDirty, fs`cache, fs`clock
    ensures r.Err? ==> fs.Failed(r.error)
    ensures r.Ok? ==> fs.Valid([]) && fs.dirty && fs.Content() == Cut(old(fs.Content()), k)
    ensures r.Ok? ==> Spent(old(fs.Has()), fs.Has(), 1)
  {
    fs.ToMid([]);
    ghost var s, runs := fs.Content(), fs.Data() + [];
    var _ :- fs.DropItem(k, runs);
    DataOkCut(s, k, fs.dev.cur, fs.sb);
    CutRuns(s, k, Find(s, k).value, runs);
    fs.FromMid(runs, []);
    return Ok(());
  }
}
