/** The operations on files and folders, each of which keeps everything in order, and the commit or
    abort that ends it. */
module KfsOps {
  import opened Wrappers
  import opened KfsTypes
  import opened KfsItems
  import opened KfsState
  import opened KfsSpace
  import opened KfsDisk
  import opened KfsCommit
  import opened KfsFiles
  import opened KfsNames
  import opened KfsTidy
  import opened KfsPaths
  import opened KfsShow
  import opened KfsIo
  import opened KfsDir
  import opened Kfs

  // --- What every commit is promised to be like ---

  /** The items show files and folders that are in order. */
  ghost predicate InOrder(s: Items, next: nat, h: Hash) {
    exists v :: Shows(s, v) && Tidy(v, next, h)
  }

  ghost function Promised(h: Hash): Promise {
    (s: Items, next: nat) => InOrder(s, next, h)
  }

  /** Few nodes are in memory (`n` changes of items' worth beyond the limit), and at least the room the last commit
      left is still there. */
  ghost predicate Lean(fs: Fs, n: nat)
    reads fs
  {
    RestRoom(fs.sb) <= fs.Room() && |fs.nodes| <= DIRTY_LIMIT + Copies(n)
  }

  /** Commits in the middle of an operation, if many nodes have been changed. */
  method MaybeCommit(fs: Fs, h: Hash, ghost v: Names) returns (r: Result<()>)
    requires Showing(fs, v) && Tidy(v, fs.next, h) && fs.dirty && fs.kept == Promised(h)
    modifies fs`nodes, fs`root, fs`dirty, fs`bits, fs`held, fs`bitmapDirty, fs`cursor, fs`bitmap, fs`index
    modifies fs`cache, fs`sb, fs`txg,
             fs.dev`durable, fs.dev`pending, fs.dev`cur, fs.dev`landed, fs.dev`landing, fs.dev`history
    ensures Since(old(fs.dev.history), fs.dev.history)
    ensures r.Err? ==> fs.Stuck(r.error) && fs.sb == old(fs.sb)
    ensures r == Err(Full) ==> old(fs.Room()) < old(fs.ToCommit()) <= CommitCost(old(|fs.nodes|), fs.sb.total)
    ensures r.Ok? && old(RestRoom(fs.sb) <= fs.Room()) ==> Lean(fs, 0)
    ensures r.Ok? ==> Showing(fs, v)
    ensures fs.sb != old(fs.sb) ==> Shows(StateItems(fs.sb), v) && fs.sb.next == fs.next
    ensures old(|fs.nodes|) <= DIRTY_LIMIT ==> r.Ok? && fs.sb == old(fs.sb)
    ensures old(|fs.nodes|) > DIRTY_LIMIT && r.Ok? ==> fs.Landed(old(fs.sb), old(fs.Content()))
  {
    if |fs.nodes| > DIRTY_LIMIT {
      assert InOrder(fs.Content(), fs.next, h);
      fs.CommitBound();
      r := fs.Commit();
      if r.Ok? {
        fs.ValidBacked([]);
        fs.RoomAtRest();
      } else {
        assert Open(VolumeSeal, 0);
      }
    } else {
      r := Ok(());
    }
  }

  // --- An object's data, and what the items show ---

  lemma DataRange(s: Items, o: nat)
    requires Sorted(s)
    ensures DataLo(o) <= DataHi(o) && Pos(s, DataLo(o)) <= Pos(s, DataHi(o))
    ensures Inside(s, DataLo(o), DataHi(o)) == DataOf(s, o)
  {
    KeyInline(o);
    PosOrder(s, DataLo(o), DataHi(o));
    ChosenInside(s, DataLo(o), DataHi(o), 0, |s|);
    assert s[0..|s|] == s;
  }

  /** A file that is shown can be read. */
  lemma ShownStores(s: Items, v: Names, o: nat)
    requires Shows(s, v) && o in v.contents
    ensures Stores(s, o, v.contents[o])
  {
    assert ContentsAt(s, v, o);
    DataRange(s, o);
  }

  lemma DroppedShows(s: Items, t: Items, v: Names, o: nat)
    requires Shows(s, v) && Pos(s, DataLo(o)) <= Pos(s, DataHi(o)) && t == Outside(s, DataLo(o), DataHi(o))
    ensures Shows(t, v.(contents := v.contents - {o}))
  {
    KeyInline(o);
    var a, d, b := CutAtKeys(s, DataLo(o), DataHi(o));
    assert a + [] + b == a + b;
    ShowSwapData(s, t, v, v.(contents := v.contents - {o}), o, a, d, [], b);
  }

  lemma WrittenShows(s: Items, t: Items, v: Names, o: nat, d: Items, data: seq<int>)
    requires Shows(s, v) && DataOf(s, o) == [] && |data| < U64 && Holds(d, o, data)
    requires Laid(t, o, s[..Pos(s, DataLo(o))], d, s[Pos(s, DataLo(o))..])
    ensures Shows(t, v.(contents := v.contents[o := data]))
  {
    DataRange(s, o);
    var a, none, b := CutAtKeys(s, DataLo(o), DataHi(o));
    assert none == [];
    ShowSwapData(s, t, v, v.(contents := v.contents[o := data]), o, a, [], d, b);
  }

  lemma AllDropped(s: Items, t: Items, v: Names, o: nat)
    requires Shows(s, v) && Pos(s, K(o, 0, 0)) <= Pos(s, K(o + 1, 0, 0)) && t == Outside(s, K(o, 0, 0), K(o + 1, 0, 0))
    ensures Shows(t, Without(v, o))
  {
    var a, d, b := CutAtKeys(s, K(o, 0, 0), K(o + 1, 0, 0));
    assert a + [] + b == a + b;
    ShowDropped(s, t, v, o, a, d, b);
  }

  /** How many items object `o`'s contents take up, at most. */
  function HeldIn(v: Names, o: nat): nat {
    if o in v.contents then ItemsFor(|v.contents[o]|) else 0
  }

  lemma {:induction false} FewTiles(d: Items, obj: nat, data: seq<int>)
    requires Tiles(d, obj, data)
    ensures |d| <= BlocksIn(d)
  {
    if d != [] {
      var n := |d| - 1;
      assert TileAt(d, obj, data, n);
      TilesFront(d, obj, data);
      FewTiles(d[..n], obj, data);
    }
  }

  lemma TilesFront(d: Items, obj: nat, data: seq<int>)
    requires Tiles(d, obj, data) && d != []
    ensures Tiles(d[..|d| - 1], obj, data)
  {
    var n := |d| - 1;
    forall i: nat | i < n ensures TileAt(d[..n], obj, data, i) {
      assert TileAt(d, obj, data, i);
      assert d[..n][..i] == d[..i];
    }
  }

  lemma FewDataItems(s: Items, v: Names, o: nat)
    requires Shows(s, v)
    ensures |DataOf(s, o)| <= HeldIn(v, o)
  {
    assert ContentsAt(s, v, o);
    if o in v.contents && |v.contents[o]| > INLINE_MAX {
      FewTiles(DataOf(s, o), o, v.contents[o]);
    }
  }

  /** Of an object with nothing in it, the items that do not hold data are its inode. */
  lemma OnlyInode(s: Items, v: Names, o: nat, i: nat)
    requires Shows(s, v) && NothingIn(v.links, o) && i < |s|
    requires K(o, 0, 0) <= s[i].key < K(o + 1, 0, 0) && !(DataLo(o) <= s[i].key < DataHi(o))
    ensures s[i].key == K(o, K_INODE, 0)
  {
    var k := s[i].key;
    KeyRanges(k, o, 0);
    KeyMade(k);
    FindAt(s, i);
    assert LinkAt(s, o, OffOf(k)) == LinkData(v, o, OffOf(k));
  }

  lemma OneInode(s: Items, v: Names, o: nat, i: nat)
    requires Shows(s, v) && NothingIn(v.links, o) && i + 1 < |s| && K(o, 0, 0) <= s[i].key
    ensures s[i + 1].key >= DataLo(o)
  {
    OneBefore(s, i, i + 1);
    if s[i + 1].key < DataLo(o) {
      OnlyInode(s, v, o, i);
      OnlyInode(s, v, o, i + 1);
    }
  }

  lemma FewItems(s: Items, v: Names, o: nat)
    requires Shows(s, v) && NothingIn(v.links, o)
    ensures Pos(s, K(o, 0, 0)) <= Pos(s, K(o + 1, 0, 0)) && Pos(s, K(o + 1, 0, 0)) - Pos(s, K(o, 0, 0)) <= HeldIn(v, o) + 1
  {
    KeyInline(o);
    var p0, p1, p2, p3 := Pos(s, K(o, 0, 0)), Pos(s, DataLo(o)), Pos(s, DataHi(o)), Pos(s, K(o + 1, 0, 0));
    PosOrder(s, K(o, 0, 0), DataLo(o));
    PosOrder(s, DataHi(o), K(o + 1, 0, 0));
    PosSpec(s, K(o, 0, 0));
    PosSpec(s, DataLo(o));
    PosSpec(s, DataHi(o));
    PosSpec(s, K(o + 1, 0, 0));
    DataRange(s, o);
    FewDataItems(s, v, o);
    PosAfter(s, K(o, 0, 0));
    if p0 + 1 < |s| {
      OneInode(s, v, o, p0);
    }
    if p2 < p3 {
      PosAfter(s, DataHi(o));
      OnlyInode(s, v, o, p2);
    }
  }

  /** Drops a file's contents. */
  method ClearData(fs: Fs, obj: nat, ghost v: Names) returns (r: Result<()>)
    requires Showing(fs, v)
    modifies fs`root, fs`dirty, fs`nodes, fs`bits, fs`held, fs`bitmapDirty, fs`cache, fs`clock
    ensures r.Err? ==> fs.Failed(r.error)
    ensures r.Ok? ==> Showing(fs, v.(contents := v.contents - {obj}))
    ensures r.Ok? ==> Spent(old(fs.Has()), fs.Has(), HeldIn(v, obj))
  {
    ghost var s := fs.Content();
    var _ :- DropItems(fs, obj, true);
    DroppedShows(s, fs.Content(), v, obj);
    DataRange(s, obj);
    FewDataItems(s, v, obj);
    return Ok(());
  }

  /** So many bytes have been written, in at most `n` changes of items: there was room for them. */
  ghost predicate Placed(was: Means, now: Means, size: nat, total: nat, n: nat) {
    && was.room <= now.room + FileBlocks(size)
    && now.nodes <= was.nodes + Copies(n)
    && (size > INLINE_MAX ==> now.room >= ReserveFor(total))
  }

  /** Stores the contents of an object that has none. */
  method Store(fs: Fs, obj: nat, data: seq<int>, ghost v: Names) returns (r: Result<nat>)
    requires Showing(fs, v) && obj !in v.contents && |data| < U64
    modifies fs`root, fs`dirty, fs`nodes, fs`bits, fs`held, fs`bitmapDirty, fs`cursor, fs`cache, fs`clock,
             fs.dev`pending, fs.dev`cur, fs.dev`history
    ensures Since(old(fs.dev.history), fs.dev.history)
    ensures r.Err? ==> fs.Stuck(r.error)
    ensures r.Err? && r.error == Full ==> old(fs.Room()) < RoomFor(|data|, fs.total)
    ensures r.Ok? ==> fs.dirty && r.value == FileBlocks(|data|) && Showing(fs, v.(contents := v.contents[obj := data]))
    ensures r.Ok? ==> Placed(old(fs.Has()), fs.Has(), |data|, fs.total, ItemsFor(|data|))
  {
    ghost var s := fs.Content();
    assert ContentsAt(s, v, obj);
    DataRange(s, obj);
    ghost var d;
    r, d := WriteData(fs, obj, data);
    if r.Ok? {
      WrittenShows(s, fs.Content(), v, obj, d, data);
    }
  }

  /** Drops all of an object's items. */
  method ClearAll(fs: Fs, obj: nat, ghost v: Names) returns (r: Result<()>)
    requires Showing(fs, v)
    modifies fs`root, fs`dirty, fs`nodes, fs`bits, fs`held, fs`bitmapDirty, fs`cache, fs`clock
    ensures r.Err? ==> fs.Failed(r.error)
    ensures r.Ok? ==> Showing(fs, Without(v, obj))
    ensures r.Ok? && NothingIn(v.links, obj) ==> Spent(old(fs.Has()), fs.Has(), HeldIn(v, obj) + 1)
  {
    ghost var s := fs.Content();
    var _ :- DropItems(fs, obj, false);
    AllDropped(s, fs.Content(), v, obj);
    if NothingIn(v.links, obj) {
      FewItems(s, v, obj);
    }
    return Ok(());
  }

  // --- Reading ---

  /** The contents of the file at `path`. */
  method ReadFile(fs: Fs, path: seq<char>, h: Hash, ghost v: Names) returns (r: Result<seq<int>>)
    requires Showing(fs, v) && Tidy(v, fs.next, h)
    modifies fs`cache, fs`clock
    ensures Showing(fs, v)
    ensures r.Err? ==> Stopped(fs, r.error)
    ensures r.Ok? ==>
      var o := Walk(v.links, ROOT, Parts(path));
      o.Some? && o.value in v.contents && r.value == v.contents[o.value]
    ensures r.Err? && r.error == Refused ==>
      match Walk(v.links, ROOT, Parts(path))
      case None => true
      case Some(o) => o in v.inodes && v.inodes[o].dir
  {
    var file := OpenFile(fs, path, h, v);
    if file.Err? {
      return Err(file.error);
    }
    ShownStores(fs.Content(), v, file.value.obj);
    var data := ReadObject(fs, file.value.obj, file.value.size, v.contents[file.value.obj]);
    if data.Err? {
      return Err(data.error);
    }
    return data;
  }

  datatype File = File(obj: nat, size: nat)

  /** The file at `path`, with its size as its inode has it. */
  method OpenFile(fs: Fs, path: seq<char>, h: Hash, ghost v: Names) returns (r: Result<File>)
    requires Showing(fs, v) && Tidy(v, fs.next, h)
    modifies fs`cache, fs`clock
    ensures Showing(fs, v)
    ensures r.Err? ==> Stopped(fs, r.error)
    ensures r.Ok? ==> Walk(v.links, ROOT, Parts(path)) == Some(r.value.obj)
    ensures r.Ok? ==> r.value.obj in v.contents && r.value.size == |v.contents[r.value.obj]|
    ensures r.Err? && r.error == Refused ==>
      match Walk(v.links, ROOT, Parts(path))
      case None => true
      case Some(o) => o in v.inodes && v.inodes[o].dir
  {
    var found := Resolve(fs, path, h, v, fs.next);
    if found.Err? {
      return Err(found.error);
    }
    var (obj, isDir) := found.value;
    if isDir {
      StillBacked(fs);
      return Err(Refused);
    }
    var i := GetInode(fs, obj, v);
    if i.Err? {
      return Err(i.error);
    }
    assert Counted(v, obj);
    return Ok(File(obj, i.value.size));
  }

  /** Reads from an open file. */
  method ReadFileAt(fs: Fs, file: File, offset: nat, room: nat, ghost v: Names) returns (r: Result<seq<int>>)
    requires Showing(fs, v) && file.obj in v.contents && file.size == |v.contents[file.obj]|
    modifies fs`cache, fs`clock
    ensures Showing(fs, v)
    ensures r.Err? ==> fs.Failed(r.error)
    ensures var data := v.contents[file.obj];
            r.Ok? ==> r.value == if offset >= |data| then [] else data[offset..if offset + room < |data| then offset + room else |data|]
  {
    ShownStores(fs.Content(), v, file.obj);
    r := ReadAt(fs, file.obj, file.size, offset, room, v.contents[file.obj]);
  }

  // --- Creating ---

  /** Why nothing new can be put at `path`: there is no folder for it to be in, its name will not do, or
      every slot for that name is taken. */
  ghost predicate Uncreatable(v: Names, path: seq<char>, h: Hash) {
    || NoParent(v, path)
    || (SplitPath(path).Ok? && (!ValidName(SplitPath(path).value.1) || NoSlot(v.links, path, h)))
  }

  ghost predicate NoSlot(ls: Links, path: seq<char>, h: Hash)
    requires SplitPath(path).Ok?
  {
    match Walk(ls, ROOT, Parts(SplitPath(path).value.0))
    case None => false
    case Some(dir) => BucketFull(ls, dir, h(SplitPath(path).value.1))
  }

  lemma NoWayIn(v: Names, next: nat, h: Hash, path: seq<char>)
    requires Tidy(v, next, h) && NoParent(v, path)
    ensures SplitPath(path).Err? || Walk(v.links, ROOT, Parts(path)) == None
  {
    if SplitPath(path).Ok? {
      NoWay(v, next, h, path);
    }
  }

  lemma LastNameOk(v: Names, next: nat, h: Hash, p: seq<Name>)
    requires Tidy(v, next, h) && p != [] && Walk(v.links, ROOT, p).Some?
    ensures ValidName(p[|p| - 1])
  {
    var k := WalkLast(v.links, ROOT, p);
    assert LinkOk(v, h, k);
  }

  lemma BadNameNowhere(v: Names, next: nat, h: Hash, path: seq<char>)
    requires Tidy(v, next, h) && SplitPath(path).Ok? && !ValidName(SplitPath(path).value.1)
    ensures Walk(v.links, ROOT, Parts(path)) == None
  {
    SplitParts(path);
    if Walk(v.links, ROOT, Parts(path)).Some? {
      LastNameOk(v, next, h, Parts(path));
    }
  }

  /** A place for something: folder, name, and what has that name there now: object, whether a folder. */
  datatype Place = Place(dir: nat, name: Name, taken: Option<(nat, bool)>)

  /** Where `path` would be, and what is there. */
  method Spot(fs: Fs, path: seq<char>, h: Hash, ghost v: Names) returns (r: Result<Place>)
    requires Showing(fs, v) && Tidy(v, fs.next, h)
    modifies fs`cache, fs`clock
    ensures Showing(fs, v)
    ensures r.Err? ==> Stopped(fs, r.error)
    ensures r.Err? && r.error == Refused ==> Uncreatable(v, path, h)
    ensures r.Err? && r.error == Refused ==> (SplitPath(path).Err? || Walk(v.links, ROOT, Parts(path)) == None)
    ensures r.Ok? ==> PlaceOk(v, path, r.value)
  {
    var at := ParentOf(fs, path, h, v, fs.next);
    if at.Err? {
      if at.error == Refused {
        NoWayIn(v, fs.next, h, path);
      }
      return Err(at.error);
    }
    var (dir, name) := at.value;
    if !ValidName(name) {
      BadNameNowhere(v, fs.next, h, path);
      StillBacked(fs);
      return Err(Refused);
    }
    var found := Lookup(fs, dir, name, h, v, fs.next);
    if found.Err? {
      return Err(found.error);
    }
    match found.value {
      case None =>
        NotThere(v, path, dir);
        return Ok(Place(dir, name, None));
      case Some((obj, isDir, off)) =>
        FoundAtPath(v, fs.next, h, path, dir, off);
        return Ok(Place(dir, name, Some((obj, isDir))));
    }
  }

  ghost predicate PlaceOk(v: Names, path: seq<char>, p: Place) {
    && SplitPath(path).Ok? && p.name == SplitPath(path).value.1 && ValidName(p.name)
    && p.dir in v.inodes && v.inodes[p.dir].dir && Walk(v.links, ROOT, Parts(SplitPath(path).value.0)) == Some(p.dir)
    && match p.taken
       case None => ChildOf(v.links, p.dir, p.name) == None && Walk(v.links, ROOT, Parts(path)) == None
       case Some((obj, isDir)) =>
         && Walk(v.links, ROOT, Parts(path)) == Some(obj) && obj in v.inodes && v.inodes[obj].dir == isDir
         && (!isDir ==> obj in v.contents)
  }

  /** Makes a new, empty folder. */
  method CreateDir(fs: Fs, path: seq<char>, now: nat, h: Hash, ghost v: Names) returns (r: Result<()>, ghost v': Names)
    requires Showing(fs, v) && Tidy(v, fs.next, h)
    modifies fs`root, fs`dirty, fs`nodes, fs`bits, fs`held, fs`bitmapDirty, fs`cache, fs`clock, fs`next
    ensures r.Err? ==> Stopped(fs, r.error)
    ensures r.Err? && r.error == Refused ==> Uncreatable(v, path, h) || Walk(v.links, ROOT, Parts(path)).Some?
    ensures r.Ok? ==> Showing(fs, v') && Tidy(v', fs.next, h) && fs.dirty
    ensures r.Ok? ==> Created(v, v', path, old(fs.next), Inode(true, 0, 2, 0, now), [], now)
    ensures r.Ok? ==> Spent(old(fs.Has()), fs.Has(), 3)
  {
    v' := v;
    var at := Spot(fs, path, h, v);
    if at.Err? {
      return Err(at.error), v;
    }
    if at.value.taken.Some? {
      StillBacked(fs);
      return Err(Refused), v;
    }
    var i := Inode(true, 0, 2, 0, now);
    var obj := fs.NewObject([]);
    r, v' := Install(fs, path, at.value.dir, at.value.name, obj, i, [], now, h, v, v);
  }

  /** Object `o`, with inode `i` and (if it is a file) contents `data`, is new at `path`; but for that,
      and its folder being touched, nothing has changed. */
  ghost predicate Created(v: Names, v': Names, path: seq<char>, o: nat, i: Inode, data: seq<int>, now: nat) {
    && SplitPath(path).Ok?
    && var (parent, name) := SplitPath(path).value;
    && Walk(v.links, ROOT, Parts(path)) == None && Walk(v'.links, ROOT, Parts(path)) == Some(o)
    && exists d: nat, off: nat :: d in v.inodes && (d, off) !in v.links && Walk(v.links, ROOT, Parts(parent)) == Some(d) && v' == Make(v, d, off, name, o, i, data, now)
  }

  /** Gives a new object its inode and its entry, and touches the folder. (`w` is `v` with the object's
      contents, if it has any.) */
  method Install(fs: Fs, ghost path: seq<char>, dir: nat, name: Name, obj: nat, i: Inode, ghost data: seq<int>,
                 now: nat, h: Hash, ghost v: Names, ghost w: Names)
    returns (r: Result<()>, ghost v': Names)
    requires Showing(fs, w) && Tidy(v, obj, h) && fs.next == obj + 1
    requires w == if i.dir then v else v.(contents := v.contents[obj := data])
    requires SplitPath(path).Ok? && name == SplitPath(path).value.1 && ValidName(name)
    requires ChildOf(v.links, dir, name) == None
    requires dir in v.inodes && v.inodes[dir].dir && Walk(v.links, ROOT, Parts(SplitPath(path).value.0)) == Some(dir)
    requires if i.dir then i.links == 2 else i.links == 1 && i.size == |data| < U64 && i.blocks == FileBlocks(|data|)
    modifies fs`root, fs`dirty, fs`nodes, fs`bits, fs`held, fs`bitmapDirty, fs`cache, fs`clock
    ensures r.Err? ==> Stopped(fs, r.error) && (r.error == Refused ==> BucketFull(v.links, dir, h(name)))
    ensures r.Ok? ==> Showing(fs, v') && Tidy(v', fs.next, h) && fs.dirty && Created(v, v', path, obj, i, data, now)
    ensures r.Ok? ==> Spent(old(fs.Has()), fs.Has(), 3)
  {
    v' := v;
    var put := PutInode(fs, obj, i, w);
    if put.Err? {
      return Err(put.error), v;
    }
    ghost var w1 := w.(inodes := w.inodes[obj := i]);
    var added, off := AddEntry(fs, dir, name, obj, i.dir, h, w1);
    if added.Err? {
      return Err(added.error), v;
    }
    ghost var w2 := w1.(links := w1.links[(dir, off) := Link(obj, i.dir, name)]);
    var touched := Touch(fs, dir, if i.dir then 1 else 0, now, w2);
    if touched.Err? {
      return Err(touched.error), v;
    }
    v' := Make(v, dir, off, name, obj, i, data, now);
    Installed(v, w2, obj, dir, off, name, i, data, now);
    MakeTidy(v, obj, h, dir, off, name, obj, i, data, now);
    MadeAt(v, obj, h, path, dir, off, name, i, data, now);
    return Ok(()), v';
  }

  lemma Installed(v: Names, w2: Names, obj: nat, dir: nat, off: nat, name: Name, i: Inode, data: seq<int>, now: nat)
    requires dir in v.inodes && dir != obj
    requires w2 == Names(v.inodes[obj := i], v.links[(dir, off) := Link(obj, i.dir, name)], if i.dir then v.contents else v.contents[obj := data])
    ensures TouchedIn(w2, dir, if i.dir then 1 else 0, now) == Make(v, dir, off, name, obj, i, data, now)
  {
  }

  /** The new object is where its path says. */
  lemma MadeAt(v: Names, obj: nat, h: Hash, path: seq<char>, dir: nat, off: nat, name: Name, i: Inode, data: seq<int>,
               now: nat)
    requires Tidy(v, obj, h) && NewOk(v, obj, h, dir, off, name, obj, i, data)
    requires SplitPath(path).Ok? && name == SplitPath(path).value.1
    requires Walk(v.links, ROOT, Parts(SplitPath(path).value.0)) == Some(dir)
    ensures Created(v, Make(v, dir, off, name, obj, i, data, now), path, obj, i, data, now)
  {
    var parent := Parts(SplitPath(path).value.0);
    var ls := Make(v, dir, off, name, obj, i, data, now).links;
    SplitParts(path);
    MakeLinks(v, obj, h, dir, off, name, obj, i, data);
    WalkConcat(v.links, ROOT, parent, [name]);
    WalkGrows(v.links, ls, ROOT, parent);
    WalkConcat(ls, ROOT, parent, [name]);
    WalkOne(ls, (dir, off));
  }

  /** Why a file cannot be written: a folder is there, or nothing can be. */
  ghost predicate Unwritable(v: Names, path: seq<char>, h: Hash) {
    match Walk(v.links, ROOT, Parts(path))
    case None => Uncreatable(v, path, h)
    case Some(o) => SplitPath(path).Err? || (o in v.inodes && v.inodes[o].dir)
  }

  /** How many items are set or removed, at most, to put so many bytes at `path`. */
  ghost function Rewrites(v: Names, path: seq<char>, size: nat): nat {
    var at := Walk(v.links, ROOT, Parts(path));
    ItemsFor(size) + 3 + if at.Some? then HeldIn(v, at.value) else 0
  }

  /** Creates a file, or replaces its contents. The disk is full only if there is no room for the new contents and
      the reserve. */
  method WriteFile(fs: Fs, path: seq<char>, data: seq<int>, now: nat, h: Hash, ghost v: Names)
      returns (r: Result<()>, ghost v': Names)
    requires Showing(fs, v) && Tidy(v, fs.next, h) && |data| < U64
    modifies fs`root, fs`dirty, fs`nodes, fs`bits, fs`held, fs`bitmapDirty, fs`cursor, fs`cache, fs`clock, fs`next,
             fs.dev`pending, fs.dev`cur, fs.dev`history
    ensures Since(old(fs.dev.history), fs.dev.history)
    ensures r.Err? ==> Halted(fs, r.error)
    ensures r.Err? && r.error == Full ==> old(fs.Room()) < RoomFor(|data|, fs.total)
    ensures r.Err? && r.error == Refused ==> Unwritable(v, path, h)
    ensures r.Ok? ==> Placed(old(fs.Has()), fs.Has(), |data|, fs.total, Rewrites(v, path, |data|))
    ensures r.Ok? ==> Showing(fs, v') && Tidy(v', fs.next, h) && fs.dirty
    ensures r.Ok? ==> Wrote(v, v', path, data, old(fs.next), now)
  {
    v' := v;
    var at := Spot(fs, path, h, v);
    assert fs.Has() == old(fs.Has());
    if at.Err? {
      return Err(at.error), v;
    }
    match at.value.taken {
      case Some((obj, isDir)) =>
        if isDir {
          StillBacked(fs);
          return Err(Refused), v;
        }
        r, v' := Replace(fs, obj, data, now, h, v);
      case None =>
        r, v' := CreateFile(fs, path, at.value.dir, at.value.name, data, now, h, v);
    }
  }

  /** A new file. */
  method CreateFile(fs: Fs, ghost path: seq<char>, dir: nat, name: Name, data: seq<int>, now: nat, h: Hash,
                    ghost v: Names)
    returns (r: Result<()>, ghost v': Names)
    requires Showing(fs, v) && Tidy(v, fs.next, h) && |data| < U64
    requires SplitPath(path).Ok? && name == SplitPath(path).value.1 && ValidName(name)
    requires ChildOf(v.links, dir, name) == None
    requires dir in v.inodes && v.inodes[dir].dir && Walk(v.links, ROOT, Parts(SplitPath(path).value.0)) == Some(dir)
    modifies fs`root, fs`dirty, fs`nodes, fs`bits, fs`held, fs`bitmapDirty, fs`cursor, fs`cache, fs`clock, fs`next,
             fs.dev`pending, fs.dev`cur, fs.dev`history
    ensures Since(old(fs.dev.history), fs.dev.history)
    ensures r.Err? ==> Halted(fs, r.error) && (r.error == Refused ==> BucketFull(v.links, dir, h(name)))
    ensures r.Err? && r.error == Full ==> old(fs.Room()) < RoomFor(|data|, fs.total)
    ensures r.Ok? ==> Placed(old(fs.Has()), fs.Has(), |data|, fs.total, ItemsFor(|data|) + 3)
    ensures r.Ok? ==> Showing(fs, v') && Tidy(v', fs.next, h) && fs.dirty
    ensures r.Ok? ==> Created(v, v', path, old(fs.next), Inode(false, |data|, 1, FileBlocks(|data|), now), data, now)
  {
    var obj := fs.NewObject([]);
    assert Counted(v, obj);
    var blocks := Store(fs, obj, data, v);
    if blocks.Err? {
      return Err(blocks.error), v;
    }
    r, v' := Install(fs, path, dir, name, obj, Inode(false, |data|, 1, blocks.value, now), data, now, h, v, v.(contents := v.contents[obj := data]));
  }

  /** After a write: the file at `path` holds `data`, and other files and folders are as they were. */
  ghost predicate Wrote(v: Names, v': Names, path: seq<char>, data: seq<int>, next: nat, now: nat) {
    match Walk(v.links, ROOT, Parts(path))
    case Some(o) => o in v.inodes && o in v.contents && v' == Rewrite(v, o, data, now)
    case None => Created(v, v', path, next, Inode(false, |data|, 1, FileBlocks(|data|), now), data, now)
  }

  /** Other contents for an object that has some. */
  method Exchange(fs: Fs, obj: nat, data: seq<int>, ghost v: Names) returns (r: Result<nat>)
    requires Showing(fs, v) && obj in v.contents && |data| < U64
    modifies fs`root, fs`dirty, fs`nodes, fs`bits, fs`held, fs`bitmapDirty, fs`cursor, fs`cache, fs`clock,
             fs.dev`pending, fs.dev`cur, fs.dev`history
    ensures Since(old(fs.dev.history), fs.dev.history)
    ensures r.Err? ==> fs.Stuck(r.error)
    ensures r.Err? && r.error == Full ==> old(fs.Room()) < RoomFor(|data|, fs.total)
    ensures r.Ok? ==> fs.dirty && r.value == FileBlocks(|data|) && Showing(fs, v.(contents := v.contents[obj := data]))
    ensures r.Ok? ==> Placed(old(fs.Has()), fs.Has(), |data|, fs.total, ItemsFor(|data|) + HeldIn(v, obj))
  {
    var cleared := ClearData(fs, obj, v);
    if cleared.Err? {
      return Err(cleared.error);
    }
    ghost var w := v.(contents := v.contents - {obj});
    r := Store(fs, obj, data, w);
    assert w.contents[obj := data] == v.contents[obj := data];
  }

  /** Records new contents in a file's inode. */
  method Resize(fs: Fs, obj: nat, size: nat, blocks: nat, now: nat, ghost v: Names) returns (r: Result<()>)
    requires Showing(fs, v) && obj in v.inodes
    modifies fs`root, fs`dirty, fs`nodes, fs`bits, fs`held, fs`bitmapDirty, fs`cache, fs`clock
    ensures r.Err? ==> fs.Failed(r.error)
    ensures r.Ok? ==> fs.dirty && Spent(old(fs.Has()), fs.Has(), 1)
    ensures r.Ok? ==>
      Showing(fs, v.(inodes := v.inodes[obj := v.inodes[obj].(size := size, blocks := blocks, modified := now)]))
  {
    var i := GetInode(fs, obj, v);
    if i.Err? {
      return Err(i.error);
    }
    r := PutInode(fs, obj, i.value.(size := size, blocks := blocks, modified := now), v);
  }

  /** New contents for a file that is there. */
  method Replace(fs: Fs, obj: nat, data: seq<int>, now: nat, h: Hash, ghost v: Names)
      returns (r: Result<()>, ghost v': Names)
    requires Showing(fs, v) && Tidy(v, fs.next, h) && obj in v.contents && |data| < U64
    modifies fs`root, fs`dirty, fs`nodes, fs`bits, fs`held, fs`bitmapDirty, fs`cursor, fs`cache, fs`clock,
             fs.dev`pending, fs.dev`cur, fs.dev`history
    ensures Since(old(fs.dev.history), fs.dev.history)
    ensures r.Err? ==> fs.Stuck(r.error)
    ensures r.Err? && r.error == Full ==> old(fs.Room()) < RoomFor(|data|, fs.total)
    ensures r.Ok? ==> Placed(old(fs.Has()), fs.Has(), |data|, fs.total, ItemsFor(|data|) + HeldIn(v, obj) + 1)
    ensures r.Ok? ==> obj in v.inodes && v' == Rewrite(v, obj, data, now) && Showing(fs, v') && Tidy(v', fs.next, h)
    ensures r.Ok? ==> fs.dirty
  {
    v' := v;
    assert Counted(v, obj);
    var blocks := Exchange(fs, obj, data, v);
    if blocks.Err? {
      return Err(blocks.error), v;
    }
    ghost var w1 := v.(contents := v.contents[obj := data]);
    r := Resize(fs, obj, |data|, blocks.value, now, w1);
    if r.Ok? {
      v' := Rewrite(v, obj, data, now);
      RewriteTidy(v, fs.next, h, obj, data, now);
    }
  }
}
