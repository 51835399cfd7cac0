/** Changes as the rest of the system sees them: each is either committed whole or has not happened. */
module KfsVolume {
  import opened Wrappers
  import opened KfsTypes
  import opened KfsItems
  import opened KfsState
  import opened KfsDisk
  import opened KfsCommit
  import opened KfsNames
  import opened KfsTidy
  import opened KfsPaths
  import opened KfsShow
  import opened KfsIo
  import opened KfsDir
  import opened KfsOps
  import opened KfsRemove
  import opened KfsRename
  import opened Kfs

  datatype Op =
    | PutFile(path: seq<char>, data: seq<int>)
    | MakeDir(path: seq<char>)
    | DeletePath(path: seq<char>, filesOnly: bool)
    | MovePath(from: seq<char>, to: seq<char>)

  /** What may be asked for: a move of something into itself has to show in its paths. (In canonical
      paths it does: see ContinuesIsPrefix.) */
  ghost predicate Askable(op: Op) {
    match op
    case PutFile(_, data) => |data| < U64
    case MovePath(from, to) => Parts(from) < Parts(to) ==> Continues(from, to)
    case _ => true
  }

  /** What a change does: from `v` it makes `w`. */
  ghost predicate Done(op: Op, v: Names, w: Names, next: nat, now: nat, h: Hash) {
    match op
    case PutFile(path, data) => Wrote(v, w, path, data, next, now)
    case MakeDir(path) => Created(v, w, path, next, Inode(true, 0, 2, 0, now), [], now)
    case DeletePath(path, _) => Removed(v, w, Parts(path))
    case MovePath(from, to) => Renamed(v, w, h, Parts(from), Parts(to), now) && MovedPaths(v, w, Parts(from), Parts(to))
  }

  /** Why a change is refused. */
  ghost predicate Unacceptable(op: Op, v: Names, h: Hash) {
    match op
    case PutFile(path, _) => Unwritable(v, path, h)
    case MakeDir(path) => Uncreatable(v, path, h) || Walk(v.links, ROOT, Parts(path)).Some?
    case DeletePath(path, filesOnly) => Undeletable(v, path, filesOnly)
    case MovePath(from, to) => Unmovable(v, from, to, h)
  }

  /** The most items that hold one file's data. */
  ghost function Largest(contents: map<nat, seq<int>>): (most: nat)
    ensures forall o {:trigger contents[o]} :: o in contents ==> ItemsFor(|contents[o]|) <= most
    decreases |contents|
  {
    if contents == map[] then 0
    else
      var o :| o in contents;
      var rest := contents - {o};
      assert forall x :: x in contents ==> x == o || (x in rest && rest[x] == contents[x]);
      var a, b := ItemsFor(|contents[o]|), Largest(rest);
      if a > b then a else b
  }

  /** Too little room for a change: for the data itself and the reserve, or for the tree and the bitmap that a commit
      writes. A deletion, which may commit on the way, needs what its largest file takes. */
  ghost predicate Cramped(op: Op, v: Names, room: nat, total: nat) {
    match op
    case PutFile(path, data) =>
      || room < RoomFor(|data|, total)
      || room < FileBlocks(|data|) + CommitCost(Copies(Rewrites(v, path, |data|)), total)
    case MakeDir(_) => room < CommitCost(Copies(3), total)
    case DeletePath(_, _) => room < CommitCost(DIRTY_LIMIT + Copies(Largest(v.contents) + 3), total)
    case MovePath(_, _) => room < CommitCost(Copies(5), total)
  }

  // --- What changes mean, path by path ---

  /** `path` leads to `o`, and every other path where it did. */
  ghost predicate OnlyAt(v: Names, w: Names, path: seq<Name>, o: nat) {
    Walk(w.links, ROOT, path) == Some(o) && forall q {:trigger Walk(w.links, ROOT, q)} :: q != path ==> Walk(w.links, ROOT, q) == Walk(v.links, ROOT, q)
  }

  lemma CreatedPaths(v: Names, w: Names, next: nat, next': nat, h: Hash, path: seq<char>, o: nat, i: Inode,
                     data: seq<int>, now: nat)
    requires Tidy(v, next, h) && Tidy(w, next', h) && Created(v, w, path, o, i, data, now)
    ensures OnlyAt(v, w, Parts(path), o)
  {
    var d: nat, off: nat :| d in v.inodes && (d, off) !in v.links && w == Make(v, d, off, SplitPath(path).value.1, o, i, data, now);
    forall q | q != Parts(path) ensures Walk(w.links, ROOT, q) == Walk(v.links, ROOT, q) {
      CreatedPath(v, w, next, next', h, Parts(path), o, q);
    }
  }

  lemma CreatedPath(v: Names, w: Names, next: nat, next': nat, h: Hash, path: seq<Name>, o: nat, q: seq<Name>)
    requires Tidy(v, next, h) && Tidy(w, next', h) && Grows(v.links, w.links) && w.inodes.Keys == v.inodes.Keys + {o}
    requires Walk(w.links, ROOT, path) == Some(o) && q != path
    ensures Walk(w.links, ROOT, q) == Walk(v.links, ROOT, q)
  {
    if Walk(v.links, ROOT, q).Some? {
      WalkGrows(v.links, w.links, ROOT, q);
    } else if Walk(w.links, ROOT, q).Some? {
      var x := Walk(w.links, ROOT, q).value;
      WalkExists(w, next', h, q);
      var q' := path;
      if x != o {
        assert Reachable(v.links, x);
        q' :| Walk(v.links, ROOT, q') == Some(x);
        WalkGrows(v.links, w.links, ROOT, q');
      }
      OneWay(w, next', h, q, q');
    }
  }

  /** A file that has been written holds what was written, every other path leads where it did, and every
      other file holds what it did. */
  lemma WrittenPaths(v: Names, w: Names, next: nat, next': nat, h: Hash, path: seq<char>, data: seq<int>, now: nat)
    requires Tidy(v, next, h) && Tidy(w, next', h) && Wrote(v, w, path, data, next, now)
    ensures Walk(w.links, ROOT, Parts(path)).Some?
    ensures var o := Walk(w.links, ROOT, Parts(path)).value;
            && OnlyAt(v, w, Parts(path), o) && o in w.contents && w.contents[o] == data
            && forall x {:trigger v.contents[x]} :: x in v.contents && x != o ==> x in w.contents && w.contents[x] == v.contents[x]
  {
    if Walk(v.links, ROOT, Parts(path)).None? {
      CreatedPaths(v, w, next, next', h, path, next, Inode(false, |data|, 1, FileBlocks(|data|), now), data, now);
    }
  }

  /** A mounted volume with no change in progress. */
  ghost predicate Idle(fs: Fs, h: Hash)
    reads fs, fs.dev
  {
    fs.Valid([]) && fs.AtRest() && fs.kept == Promised(h)
  }

  lemma IdleInOrder(fs: Fs, h: Hash) returns (v: Names)
    requires Idle(fs, h)
    ensures Showing(fs, v) && Tidy(v, fs.next, h) && Rested(fs)
  {
    fs.ValidBacked([]);
    fs.RestValid();
    fs.RoomAtRest();
    v :| Shows(fs.Content(), v) && Tidy(v, fs.next, h);
  }

  /** The last commit is still `was`; only a deletion may have made others, of part of what it does. */
  ghost predicate Interim(was: Super, sb: Super, op: Op, v: Names, h: Hash) {
    sb == was || (op.DeletePath? && exists x :: Shows(StateItems(sb), x) && Tidy(x, sb.next, h) && PartRemoved(v, x, Parts(op.path)))
  }

  /** Nothing is in memory, and the room is that of the last commit. */
  ghost predicate Rested(fs: Fs)
    reads fs
  {
    fs.nodes == [] && fs.total == fs.sb.total && fs.Room() == RestRoom(fs.sb)
  }

  method Perform(fs: Fs, op: Op, now: nat, h: Hash, ghost v: Names) returns (r: Result<()>, ghost w: Names)
    requires Showing(fs, v) && Tidy(v, fs.next, h) && fs.kept == Promised(h) && Askable(op) && Rested(fs)
    modifies fs`nodes, fs`root, fs`dirty, fs`bits, fs`held, fs`bitmapDirty, fs`cursor, fs`bitmap, fs`index
    modifies fs`cache, fs`clock, fs`sb, fs`txg, fs`next,
             fs.dev`durable, fs.dev`pending, fs.dev`cur, fs.dev`landed, fs.dev`landing, fs.dev`history
    ensures Since(old(fs.dev.history), fs.dev.history)
    ensures Interim(old(fs.sb), fs.sb, op, v, h)
    ensures r.Err? ==> Halted(fs, r.error) && (r.error == Refused ==> Unacceptable(op, v, h))
    ensures r.Err? && r.error == Full ==> Cramped(op, v, RestRoom(fs.sb), fs.sb.total)
    ensures r.Ok? && fs.Room() < CommitCost(|fs.nodes|, fs.sb.total) ==> Cramped(op, v, RestRoom(fs.sb), fs.sb.total)
    ensures r.Ok? ==> Showing(fs, w) && Tidy(w, fs.next, h) && Done(op, v, w, old(fs.next), now, h)
    ensures r.Ok? ==> fs.dirty || (old(fs.AtRest()) ==> fs.AtRest())
  {
    match op {
      case PutFile(path, data) => r, w := WriteFile(fs, path, data, now, h, v);
      case MakeDir(path) => r, w := CreateDir(fs, path, now, h, v);
      case DeletePath(path, filesOnly) =>
        KeepSteady(fs, h, Largest(v.contents), 0, v);
        r, w := RemovePath(fs, path, filesOnly, now, h, Largest(v.contents), v);
        assert Open(ShowSeal, 0);
      case MovePath(from, to) => r, w := Rename(fs, from, to, now, h, v);
    }
  }

  /** What an idle volume shows is durable. */
  ghost predicate Durable(fs: Fs)
    reads fs, fs.dev
  {
    fs.Content() == StateItems(fs.sb) && Complete(fs.dev.durable, fs.sb) && Newest(fs.dev.durable, fs.sb)
  }

  lemma IdleDurable(fs: Fs, h: Hash)
    requires Idle(fs, h)
    ensures Durable(fs)
  {
    fs.ValidBacked([]);
    fs.RestValid();
    LandedReads(fs.kept, fs.dev.Now(), fs.dev.cur, fs.dev.history);
  }

  /** The volume is idle and durably shows `w`. (Sealed: see `Open`.) */
  ghost predicate Settled(fs: Fs, h: Hash, w: Names)
    reads fs, fs.dev
  {
    forall x: nat {:trigger Open(ShowSeal, x)} :: Open(ShowSeal, x) ==>
      Idle(fs, h) && Durable(fs) && Shows(fs.Content(), w) && Tidy(w, fs.next, h) && Rested(fs)
  }

  /** Performs a change and commits it; if anything fails, goes back to the last commit. When it
      succeeds the volume shows, durably, what the change is meant to do to it. When it fails, the
      volume is as it was, or (a deletion that took several commits) without some of what was to go. */
  method Change(fs: Fs, op: Op, now: nat, h: Hash) returns (r: Result<()>, mounted: bool, ghost v: Names,
                ghost w: Names)
    requires Idle(fs, h) && Askable(op)
    modifies fs`nodes, fs`root, fs`dirty, fs`bits, fs`held, fs`bitmapDirty, fs`cursor, fs`bitmap, fs`index
    modifies fs`cache, fs`clock, fs`sb, fs`txg, fs`next,
             fs.dev`durable, fs.dev`pending, fs.dev`cur, fs.dev`landed, fs.dev`landing, fs.dev`history
    ensures Since(old(fs.dev.history), fs.dev.history)
    ensures Shows(old(fs.Content()), v) && Tidy(v, old(fs.next), h)
    ensures mounted ==> Settled(fs, h, w)
    ensures r.Ok? ==> mounted && Done(op, v, w, old(fs.next), now, h)
    ensures r.Err? && mounted ==> fs.Content() == old(fs.Content()) || (op.DeletePath? && PartRemoved(v, w, Parts(op.path)))
    ensures r.Err? ==> r.error in {Refused, Full, TooDeep} || (r.error == Io && fs.dev.flaky)
    ensures r.Err? && r.error == Refused ==> Unacceptable(op, v, h)
    ensures r.Err? && r.error == Full && mounted ==> Cramped(op, v, fs.Room(), fs.total)
    ensures !mounted ==> r.Err? && fs.dev.flaky
  {
    v := IdleInOrder(fs, h);
    IdleDurable(fs, h);
    var performed;
    performed, w := Perform(fs, op, now, h, v);
    ghost var hist := fs.dev.history;
    r, mounted, w := Conclude(fs, performed, h, w);
    SinceTrans(old(fs.dev.history), hist, fs.dev.history);
    assert Open(ShowSeal, 0);
    if r.Err? && mounted && fs.sb != old(fs.sb) {
      w := HalfDone(fs, old(fs.sb), op, v, h);
    }
  }

  lemma HalfDone(fs: Fs, was: Super, op: Op, v: Names, h: Hash) returns (w: Names)
    requires Idle(fs, h) && Durable(fs) && Rested(fs) && fs.sb != was && Interim(was, fs.sb, op, v, h)
    ensures op.DeletePath? && Settled(fs, h, w) && PartRemoved(v, w, Parts(op.path))
  {
    w :| Shows(StateItems(fs.sb), w) && Tidy(w, fs.sb.next, h) && PartRemoved(v, w, Parts(op.path));
  }

  /** Commits a change that has been performed; if it has not, or the commit fails, drops it. */
  method Conclude(fs: Fs, performed: Result<()>, h: Hash, ghost v: Names)
      returns (r: Result<()>, mounted: bool, ghost w: Names)
    requires fs.kept == Promised(h)
    requires performed.Ok? ==> Showing(fs, v) && Tidy(v, fs.next, h) && (fs.dirty || fs.AtRest())
    requires performed.Err? ==> Halted(fs, performed.error)
    modifies fs`nodes, fs`root, fs`dirty, fs`bits, fs`held, fs`bitmapDirty, fs`cursor, fs`bitmap, fs`index
    modifies fs`cache, fs`sb, fs`txg, fs`next,
             fs.dev`durable, fs.dev`pending, fs.dev`cur, fs.dev`landed, fs.dev`landing, fs.dev`history
    ensures Since(old(fs.dev.history), fs.dev.history)
    ensures mounted ==> Settled(fs, h, w)
    ensures r.Ok? ==> performed.Ok? && mounted && w == v
    ensures r.Err? ==> fs.sb == old(fs.sb)
    ensures if performed.Err? then r == performed else r.Err? ==> r.error == Full || (r.error == Io && fs.dev.flaky)
    ensures performed.Ok? && r.Err? && r.error == Full ==> old(fs.Room()) < CommitCost(old(|fs.nodes|), fs.sb.total)
    ensures !mounted ==> r.Err? && fs.dev.flaky
  {
    w, mounted, r := v, true, performed;
    if r.Ok? {
      r := CommitAll(fs, h, v);
    }
    if r.Err? {
      mounted, w := DropChanges(fs, h, v);
    }
  }

  method CommitAll(fs: Fs, h: Hash, ghost w: Names) returns (r: Result<()>)
    requires Showing(fs, w) && Tidy(w, fs.next, h) && fs.kept == Promised(h) && (fs.dirty || fs.AtRest())
    modifies fs`nodes, fs`root, fs`dirty, fs`bits, fs`held, fs`bitmapDirty, fs`cursor, fs`bitmap, fs`index
    modifies fs`cache, fs`sb, fs`txg,
             fs.dev`durable, fs.dev`pending, fs.dev`cur, fs.dev`landed, fs.dev`landing, fs.dev`history
    ensures Since(old(fs.dev.history), fs.dev.history)
    ensures r.Err? ==> fs.Intact() && fs.sb == old(fs.sb) && (r.error == Full || (r.error == Io && fs.dev.flaky))
    ensures r.Err? && r.error == Full ==> old(fs.Room()) < CommitCost(old(|fs.nodes|), fs.sb.total)
    ensures r.Ok? ==> Settled(fs, h, w)
  {
    assert InOrder(fs.Content(), fs.next, h);
    fs.CommitBound();
    r := fs.Commit();
    if r.Ok? {
      IdleDurable(fs, h);
      var x := IdleInOrder(fs, h);
    }
  }

  /** Drops a failed change; false if not even the last commit reads back. */
  method DropChanges(fs: Fs, h: Hash, ghost w: Names) returns (mounted: bool, ghost x: Names)
    requires fs.Intact() && fs.kept == Promised(h)
    modifies fs`nodes, fs`root, fs`next, fs`dirty, fs`bits, fs`held, fs`bitmap, fs`bitmapDirty, fs`index
    ensures mounted ==> Settled(fs, h, x)
    ensures !mounted ==> fs.dev.flaky
  {
    x := w;
    assert Open(VolumeSeal, 0);
    var aborted := fs.Abort();
    mounted := aborted.Ok?;
    if mounted {
      x := IdleInOrder(fs, h);
      IdleDurable(fs, h);
    }
  }
}
