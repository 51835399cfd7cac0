/** Deleting files, and folders with everything in them. */
module KfsRemove {
  import opened Wrappers
  import opened KfsTypes
  import opened KfsItems
  import opened KfsState
  import opened KfsDisk
  import opened KfsCommit
  import opened KfsFiles
  import opened KfsNames
  import opened KfsTidy
  import opened KfsPaths
  import opened KfsShow
  import opened KfsIo
  import opened KfsDir
  import opened KfsOps
  import opened Kfs

  // --- Objects gone from a folder ---

  /** No file has more than `most` items of data. */
  ghost predicate Small(v: Names, most: nat) {
    forall o {:trigger v.contents[o]} :: o in v.contents ==> ItemsFor(|v.contents[o]|) <= most
  }

  /** In the middle of a deletion: everything is in order, and little memory and room has been used. (Sealed: see
      `Open`.) */
  ghost predicate Steady(fs: Fs, h: Hash, most: nat, n: nat, v: Names)
    reads fs, fs.dev
  {
    forall x: nat {:trigger Open(ShowSeal, x)} :: Open(ShowSeal, x) ==>
      Showing(fs, v) && Tidy(v, fs.next, h) && fs.kept == Promised(h) && Lean(fs, n) && Small(v, most)
  }

  lemma KeepSteady(fs: Fs, h: Hash, most: nat, n: nat, v: Names)
    requires Showing(fs, v) && Tidy(v, fs.next, h) && fs.kept == Promised(h) && Lean(fs, n) && Small(v, most)
    ensures Steady(fs, h, most, n, v)
  {
  }

  lemma SteadyTidy(fs: Fs, h: Hash, most: nat, n: nat, v: Names)
    requires Steady(fs, h, most, n, v)
    ensures Tidy(v, fs.next, h)
  {
    assert Open(ShowSeal, 0);
  }

  /** The last commit left less room than a commit may need in the middle of deleting such files. */
  ghost predicate Tight(sb: Super, most: nat) {
    RestRoom(sb) < CommitCost(DIRTY_LIMIT + Copies(most + 3), sb.total)
  }

  /** `w` is `v` without the objects in `gone`; of the rest, only folder `dir`'s own inode may have
      been touched. */
  ghost predicate Gone(v: Names, w: Names, dir: nat, gone: set<nat>) {
    && w.inodes.Keys == v.inodes.Keys - gone && dir in w.inodes
    && (forall o {:trigger w.inodes[o]} :: o in w.inodes && o != dir ==> w.inodes[o] == v.inodes[o])
    && w.inodes[dir] == Touched(v.inodes[dir], w.inodes[dir].links, w.inodes[dir].modified)
    && w.links == Staying(v.links, gone)
    && w.contents == v.contents - gone
  }

  function Staying(ls: Links, gone: set<nat>): Links { map k | k in ls && ls[k].child !in gone :: ls[k] }

  /** All of `gone` were somewhere below folder `dir`. */
  ghost predicate AllBeneath(ls: Links, dir: nat, gone: set<nat>) {
    forall o {:trigger Beneath(ls, dir, o)} {:trigger o in gone} :: o in gone ==> o != dir && Beneath(ls, dir, o)
  }

  lemma GoneNone(v: Names, dir: nat)
    requires dir in v.inodes
    ensures Gone(v, v, dir, {})
  {
    assert Staying(v.links, {}) == v.links;
  }

  lemma GoneTrans(v: Names, w: Names, x: Names, dir: nat, a: set<nat>, b: set<nat>)
    requires Gone(v, w, dir, a) && Gone(w, x, dir, b)
    ensures Gone(v, x, dir, a + b)
  {
    assert Staying(Staying(v.links, a), b) == Staying(v.links, a + b);
    assert x.contents == v.contents - (a + b);
    assert x.inodes.Keys == v.inodes.Keys - (a + b);
  }

  lemma BeneathTrans(v: Names, w: Names, dir: nat, a: set<nat>, b: set<nat>)
    requires Unique(v.links) && Gone(v, w, dir, a) && AllBeneath(v.links, dir, a) && AllBeneath(w.links, dir, b)
    ensures AllBeneath(v.links, dir, a + b)
  {
    forall o | o in a + b ensures o != dir && Beneath(v.links, dir, o) {
      if o in a {
        assert Beneath(v.links, dir, o);
      } else {
        assert Beneath(w.links, dir, o);
        var q :| Walk(w.links, dir, q) == Some(o);
        WalkGrows(w.links, v.links, dir, q);
      }
    }
  }

  /** Something below a folder's child is not another of the folder's children, nor the folder. */
  lemma NotBeside(v: Names, next: nat, h: Hash, k: (nat, nat), o: nat)
    requires Tidy(v, next, h) && k in v.links && o != v.links[k].child && Beneath(v.links, v.links[k].child, o)
    ensures o != k.0
    ensures forall j {:trigger v.links[j]} :: j in v.links && j.0 == k.0 ==> v.links[j].child != o
  {
    var c := v.links[k].child;
    var r :| Walk(v.links, c, r) == Some(o);
    assert r != [];
    if o == k.0 {
      NoWayUp(v, next, h, k, r);
    }
    forall j | j in v.links && j.0 == k.0 ensures v.links[j].child != o {
      if v.links[j].child == o {
        var last := WalkLast(v.links, c, r);
        SameNames(v.links, last, j);
        NoWayUp(v, next, h, k, r[..|r| - 1]);
      }
    }
  }

  /** No way leads from an entry's target back to the folder the entry is in. */
  lemma NoWayUp(v: Names, next: nat, h: Hash, k: (nat, nat), r: seq<Name>)
    requires Tidy(v, next, h) && k in v.links
    ensures Walk(v.links, v.links[k].child, r) != Some(k.0)
  {
    assert LinkOk(v, h, k);
    assert Reachable(v.links, k.0);
    var down :| Walk(v.links, ROOT, down) == Some(k.0);
    WalkOne(v.links, k);
    WalkConcat(v.links, k.0, [v.links[k].name], r);
    NoCycle(v, next, h, k.0, down, [v.links[k].name] + r);
  }

  /** The folder itself and its other children are not among what is below one of its children. */
  lemma Spared(v: Names, next: nat, h: Hash, k: (nat, nat), inner: set<nat>)
    requires Tidy(v, next, h) && k in v.links && AllBeneath(v.links, v.links[k].child, inner)
    ensures k.0 !in inner + {v.links[k].child}
    ensures forall j {:trigger v.links[j]} :: j in v.links && j.0 == k.0 && j != k ==> v.links[j].child !in inner + {v.links[k].child}
    ensures v.links[k].child !in inner
  {
    var c := v.links[k].child;
    NoWayUp(v, next, h, k, []);
    assert Walk(v.links, c, []) == Some(c);
    forall o | o in inner
      ensures o != k.0 && o != c
      ensures forall j {:trigger v.links[j]} :: j in v.links && j.0 == k.0 ==> v.links[j].child != o
    {
      assert Beneath(v.links, c, o);
      NotBeside(v, next, h, k, o);
    }
    forall j | j in v.links && j != k ensures v.links[j].child != c {
      OtherChild(v.links, j, k);
    }
  }

  lemma Lower(v: Names, next: nat, h: Hash, k: (nat, nat), inner: set<nat>)
    requires Tidy(v, next, h) && k in v.links && AllBeneath(v.links, v.links[k].child, inner)
    ensures AllBeneath(v.links, k.0, inner + {v.links[k].child})
  {
    Spared(v, next, h, k, inner);
    forall o | o in inner + {v.links[k].child} ensures o != k.0 && Beneath(v.links, k.0, o) {
      assert o in inner ==> Beneath(v.links, v.links[k].child, o);
      WayThrough(v.links, k, o);
    }
  }

  /** Emptying a folder's child and then deleting it takes all of that, and nothing else, out of the
      folder. */
  lemma GoneChild(v: Names, w: Names, next: nat, h: Hash, k: (nat, nat), inner: set<nat>, touch: bool, now: nat)
    requires Tidy(v, next, h) && Tidy(w, next, h) && k in v.links
    requires Gone(v, w, v.links[k].child, inner) && AllBeneath(v.links, v.links[k].child, inner)
    ensures k in w.links && w.links[k] == v.links[k] && k.0 in w.inodes && w.inodes[k.0].links >= 1
    ensures Gone(v, Delete(w, k, touch, now), k.0, inner + {v.links[k].child})
  {
    var c := v.links[k].child;
    Spared(v, next, h, k, inner);
    assert LinkOk(v, h, k) && Counted(w, k.0);
    var x := Delete(w, k, touch, now);
    assert x.contents == v.contents - (inner + {c});
    assert x.inodes.Keys == v.inodes.Keys - (inner + {c});
    StayingLess(v.links, k, inner);
  }

  lemma StayingLess(ls: Links, k: (nat, nat), gone: set<nat>)
    requires Unique(ls) && k in ls
    ensures Staying(ls, gone) - {k} == Staying(ls, gone + {ls[k].child})
  {
    forall j | j in ls && j != k ensures ls[j].child != ls[k].child {
      OtherChild(ls, j, k);
    }
  }

  lemma WayThrough(ls: Links, k: (nat, nat), o: nat)
    requires Unique(ls) && k in ls && (o == ls[k].child || Beneath(ls, ls[k].child, o))
    ensures Beneath(ls, k.0, o)
  {
    var r := [];
    if o != ls[k].child {
      r :| Walk(ls, ls[k].child, r) == Some(o);
    }
    WalkOne(ls, k);
    WalkConcat(ls, k.0, [ls[k].name], r);
    assert Walk(ls, k.0, [ls[k].name] + r) == Some(o);
  }

  /** When a folder is empty, all that was below it is gone. */
  lemma AllGone(v: Names, w: Names, next: nat, h: Hash, dir: nat, gone: set<nat>, o: nat)
    requires Tidy(v, next, h) && Tidy(w, next, h) && Gone(v, w, dir, gone) && NothingIn(w.links, dir)
    requires o != dir && Beneath(v.links, dir, o) && o in v.inodes
    ensures o in gone
  {
    if o !in gone {
      assert o in w.inodes && Reachable(w.links, o) && Reachable(w.links, dir);
      var q :| Walk(w.links, ROOT, q) == Some(o);
      var p :| Walk(w.links, ROOT, p) == Some(dir);
      WalkGrows(w.links, v.links, ROOT, q);
      WalkGrows(w.links, v.links, ROOT, p);
      BeneathIsPrefix(v, next, h, p, q, dir, o);
      var r := q[|p|..];
      assert q == p + r;
      WalkConcat(w.links, ROOT, p, r);
      assert p != q;
      ChildGives(w.links, dir, r[0]);
    }
  }

  /** Everything a walk leads to exists. */
  lemma WalkExists(v: Names, next: nat, h: Hash, p: seq<Name>)
    requires Tidy(v, next, h) && Walk(v.links, ROOT, p).Some?
    ensures Walk(v.links, ROOT, p).value in v.inodes
  {
    if p != [] {
      var k := WalkLast(v.links, ROOT, p);
      assert LinkOk(v, h, k);
    }
  }

  // --- What deleting does, path by path ---

  /** After deleting `path`: no path leads there or below any more, every other path leads where it did,
      and what is there is as it was, but for the folder `path` was in. */
  ghost predicate Removed(v: Names, w: Names, path: seq<Name>) {
    && path != [] && Walk(v.links, ROOT, path).Some? && Walk(v.links, ROOT, path[..|path| - 1]).Some?
    && (forall q {:trigger Walk(w.links, ROOT, q)} :: Walk(w.links, ROOT, q) == if path <= q then None else Walk(v.links, ROOT, q))
    && (forall o {:trigger w.inodes[o]} :: o in w.inodes ==>
          o in v.inodes && (o != Walk(v.links, ROOT, path[..|path| - 1]).value ==> w.inodes[o] == v.inodes[o]))
    && (forall o {:trigger w.contents[o]} :: o in w.contents ==> o in v.contents && w.contents[o] == v.contents[o])
  }

  lemma RemovedPaths(v: Names, w: Names, next: nat, h: Hash, k: (nat, nat), gone: set<nat>, path: seq<Name>)
    requires Tidy(v, next, h) && Tidy(w, next, h) && k in v.links && path != []
    requires Walk(v.links, ROOT, path[..|path| - 1]) == Some(k.0) && Walk(v.links, ROOT, path) == Some(v.links[k].child)
    requires Gone(v, w, k.0, gone)
    requires forall o: nat {:trigger o in gone} :: o in gone <==> o in v.inodes && Beneath(v.links, v.links[k].child, o)
    ensures Removed(v, w, path)
  {
    forall q ensures Walk(w.links, ROOT, q) == if path <= q then None else Walk(v.links, ROOT, q) {
      RemovedPath(v, w, next, h, k, gone, path, q);
    }
  }

  lemma RemovedPath(v: Names, w: Names, next: nat, h: Hash, k: (nat, nat), gone: set<nat>, path: seq<Name>,
                    q: seq<Name>)
    requires Tidy(v, next, h) && Tidy(w, next, h) && k in v.links
    requires Walk(v.links, ROOT, path) == Some(v.links[k].child) && Gone(v, w, k.0, gone)
    requires forall o: nat {:trigger o in gone} :: o in gone <==> o in v.inodes && Beneath(v.links, v.links[k].child, o)
    ensures Walk(w.links, ROOT, q) == if path <= q then None else Walk(v.links, ROOT, q)
  {
    if Walk(w.links, ROOT, q).Some? {
      WalkGrows(w.links, v.links, ROOT, q);
      WalkExists(w, next, h, q);
      BeneathIsPrefix(v, next, h, path, q, v.links[k].child, Walk(v.links, ROOT, q).value);
    } else if Walk(v.links, ROOT, q).Some? && !(path <= q) {
      var x := Walk(v.links, ROOT, q).value;
      WalkExists(v, next, h, q);
      BeneathIsPrefix(v, next, h, path, q, v.links[k].child, x);
      assert x in w.inodes && Reachable(w.links, x);
      var q' :| Walk(w.links, ROOT, q') == Some(x);
      WalkGrows(w.links, v.links, ROOT, q');
      OneWay(v, next, h, q, q');
    }
  }

  // --- A deletion that stopped halfway ---

  /** `w` is `v` with some of what was below folder `dir` gone, and nothing else changed. */
  ghost predicate PartEmptied(v: Names, w: Names, dir: nat, gone: set<nat>) {
    && w.inodes.Keys == v.inodes.Keys - gone && w.links == Staying(v.links, gone) && w.contents == v.contents - gone
    && (forall o {:trigger w.inodes[o]} :: o in w.inodes && !Beneath(v.links, dir, o) ==> w.inodes[o] == v.inodes[o])
    && AllBeneath(v.links, dir, gone)
  }

  /** The last commit is still `was`, or one made while `dir` was being emptied. */
  ghost predicate EmptiedSince(was: Super, sb: Super, v: Names, dir: nat, h: Hash) {
    sb == was || exists w, gone :: Shows(StateItems(sb), w) && Tidy(w, sb.next, h) && PartEmptied(v, w, dir, gone)
  }

  lemma GonePartly(v: Names, w: Names, dir: nat, gone: set<nat>)
    requires Gone(v, w, dir, gone) && AllBeneath(v.links, dir, gone)
    ensures PartEmptied(v, w, dir, gone)
  {
    assert Walk(v.links, dir, []) == Some(dir);
  }

  lemma PartlyTrans(v: Names, w: Names, x: Names, dir: nat, a: set<nat>, b: set<nat>)
    requires Unique(v.links) && Gone(v, w, dir, a) && AllBeneath(v.links, dir, a) && PartEmptied(w, x, dir, b)
    ensures PartEmptied(v, x, dir, a + b)
  {
    assert Staying(Staying(v.links, a), b) == Staying(v.links, a + b);
    assert x.contents == v.contents - (a + b);
    assert x.inodes.Keys == v.inodes.Keys - (a + b);
    BeneathTrans(v, w, dir, a, b);
    assert Walk(v.links, dir, []) == Some(dir);
    forall o | o in x.inodes && !Beneath(v.links, dir, o) ensures x.inodes[o] == v.inodes[o] {
      if Beneath(w.links, dir, o) {
        var q :| Walk(w.links, dir, q) == Some(o);
        WalkGrows(w.links, v.links, dir, q);
      }
    }
  }

  lemma PartlyAbove(v: Names, w: Names, next: nat, h: Hash, k: (nat, nat), gone: set<nat>)
    requires Tidy(v, next, h) && k in v.links && PartEmptied(v, w, v.links[k].child, gone)
    ensures PartEmptied(v, w, k.0, gone)
  {
    Lower(v, next, h, k, gone);
    forall o | o in gone ensures o != k.0 && Beneath(v.links, k.0, o) {
      assert o in gone + {v.links[k].child};
    }
    forall o | o in w.inodes && !Beneath(v.links, k.0, o) ensures w.inodes[o] == v.inodes[o] {
      if Beneath(v.links, v.links[k].child, o) {
        WayThrough(v.links, k, o);
      }
    }
  }

  /** The same, path by path: below `path`, what was there is or is not; everything else is as it was. */
  ghost predicate PartRemoved(v: Names, w: Names, path: seq<Name>) {
    && (forall q {:trigger Walk(w.links, ROOT, q)} ::
          Walk(w.links, ROOT, q) == Walk(v.links, ROOT, q) || (path < q && Walk(w.links, ROOT, q) == None))
    && (forall q {:trigger Walk(v.links, ROOT, q)} ::
          !(path <= q) && Walk(v.links, ROOT, q).Some? ==>
            var o := Walk(v.links, ROOT, q).value;
            o in v.inodes && o in w.inodes && w.inodes[o] == v.inodes[o])
    && (forall o {:trigger w.contents[o]} :: o in w.contents ==> o in v.contents && w.contents[o] == v.contents[o])
  }

  lemma PartPaths(v: Names, w: Names, next: nat, next': nat, h: Hash, dir: nat, gone: set<nat>, path: seq<Name>)
    requires Tidy(v, next, h) && Tidy(w, next', h) && PartEmptied(v, w, dir, gone)
    requires Walk(v.links, ROOT, path) == Some(dir)
    ensures PartRemoved(v, w, path)
  {
    forall q
      ensures Walk(w.links, ROOT, q) == Walk(v.links, ROOT, q) || (path < q && Walk(w.links, ROOT, q) == None)
      ensures !(path <= q) && Walk(v.links, ROOT, q).Some? ==>
        var o := Walk(v.links, ROOT, q).value;
        o in v.inodes && o in w.inodes && w.inodes[o] == v.inodes[o]
    {
      PartPath(v, w, next, next', h, dir, gone, path, q);
    }
  }

  lemma PartPath(v: Names, w: Names, next: nat, next': nat, h: Hash, dir: nat, gone: set<nat>, path: seq<Name>,
                 q: seq<Name>)
    requires Tidy(v, next, h) && Tidy(w, next', h) && PartEmptied(v, w, dir, gone)
    requires Walk(v.links, ROOT, path) == Some(dir)
    ensures Walk(w.links, ROOT, q) == Walk(v.links, ROOT, q) || (path < q && Walk(w.links, ROOT, q) == None)
    ensures !(path <= q) && Walk(v.links, ROOT, q).Some? ==>
      var o := Walk(v.links, ROOT, q).value;
      o in v.inodes && o in w.inodes && w.inodes[o] == v.inodes[o]
  {
    if Walk(w.links, ROOT, q).Some? {
      WalkGrows(w.links, v.links, ROOT, q);
    }
    if Walk(v.links, ROOT, q).Some? && !(path < q) {
      BeneathIsPrefix(v, next, h, path, q, dir, Walk(v.links, ROOT, q).value);
      StillReached(v, w, next, next', h, dir, gone, path, q);
    }
  }

  lemma NotGone(v: Names, next: nat, h: Hash, dir: nat, gone: set<nat>, path: seq<Name>, q: seq<Name>)
    requires Tidy(v, next, h) && AllBeneath(v.links, dir, gone) && Walk(v.links, ROOT, path) == Some(dir)
    requires Walk(v.links, ROOT, q).Some? && !(path < q)
    ensures Walk(v.links, ROOT, q).value in v.inodes && Walk(v.links, ROOT, q).value !in gone
  {
    WalkExists(v, next, h, q);
    BeneathIsPrefix(v, next, h, path, q, dir, Walk(v.links, ROOT, q).value);
    assert path <= q ==> path == q;
  }

  lemma StillReached(v: Names, w: Names, next: nat, next': nat, h: Hash, dir: nat, gone: set<nat>, path: seq<Name>,
                     q: seq<Name>)
    requires Tidy(v, next, h) && Tidy(w, next', h) && PartEmptied(v, w, dir, gone)
    requires Walk(v.links, ROOT, path) == Some(dir)
    requires Walk(v.links, ROOT, q).Some? && !(path < q)
    ensures Walk(v.links, ROOT, q).value in w.inodes && Walk(w.links, ROOT, q) == Walk(v.links, ROOT, q)
  {
    var o := Walk(v.links, ROOT, q).value;
    NotGone(v, next, h, dir, gone, path, q);
    assert o in w.inodes && Reachable(w.links, o);
    var q' :| Walk(w.links, ROOT, q') == Some(o);
    WalkGrows(w.links, v.links, ROOT, q');
    OneWay(v, next, h, q, q');
  }

  // --- Deleting ---

  lemma Dropped(w: Names, k: (nat, nat), touch: bool, now: nat)
    requires k in w.links && k.0 in w.inodes && k.0 != w.links[k].child && w.inodes[k.0].links >= 1
    requires NothingIn(w.links, w.links[k].child)
    ensures var x := Without(w, w.links[k].child);
            var y := x.(links := x.links - {k});
            Delete(w, k, touch, now) == if touch then TouchedIn(y, k.0, if w.links[k].dir then -1 else 0, now) else y
  {
    var x := Without(w, w.links[k].child);
    assert x.links == w.links;
    assert !touch ==> x.inodes == (w.inodes - {w.links[k].child})[k.0 := w.inodes[k.0]];
  }

  /** Deletes what is in slot `off` of folder `dir`, which has nothing in it, and touches the folder. */
  method DropChild(fs: Fs, dir: nat, off: nat, child: nat, isDir: bool, touch: bool, now: nat, h: Hash, ghost w: Names)
    returns (r: Result<()>, ghost x: Names)
    requires Showing(fs, w) && Tidy(w, fs.next, h) && (dir, off) in w.links && (isDir ==> touch)
    requires w.links[(dir, off)].child == child && w.links[(dir, off)].dir == isDir && NothingIn(w.links, child)
    modifies fs`root, fs`dirty, fs`nodes, fs`bits, fs`held, fs`bitmapDirty, fs`cache, fs`clock
    ensures r.Err? ==> fs.Failed(r.error)
    ensures r.Ok? ==> dir in w.inodes && w.inodes[dir].links >= 1 && x == Delete(w, (dir, off), touch, now)
    ensures r.Ok? ==> fs.dirty && Showing(fs, x) && Tidy(x, fs.next, h)
    ensures r.Ok? ==> Spent(old(fs.Has()), fs.Has(), HeldIn(w, child) + 3)
  {
    x := w;
    DeleteTidy(w, fs.next, h, (dir, off), touch, now);
    NoWayUp(w, fs.next, h, (dir, off), []);
    Dropped(w, (dir, off), touch, now);
    var cleared := ClearAll(fs, child, w);
    if cleared.Err? {
      return Err(cleared.error), w;
    }
    ghost var w1 := Without(w, child);
    var dropped := DropEntry(fs, dir, off, w1);
    if dropped.Err? {
      return Err(dropped.error), w;
    }
    if touch {
      var touched := Touch(fs, dir, if isDir then -1 else 0, now, w1.(links := w1.links - {(dir, off)}));
      if touched.Err? {
        return Err(touched.error), w;
      }
    }
    x := Delete(w, (dir, off), touch, now);
    return Ok(()), x;
  }

  /** The same in the course of a deletion. */
  method DropNext(fs: Fs, dir: nat, off: nat, child: nat, isDir: bool, touch: bool, now: nat, h: Hash, ghost most: nat,
                  ghost w: Names)
    returns (r: Result<()>, ghost x: Names)
    requires Steady(fs, h, most, 0, w) && (dir, off) in w.links && (isDir ==> touch)
    requires w.links[(dir, off)].child == child && w.links[(dir, off)].dir == isDir && NothingIn(w.links, child)
    modifies fs`root, fs`dirty, fs`nodes, fs`bits, fs`held, fs`bitmapDirty, fs`cache, fs`clock
    ensures r.Err? ==> fs.Failed(r.error)
    ensures r.Ok? ==> dir in w.inodes && w.inodes[dir].links >= 1 && x == Delete(w, (dir, off), touch, now)
    ensures r.Ok? ==> fs.dirty && Steady(fs, h, most, most + 3, x)
  {
    assert Open(ShowSeal, 0);
    r, x := DropChild(fs, dir, off, child, isDir, touch, now, h, w);
    if r.Ok? {
      KeepSteady(fs, h, most, most + 3, x);
    }
  }

  /** There is a way down from `dir` of `n` steps. */
  ghost predicate Deep(ls: Links, dir: nat, n: nat) {
    exists q: seq<Name> {:trigger Walk(ls, dir, q)} :: |q| == n && Walk(ls, dir, q).Some?
  }

  lemma Deeper(v: Names, w: Names, gone: set<nat>, k: (nat, nat), n: nat)
    requires Unique(v.links) && w.links == Staying(v.links, gone) && k in w.links && Deep(w.links, w.links[k].child, n)
    ensures Deep(v.links, k.0, n + 1)
  {
    var q :| |q| == n && Walk(w.links, w.links[k].child, q).Some?;
    WalkGrows(w.links, v.links, w.links[k].child, q);
    WalkOne(v.links, k);
    WalkConcat(v.links, k.0, [v.links[k].name], q);
    assert |[v.links[k].name] + q| == n + 1;
  }

  lemma SteadyIntact(fs: Fs, h: Hash, most: nat, n: nat, v: Names)
    requires Steady(fs, h, most, n, v)
    ensures fs.Intact()
  {
    assert Open(ShowSeal, 0);
    StillBacked(fs);
  }

  /** Lists a folder in the middle of a deletion. */
  method EntriesNow(fs: Fs, dir: nat, h: Hash, ghost most: nat, ghost v: Names) returns (r: Result<seq<Listed>>)
    requires Steady(fs, h, most, 0, v)
    modifies fs`cache, fs`clock
    ensures Steady(fs, h, most, 0, v)
    ensures r.Err? ==> fs.Failed(r.error)
    ensures r.Ok? ==> Lists(r.value, v.links, dir)
  {
    assert Open(ShowSeal, 0);
    r := Entries(fs, dir, v);
  }

  /** Deletes everything in folder `dir`, entry by entry; every commit on the way leaves a volume that is
      in order, with some of it deleted. */
  method EmptyDir(fs: Fs, dir: nat, depth: nat, now: nat, h: Hash, ghost most: nat, ghost v: Names)
      returns (r: Result<()>, ghost w: Names, ghost gone: set<nat>)
    requires Steady(fs, h, most, 0, v) && dir in v.inodes && v.inodes[dir].dir
    requires depth <= 65
    modifies fs`nodes, fs`root, fs`dirty, fs`bits, fs`held, fs`bitmapDirty, fs`cursor, fs`bitmap, fs`index
    modifies fs`cache, fs`clock, fs`sb, fs`txg,
             fs.dev`durable, fs.dev`pending, fs.dev`cur, fs.dev`landed, fs.dev`landing, fs.dev`history
    ensures Since(old(fs.dev.history), fs.dev.history) && EmptiedSince(old(fs.sb), fs.sb, v, dir, h)
    ensures r.Err? ==> Halted(fs, r.error)
    ensures r.Err? && r.error == Refused ==> Deep(v.links, dir, 65 - depth)
    ensures r.Ok? ==> Steady(fs, h, most, 0, w)
    ensures r.Ok? ==> Gone(v, w, dir, gone) && AllBeneath(v.links, dir, gone) && NothingIn(w.links, dir)
    ensures r.Err? && r.error == Full ==> Tight(fs.sb, most)
    decreases 65 - depth, 1
  {
    SteadyTidy(fs, h, most, 0, v);
    w, gone := v, {};
    GoneNone(v, dir);
    if depth > 64 {
      SteadyIntact(fs, h, most, 0, v);
      assert Walk(v.links, dir, []).Some?;
      return Err(Refused), w, gone;
    }
    var list := EntriesNow(fs, dir, h, most, v);
    if list.Err? {
      return Err(list.error), w, gone;
    }
    var j := 0;
    assert list.value[0..] == list.value;
    while j < |list.value|
      invariant 0 <= j <= |list.value| && Steady(fs, h, most, 0, w)
      invariant Gone(v, w, dir, gone) && AllBeneath(v.links, dir, gone) && Lists(list.value[j..], w.links, dir)
      invariant Since(old(fs.dev.history), fs.dev.history) && EmptiedSince(old(fs.sb), fs.sb, v, dir, h)
    {
      ghost var hist, was, inner, sb := fs.dev.history, w, gone, fs.sb;
      r, w, inner := DropTree(fs, dir, list.value[j], depth, now, h, most, was);
      SinceTrans(old(fs.dev.history), hist, fs.dev.history);
      EmptiedMore(old(fs.sb), sb, fs.sb, v, was, dir, gone, h);
      if r.Err? {
        if r.error == Refused {
          Deeper(v, was, gone, (dir, list.value[j].off), 64 - depth);
        }
        return r, w, gone;
      }
      ListedNext(list.value, j, was.links, w.links, dir);
      GoneTrans(v, was, w, dir, gone, inner);
      BeneathTrans(v, was, dir, gone, inner);
      gone := gone + inner;
      j := j + 1;
    }
    assert NothingIn(w.links, dir);
    return Ok(()), w, gone;
  }

  /** The entries of folder `dir` but for the one in slot `off`. */
  ghost predicate OneLess(ls: Links, ls': Links, dir: nat, off: nat) {
    forall k: (nat, nat) {:trigger k in ls'} :: k.0 == dir ==> (k in ls' <==> k in ls && k.1 != off) && (k in ls' ==> ls'[k] == ls[k])
  }

  lemma ListedNext(list: seq<Listed>, j: nat, ls: Links, ls': Links, dir: nat)
    requires j < |list| && Lists(list[j..], ls, dir) && OneLess(ls, ls', dir, list[j].off)
    ensures Lists(list[j + 1..], ls', dir)
  {
    var a, b := list[j..], list[j + 1..];
    assert b == a[1..] && a[0] == list[j];
    forall i | 0 <= i < |b| ensures (dir, b[i].off) in ls' && ls'[(dir, b[i].off)] == Link(b[i].child, b[i].dir, b[i].name) {
      assert b[i] == a[i + 1] && a[0].off != a[i + 1].off;
    }
    forall k | k in ls' && k.0 == dir ensures exists i {:trigger b[i]} :: 0 <= i < |b| && b[i].off == k.1 {
      var i :| 0 <= i < |a| && a[i].off == k.1;
      assert b[i - 1].off == k.1;
    }
  }

  /** Deletes one entry of a folder, with everything below it. */
  method DropTree(fs: Fs, dir: nat, e: Listed, depth: nat, now: nat, h: Hash, ghost most: nat, ghost v: Names)
      returns (r: Result<()>, ghost w: Names, ghost gone: set<nat>)
    requires Steady(fs, h, most, 0, v) && depth <= 64
    requires (dir, e.off) in v.links && v.links[(dir, e.off)] == Link(e.child, e.dir, e.name)
    modifies fs`nodes, fs`root, fs`dirty, fs`bits, fs`held, fs`bitmapDirty, fs`cursor, fs`bitmap, fs`index
    modifies fs`cache, fs`clock, fs`sb, fs`txg,
             fs.dev`durable, fs.dev`pending, fs.dev`cur, fs.dev`landed, fs.dev`landing, fs.dev`history
    ensures Since(old(fs.dev.history), fs.dev.history) && EmptiedSince(old(fs.sb), fs.sb, v, dir, h)
    ensures r.Err? ==> Halted(fs, r.error)
    ensures r.Err? && r.error == Refused ==> Deep(v.links, e.child, 64 - depth)
    ensures r.Ok? ==> Steady(fs, h, most, 0, w) && Gone(v, w, dir, gone) && AllBeneath(v.links, dir, gone)
    ensures r.Ok? ==> OneLess(v.links, w.links, dir, e.off)
    ensures r.Err? && r.error == Full ==> Tight(fs.sb, most)
    decreases 65 - depth, 0
  {
    SteadyTidy(fs, h, most, 0, v);
    ghost var inner;
    r, w, inner := Hollow(fs, e.child, e.dir, depth + 1, now, h, (dir, e.off), most, v);
    EmptiedAbove(old(fs.sb), fs.sb, v, fs.next, h, (dir, e.off));
    gone := inner + {e.child};
    if r.Err? {
      return r, w, gone;
    }
    ghost var mid, hist, sb := w, fs.dev.history, fs.sb;
    r, w := DropHollow(fs, dir, e, now, h, inner, mid, most, v);
    SinceTrans(old(fs.dev.history), hist, fs.dev.history);
    if r.Ok? {
      SteadyTidy(fs, h, most, 0, w);
    }
  }

  /** The last of it: the entry itself, and a commit if one is due. */
  method DropHollow(fs: Fs, dir: nat, e: Listed, now: nat, h: Hash, ghost inner: set<nat>, ghost mid: Names,
                    ghost most: nat, ghost v: Names)
    returns (r: Result<()>, ghost w: Names)
    requires Steady(fs, h, most, 0, mid) && Tidy(v, fs.next, h)
    requires (dir, e.off) in v.links && v.links[(dir, e.off)] == Link(e.child, e.dir, e.name)
    requires Gone(v, mid, e.child, inner) && AllBeneath(v.links, e.child, inner) && NothingIn(mid.links, e.child)
    modifies fs`nodes, fs`root, fs`dirty, fs`bits, fs`held, fs`bitmapDirty, fs`cursor, fs`bitmap, fs`index
    modifies fs`cache, fs`clock, fs`sb, fs`txg,
             fs.dev`durable, fs.dev`pending, fs.dev`cur, fs.dev`landed, fs.dev`landing, fs.dev`history
    ensures Since(old(fs.dev.history), fs.dev.history)
    ensures fs.sb == old(fs.sb) || (r.Ok? && Shows(StateItems(fs.sb), w) && fs.sb.next == fs.next && PartEmptied(v, w, dir, inner + {e.child}))
    ensures r.Err? ==> fs.Stuck(r.error)
    ensures r.Ok? ==> Steady(fs, h, most, 0, w) && Gone(v, w, dir, inner + {e.child})
    ensures r.Ok? ==> AllBeneath(v.links, dir, inner + {e.child})
    ensures r.Ok? ==> OneLess(v.links, w.links, dir, e.off)
    ensures r.Err? && r.error == Full ==> Tight(fs.sb, most)
  {
    SteadyTidy(fs, h, most, 0, mid);
    ChildDropped(v, mid, fs.next, h, (dir, e.off), inner, e.dir, now);
    r, w := DropNext(fs, dir, e.off, e.child, e.dir, e.dir, now, h, most, mid);
    if r.Ok? {
      r := CommitNext(fs, h, most, w);
    }
  }

  /** Commits in the middle of a deletion, if many nodes have been changed. */
  method CommitNext(fs: Fs, h: Hash, ghost most: nat, ghost w: Names) returns (r: Result<()>)
    requires Steady(fs, h, most, most + 3, w) && fs.dirty
    modifies fs`nodes, fs`root, fs`dirty, fs`bits, fs`held, fs`bitmapDirty, fs`cursor, fs`bitmap, fs`index
    modifies fs`cache, fs`sb, fs`txg,
             fs.dev`durable, fs.dev`pending, fs.dev`cur, fs.dev`landed, fs.dev`landing, fs.dev`history
    ensures Since(old(fs.dev.history), fs.dev.history)
    ensures fs.sb == old(fs.sb) || (r.Ok? && Shows(StateItems(fs.sb), w) && fs.sb.next == fs.next)
    ensures r.Err? ==> fs.Stuck(r.error)
    ensures r.Err? && r.error == Full ==> Tight(fs.sb, most)
    ensures r.Ok? ==> Steady(fs, h, most, 0, w)
  {
    assert Open(ShowSeal, 0);
    r := MaybeCommit(fs, h, w);
  }

  lemma ChildDropped(v: Names, mid: Names, next: nat, h: Hash, k: (nat, nat), inner: set<nat>, touch: bool, now: nat)
    requires Tidy(v, next, h) && Tidy(mid, next, h) && k in v.links
    requires Gone(v, mid, v.links[k].child, inner) && AllBeneath(v.links, v.links[k].child, inner)
    ensures k in mid.links && mid.links[k] == v.links[k] && k.0 in mid.inodes && mid.inodes[k.0].links >= 1
    ensures var w, gone := Delete(mid, k, touch, now), inner + {v.links[k].child};
            Gone(v, w, k.0, gone) && AllBeneath(v.links, k.0, gone) && PartEmptied(v, w, k.0, gone) && OneLess(v.links, w.links, k.0, k.1)
  {
    GoneChild(v, mid, next, h, k, inner, touch, now);
    Lower(v, next, h, k, inner);
    Spared(v, next, h, k, inner);
    GonePartly(v, Delete(mid, k, touch, now), k.0, inner + {v.links[k].child});
  }

  lemma EmptiedMore(was: Super, mid: Super, sb: Super, v: Names, w: Names, dir: nat, gone: set<nat>, h: Hash)
    requires Unique(v.links) && Gone(v, w, dir, gone) && AllBeneath(v.links, dir, gone)
    requires EmptiedSince(was, mid, v, dir, h) && EmptiedSince(mid, sb, w, dir, h)
    ensures EmptiedSince(was, sb, v, dir, h)
  {
    if sb != mid {
      var x, more :| Shows(StateItems(sb), x) && Tidy(x, sb.next, h) && PartEmptied(w, x, dir, more);
      PartlyTrans(v, w, x, dir, gone, more);
    }
  }

  lemma EmptiedAbove(was: Super, sb: Super, v: Names, next: nat, h: Hash, k: (nat, nat))
    requires Tidy(v, next, h) && k in v.links && EmptiedSince(was, sb, v, v.links[k].child, h)
    ensures EmptiedSince(was, sb, v, k.0, h)
  {
    if sb != was {
      var x, gone :| Shows(StateItems(sb), x) && Tidy(x, sb.next, h) && PartEmptied(v, x, v.links[k].child, gone);
      PartlyAbove(v, x, next, h, k, gone);
    }
  }

  /** Empties what entry `k` leads to, if that is a folder. */
  method Hollow(fs: Fs, child: nat, isDir: bool, depth: nat, now: nat, h: Hash, ghost k: (nat, nat), ghost most: nat, ghost v: Names)
    returns (r: Result<()>, ghost w: Names, ghost inner: set<nat>)
    requires Steady(fs, h, most, 0, v) && depth <= 65
    requires k in v.links && v.links[k].child == child && v.links[k].dir == isDir
    modifies fs`nodes, fs`root, fs`dirty, fs`bits, fs`held, fs`bitmapDirty, fs`cursor, fs`bitmap, fs`index
    modifies fs`cache, fs`clock, fs`sb, fs`txg,
             fs.dev`durable, fs.dev`pending, fs.dev`cur, fs.dev`landed, fs.dev`landing, fs.dev`history
    ensures Since(old(fs.dev.history), fs.dev.history) && EmptiedSince(old(fs.sb), fs.sb, v, child, h)
    ensures r.Err? ==> Halted(fs, r.error)
    ensures r.Err? && r.error == Refused ==> isDir && Deep(v.links, child, 65 - depth)
    ensures r.Ok? ==> Steady(fs, h, most, 0, w) && Gone(v, w, child, inner)
    ensures r.Ok? ==> AllBeneath(v.links, child, inner) && NothingIn(w.links, child)
    ensures r.Err? && r.error == Full ==> Tight(fs.sb, most)
    decreases 65 - depth, 2
  {
    assert Open(ShowSeal, 0);
    w, inner := v, {};
    assert LinkOk(v, h, k);
    if isDir {
      r, w, inner := EmptyDir(fs, child, depth, now, h, most, v);
    } else {
      GoneNone(v, child);
      FileEmpty(v, fs.next, h, child);
      r := Ok(());
    }
  }

  lemma FileEmpty(v: Names, next: nat, h: Hash, o: nat)
    requires Tidy(v, next, h) && o in v.inodes && !v.inodes[o].dir
    ensures NothingIn(v.links, o)
  {
    forall k | k in v.links ensures k.0 != o {
      assert LinkOk(v, h, k);
    }
  }

  /** Why a deletion is refused. */
  ghost predicate Undeletable(v: Names, path: seq<char>, filesOnly: bool) {
    SplitPath(path).Ok? ==>
      match Walk(v.links, ROOT, Parts(path))
      case None => true
      case Some(o) => o in v.inodes && v.inodes[o].dir && (filesOnly || Deep(v.links, o, 65))
  }

  /** On success the entry at `path` and all that was reachable through it are gone, and nothing else; on an error
      the names are still in order, at most emptied in part below that entry. */
  method RemovePath(fs: Fs, path: seq<char>, filesOnly: bool, now: nat, h: Hash, ghost most: nat, ghost v: Names)
      returns (r: Result<()>, ghost w: Names)
    requires Steady(fs, h, most, 0, v)
    modifies fs`nodes, fs`root, fs`dirty, fs`bits, fs`held, fs`bitmapDirty, fs`cursor, fs`bitmap, fs`index
    modifies fs`cache, fs`clock, fs`sb, fs`txg,
             fs.dev`durable, fs.dev`pending, fs.dev`cur, fs.dev`landed, fs.dev`landing, fs.dev`history
    ensures Since(old(fs.dev.history), fs.dev.history)
    ensures fs.sb == old(fs.sb) || exists x :: Shows(StateItems(fs.sb), x) && Tidy(x, fs.sb.next, h) && PartRemoved(v, x, Parts(path))
    ensures r.Err? ==> Halted(fs, r.error)
    ensures r.Err? && r.error == Refused ==> Undeletable(v, path, filesOnly)
    ensures r.Ok? ==> fs.dirty && Steady(fs, h, most, most + 3, w) && Removed(v, w, Parts(path))
    ensures r.Ok? && filesOnly ==> !Undeletable(v, path, filesOnly)
    ensures r.Err? && r.error == Full ==> Tight(fs.sb, most)
  {
    SteadyTidy(fs, h, most, 0, v);
    var at := FindDoomed(fs, path, filesOnly, h, most, v);
    if at.Err? {
      return Err(at.error), v;
    }
    var (dir, off, obj, isDir) := at.value;
    r, w := Uproot(fs, dir, off, obj, isDir, now, h, Parts(path), most, v);
    EmptiedPaths(old(fs.sb), fs.sb, v, fs.next, h, obj, Parts(path));
  }

  /** What there is to delete at `path`: folder, entry's key offset, object, whether a folder. */
  method FindDoomed(fs: Fs, path: seq<char>, filesOnly: bool, h: Hash, ghost most: nat, ghost v: Names)
      returns (r: Result<(nat, nat, nat, bool)>)
    requires Steady(fs, h, most, 0, v)
    modifies fs`cache, fs`clock
    ensures r.Err? ==> Stopped(fs, r.error) && (r.error == Refused ==> Undeletable(v, path, filesOnly))
    ensures r.Ok? ==> Steady(fs, h, most, 0, v) && Parts(path) != []
    ensures r.Ok? ==>
      var (dir, off, obj, isDir) := r.value;
      && (dir, off) in v.links && v.links[(dir, off)].child == obj && v.links[(dir, off)].dir == isDir
      && Walk(v.links, ROOT, Parts(path)[..|Parts(path)| - 1]) == Some(dir) && Walk(v.links, ROOT, Parts(path)) == Some(obj)
      && obj in v.inodes && v.inodes[obj].dir == isDir && SplitPath(path).Ok? && !(isDir && filesOnly)
  {
    assert Open(ShowSeal, 0);
    if IsRoot(path) {
      RootLocated(path);
      StillBacked(fs);
      return Err(Refused);
    }
    r := Locate(fs, path, h, v);
    if r.Ok? && r.value.3 && filesOnly {
      StillBacked(fs);
      return Err(Refused);
    }
  }

  lemma EmptiedPaths(was: Super, sb: Super, v: Names, next: nat, h: Hash, dir: nat, path: seq<Name>)
    requires Tidy(v, next, h) && EmptiedSince(was, sb, v, dir, h) && Walk(v.links, ROOT, path) == Some(dir)
    ensures sb == was || exists x :: Shows(StateItems(sb), x) && Tidy(x, sb.next, h) && PartRemoved(v, x, path)
  {
    if sb != was {
      var x, gone :| Shows(StateItems(sb), x) && Tidy(x, sb.next, h) && PartEmptied(v, x, dir, gone);
      PartPaths(v, x, next, sb.next, h, dir, gone, path);
    }
  }

  /** Deletes what is in a slot of a folder, everything below it included. */
  method Uproot(fs: Fs, dir: nat, off: nat, obj: nat, isDir: bool, now: nat, h: Hash, ghost path: seq<Name>,
                ghost most: nat, ghost v: Names)
    returns (r: Result<()>, ghost w: Names)
    requires Steady(fs, h, most, 0, v)
    requires (dir, off) in v.links && v.links[(dir, off)].child == obj && v.links[(dir, off)].dir == isDir
    requires path != [] && Walk(v.links, ROOT, path[..|path| - 1]) == Some(dir)
    requires Walk(v.links, ROOT, path) == Some(obj)
    modifies fs`nodes, fs`root, fs`dirty, fs`bits, fs`held, fs`bitmapDirty, fs`cursor, fs`bitmap, fs`index
    modifies fs`cache, fs`clock, fs`sb, fs`txg,
             fs.dev`durable, fs.dev`pending, fs.dev`cur, fs.dev`landed, fs.dev`landing, fs.dev`history
    ensures Since(old(fs.dev.history), fs.dev.history) && EmptiedSince(old(fs.sb), fs.sb, v, obj, h)
    ensures r.Err? ==> Halted(fs, r.error)
    ensures r.Err? && r.error == Refused ==> isDir && Deep(v.links, obj, 65)
    ensures r.Ok? ==> fs.dirty && Steady(fs, h, most, most + 3, w) && Removed(v, w, path)
    ensures r.Err? && r.error == Full ==> Tight(fs.sb, most)
  {
    SteadyTidy(fs, h, most, 0, v);
    ghost var inner;
    r, w, inner := Hollow(fs, obj, isDir, 0, now, h, (dir, off), most, v);
    if r.Err? {
      return r, w;
    }
    ghost var mid := w;
    SteadyTidy(fs, h, most, 0, mid);
    EntryKept(v, mid, fs.next, h, (dir, off), inner);
    r, w := DropNext(fs, dir, off, obj, isDir, true, now, h, most, mid);
    if r.Ok? {
      SteadyTidy(fs, h, most, most + 3, w);
      RemovedAll(v, mid, w, fs.next, h, (dir, off), inner, path, now);
    }
  }

  lemma EntryKept(v: Names, mid: Names, next: nat, h: Hash, k: (nat, nat), inner: set<nat>)
    requires Tidy(v, next, h) && k in v.links && Gone(v, mid, v.links[k].child, inner)
    requires AllBeneath(v.links, v.links[k].child, inner)
    ensures k in mid.links && mid.links[k] == v.links[k]
  {
  }

  lemma RemovedAll(v: Names, mid: Names, w: Names, next: nat, h: Hash, k: (nat, nat), inner: set<nat>, path: seq<Name>,
                   now: nat)
    requires Tidy(v, next, h) && Tidy(mid, next, h) && Tidy(w, next, h) && k in v.links && path != []
    requires Walk(v.links, ROOT, path[..|path| - 1]) == Some(k.0) && Walk(v.links, ROOT, path) == Some(v.links[k].child)
    requires Gone(v, mid, v.links[k].child, inner) && AllBeneath(v.links, v.links[k].child, inner)
    requires NothingIn(mid.links, v.links[k].child)
    requires k in mid.links && k.0 in mid.inodes && mid.inodes[k.0].links >= 1 && w == Delete(mid, k, true, now)
    ensures Removed(v, w, path)
  {
    GoneChild(v, mid, next, h, k, inner, true, now);
    var c := v.links[k].child;
    var gone := inner + {c};
    assert Walk(v.links, c, []) == Some(c);
    forall o: nat ensures o in gone <==> o in v.inodes && Beneath(v.links, c, o) {
      if o in gone {
        assert Beneath(v.links, c, o);
        var r :| Walk(v.links, c, r) == Some(o);
        WalkConcat(v.links, ROOT, path, r);
        WalkExists(v, next, h, path + r);
      } else if o in v.inodes && Beneath(v.links, c, o) {
        AllGone(v, mid, next, h, c, inner, o);
      }
    }
    RemovedPaths(v, w, next, h, k, gone, path);
  }
}
