/** Moving files and folders. */
module KfsRename {
  import opened Wrappers
  import opened KfsTypes
  import opened KfsItems
  import opened KfsFiles
  import opened KfsNames
  import opened KfsTidy
  import opened KfsPaths
  import opened KfsShow
  import opened KfsDir
  import opened KfsOps
  import opened KfsRemove
  import opened Kfs

  // --- What moving does, path by path ---

  /** After moving `from` to `to`: what was at `from` and below is at `to` and below, nothing is at `from`
      or below any more, and every other path leads where it did. */
  ghost predicate MovedPaths(v: Names, w: Names, from: seq<Name>, to: seq<Name>) {
    forall q {:trigger Walk(w.links, ROOT, q)} :: Walk(w.links, ROOT, q) ==
      if to <= q then Walk(v.links, ROOT, from + q[|to|..]) else if from <= q then None else Walk(v.links, ROOT, q)
  }

  /** A move of entry `k`, which `from` leads to, to slot `off` of folder `d` as the end of `to`. */
  ghost predicate Moving(v: Names, h: Hash, k: (nat, nat), d: nat, off: nat, from: seq<Name>, to: seq<Name>) {
    && to != [] && MoveOk(v, h, k, d, off, to[|to| - 1])
    && Walk(v.links, ROOT, from) == Some(v.links[k].child) && Walk(v.links, ROOT, to[..|to| - 1]) == Some(d)
    && Walk(v.links, ROOT, to) == None
  }

  function MovedLinks(ls: Links, k: (nat, nat), d: nat, off: nat, n: Name): Links
    requires k in ls
  {
    (ls - {k})[(d, off) := Link(ls[k].child, ls[k].dir, n)]
  }

  /** The new folder is below the moved object exactly when its path says so. */
  lemma IntoItself(v: Names, next: nat, h: Hash, k: (nat, nat), d: nat, off: nat, from: seq<Name>, to: seq<Name>)
    requires Tidy(v, next, h) && Moving(v, h, k, d, off, from, to)
    ensures Beneath(v.links, v.links[k].child, d) <==> from < to
  {
    BeneathIsPrefix(v, next, h, from, to[..|to| - 1], v.links[k].child, d);
    if from < to {
      assert from == to[..|from|];
      assert from <= to[..|to| - 1];
    }
  }

  /** What is not below the moved object stays where it was. */
  lemma StaysPut(v: Names, next: nat, h: Hash, k: (nat, nat), d: nat, off: nat, from: seq<Name>, to: seq<Name>,
                 q: seq<Name>)
    requires Tidy(v, next, h) && Moving(v, h, k, d, off, from, to)
    requires Walk(v.links, ROOT, q).Some? && !(from <= q)
    ensures Walk(MovedLinks(v.links, k, d, off, to[|to| - 1]), ROOT, q) == Walk(v.links, ROOT, q)
  {
    var ls := v.links;
    var x := Walk(ls, ROOT, q).value;
    BeneathIsPrefix(v, next, h, from, q, ls[k].child, x);
    MoveLinks(v, next, h, k, d, off, to[|to| - 1]);
    var below := WalkAvoids(ls, k, ROOT, q);
    assert Walk(ls, ls[k].child, below) != Some(x);
    WalkGrows(ls - {k}, MovedLinks(ls, k, d, off, to[|to| - 1]), ROOT, q);
  }

  /** The ways down from the moved object do not use its entry. */
  lemma BelowStays(v: Names, next: nat, h: Hash, k: (nat, nat), from: seq<Name>, r: seq<Name>)
    requires Tidy(v, next, h) && k in v.links && Walk(v.links, ROOT, from) == Some(v.links[k].child)
    requires Walk(v.links, v.links[k].child, r).Some?
    ensures Walk(v.links - {k}, v.links[k].child, r) == Walk(v.links, v.links[k].child, r)
  {
    var ls, o := v.links, v.links[k].child;
    var r' := WalkBelow(ls, k, r);
    WalkGrows(ls - {k}, ls, o, r');
    WalkConcat(ls, ROOT, from, r);
    WalkConcat(ls, ROOT, from, r');
    OneWay(v, next, h, from + r, from + r');
    assert (from + r)[|from|..] == r && (from + r')[|from|..] == r';
  }

  lemma ArrivesAt(v: Names, next: nat, h: Hash, k: (nat, nat), d: nat, off: nat, from: seq<Name>, to: seq<Name>)
    requires Tidy(v, next, h) && Moving(v, h, k, d, off, from, to) && !(from < to)
    ensures Walk(MovedLinks(v.links, k, d, off, to[|to| - 1]), ROOT, to) == Some(v.links[k].child)
  {
    var n, front := to[|to| - 1], to[..|to| - 1];
    var ls' := MovedLinks(v.links, k, d, off, n);
    MoveLinks(v, next, h, k, d, off, n);
    assert !(from <= front);
    StaysPut(v, next, h, k, d, off, from, to, front);
    WalkOne(ls', (d, off));
    assert to == front + [n];
    WalkConcat(ls', ROOT, front, [n]);
  }

  /** What is below it moves along. */
  lemma MovesAlong(v: Names, next: nat, h: Hash, k: (nat, nat), d: nat, off: nat, from: seq<Name>, to: seq<Name>,
                   r: seq<Name>)
    requires Tidy(v, next, h) && Moving(v, h, k, d, off, from, to) && !(from < to)
    requires Walk(v.links, ROOT, from + r).Some?
    ensures Walk(MovedLinks(v.links, k, d, off, to[|to| - 1]), ROOT, to + r) == Walk(v.links, ROOT, from + r)
  {
    var ls' := MovedLinks(v.links, k, d, off, to[|to| - 1]);
    WalkConcat(v.links, ROOT, from, r);
    BelowStays(v, next, h, k, from, r);
    MoveLinks(v, next, h, k, d, off, to[|to| - 1]);
    WalkGrows(v.links - {k}, ls', v.links[k].child, r);
    ArrivesAt(v, next, h, k, d, off, from, to);
    WalkConcat(ls', ROOT, to, r);
  }

  /** There is no other way to anything afterwards. */
  lemma NoOtherWay(v: Names, w: Names, next: nat, h: Hash, k: (nat, nat), d: nat, off: nat, from: seq<Name>,
                   to: seq<Name>, q: seq<Name>)
    requires Tidy(v, next, h) && Tidy(w, next, h) && Moving(v, h, k, d, off, from, to) && !(from < to)
    requires w.links == MovedLinks(v.links, k, d, off, to[|to| - 1]) && w.inodes.Keys == v.inodes.Keys
    requires Walk(w.links, ROOT, q).Some?
    ensures if to <= q then Walk(v.links, ROOT, from + q[|to|..]) == Walk(w.links, ROOT, q)
            else !(from <= q) && Walk(v.links, ROOT, q) == Walk(w.links, ROOT, q)
  {
    var x := Walk(w.links, ROOT, q).value;
    WalkExists(w, next, h, q);
    assert x in v.inodes && Reachable(v.links, x);
    var q0 :| Walk(v.links, ROOT, q0) == Some(x);
    if from <= q0 {
      var r := q0[|from|..];
      assert q0 == from + r;
      MovesAlong(v, next, h, k, d, off, from, to, r);
      OneWay(w, next, h, q, to + r);
      assert q[|to|..] == r;
    } else {
      StaysPut(v, next, h, k, d, off, from, to, q0);
      OneWay(w, next, h, q, q0);
      if to <= q {
        assert q == to + q[|to|..];
        WalkConcat(v.links, ROOT, to, q[|to|..]);
      }
    }
  }

  lemma MovedRight(v: Names, w: Names, next: nat, h: Hash, k: (nat, nat), d: nat, off: nat, from: seq<Name>,
                   to: seq<Name>)
    requires Tidy(v, next, h) && Tidy(w, next, h) && Moving(v, h, k, d, off, from, to) && !(from < to)
    requires w.links == MovedLinks(v.links, k, d, off, to[|to| - 1]) && w.inodes.Keys == v.inodes.Keys
    ensures MovedPaths(v, w, from, to)
  {
    forall q
      ensures Walk(w.links, ROOT, q) ==
        if to <= q then Walk(v.links, ROOT, from + q[|to|..]) else if from <= q then None else Walk(v.links, ROOT, q)
    {
      if Walk(w.links, ROOT, q).Some? {
        NoOtherWay(v, w, next, h, k, d, off, from, to, q);
      } else if to <= q {
        assert q == to + q[|to|..];
        if Walk(v.links, ROOT, from + q[|to|..]).Some? {
          MovesAlong(v, next, h, k, d, off, from, to, q[|to|..]);
        }
      } else if !(from <= q) && Walk(v.links, ROOT, q).Some? {
        StaysPut(v, next, h, k, d, off, from, to, q);
      }
    }
  }

  // --- Moving ---

  /** Touches the folders something has left and entered, with the number of folders moved. */
  method TouchBoth(fs: Fs, a: nat, b: nat, isDir: bool, now: nat, ghost v: Names) returns (r: Result<()>)
    requires Showing(fs, v) && a in v.inodes && b in v.inodes
    modifies fs`root, fs`dirty, fs`nodes, fs`bits, fs`held, fs`bitmapDirty, fs`cache, fs`clock
    ensures r.Err? ==> fs.Failed(r.error)
    ensures r.Ok? ==> fs.dirty && Showing(fs, TouchedBoth(v, a, b, isDir, now))
    ensures r.Ok? ==> Spent(old(fs.Has()), fs.Has(), 2)
  {
    if a == b {
      r := Touch(fs, a, 0, now, v);
    } else {
      var moved := if isDir then 1 else 0;
      r := Touch(fs, a, -moved, now, v);
      if r.Ok? {
        r := Touch(fs, b, moved, now, TouchedIn(v, a, -moved, now));
      }
    }
  }

  function TouchedBoth(v: Names, a: nat, b: nat, isDir: bool, now: nat): Names
    requires a in v.inodes && b in v.inodes
  {
    var moved := if isDir then 1 else 0;
    if a == b then TouchedIn(v, a, 0, now) else TouchedIn(TouchedIn(v, a, -moved, now), b, moved, now)
  }

  /** Moves the entry in slot `off` of folder `a` to folder `b`, under the name `n`. */
  method MoveEntry(fs: Fs, a: nat, off: nat, obj: nat, isDir: bool, b: nat, n: Name, now: nat, h: Hash, ghost v: Names)
    returns (r: Result<()>, ghost w: Names, ghost to: nat)
    requires Showing(fs, v) && Tidy(v, fs.next, h) && (a, off) in v.links && v.links[(a, off)].child == obj
    requires v.links[(a, off)].dir == isDir
    requires b in v.inodes && v.inodes[b].dir && ValidName(n) && ChildOf(v.links, b, n) == None
    modifies fs`root, fs`dirty, fs`nodes, fs`bits, fs`held, fs`bitmapDirty, fs`cache, fs`clock
    ensures r.Err? ==> Stopped(fs, r.error)
    ensures r.Err? && r.error == Refused ==> BucketFull(v.links - {(a, off)}, b, h(n))
    ensures r.Ok? ==> MoveOk(v, h, (a, off), b, to, n) && a in v.inodes && obj in v.inodes && v.inodes[a].links >= 1
    ensures r.Ok? ==> fs.dirty && w == Move(v, (a, off), b, to, n, now) && Showing(fs, w)
    ensures r.Ok? ==> Spent(old(fs.Has()), fs.Has(), 5)
  {
    w, to := v, 0;
    MoveParts(v, fs.next, h, (a, off), b);
    var dropped := DropEntry(fs, a, off, v);
    if dropped.Err? {
      return Err(dropped.error), w, to;
    }
    ghost var w1 := v.(links := v.links - {(a, off)});
    r, to := AddEntry(fs, b, n, obj, isDir, h, w1);
    if r.Err? {
      return r, w, to;
    }
    ghost var w2 := w1.(links := w1.links[(b, to) := Link(obj, isDir, n)]);
    r := TouchBoth(fs, a, b, isDir, now, w2);
    if r.Err? {
      return r, w, to;
    }
    w := TouchedBoth(w2, a, b, isDir, now);
    MoveMade(v, w2, (a, off), b, to, n, now, h);
    r := Rewritten(fs, obj, w);
  }

  lemma MoveMade(v: Names, w2: Names, k: (nat, nat), b: nat, to: nat, n: Name, now: nat, h: Hash)
    requires k in v.links && k.0 in v.inodes && b in v.inodes && v.links[k].child in v.inodes
    requires v.inodes[k.0].links >= 1
    requires v.inodes[b].dir && ValidName(n) && h(n) <= to < h(n) + BUCKET && (b, to) !in v.links - {k}
    requires ChildOf(v.links, b, n) == None
    requires w2 == v.(links := (v.links - {k})[(b, to) := Link(v.links[k].child, v.links[k].dir, n)])
    ensures TouchedBoth(w2, k.0, b, v.links[k].dir, now) == Move(v, k, b, to, n, now) && MoveOk(v, h, k, b, to, n)
  {
    ChildNone(v.links, b, n);
    ChildNone(v.links - {k}, b, n);
  }

  /** Writes an object's inode back, for its time of change (which is not modelled). */
  method Rewritten(fs: Fs, obj: nat, ghost v: Names) returns (r: Result<()>)
    requires Showing(fs, v) && obj in v.inodes
    modifies fs`root, fs`dirty, fs`nodes, fs`bits, fs`held, fs`bitmapDirty, fs`cache, fs`clock
    ensures r.Err? ==> fs.Failed(r.error)
    ensures r.Ok? ==> fs.dirty && Showing(fs, v)
    ensures r.Ok? ==> Spent(old(fs.Has()), fs.Has(), 1)
  {
    var i := GetInode(fs, obj, v);
    if i.Err? {
      return Err(i.error);
    }
    r := PutInode(fs, obj, i.value, v);
    assert v.(inodes := v.inodes[obj := v.inodes[obj]]) == v;
  }

  /** Why a move is refused: there is nothing to move, nowhere to move it, something in the way, or the
      paths look as if a folder were to move into itself. */
  ghost predicate Unmovable(v: Names, from: seq<char>, to: seq<char>, h: Hash) {
    || SplitPath(from).Err? || SplitPath(to).Err?
    || Walk(v.links, ROOT, Parts(from)) == None
    || (Walk(v.links, ROOT, Parts(to)).Some? && Parts(from) != Parts(to))
    || Uncreatable(v, to, h)
    || (Continues(from, to) && exists o :: Walk(v.links, ROOT, Parts(from)) == Some(o) && o in v.inodes && v.inodes[o].dir)
    || exists k, d :: Walk(v.links, ROOT, Parts(SplitPath(to).value.0)) == Some(d) && FullWithout(v.links, k, d, h(SplitPath(to).value.1))
                      && k in v.links && Walk(v.links, ROOT, Parts(from)) == Some(v.links[k].child)
  }

  ghost predicate FullWithout(ls: Links, k: (nat, nat), d: nat, base: nat) { BucketFull(ls - {k}, d, base) }

  /** A move from `from` to `to` (or nothing, if they are the same place). */
  ghost predicate Renamed(v: Names, w: Names, h: Hash, from: seq<Name>, to: seq<Name>, now: nat) {
    if from == to then w == v
    else
      exists k, d, off :: Moving(v, h, k, d, off, from, to)
        && k.0 in v.inodes && d in v.inodes && v.links[k].child in v.inodes && v.inodes[k.0].links >= 1
        && w == Move(v, k, d, off, to[|to| - 1], now)
  }

  /** Moves a file or a folder. Everything stays in order unless a folder was moved into itself, which
      happens only when the paths do not show it. */
  method Rename(fs: Fs, from: seq<char>, to: seq<char>, now: nat, h: Hash, ghost v: Names)
      returns (r: Result<()>, ghost w: Names)
    requires Showing(fs, v) && Tidy(v, fs.next, h)
    modifies fs`root, fs`dirty, fs`nodes, fs`bits, fs`held, fs`bitmapDirty, fs`cache, fs`clock
    ensures r.Err? ==> Stopped(fs, r.error)
    ensures r.Err? && r.error == Refused ==> Unmovable(v, from, to, h)
    ensures r.Ok? ==> Showing(fs, w) && Renamed(v, w, h, Parts(from), Parts(to), now)
    ensures r.Ok? ==> if Parts(from) < Parts(to) then !Continues(from, to) && !Tidy(w, fs.next, h) else Tidy(w, fs.next, h) && MovedPaths(v, w, Parts(from), Parts(to))
    ensures r.Ok? ==> fs.dirty || (Parts(from) == Parts(to) && (old(fs.AtRest()) ==> fs.AtRest()))
    ensures r.Ok? ==> Spent(old(fs.Has()), fs.Has(), 5)
  {
    var plan := PlanMove(fs, from, to, h, v);
    if plan.Err? {
      return Err(plan.error), v;
    }
    var p := plan.value;
    if p.same {
      OneWay(v, fs.next, h, Parts(from), Parts(to));
      MovedNowhere(v, Parts(to));
      RestStays(fs);
      return Ok(()), v;
    }
    r, w := MoveTo(fs, p.dir, p.off, p.obj, p.isDir, p.toDir, p.name, now, h, from, to, v);
  }

  /** Looking things up disturbs nothing. */
  twostate lemma RestStays(fs: Fs)
    requires unchanged(fs`sb, fs`next, fs`bits, fs`held, fs`bitmap, fs`bitmapDirty, fs`index, fs`root, fs`nodes, fs`dirty)
    ensures old(fs.AtRest()) ==> fs.AtRest()
  {
  }

  lemma MovedNowhere(v: Names, p: seq<Name>)
    ensures MovedPaths(v, v, p, p)
  {
    forall q | p <= q ensures p + q[|p|..] == q {
    }
  }

  /** What to move, and where to. */
  datatype Plan = Plan(dir: nat, off: nat, obj: nat, isDir: bool, toDir: nat, name: Name, same: bool)

  ghost predicate PlanOk(v: Names, from: seq<char>, to: seq<char>, p: Plan) {
    && (p.dir, p.off) in v.links && v.links[(p.dir, p.off)].child == p.obj && v.links[(p.dir, p.off)].dir == p.isDir
    && Walk(v.links, ROOT, Parts(from)) == Some(p.obj)
    && if p.same then Walk(v.links, ROOT, Parts(to)) == Some(p.obj)
       else
         && SplitPath(to).Ok? && p.name == SplitPath(to).value.1 && ValidName(p.name) && ChildOf(v.links, p.toDir, p.name) == None
         && p.toDir in v.inodes && v.inodes[p.toDir].dir && Walk(v.links, ROOT, Parts(SplitPath(to).value.0)) == Some(p.toDir)
         && Walk(v.links, ROOT, Parts(to)) == None && !(p.isDir && Continues(from, to))
  }

  method PlanMove(fs: Fs, from: seq<char>, to: seq<char>, h: Hash, ghost v: Names) returns (r: Result<Plan>)
    requires Showing(fs, v) && Tidy(v, fs.next, h)
    modifies fs`cache, fs`clock
    ensures Showing(fs, v)
    ensures r.Err? ==> Stopped(fs, r.error)
    ensures r.Err? && r.error == Refused ==> Unmovable(v, from, to, h)
    ensures r.Ok? ==> PlanOk(v, from, to, r.value)
  {
    if IsRoot(from) || IsRoot(to) {
      if IsRoot(from) {
        RootLocated(from);
      } else {
        RootLocated(to);
      }
      StillBacked(fs);
      return Err(Refused);
    }
    var at := Locate(fs, from, h, v);
    if at.Err? {
      return Err(at.error);
    }
    var (dir, off, obj, isDir) := at.value;
    var place := Spot(fs, to, h, v);
    if place.Err? {
      return Err(place.error);
    }
    var p := place.value;
    if p.taken.Some? {
      if p.taken.value.0 == obj {
        return Ok(Plan(dir, off, obj, isDir, p.dir, p.name, true));
      }
      StillBacked(fs);
      return Err(Refused);
    }
    if isDir && Continues(from, to) {
      StillBacked(fs);
      return Err(Refused);
    }
    return Ok(Plan(dir, off, obj, isDir, p.dir, p.name, false));
  }

  /** The move itself, once `to` is known to be free. */
  method MoveTo(fs: Fs, a: nat, off: nat, obj: nat, isDir: bool, b: nat, n: Name, now: nat, h: Hash,
                ghost from: seq<char>, ghost to: seq<char>, ghost v: Names)
    returns (r: Result<()>, ghost w: Names)
    requires Showing(fs, v) && Tidy(v, fs.next, h) && (a, off) in v.links && v.links[(a, off)].child == obj
    requires v.links[(a, off)].dir == isDir
    requires SplitPath(to).Ok? && n == SplitPath(to).value.1 && ValidName(n) && ChildOf(v.links, b, n) == None
    requires b in v.inodes && v.inodes[b].dir
    requires Walk(v.links, ROOT, Parts(SplitPath(to).value.0)) == Some(b) && Walk(v.links, ROOT, Parts(to)) == None
    requires Walk(v.links, ROOT, Parts(from)) == Some(obj) && !(isDir && Continues(from, to))
    modifies fs`root, fs`dirty, fs`nodes, fs`bits, fs`held, fs`bitmapDirty, fs`cache, fs`clock
    ensures r.Err? ==> Stopped(fs, r.error)
    ensures r.Err? && r.error == Refused ==> Unmovable(v, from, to, h)
    ensures r.Ok? ==> fs.dirty && Showing(fs, w) && Renamed(v, w, h, Parts(from), Parts(to), now)
    ensures r.Ok? ==> if Parts(from) < Parts(to) then !Continues(from, to) && !Tidy(w, fs.next, h) else Tidy(w, fs.next, h) && MovedPaths(v, w, Parts(from), Parts(to))
    ensures r.Ok? ==> Spent(old(fs.Has()), fs.Has(), 5)
  {
    ghost var slot;
    r, w, slot := MoveEntry(fs, a, off, obj, isDir, b, n, now, h, v);
    if r.Ok? {
      MoveDone(v, w, fs.next, h, (a, off), b, slot, from, to, now);
    } else if r.error == Refused {
      assert FullWithout(v.links, (a, off), b, h(n));
    }
  }

  lemma MoveDone(v: Names, w: Names, next: nat, h: Hash, k: (nat, nat), b: nat, slot: nat, from: seq<char>,
                 to: seq<char>, now: nat)
    requires Tidy(v, next, h) && k in v.links && k.0 in v.inodes && b in v.inodes && v.links[k].child in v.inodes
    requires v.inodes[k.0].links >= 1
    requires SplitPath(to).Ok? && MoveOk(v, h, k, b, slot, SplitPath(to).value.1)
    requires w == Move(v, k, b, slot, SplitPath(to).value.1, now)
    requires Walk(v.links, ROOT, Parts(SplitPath(to).value.0)) == Some(b) && Walk(v.links, ROOT, Parts(to)) == None
    requires Walk(v.links, ROOT, Parts(from)) == Some(v.links[k].child) && !(v.links[k].dir && Continues(from, to))
    ensures Renamed(v, w, h, Parts(from), Parts(to), now)
    ensures if Parts(from) < Parts(to) then !Continues(from, to) && !Tidy(w, next, h) else Tidy(w, next, h) && MovedPaths(v, w, Parts(from), Parts(to))
  {
    var p, q, n := Parts(from), Parts(to), SplitPath(to).value.1;
    SplitParts(to);
    assert q[..|q| - 1] == Parts(SplitPath(to).value.0);
    assert Moving(v, h, k, b, slot, p, q);
    IntoItself(v, next, h, k, b, slot, p, q);
    if p < q {
      MoveInside(v, next, h, k, b, slot, n, now);
      MovedIsFolder(v, next, h, k, b);
    } else {
      MoveTidy(v, next, h, k, b, slot, n, now);
      assert w.inodes.Keys == v.inodes.Keys;
      MovedRight(v, w, next, h, k, b, slot, p, q);
    }
  }

  /** Only a folder can have a folder below it. */
  lemma MovedIsFolder(v: Names, next: nat, h: Hash, k: (nat, nat), b: nat)
    requires Tidy(v, next, h) && k in v.links && b in v.inodes && v.inodes[b].dir
    requires Beneath(v.links, v.links[k].child, b)
    ensures v.links[k].dir
  {
    assert LinkOk(v, h, k);
    var r :| Walk(v.links, v.links[k].child, r) == Some(b);
    if r != [] && !v.links[k].dir {
      NoChildren(v, next, h, v.links[k].child, r[0]);
    }
  }
}
