/** Every operation on files and folders keeps them in order. */
module KfsTidy {
  import opened Wrappers
  import opened KfsTypes
  import opened KfsNames

  // --- Adding entries ---

  /** `ls'` has the entries of `ls`, and perhaps more. */
  ghost predicate Grows(ls: Links, ls': Links) {
    Unique(ls') && forall k {:trigger ls[k]} :: k in ls ==> k in ls' && ls'[k] == ls[k]
  }

  lemma {:induction false} WalkGrows(ls: Links, ls': Links, d: nat, p: seq<Name>)
    requires Grows(ls, ls') && Walk(ls, d, p).Some?
    ensures Walk(ls', d, p) == Walk(ls, d, p)
    decreases |p|
  {
    if p != [] {
      var k := ChildOf(ls, d, p[0]).value;
      ChildGives(ls, d, p[0]);
      ChildIs(ls', k);
      WalkGrows(ls, ls', ls[k].child, p[1..]);
    }
  }

  lemma ReachGrows(ls: Links, ls': Links, o: nat)
    requires Grows(ls, ls') && Reachable(ls, o)
    ensures Reachable(ls', o)
  {
    var p :| Walk(ls, ROOT, p) == Some(o);
    WalkGrows(ls, ls', ROOT, p);
  }

  /** An entry's target is reachable if its folder is. */
  lemma ReachChild(ls: Links, k: (nat, nat))
    requires Unique(ls) && k in ls && Reachable(ls, k.0)
    ensures Reachable(ls, ls[k].child)
  {
    var p :| Walk(ls, ROOT, p) == Some(k.0);
    WalkOne(ls, k);
    WalkConcat(ls, ROOT, p, [ls[k].name]);
    assert Walk(ls, ROOT, p + [ls[k].name]) == Some(ls[k].child);
  }

  lemma LinkAdded(ls: Links, k: (nat, nat), l: Link)
    requires Unique(ls) && k !in ls
    requires forall j :: j in ls ==> ls[j].child != l.child && !(j.0 == k.0 && ls[j].name == l.name)
    ensures Grows(ls, ls[k := l])
  {
  }

  lemma SubDirsAdded(ls: Links, k: (nat, nat), l: Link, d: nat)
    requires k !in ls
    ensures |SubDirs(ls[k := l], d)| == |SubDirs(ls, d)| + if k.0 == d && l.dir then 1 else 0
  {
    if k.0 == d && l.dir {
      assert SubDirs(ls[k := l], d) == SubDirs(ls, d) + {k};
    } else {
      assert SubDirs(ls[k := l], d) == SubDirs(ls, d);
    }
  }

  lemma SubDirsRemoved(ls: Links, k: (nat, nat), d: nat)
    requires k in ls
    ensures |SubDirs(ls - {k}, d)| == |SubDirs(ls, d)| - if k.0 == d && ls[k].dir then 1 else 0
  {
    if k.0 == d && ls[k].dir {
      assert SubDirs(ls, d) == SubDirs(ls - {k}, d) + {k};
    } else {
      assert SubDirs(ls - {k}, d) == SubDirs(ls, d);
    }
  }

  /** What a new object has to be like. */
  ghost predicate NewOk(v: Names, next: nat, h: Hash, d: nat, off: nat, n: Name, o: nat, i: Inode, data: seq<int>) {
    && o == next && d in v.inodes && v.inodes[d].dir
    && ValidName(n) && h(n) <= off < h(n) + BUCKET && (d, off) !in v.links && ChildOf(v.links, d, n) == None
    && (if i.dir then i.links == 2 else i.links == 1 && i.size == |data| < U64 && i.blocks == FileBlocks(|data|))
  }

  lemma MakeLinks(v: Names, next: nat, h: Hash, d: nat, off: nat, n: Name, o: nat, i: Inode, data: seq<int>)
    requires Tidy(v, next, h) && NewOk(v, next, h, d, off, n, o, i, data)
    ensures Grows(v.links, v.links[(d, off) := Link(o, i.dir, n)])
    ensures forall k :: k in v.links ==> k.0 != o
  {
    ChildNone(v.links, d, n);
    forall k | k in v.links ensures v.links[k].child != o && k.0 != o && !(k.0 == d && v.links[k].name == n) {
      assert LinkOk(v, h, k);
      assert v.inodes[k.0].dir && v.links[k].child in v.inodes;
    }
    LinkAdded(v.links, (d, off), Link(o, i.dir, n));
  }

  /** Creating a file or a folder keeps everything in order. */
  lemma MakeTidy(v: Names, next: nat, h: Hash, d: nat, off: nat, n: Name, o: nat, i: Inode, data: seq<int>, now: nat)
    requires Tidy(v, next, h) && NewOk(v, next, h, d, off, n, o, i, data)
    ensures Tidy(Make(v, d, off, n, o, i, data, now), next + 1, h)
  {
    var v', k := Make(v, d, off, n, o, i, data, now), (d, off);
    MakeLinks(v, next, h, d, off, n, o, i, data);
    assert o !in v.inodes && d != o;
    forall j ensures LinkOk(v', h, j) {
      assert LinkOk(v, h, j);
    }
    forall x: nat ensures Counted(v', x) {
      assert Counted(v, x);
      SubDirsAdded(v.links, k, Link(o, i.dir, n), x);
      if x == o {
        assert SubDirs(v.links, o) == {};
      }
    }
    forall x: nat | x in v'.inodes ensures Reachable(v'.links, x) {
      if x == o {
        assert Reachable(v.links, d);
        ReachGrows(v.links, v'.links, d);
        ReachChild(v'.links, k);
      } else {
        assert Reachable(v.links, x);
        ReachGrows(v.links, v'.links, x);
      }
    }
  }

  /** So does replacing a file's contents. */
  lemma RewriteTidy(v: Names, next: nat, h: Hash, o: nat, data: seq<int>, now: nat)
    requires Tidy(v, next, h) && o in v.inodes && !v.inodes[o].dir && |data| < U64
    ensures Tidy(Rewrite(v, o, data, now), next, h)
  {
    var v' := Rewrite(v, o, data, now);
    forall j ensures LinkOk(v', h, j) {
      assert LinkOk(v, h, j);
    }
    forall x: nat ensures Counted(v', x) {
      assert Counted(v, x);
    }
    forall x: nat | x in v'.inodes ensures Reachable(v'.links, x) {
      assert Reachable(v.links, x);
    }
  }

  // --- Removing entries ---

  /** A walk that does not end at entry `k`'s target, when nothing hangs under that, does without it. */
  lemma {:induction false} WalkWithout(ls: Links, k: (nat, nat), d: nat, p: seq<Name>)
    requires Unique(ls) && k in ls && Walk(ls, d, p).Some? && Walk(ls, d, p) != Some(ls[k].child)
    requires forall j :: j in ls ==> j.0 != ls[k].child
    ensures Walk(ls - {k}, d, p) == Walk(ls, d, p)
    decreases |p|
  {
    if p != [] {
      var j := ChildOf(ls, d, p[0]).value;
      ChildGives(ls, d, p[0]);
      if j == k {
        var rest := p[1..];
        if rest != [] {
          ChildGives(ls, ls[k].child, rest[0]);
        }
      } else {
        ChildIs(ls - {k}, j);
        WalkWithout(ls, k, ls[j].child, p[1..]);
      }
    }
  }

  /** Deleting a file or an empty folder keeps everything in order. */
  lemma DeleteTidy(v: Names, next: nat, h: Hash, k: (nat, nat), touch: bool, now: nat)
    requires Tidy(v, next, h) && k in v.links && (v.links[k].dir ==> touch)
    requires forall j :: j in v.links ==> j.0 != v.links[k].child
    ensures k.0 in v.inodes && v.inodes[k.0].links >= 1
    ensures Tidy(Delete(v, k, touch, now), next, h)
  {
    var o := v.links[k].child;
    assert LinkOk(v, h, k) && Counted(v, k.0);
    var v' := Delete(v, k, touch, now);
    forall j ensures LinkOk(v', h, j) {
      assert LinkOk(v, h, j);
      if j in v'.links {
        OtherChild(v.links, j, k);
      }
    }
    forall x: nat ensures Counted(v', x) {
      assert Counted(v, x);
      SubDirsRemoved(v.links, k, x);
    }
    forall x: nat | x in v'.inodes ensures Reachable(v'.links, x) {
      assert Reachable(v.links, x);
      var p :| Walk(v.links, ROOT, p) == Some(x);
      WalkWithout(v.links, k, ROOT, p);
    }
  }

  lemma OtherChild(ls: Links, j: (nat, nat), k: (nat, nat))
    requires Unique(ls) && j in ls && k in ls && j != k
    ensures ls[j].child != ls[k].child
  {
  }

  // --- Moving ---

  /** `x` is `o` or somewhere below it. */
  ghost predicate Beneath(ls: Links, o: nat, x: nat) {
    exists q :: Walk(ls, o, q) == Some(x)
  }

  /** A walk either does without entry `k` or goes through its target. */
  lemma {:induction false} WalkAvoids(ls: Links, k: (nat, nat), d: nat, p: seq<Name>) returns (q: seq<Name>)
    requires Unique(ls) && k in ls && Walk(ls, d, p).Some?
    ensures Walk(ls - {k}, d, p) == Walk(ls, d, p)
            || (|q| < |p| && Walk(ls, ls[k].child, q) == Walk(ls, d, p))
    decreases |p|
  {
    q := [];
    if p != [] {
      var j := ChildOf(ls, d, p[0]).value;
      ChildGives(ls, d, p[0]);
      if j == k {
        q := p[1..];
      } else {
        ChildIs(ls - {k}, j);
        q := WalkAvoids(ls, k, ls[j].child, p[1..]);
      }
    }
  }

  /** Below an entry's target, the shortest way does not use the entry. */
  lemma {:induction false} WalkBelow(ls: Links, k: (nat, nat), q: seq<Name>) returns (q': seq<Name>)
    requires Unique(ls) && k in ls && Walk(ls, ls[k].child, q).Some?
    ensures Walk(ls - {k}, ls[k].child, q') == Walk(ls, ls[k].child, q)
    decreases |q|
  {
    q' := WalkAvoids(ls, k, ls[k].child, q);
    if Walk(ls - {k}, ls[k].child, q) == Walk(ls, ls[k].child, q) {
      q' := q;
    } else {
      q' := WalkBelow(ls, k, q');
    }
  }

  /** Where a move may put things. */
  ghost predicate MoveOk(v: Names, h: Hash, k: (nat, nat), d: nat, off: nat, n: Name) {
    && k in v.links && d in v.inodes && v.inodes[d].dir
    && ValidName(n) && h(n) <= off < h(n) + BUCKET && (d, off) !in v.links - {k} && ChildOf(v.links - {k}, d, n) == None
  }

  lemma MoveLinks(v: Names, next: nat, h: Hash, k: (nat, nat), d: nat, off: nat, n: Name)
    requires Tidy(v, next, h) && MoveOk(v, h, k, d, off, n)
    ensures Grows(v.links - {k}, (v.links - {k})[(d, off) := Link(v.links[k].child, v.links[k].dir, n)])
  {
    var ls := v.links - {k};
    ChildNone(ls, d, n);
    forall j | j in ls ensures ls[j].child != v.links[k].child {
      OtherChild(v.links, j, k);
    }
    LinkAdded(ls, (d, off), Link(v.links[k].child, v.links[k].dir, n));
  }

  /** Moving keeps everything in order when the new folder is not the moved object or below it. */
  lemma MoveTidy(v: Names, next: nat, h: Hash, k: (nat, nat), d: nat, off: nat, n: Name, now: nat)
    requires Tidy(v, next, h) && MoveOk(v, h, k, d, off, n) && !Beneath(v.links, v.links[k].child, d)
    ensures k.0 in v.inodes && v.links[k].child in v.inodes && v.inodes[k.0].links >= 1
    ensures Tidy(Move(v, k, d, off, n, now), next, h)
  {
    MoveParts(v, next, h, k, d);
    var v' := Move(v, k, d, off, n, now);
    MoveLinks(v, next, h, k, d, off, n);
    forall j ensures LinkOk(v', h, j) {
      MoveLinkOk(v, next, h, k, d, off, n, now, j);
    }
    forall x: nat ensures Counted(v', x) {
      MoveCounted(v, next, h, k, d, off, n, now, x);
    }
    forall x: nat | x in v'.inodes ensures Reachable(v'.links, x) {
      MoveReach(v, next, h, k, d, off, n, x);
    }
  }

  lemma MoveParts(v: Names, next: nat, h: Hash, k: (nat, nat), d: nat)
    requires Tidy(v, next, h) && k in v.links && d in v.inodes && v.inodes[d].dir
    ensures k.0 in v.inodes && v.links[k].child in v.inodes && v.inodes[k.0].links >= 1
    ensures v.inodes[k.0].dir && (v.links[k].dir ==> v.inodes[k.0].links >= 2)
  {
    assert LinkOk(v, h, k) && Counted(v, k.0);
  }

  lemma MoveLinkOk(v: Names, next: nat, h: Hash, k: (nat, nat), d: nat, off: nat, n: Name, now: nat, j: (nat, nat))
    requires Tidy(v, next, h) && MoveOk(v, h, k, d, off, n)
    requires k.0 in v.inodes && v.links[k].child in v.inodes && v.inodes[k.0].links >= 1
    ensures LinkOk(Move(v, k, d, off, n, now), h, j)
  {
    assert LinkOk(v, h, k) && LinkOk(v, h, j);
  }

  lemma MoveCounted(v: Names, next: nat, h: Hash, k: (nat, nat), d: nat, off: nat, n: Name, now: nat, x: nat)
    requires Tidy(v, next, h) && MoveOk(v, h, k, d, off, n)
    requires k.0 in v.inodes && v.links[k].child in v.inodes && v.inodes[k.0].links >= 1 && v.inodes[k.0].dir
    ensures Counted(Move(v, k, d, off, n, now), x)
  {
    assert Counted(v, x);
    SubDirsRemoved(v.links, k, x);
    SubDirsAdded(v.links - {k}, (d, off), Link(v.links[k].child, v.links[k].dir, n), x);
    assert v.links[k].dir && x == k.0 ==> k in SubDirs(v.links, x);
  }

  lemma MoveReach(v: Names, next: nat, h: Hash, k: (nat, nat), d: nat, off: nat, n: Name, x: nat)
    requires Tidy(v, next, h) && MoveOk(v, h, k, d, off, n) && !Beneath(v.links, v.links[k].child, d) && x in v.inodes
    ensures Reachable((v.links - {k})[(d, off) := Link(v.links[k].child, v.links[k].dir, n)], x)
  {
    var o, ls := v.links[k].child, v.links - {k};
    var ls' := ls[(d, off) := Link(o, v.links[k].dir, n)];
    MoveLinks(v, next, h, k, d, off, n);
    assert Reachable(v.links, x) && Reachable(v.links, d);
    var p :| Walk(v.links, ROOT, p) == Some(x);
    var q := WalkAvoids(v.links, k, ROOT, p);
    if Walk(ls, ROOT, p) == Some(x) {
      WalkGrows(ls, ls', ROOT, p);
    } else {
      var down := WalkBelow(v.links, k, q);
      WalkGrows(ls, ls', o, down);
      var there := WayToMoved(v.links, k, d, off, n, ls');
      WalkConcat(ls', ROOT, there, down);
      assert Walk(ls', ROOT, there + down) == Some(x);
    }
  }

  /** The way to the moved object. */
  lemma WayToMoved(ls: Links, k: (nat, nat), d: nat, off: nat, n: Name, ls': Links) returns (there: seq<Name>)
    requires Unique(ls) && k in ls && !Beneath(ls, ls[k].child, d) && Reachable(ls, d)
    requires ls' == (ls - {k})[(d, off) := Link(ls[k].child, ls[k].dir, n)] && Grows(ls - {k}, ls')
    ensures Walk(ls', ROOT, there) == Some(ls[k].child)
  {
    var p :| Walk(ls, ROOT, p) == Some(d);
    var via := WalkAvoids(ls, k, ROOT, p);
    WalkGrows(ls - {k}, ls', ROOT, p);
    WalkOne(ls', (d, off));
    WalkConcat(ls', ROOT, p, [n]);
    there := p + [n];
  }

  /** Moving something into itself does not: it makes a loop that cannot be reached. */
  lemma MoveInside(v: Names, next: nat, h: Hash, k: (nat, nat), d: nat, off: nat, n: Name, now: nat)
    requires Tidy(v, next, h) && MoveOk(v, h, k, d, off, n) && Beneath(v.links, v.links[k].child, d)
    requires k.0 in v.inodes && v.links[k].child in v.inodes && v.inodes[k.0].links >= 1
    ensures !Tidy(Move(v, k, d, off, n, now), next, h)
  {
    var o, ls := v.links[k].child, v.links - {k};
    var v' := Move(v, k, d, off, n, now);
    MoveLinks(v, next, h, k, d, off, n);
    var q :| Walk(v.links, o, q) == Some(d);
    var down := WalkBelow(v.links, k, q);
    WalkGrows(ls, v'.links, o, down);
    WalkOne(v'.links, (d, off));
    WalkConcat(v'.links, o, down, [n]);
    if Tidy(v', next, h) {
      assert Reachable(v'.links, o);
      var p :| Walk(v'.links, ROOT, p) == Some(o);
      NoCycle(v', next, h, o, p, down + [n]);
    }
  }

  /** There is only one way to anything. */
  lemma {:induction false} OneWay(v: Names, next: nat, h: Hash, p: seq<Name>, q: seq<Name>)
    requires Tidy(v, next, h) && Walk(v.links, ROOT, p).Some? && Walk(v.links, ROOT, p) == Walk(v.links, ROOT, q)
    ensures p == q
    decreases |p|
  {
    if p != [] && q != [] {
      var k := WalkLast(v.links, ROOT, p);
      var k' := WalkLast(v.links, ROOT, q);
      SameNames(v.links, k, k');
      OneWay(v, next, h, p[..|p| - 1], q[..|q| - 1]);
    } else {
      NotToRoot(v, next, h, p);
      NotToRoot(v, next, h, q);
    }
  }

  lemma NotToRoot(v: Names, next: nat, h: Hash, p: seq<Name>)
    requires Tidy(v, next, h)
    ensures p != [] ==> Walk(v.links, ROOT, p) != Some(ROOT)
  {
    if p != [] && Walk(v.links, ROOT, p).Some? {
      var k := WalkLast(v.links, ROOT, p);
      assert LinkOk(v, h, k);
    }
  }

  /** One place is below another exactly when its path goes through there. */
  lemma BeneathIsPrefix(v: Names, next: nat, h: Hash, p: seq<Name>, q: seq<Name>, o: nat, x: nat)
    requires Tidy(v, next, h) && Walk(v.links, ROOT, p) == Some(o) && Walk(v.links, ROOT, q) == Some(x)
    ensures Beneath(v.links, o, x) <==> p <= q
  {
    if Beneath(v.links, o, x) {
      var r :| Walk(v.links, o, r) == Some(x);
      WalkConcat(v.links, ROOT, p, r);
      OneWay(v, next, h, p + r, q);
    }
    if p <= q {
      var r := q[|p|..];
      assert q == p + r;
      WalkConcat(v.links, ROOT, p, r);
    }
  }
}
