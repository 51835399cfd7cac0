/** Files and folders: what the items mean to a user of the volume, and the invariant every operation
    keeps. The hash that places directory entries is any function at all. */
module KfsNames {
  import opened Wrappers
  import opened KfsTypes

  type Name = seq<char>

  const ROOT: nat := 1
  const BUCKET: nat := 8

  /** Where a name's bucket of eight key offsets starts: the hash with its low three bits cleared. */
  type Hash = h: Name -> nat | forall n :: h(n) % BUCKET == 0 && h(n) + BUCKET <= U64 witness (n: Name) => 0

  /** A directory entry: what it leads to, and under what name. */
  datatype Link = Link(child: nat, dir: bool, name: Name)

  /** Every object's inode, every directory entry by `(directory, key offset)`, every file's contents. */
  datatype Names = Names(inodes: map<nat, Inode>, links: map<(nat, nat), Link>, contents: map<nat, seq<int>>)

  predicate ValidName(n: Name) {
    n != [] && |n| <= NAME_MAX && n != "." && n != ".." && '/' !in n && '\0' !in n
  }

  function FileBlocks(size: nat): nat {
    if size <= INLINE_MAX then 0 else (size + BLOCK - 1) / BLOCK
  }

  type Links = map<(nat, nat), Link>

  ghost predicate NothingIn(ls: Links, dir: nat) {
    forall k {:trigger ls[k]} :: k in ls ==> k.0 != dir
  }

  ghost function SubDirs(ls: Links, d: nat): set<(nat, nat)> {
    set k | k in ls && k.0 == d && ls[k].dir
  }

  // --- Walking ---

  ghost predicate Leads(ls: Links, k: (nat, nat), d: nat, n: Name) {
    k in ls && k.0 == d && ls[k].name == n
  }

  /** The entry called `n` in folder `d`. */
  ghost function ChildOf(ls: Links, d: nat, n: Name): Option<(nat, nat)> {
    if exists k :: Leads(ls, k, d, n) then
      var k :| Leads(ls, k, d, n); Some(k)
    else None
  }

  ghost function Walk(ls: Links, d: nat, parts: seq<Name>): Option<nat>
    decreases |parts|
  {
    if parts == [] then Some(d)
    else
      match ChildOf(ls, d, parts[0])
      case None => None
      case Some(k) => Walk(ls, ls[k].child, parts[1..])
  }

  ghost predicate Reachable(ls: Links, o: nat) {
    exists parts :: Walk(ls, ROOT, parts) == Some(o)
  }

  // --- The invariant ---

  ghost predicate LinkOk(v: Names, h: Hash, k: (nat, nat)) {
    k in v.links ==>
      var l := v.links[k];
      && k.0 in v.inodes && v.inodes[k.0].dir
      && l.child in v.inodes && v.inodes[l.child].dir == l.dir && l.child != ROOT
      && ValidName(l.name) && h(l.name) <= k.1 < h(l.name) + BUCKET
  }

  /** No object has two entries, and no folder two of the same name. */
  ghost predicate Unique(ls: Links) {
    forall k, k' {:trigger ls[k], ls[k']} :: k in ls && k' in ls && k != k' ==>
      ls[k].child != ls[k'].child && !(k.0 == k'.0 && ls[k].name == ls[k'].name)
  }

  /** Link counts, sizes and block counts add up. */
  ghost predicate Counted(v: Names, o: nat) {
    && (o in v.contents <==> o in v.inodes && !v.inodes[o].dir)
    && (o in v.inodes ==>
          var i := v.inodes[o];
          if i.dir then i.links == 2 + |SubDirs(v.links, o)|
          else i.links == 1 && i.size == |v.contents[o]| < U64 && i.blocks == FileBlocks(i.size))
  }

  ghost predicate Tidy(v: Names, next: nat, h: Hash) {
    && ROOT in v.inodes && v.inodes[ROOT].dir
    && (forall o {:trigger v.inodes[o]} :: o in v.inodes ==> o < next)
    && (forall k {:trigger LinkOk(v, h, k)} :: LinkOk(v, h, k))
    && Unique(v.links)
    && (forall o: nat {:trigger Counted(v, o)} :: Counted(v, o))
    && (forall o: nat {:trigger Reachable(v.links, o)} :: o in v.inodes ==> Reachable(v.links, o))
  }

  lemma SameNames(ls: Links, k: (nat, nat), k': (nat, nat))
    requires Unique(ls) && k in ls && k' in ls
    requires ls[k].child == ls[k'].child || (k.0 == k'.0 && ls[k].name == ls[k'].name)
    ensures k == k'
  {
  }

  /** Names are unique, so there is only one entry to find. */
  lemma ChildIs(ls: Links, k: (nat, nat))
    requires Unique(ls) && k in ls
    ensures ChildOf(ls, k.0, ls[k].name) == Some(k)
  {
    assert Leads(ls, k, k.0, ls[k].name);
    var k' := ChildOf(ls, k.0, ls[k].name).value;
    assert Leads(ls, k', k.0, ls[k].name);
    SameNames(ls, k, k');
  }

  lemma ChildNone(ls: Links, d: nat, n: Name)
    ensures ChildOf(ls, d, n) == None <==> forall k :: k in ls && k.0 == d ==> ls[k].name != n
  {
    if ChildOf(ls, d, n) == None {
      forall k | k in ls && k.0 == d ensures ls[k].name != n {
        assert !Leads(ls, k, d, n);
      }
    } else {
      var k := ChildOf(ls, d, n).value;
      assert Leads(ls, k, d, n);
    }
  }

  lemma ChildGives(ls: Links, d: nat, n: Name)
    requires ChildOf(ls, d, n).Some?
    ensures Leads(ls, ChildOf(ls, d, n).value, d, n)
  {
  }

  lemma {:induction false} WalkConcat(ls: Links, d: nat, p: seq<Name>, q: seq<Name>)
    ensures Walk(ls, d, p + q) == match Walk(ls, d, p) case None => None case Some(x) => Walk(ls, x, q)
    decreases |p|
  {
    if p == [] {
      assert p + q == q;
    } else {
      assert (p + q)[0] == p[0] && (p + q)[1..] == p[1..] + q;
      match ChildOf(ls, d, p[0])
      case None =>
      case Some(k) => WalkConcat(ls, ls[k].child, p[1..], q);
    }
  }

  lemma WalkOne(ls: Links, k: (nat, nat))
    requires Unique(ls) && k in ls
    ensures Walk(ls, k.0, [ls[k].name]) == Some(ls[k].child)
  {
    ChildIs(ls, k);
    assert [ls[k].name][1..] == [];
  }

  /** The walk ends by following an entry. */
  lemma WalkLast(ls: Links, d: nat, p: seq<Name>) returns (k: (nat, nat))
    requires p != [] && Walk(ls, d, p).Some?
    ensures k in ls && ls[k].name == p[|p| - 1] && ls[k].child == Walk(ls, d, p).value
    ensures Walk(ls, d, p[..|p| - 1]) == Some(k.0)
  {
    var n := |p| - 1;
    assert p == p[..n] + [p[n]];
    WalkConcat(ls, d, p[..n], [p[n]]);
    var x := Walk(ls, d, p[..n]).value;
    assert [p[n]][1..] == [];
    k := ChildOf(ls, x, p[n]).value;
    ChildGives(ls, x, p[n]);
  }

  /** Every object but the root is in exactly one folder. */
  lemma ExactlyOneEntry(v: Names, next: nat, h: Hash, o: nat) returns (k: (nat, nat))
    requires Tidy(v, next, h) && o in v.inodes && o != ROOT
    ensures k in v.links && v.links[k].child == o
    ensures forall k' :: k' in v.links && v.links[k'].child == o ==> k' == k
  {
    assert Reachable(v.links, o);
    var p :| Walk(v.links, ROOT, p) == Some(o);
    k := WalkLast(v.links, ROOT, p);
  }

  /** No folder is its own ancestor. */
  lemma {:induction false} NoCycle(v: Names, next: nat, h: Hash, o: nat, down: seq<Name>, loop: seq<Name>)
    requires Tidy(v, next, h) && Walk(v.links, ROOT, down) == Some(o)
    requires loop != []
    ensures Walk(v.links, o, loop) != Some(o)
    decreases |down|
  {
    var ls := v.links;
    if Walk(ls, o, loop) == Some(o) {
      var k := WalkLast(ls, o, loop);
      assert LinkOk(v, h, k);
      var k' := WalkLast(ls, ROOT, down);
      SameNames(ls, k, k');
      // The parent is on a loop too: the same one, entered a step earlier.
      var n := |loop| - 1;
      WalkOne(ls, k);
      WalkConcat(ls, k.0, [loop[n]], loop[..n]);
      NoCycle(v, next, h, k.0, down[..|down| - 1], [loop[n]] + loop[..n]);
    }
  }

  // --- Operations, as changes to all this ---

  function Touched(i: Inode, links: nat, now: nat): Inode { i.(links := links, modified := now) }

  /** A new object `o` with inode `i`, called `n`, in slot `off` of folder `d`. */
  function Make(v: Names, d: nat, off: nat, n: Name, o: nat, i: Inode, data: seq<int>, now: nat): Names
    requires d in v.inodes
  {
    var parent := Touched(v.inodes[d], v.inodes[d].links + (if i.dir then 1 else 0), now);
    Names(v.inodes[o := i][d := parent], v.links[(d, off) := Link(o, i.dir, n)],
          if i.dir then v.contents else v.contents[o := data])
  }

  /** File `o`'s contents replaced. */
  function Rewrite(v: Names, o: nat, data: seq<int>, now: nat): Names
    requires o in v.inodes
  {
    var i := v.inodes[o].(size := |data|, blocks := FileBlocks(|data|), modified := now);
    v.(inodes := v.inodes[o := i], contents := v.contents[o := data])
  }

  /** The object at entry `k` deleted (and its parent touched, if `touch`). */
  function Delete(v: Names, k: (nat, nat), touch: bool, now: nat): Names
    requires k in v.links && k.0 in v.inodes && v.inodes[k.0].links >= 1
  {
    var l := v.links[k];
    var p := v.inodes[k.0];
    var parent := if touch then Touched(p, p.links - (if l.dir then 1 else 0), now) else p;
    Names((v.inodes - {l.child})[k.0 := parent], v.links - {k}, v.contents - {l.child})
  }

  /** The object at entry `k` moved to slot `off` of folder `d`, as `n`. */
  function Move(v: Names, k: (nat, nat), d: nat, off: nat, n: Name, now: nat): Names
    requires k in v.links && k.0 in v.inodes && d in v.inodes && v.links[k].child in v.inodes
    requires v.inodes[k.0].links >= 1
  {
    var l := v.links[k];
    var one := if l.dir then 1 else 0;
    var ins := if k.0 == d then v.inodes[d := Touched(v.inodes[d], v.inodes[d].links, now)]
               else v.inodes[k.0 := Touched(v.inodes[k.0], v.inodes[k.0].links - one, now)]
                             [d := Touched(v.inodes[d], v.inodes[d].links + one, now)];
    v.(inodes := ins, links := (v.links - {k})[(d, off) := Link(l.child, l.dir, n)])
  }
}
