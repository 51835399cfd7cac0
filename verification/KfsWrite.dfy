/** Writing the changed part of the tree to disk, children first. */
module KfsWrite {
  import opened Wrappers
  import opened KfsTypes
  import opened KfsItems
  import opened KfsTree
  import opened KfsSpace
  import opened KfsEdit

  function ToPtrs(kids: seq<Entry>): seq<Ptr> {
    seq(|kids|, j requires 0 <= j < |kids| => Ptr(kids[j].key, if kids[j].child.Disk? then kids[j].child.bp else Bp(0, 0, 0, [])))
  }

  /** What is written for a node whose children all have pointers. */
  function ToBlock(n: Node, txg: nat): Block {
    NodeB(n.level, txg, n.items, ToPtrs(n.kids))
  }

  lemma BlockRoundTrip(n: Node, txg: nat)
    requires AllDisk(n.kids)
    ensures FromBlock(ToBlock(n, txg)) == n
  {
    assert FromPtrs(ToPtrs(n.kids)) == n.kids;
  }

  /** Only blocks that were neither used nor held have been written. */
  ghost predicate Untouched(w: World, w': World, s: Spc) {
    && w'.txg == w.txg && |w'.disk| == |w.disk|
    && forall b: nat {:trigger At(b)} :: At(b) && b < |w.disk| && Guarded(s, b) ==> w'.disk[b] == w.disk[b]
  }

  /** The subtree at `c` has been written out as `bp`: the same items, the same well-formedness, the
      blocks it occupies marked, and nothing else touched, in memory or on disk. */
  ghost predicate WrittenOut(w: World, w': World, s: Spc, s': Spc, c: Child, bp: Bp, l: nat, lo: Key, hi: Key,
                             total: nat) {
    && Shape(w', Disk(bp), l, lo, hi)
    && TreeItems(w'.arena, Disk(bp), l) == TreeItems(w.arena, c, l)
    && Grow(s, s', total) && Untouched(w, w', s)
    && |w'.arena| == |w.arena|
    && (forall t: nat {:trigger At(t)} :: At(t) && t < |w.arena| && Uses(w.arena, c, l, Slot(t)) == 0 ==>
          w'.arena[t] == w.arena[t])
    && RootBalance(s, s', w.arena, c, l, w'.arena, Disk(bp), l)
  }

  ghost predicate RunInUse(s: Spc, N: Arena, kids: seq<Entry>, l: nat, total: nat) {
    forall b: nat {:trigger At(b)} :: At(b) ==>
      RunUses(N, kids, l, Blk(b)) <= if DATA_START <= b < total then BitAt(s, b) else 0
  }

  /** The first `|done|` children of node `i` have been written out. (Sealed: see `Open`.) */
  ghost predicate Partly(w0: World, w: World, s0: Spc, s: Spc, i: nat, kids0: seq<Entry>, done: seq<Entry>, l: nat,
                         lo: Key, hi: Key, total: nat) {
    forall n: nat {:trigger Open(KidsSeal, n)} :: Open(KidsSeal, n) ==>
      && |done| <= |kids0| && AllDisk(done)
      && i < |w0.arena| && |w.arena| == |w0.arena|
      && var kids := done + kids0[|done|..];
      && w.arena[i] == Node(l + 1, [], kids)
      && RunShape(w, kids, l, lo, hi) && Unshared(w.arena, kids, l) && RunUses(w.arena, kids, l, Slot(i)) == 0
      && RunItems(w.arena, kids, l) == RunItems(w0.arena, kids0, l)
      && RunBalance(s0, s, w0.arena, kids0, w.arena, kids, l) && RunInUse(s, w.arena, kids, l, total)
      && Grow(s0, s, total) && SpcOk(s0, total) && Untouched(w0, w, s0)
      && forall t: nat {:trigger At(t)} :: At(t) && t < |w0.arena| && t != i && RunUses(w0.arena, kids0, l, Slot(t)) == 0 ==>
           w.arena[t] == w0.arena[t] && RunUses(w.arena, kids, l, Slot(t)) == 0
  }

  lemma PartlyStart(w: World, s: Spc, i: nat, l: nat, lo: Key, hi: Key, total: nat)
    requires Ready(w, s, Mem(i), l + 1, lo, hi, total)
    ensures Partly(w, w, s, s, i, w.arena[i].kids, [], l, lo, hi, total)
  {
    var kids := w.arena[i].kids;
    InteriorFacts(w, s, i, l, lo, hi, total);
    assert [] + kids[0..] == kids;
    GrowNone(s, total);
    forall b: nat ensures RunUses(w.arena, kids, l, Blk(b)) <= if DATA_START <= b < total then BitAt(s, b) else 0 {
      assert At(b);
      assert Uses(w.arena, Mem(i), l + 1, Blk(b)) == RunUses(w.arena, kids, l, Blk(b));
    }
  }

  /** The next child is ready to be written. */
  lemma PartlyKid(w0: World, w: World, s0: Spc, s: Spc, i: nat, kids0: seq<Entry>, done: seq<Entry>, l: nat, lo: Key,
                  hi: Key, total: nat)
    requires Partly(w0, w, s0, s, i, kids0, done, l, lo, hi, total) && |done| < |kids0|
    ensures var e := kids0[|done|];
            && i < |w.arena| && |done| < |w.arena[i].kids| && w.arena[i].kids[|done|] == e && w.arena[i] == Node(l + 1, [], done + kids0[|done|..])
            && RunUses(w.arena, w.arena[i].kids, l, Slot(i)) == 0
            && Ready(w, s, e.child, l, e.key, NextKey(kids0[|done| + 1..], hi), total)
  {
    assert Open(KidsSeal, 0);
    var j := |done|;
    var kids := done + kids0[j..];
    var e := kids0[j];
    assert kids[j] == e;
    assert j + 1 < |kids| ==> kids[j + 1] == kids0[j + 1] == kids0[j + 1..][0];
    assert Next(kids, j, hi) == NextKey(kids0[j + 1..], hi);
    GrowEnlarged(s0, s, total);
    KidShape(w, kids, j, l, lo, hi);
    KidUses(w.arena, kids, j, l);
    forall t: nat ensures Uses(w.arena, e.child, l, Slot(t)) <= 1 {
      assert At(t);
    }
    forall b: nat ensures Uses(w.arena, e.child, l, Blk(b)) <= if DATA_START <= b < total then BitAt(s, b) else 0 {
      assert At(b);
    }
  }

  lemma KidNotHere(w: World, done: seq<Entry>, kids0: seq<Entry>, l: nat, i: nat)
    requires |done| < |kids0| && RunUses(w.arena, done + kids0[|done|..], l, Slot(i)) == 0
    ensures Uses(w.arena, kids0[|done|].child, l, Slot(i)) == 0
  {
    KidUses(w.arena, done + kids0[|done|..], |done|, l);
  }

  /** The siblings with the next child written out. */
  lemma NextBeside(w0: World, w: World, w': World, w'': World, s0: Spc, s: Spc, s': Spc, i: nat, kids0: seq<Entry>,
                   done: seq<Entry>, bp: Bp, l: nat, lo: Key, hi: Key, total: nat)
    requires Partly(w0, w, s0, s, i, kids0, done, l, lo, hi, total) && |done| < |kids0|
    requires var e := kids0[|done|];
             WrittenOut(w, w', s, s', e.child, bp, l, e.key, NextKey(kids0[|done| + 1..], hi), total)
    requires i < |w'.arena| && i < |w''.arena| && w'' == World(w'.arena[i := w''.arena[i]], w'.disk, w'.txg)
    ensures Beside(w, w'', done, [kids0[|done|]], kids0[|done| + 1..], i, l, lo, hi)
    ensures done + [kids0[|done|]] + kids0[|done| + 1..] == done + kids0[|done|..]
  {
    assert Open(KidsSeal, 0);
    var e, b := kids0[|done|], kids0[|done| + 1..];
    var kids := done + kids0[|done|..];
    assert kids == done + [e] + b;
    RunThree(w.arena, done, [e], b, l);
    RunOne(w.arena, e, l);
    GrowEnlarged(s0, s, total);
    forall x: nat | x < |w.disk| && RunUses(w.arena, done, l, Blk(x)) + RunUses(w.arena, b, l, Blk(x)) > 0
      ensures w''.disk[x] == w.disk[x]
    {
      assert At(x);
      assert BitAt(s, x) > 0;
    }
    forall t: nat | t < |w.arena| && t != i && RunUses(w.arena, [e], l, Slot(t)) == 0
      ensures w''.arena[t] == w.arena[t]
    {
      assert At(t);
    }
  }

  lemma NextShape(w: World, w': World, w'': World, e: Entry, bp: Bp, i: nat, l: nat, hi: Key)
    requires Shape(w, e.child, l, e.key, hi) && !IsEmpty(NodeOf(w.arena, e.child))
    requires Shape(w', Disk(bp), l, e.key, hi) && TreeItems(w'.arena, Disk(bp), l) == TreeItems(w.arena, e.child, l)
    requires w'' == World(w''.arena, w'.disk, w'.txg) && Under(e.key, hi)
    ensures var g := [Entry(e.key, Disk(bp))];
            && RunShape(w'', g, l, e.key, hi)
            && RunItems(w''.arena, g, l) == TreeItems(w.arena, e.child, l)
            && (forall b: nat :: RunUses(w''.arena, g, l, Blk(b)) == Uses(w'.arena, Disk(bp), l, Blk(b)))
            && (forall t: nat :: RunUses(w''.arena, g, l, Slot(t)) == 0)
  {
    var E := Entry(e.key, Disk(bp));
    var g := [E];
    forall t: nat ensures RunUses(w'.arena, g, l, Slot(t)) == 0 { DiskNoSlots(w'.arena, g, l, t); }
    assert RunKid(w', g, 0, l, hi);
    RunOne(w'.arena, E, l);
    RunSame(w', w'', g, l, e.key, hi);
  }

  lemma NextInUse(w: World, w'': World, s: Spc, s': Spc, a: seq<Entry>, e: Entry, b: seq<Entry>, g: seq<Entry>, l: nat,
                  total: nat)
    requires RunInUse(s, w.arena, a + [e] + b, l, total) && Grow(s, s', total) && SpcOk(s, total)
    requires forall x: nat {:trigger At(x)} :: At(x) ==> BitAt(s', x) + Uses(w.arena, e.child, l, Blk(x)) == BitAt(s, x) + RunUses(w''.arena, g, l, Blk(x))
    requires forall u :: RunUses(w''.arena, a + g + b, l, u) ==
               RunUses(w.arena, a, l, u) + RunUses(w''.arena, g, l, u) + RunUses(w.arena, b, l, u)
    ensures RunInUse(s', w''.arena, a + g + b, l, total)
    ensures RunBalance(s, s', w.arena, a + [e] + b, w''.arena, a + g + b, l)
  {
    RunThree(w.arena, a, [e], b, l);
    RunOne(w.arena, e, l);
    GrowEnlarged(s, s', total);
    forall x: nat
      ensures RunUses(w''.arena, a + g + b, l, Blk(x)) <= if DATA_START <= x < total then BitAt(s', x) else 0
      ensures BitAt(s', x) + RunUses(w.arena, a + [e] + b, l, Blk(x)) == BitAt(s, x) + RunUses(w''.arena, a + g + b, l, Blk(x))
    {
      assert At(x);
      assert x < DATA_START || total <= x ==> BitAt(s', x) == BitAt(s, x);
    }
  }

  lemma UntouchedTrans(w: World, w': World, w'': World, s: Spc, s': Spc, total: nat)
    requires Untouched(w, w', s) && Untouched(w', w'', s') && Grow(s, s', total) && SpcOk(s, total)
    ensures Untouched(w, w'', s)
  {
    GrowEnlarged(s, s', total);
    forall b: nat | b < |w.disk| && Guarded(s, b) ensures w''.disk[b] == w.disk[b] {
      assert At(b) && Guarded(s', b);
    }
  }

  /** The whole run after the next child has been written out. */
  lemma NextRun(w0: World, w: World, w': World, w'': World, s0: Spc, s: Spc, s': Spc, i: nat, kids0: seq<Entry>,
                done: seq<Entry>, bp: Bp, l: nat, lo: Key, hi: Key, total: nat)
    requires Partly(w0, w, s0, s, i, kids0, done, l, lo, hi, total) && |done| < |kids0|
    requires var e := kids0[|done|];
             WrittenOut(w, w', s, s', e.child, bp, l, e.key, NextKey(kids0[|done| + 1..], hi), total)
    requires i < |w'.arena| && i < |w''.arena| && w'' == World(w'.arena[i := w''.arena[i]], w'.disk, w'.txg)
    ensures var kids, kids' := done + kids0[|done|..], done + [Entry(kids0[|done|].key, Disk(bp))] + kids0[|done| + 1..];
            && RunShape(w'', kids', l, lo, hi) && RunItems(w''.arena, kids', l) == RunItems(w.arena, kids, l)
            && RunInUse(s', w''.arena, kids', l, total)
            && RunBalance(s, s', w.arena, kids, w''.arena, kids', l)
            && (forall t: nat :: RunUses(w''.arena, kids', l, Slot(t)) <= RunUses(w.arena, kids, l, Slot(t)))
            && Uses(w.arena, kids0[|done|].child, l, Slot(i)) == 0
  {
    assert Open(KidsSeal, 0);
    var j := |done|;
    var e, b := kids0[j], kids0[j + 1..];
    var E := Entry(e.key, Disk(bp));
    var kids := done + kids0[j..];
    NextBeside(w0, w, w', w'', s0, s, s', i, kids0, done, bp, l, lo, hi, total);
    BesideParts(w, w'', done, [e], b, i, l, lo, hi);
    PartlyKid(w0, w, s0, s, i, kids0, done, l, lo, hi, total);
    assert kids[j] == e && (b != [] ==> kids[j + 1] == b[0]);
    KidShape(w, kids, j, l, lo, hi);
    assert Under(e.key, NextKey(b, hi));
    NextShape(w, w', w'', e, bp, i, l, NextKey(b, hi));
    Replaced(w, w'', done, [e], b, i, [E], l, e.key, lo, hi);
    GrowEnlarged(s0, s, total);
    NextInUse(w, w'', s, s', done, e, b, [E], l, total);
    RunThree(w.arena, done, [e], b, l);
    RunOne(w.arena, e, l);
  }

  /** One more child written out. */
  lemma PartlyNext(w0: World, w: World, w': World, w'': World, s0: Spc, s: Spc, s': Spc, i: nat, kids0: seq<Entry>,
                   done: seq<Entry>, bp: Bp, l: nat, lo: Key, hi: Key, total: nat)
    requires Partly(w0, w, s0, s, i, kids0, done, l, lo, hi, total) && |done| < |kids0|
    requires var e := kids0[|done|];
             WrittenOut(w, w', s, s', e.child, bp, l, e.key, NextKey(kids0[|done| + 1..], hi), total)
    requires i < |w'.arena|
    requires w'' == World(w'.arena[i := Node(l + 1, [], (done + kids0[|done|..])[|done| := Entry(kids0[|done|].key, Disk(bp))])], w'.disk, w'.txg)
    ensures Partly(w0, w'', s0, s', i, kids0, done + [Entry(kids0[|done|].key, Disk(bp))], l, lo, hi, total)
  {
    assert Open(KidsSeal, 0);
    var j := |done|;
    var e, b := kids0[j], kids0[j + 1..];
    var E := Entry(e.key, Disk(bp));
    var kids, kids' := done + kids0[j..], done + [E] + b;
    NextRun(w0, w, w', w'', s0, s, s', i, kids0, done, bp, l, lo, hi, total);
    assert kids' == kids[j := E];
    assert (done + [E]) + kids0[j + 1..] == kids';
    GrowTrans(s0, s, s', total);
    UntouchedTrans(w0, w, w', s0, s, total);
    PartlySlots(w0, w, w', i, kids0, kids, e, l);
    forall t: nat
      ensures RunUses(w''.arena, kids', l, Slot(t)) <= 1
      ensures RunUses(w.arena, kids, l, Slot(t)) == 0 ==> RunUses(w''.arena, kids', l, Slot(t)) == 0
    {
      assert At(t);
    }
  }

  /** No slot outside the children has changed. */
  lemma PartlySlots(w0: World, w: World, w': World, i: nat, kids0: seq<Entry>, kids: seq<Entry>, e: Entry, l: nat)
    requires e in kids && |w'.arena| == |w.arena| == |w0.arena|
    requires forall t: nat {:trigger At(t)} :: At(t) && t < |w.arena| && Uses(w.arena, e.child, l, Slot(t)) == 0 ==>
               w'.arena[t] == w.arena[t]
    requires forall t: nat {:trigger At(t)} :: At(t) && t < |w0.arena| && t != i && RunUses(w0.arena, kids0, l, Slot(t)) == 0 ==>
               w.arena[t] == w0.arena[t] && RunUses(w.arena, kids, l, Slot(t)) == 0
    ensures forall t: nat {:trigger At(t)} :: At(t) && t < |w0.arena| && t != i && RunUses(w0.arena, kids0, l, Slot(t)) == 0 ==>
              w'.arena[t] == w0.arena[t]
  {
    var j :| 0 <= j < |kids| && kids[j] == e;
    KidUses(w.arena, kids, j, l);
  }

  /** Node `i`, now with every child on disk, otherwise as it was: ready to be written itself. */
  ghost predicate ChildrenOut(w0: World, w: World, s0: Spc, s: Spc, i: nat, l: nat, lo: Key, hi: Key, total: nat) {
    && i < |w.arena| && AllDisk(w.arena[i].kids)
    && Shape(w, Mem(i), l, lo, hi) && InUse(s, w.arena, Mem(i), l, total)
    && TreeItems(w.arena, Mem(i), l) == TreeItems(w0.arena, Mem(i), l)
    && Grow(s0, s, total) && SpcOk(s0, total) && Untouched(w0, w, s0)
    && |w.arena| == |w0.arena|
    && (forall t: nat {:trigger At(t)} :: At(t) && t < |w0.arena| && Uses(w0.arena, Mem(i), l, Slot(t)) == 0 ==>
          w.arena[t] == w0.arena[t])
    && RootBalance(s0, s, w0.arena, Mem(i), l, w.arena, Mem(i), l)
  }

  lemma LeafOut(w: World, s: Spc, i: nat, lo: Key, hi: Key, total: nat)
    requires Ready(w, s, Mem(i), 0, lo, hi, total)
    ensures ChildrenOut(w, w, s, s, i, 0, lo, hi, total)
  {
    GrowNone(s, total);
  }

  lemma InteriorOut(w0: World, w: World, s0: Spc, s: Spc, i: nat, done: seq<Entry>, l: nat, lo: Key, hi: Key,
                    total: nat)
    requires Ready(w0, s0, Mem(i), l + 1, lo, hi, total)
    requires var kids0 := w0.arena[i].kids; Partly(w0, w, s0, s, i, kids0, done, l, lo, hi, total) && |done| == |kids0|
    ensures ChildrenOut(w0, w, s0, s, i, l + 1, lo, hi, total)
  {
    assert Open(KidsSeal, 0);
    var kids0 := w0.arena[i].kids;
    assert done + kids0[|done|..] == done;
    assert w.arena[i].kids == done;
    InteriorFacts(w0, s0, i, l, lo, hi, total);
    forall b: nat
      ensures Uses(w.arena, Mem(i), l + 1, Blk(b)) == RunUses(w.arena, done, l, Blk(b))
      ensures Uses(w0.arena, Mem(i), l + 1, Blk(b)) == RunUses(w0.arena, kids0, l, Blk(b))
    {}
    forall t: nat | t < |w0.arena| && Uses(w0.arena, Mem(i), l + 1, Slot(t)) == 0 ensures w.arena[t] == w0.arena[t] {
      assert At(t);
      assert Uses(w0.arena, Mem(i), l + 1, Slot(i)) > 0;
    }
  }

  /** A block written where nothing was. */
  ghost predicate PutAtFree(w: World, w': World, s: Spc, s': Spc, block: nat, raw: Block, total: nat) {
    && DATA_START <= block < total <= |w.disk| && !Guarded(s, block) && s' == TakeOne(s, block)
    && w' == World(w.arena, w'.disk, w.txg) && |w'.disk| == |w.disk| && w'.disk[block] == raw
    && forall b: nat {:trigger w'.disk[b]} :: b < |w.disk| && b != block ==> w'.disk[b] == w.disk[b]
  }

  lemma PutUntouched(w: World, w': World, s: Spc, s': Spc, block: nat, raw: Block, total: nat)
    requires PutAtFree(w, w', s, s', block, raw, total) && SpcOk(s, total)
    ensures Grow(s, s', total) && Untouched(w, w', s)
    ensures forall b: nat :: BitAt(s', b) == BitAt(s, b) + if b == block then 1 else 0
  {
    GrowOne(s, block, total);
    assert block / BITS_PER_BITMAP < |s.dirty|;
  }

  /** The node on disk is the node in memory. */
  lemma NodeOnDisk(w: World, w': World, s: Spc, i: nat, block: nat, l: nat, lo: Key, hi: Key, total: nat)
    requires i < |w.arena| && AllDisk(w.arena[i].kids) && Shape(w, Mem(i), l, lo, hi)
    requires InUse(s, w.arena, Mem(i), l, total)
    requires PutAtFree(w, w', s, TakeOne(s, block), block, ToBlock(w.arena[i], w.txg), total) && SpcOk(s, total)
    ensures var bp := Bp(block, 1, w.txg, [ToBlock(w.arena[i], w.txg)]);
            && Shape(w', Disk(bp), l, lo, hi)
            && TreeItems(w'.arena, Disk(bp), l) == TreeItems(w.arena, Mem(i), l)
            && forall b: nat :: Uses(w'.arena, Disk(bp), l, Blk(b)) == BpUses(bp, b) + Uses(w.arena, Mem(i), l, Blk(b))
  {
    var n := w.arena[i];
    BlockRoundTrip(n, w.txg);
    if l > 0 {
      forall b: nat | RunUses(w.arena, n.kids, l - 1, Blk(b)) > 0 && b < |w.disk| ensures w'.disk[b] == w.disk[b] {
        assert Uses(w.arena, Mem(i), l, Blk(b)) > 0;
        assert At(b);
      }
      RunKept(w, w', n.kids, l - 1, lo, hi);
    }
  }

  /** The node itself written out. */
  lemma NodeOut(w0: World, w: World, w': World, s0: Spc, s: Spc, s': Spc, i: nat, block: nat, l: nat, lo: Key, hi: Key,
                total: nat)
    requires ChildrenOut(w0, w, s0, s, i, l, lo, hi, total)
    requires PutAtFree(w, w', s, s', block, ToBlock(w.arena[i], w.txg), total)
    ensures WrittenOut(w0, w', s0, s', Mem(i), Bp(block, 1, w.txg, [ToBlock(w.arena[i], w.txg)]), l, lo, hi, total)
  {
    var bp := Bp(block, 1, w.txg, [ToBlock(w.arena[i], w.txg)]);
    GrowEnlarged(s0, s, total);
    NodeOnDisk(w, w', s, i, block, l, lo, hi, total);
    PutUntouched(w, w', s, s', block, ToBlock(w.arena[i], w.txg), total);
    GrowTrans(s0, s, s', total);
    UntouchedTrans(w0, w, w', s0, s, total);
    forall b: nat
      ensures BitAt(s', b) + Uses(w0.arena, Mem(i), l, Blk(b)) == BitAt(s0, b) + Uses(w'.arena, Disk(bp), l, Blk(b))
    {
      assert At(b);
    }
  }

  // --- What writing a tree costs ---

  /** How many nodes of a subtree are in memory. (What is below a node on disk is on disk.) */
  ghost function InMemory(N: Arena, c: Child, l: nat): nat
    decreases l, 0
  {
    if c.Mem? then 1 + if l == 0 then 0 else RunInMemory(N, NodeOf(N, c).kids, l - 1) else 0
  }

  ghost function RunInMemory(N: Arena, kids: seq<Entry>, l: nat): nat
    decreases l, 1 + |kids|
  {
    if kids == [] then 0 else InMemory(N, kids[0].child, l) + RunInMemory(N, kids[1..], l)
  }

  lemma {:induction false} FrameMemory(N: Arena, N': Arena, kids: seq<Entry>, l: nat)
    requires SameSlots(N, N', kids, l)
    ensures RunInMemory(N', kids, l) == RunInMemory(N, kids, l)
    decreases l, |kids|
  {
    if kids != [] {
      var c, rest := kids[0].child, kids[1..];
      forall s: nat ensures RunUses(N, kids, l, Slot(s)) == Uses(N, c, l, Slot(s)) + RunUses(N, rest, l, Slot(s)) {}
      FrameMemory(N, N', rest, l);
      if c.Mem? {
        assert Uses(N, c, l, Slot(c.slot)) > 0;
        assert NodeOf(N, c) == NodeOf(N', c);
        if l > 0 {
          var ks := NodeOf(N, c).kids;
          forall s: nat ensures RunUses(N, ks, l - 1, Slot(s)) <= Uses(N, c, l, Slot(s)) {}
          FrameMemory(N, N', ks, l - 1);
        }
      }
    }
  }

  /** Writing one child leaves the ones after it in memory as they were. */
  lemma RestInMemory(w0: World, w: World, w': World, w'': World, s0: Spc, s: Spc, s': Spc, i: nat, kids0: seq<Entry>,
                     done: seq<Entry>, bp: Bp, l: nat, lo: Key, hi: Key, total: nat)
    requires Partly(w0, w, s0, s, i, kids0, done, l, lo, hi, total) && |done| < |kids0|
    requires var e := kids0[|done|];
             WrittenOut(w, w', s, s', e.child, bp, l, e.key, NextKey(kids0[|done| + 1..], hi), total)
    requires i < |w'.arena| && i < |w''.arena| && w'' == World(w'.arena[i := w''.arena[i]], w'.disk, w'.txg)
    ensures RunInMemory(w''.arena, kids0[|done| + 1..], l) == RunInMemory(w.arena, kids0[|done| + 1..], l)
  {
    var e, b := kids0[|done|], kids0[|done| + 1..];
    NextBeside(w0, w, w', w'', s0, s, s', i, kids0, done, bp, l, lo, hi, total);
    BesideParts(w, w'', done, [e], b, i, l, lo, hi);
    BesideKept(w, w'', done, [e], b, i, l, lo, hi);
    RunNoFresh(w, b, l, NextKey(b, hi), hi);
    FrameMemory(w.arena, w''.arena, b, l);
  }

  ghost function Sum(f: nat -> nat, n: nat): nat {
    if n == 0 then 0 else Sum(f, n - 1) + f(n - 1)
  }

  lemma {:induction false} SumAdds(f: nat -> nat, g: nat -> nat, h: nat -> nat, n: nat)
    requires forall t: nat :: h(t) == f(t) + g(t)
    ensures Sum(h, n) == Sum(f, n) + Sum(g, n)
  {
    if n > 0 {
      SumAdds(f, g, h, n - 1);
    }
  }

  lemma {:induction false} SumOne(f: nat -> nat, i: nat, n: nat)
    requires forall t: nat :: f(t) == if t == i then 1 else 0
    ensures Sum(f, n) == if i < n then 1 else 0
  {
    if n > 0 {
      SumOne(f, i, n - 1);
    }
  }

  lemma {:induction false} SumAtMost(f: nat -> nat, n: nat)
    requires forall t: nat :: f(t) <= 1
    ensures Sum(f, n) <= n
  {
    if n > 0 {
      SumAtMost(f, n - 1);
    }
  }

  ghost function Slots(N: Arena, c: Child, l: nat): nat -> nat { (t: nat) => Uses(N, c, l, Slot(t)) }

  ghost function RunSlots(N: Arena, kids: seq<Entry>, l: nat): nat -> nat { (t: nat) => RunUses(N, kids, l, Slot(t)) }

  lemma {:induction false} MemorySlots(w: World, c: Child, l: nat, lo: Key, hi: Key)
    requires Shape(w, c, l, lo, hi)
    ensures InMemory(w.arena, c, l) <= Sum(Slots(w.arena, c, l), |w.arena|)
    decreases l, 0
  {
    var N := w.arena;
    if c.Mem? {
      var here := (t: nat) => Here(c, Slot(t));
      SumOne(here, c.slot, |N|);
      if l == 0 {
        SumAdds(here, (t: nat) => 0, Slots(N, c, l), |N|);
      } else {
        RunMemorySlots(w, NodeOf(N, c).kids, l - 1, lo, hi);
        SumAdds(here, RunSlots(N, NodeOf(N, c).kids, l - 1), Slots(N, c, l), |N|);
      }
    }
  }

  lemma {:induction false} RunMemorySlots(w: World, kids: seq<Entry>, l: nat, lo: Key, hi: Key)
    requires RunShape(w, kids, l, lo, hi)
    ensures RunInMemory(w.arena, kids, l) <= Sum(RunSlots(w.arena, kids, l), |w.arena|)
    decreases l, 1 + |kids|
  {
    if kids != [] {
      var N := w.arena;
      KidShape(w, kids, 0, l, lo, hi);
      MemorySlots(w, kids[0].child, l, kids[0].key, Next(kids, 0, hi));
      RestShape(w, kids, l, lo, hi);
      RunMemorySlots(w, kids[1..], l, lo, hi);
      SumAdds(Slots(N, kids[0].child, l), RunSlots(N, kids[1..], l), RunSlots(N, kids, l), |N|);
    }
  }

  lemma RestShape(w: World, kids: seq<Entry>, l: nat, lo: Key, hi: Key)
    requires RunShape(w, kids, l, lo, hi) && kids != []
    ensures RunShape(w, kids[1..], l, lo, hi)
  {
    forall j | 0 <= j < |kids| - 1 ensures RunKid(w, kids[1..], j, l, hi) {
      assert RunKid(w, kids, j + 1, l, hi);
      assert Next(kids[1..], j, hi) == Next(kids, j + 1, hi);
    }
  }

  /** No more nodes of a tree are in memory than there are slots. */
  lemma FewInMemory(w: World, c: Child, l: nat, lo: Key, hi: Key)
    requires Shape(w, c, l, lo, hi) && Single(w.arena, c, l)
    ensures InMemory(w.arena, c, l) <= |w.arena|
  {
    MemorySlots(w, c, l, lo, hi);
    forall t: nat ensures Slots(w.arena, c, l)(t) <= 1 {
      assert At(t);
    }
    SumAtMost(Slots(w.arena, c, l), |w.arena|);
  }
}
