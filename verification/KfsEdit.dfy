/** What single steps of an insertion or a removal do to the tree: copying a node into memory,
    replacing one child by what became of it, splitting a node, merging two. */
module KfsEdit {
  import opened Wrappers
  import opened KfsTypes
  import opened KfsItems
  import opened KfsTree
  import opened KfsSpace

  /** No memory slot is used twice under `c`. */
  ghost predicate Single(N: Arena, c: Child, l: nat) {
    forall s: nat {:trigger At(s)} :: At(s) ==> Uses(N, c, l, Slot(s)) <= 1
  }

  /** Turning `c` into the siblings `g` touched no memory slot outside `c`. */
  ghost predicate Kept(N: Arena, N': Arena, c: Child, g: seq<Entry>, l: nat) {
    && |N| <= |N'|
    && forall s: nat {:trigger At(s)} :: At(s) && s < |N| && Uses(N, c, l, Slot(s)) == 0 ==>
         N'[s] == N[s] && RunUses(N', g, l, Slot(s)) == 0
  }

  /** `w'` differs from `w` only in memory. */
  predicate SameDisk(w: World, w': World) {
    w'.disk == w.disk && w'.txg == w.txg
  }

  /** Every block the siblings occupy on disk is as it was. */
  ghost predicate Keeps(w: World, w': World, kids: seq<Entry>, l: nat) {
    && w.txg <= w'.txg && |w'.disk| == |w.disk|
    && forall b: nat {:trigger At(b)} :: At(b) && RunUses(w.arena, kids, l, Blk(b)) > 0 && b < |w.disk| ==>
         w'.disk[b] == w.disk[b]
  }

  /** `child` has been made slot `c`: in place if it was in memory, else as a copy at the end. */
  ghost predicate CopiedTo(N: Arena, N': Arena, child: Child, c: nat, i: nat) {
    && c < |N'|
    && (if child.Mem? then c == child.slot && |N'| == |N| && c < |N| && N'[c] == N[c]
        else c == |N| && |N'| == |N| + 1 && N'[c] == NodeOf(N, child))
    && forall s: nat {:trigger At(s)} :: At(s) && s < |N| && s != i ==> N'[s] == N[s]
  }

  lemma CopiedKids(w: World, w': World, child: Child, c: nat, i: nat, l: nat, lo: Key, hi: Key)
    requires Shape(w, child, l, lo, hi) && Uses(w.arena, child, l, Slot(i)) == 0 && l > 0
    requires CopiedTo(w.arena, w'.arena, child, c, i)
    ensures SameSlots(w.arena, w'.arena, NodeOf(w.arena, child).kids, l - 1)
  {
    NoFreshSlots(w, child, l, lo, hi);
    var kids := NodeOf(w.arena, child).kids;
    forall s: nat | RunUses(w.arena, kids, l - 1, Slot(s)) > 0
      ensures s < |w.arena| && s < |w'.arena| && w'.arena[s] == w.arena[s]
    {
      assert At(s);
      assert Uses(w.arena, child, l, Slot(s)) > 0;
    }
  }

  /** Copying a node into memory (while node `i`, outside it, may change) keeps its meaning; only
      its own place changes. */
  lemma Copied(w: World, w': World, child: Child, c: nat, i: nat, l: nat, lo: Key, hi: Key)
    requires Shape(w, child, l, lo, hi) && Uses(w.arena, child, l, Slot(i)) == 0
    requires CopiedTo(w.arena, w'.arena, child, c, i) && SameDisk(w, w')
    ensures Shape(w', Mem(c), l, lo, hi)
    ensures TreeItems(w'.arena, Mem(c), l) == TreeItems(w.arena, child, l)
    ensures forall u :: Uses(w'.arena, Mem(c), l, u) + Here(child, u) == Uses(w.arena, child, l, u) + Here(Mem(c), u)
  {
    assert NodeOf(w'.arena, Mem(c)) == NodeOf(w.arena, child);
    if l > 0 {
      var kids := NodeOf(w.arena, child).kids;
      CopiedKids(w, w', child, c, i, l, lo, hi);
      RunSame(w, w', kids, l - 1, lo, hi);
    }
  }

  lemma RunSame(w: World, w': World, kids: seq<Entry>, l: nat, lo: Key, hi: Key)
    requires RunShape(w, kids, l, lo, hi) && Keeps(w, w', kids, l) && SameSlots(w.arena, w'.arena, kids, l)
    ensures RunShape(w', kids, l, lo, hi)
    ensures RunItems(w'.arena, kids, l) == RunItems(w.arena, kids, l)
    ensures forall u :: RunUses(w'.arena, kids, l, u) == RunUses(w.arena, kids, l, u)
  {
    Frame(w.arena, w'.arena, kids, l);
    SlotsSameRun(w, w', kids, l);
    FrameRun(w, w', kids, l, lo, hi);
  }

  lemma SlotsSameRun(w: World, w': World, kids: seq<Entry>, l: nat)
    requires SameSlots(w.arena, w'.arena, kids, l) && Keeps(w, w', kids, l)
    ensures SameRun(w, w', kids, l)
  {
    forall j | 0 <= j < |kids| ensures Same(w, w', kids[j].child, l) {
      KidUses(w.arena, kids, j, l);
      forall s: nat | Uses(w.arena, kids[j].child, l, Slot(s)) > 0
        ensures s < |w'.arena| && (s < |w.arena| ==> w.arena[s] == w'.arena[s])
      {
        assert RunUses(w.arena, kids, l, Slot(s)) > 0;
      }
      forall b: nat | Uses(w.arena, kids[j].child, l, Blk(b)) > 0 && b < |w.disk|
        ensures w.disk[b] == w'.disk[b]
      {
        assert At(b) && RunUses(w.arena, kids, l, Blk(b)) > 0;
      }
    }
  }

  /** A run of siblings none of whose slots changed. */
  lemma RunKept(w: World, w': World, kids: seq<Entry>, l: nat, lo: Key, hi: Key)
    requires RunShape(w, kids, l, lo, hi) && Keeps(w, w', kids, l) && |w.arena| <= |w'.arena|
    requires forall s: nat :: s < |w.arena| && RunUses(w.arena, kids, l, Slot(s)) > 0 ==> w'.arena[s] == w.arena[s]
    ensures RunShape(w', kids, l, lo, hi)
    ensures RunItems(w'.arena, kids, l) == RunItems(w.arena, kids, l)
    ensures forall u :: RunUses(w'.arena, kids, l, u) == RunUses(w.arena, kids, l, u)
  {
    RunNoFresh(w, kids, l, lo, hi);
    RunSame(w, w', kids, l, lo, hi);
  }

  // --- Replacing children ---

  /** A run cut in three. */
  lemma RunThree(N: Arena, a: seq<Entry>, m: seq<Entry>, b: seq<Entry>, l: nat)
    ensures RunItems(N, a + m + b, l) == RunItems(N, a, l) + RunItems(N, m, l) + RunItems(N, b, l)
    ensures forall u :: RunUses(N, a + m + b, l, u) == RunUses(N, a, l, u) + RunUses(N, m, l, u) + RunUses(N, b, l, u)
  {
    RunItemsConcat(N, a + m, b, l);
    RunItemsConcat(N, a, m, l);
    forall u ensures RunUses(N, a + m + b, l, u) == RunUses(N, a, l, u) + RunUses(N, m, l, u) + RunUses(N, b, l, u) {
      RunUsesConcat(N, a + m, b, l, u);
      RunUsesConcat(N, a, m, l, u);
    }
  }

  function NextKey(b: seq<Entry>, hi: Key): Key {
    if b == [] then hi else b[0].key
  }

  /** Siblings `m` between `a` and `b`; memory changed only under `m` and at slot `i`, which holds
      none of them. */
  ghost predicate Beside(w: World, w': World, a: seq<Entry>, m: seq<Entry>, b: seq<Entry>, i: nat, l: nat, lo: Key,
                         hi: Key) {
    && RunShape(w, a + m + b, l, lo, hi) && Unshared(w.arena, a + m + b, l)
    && m != [] && RunUses(w.arena, a + m + b, l, Slot(i)) == 0
    && Keeps(w, w', a, l) && Keeps(w, w', b, l) && |w.arena| <= |w'.arena|
    && forall s: nat {:trigger At(s)} :: At(s) && s < |w.arena| && s != i && RunUses(w.arena, m, l, Slot(s)) == 0 ==>
         w'.arena[s] == w.arena[s]
  }

  lemma BesideParts(w: World, w': World, a: seq<Entry>, m: seq<Entry>, b: seq<Entry>, i: nat, l: nat, lo: Key, hi: Key)
    requires Beside(w, w', a, m, b, i, l, lo, hi)
    ensures RunShape(w, a, l, lo, m[0].key)
    ensures RunShape(w, b, l, NextKey(b, hi), hi)
    ensures a != [] ==> m[0].key != 0
    ensures b != [] ==> b[0].key != 0 && Under(b[0].key, hi) && m[0].key <= b[0].key
    ensures lo <= m[0].key && Under(m[0].key, hi)
  {
    var kids := a + m + b;
    assert kids[|a|] == m[0];
    SplitRun(w, kids, |a|, l, lo, hi);
    assert kids[..|a|] == a;
    if b != [] {
      assert kids[|a| + |m|] == b[0];
      SplitRun(w, kids, |a| + |m|, l, lo, hi);
      assert kids[|a| + |m|..] == b;
    }
  }

  lemma BesideKept(w: World, w': World, a: seq<Entry>, m: seq<Entry>, b: seq<Entry>, i: nat, l: nat, lo: Key, hi: Key)
    requires Beside(w, w', a, m, b, i, l, lo, hi)
    ensures forall s: nat :: s < |w.arena| && RunUses(w.arena, a, l, Slot(s)) > 0 ==> w'.arena[s] == w.arena[s]
    ensures forall s: nat :: s < |w.arena| && RunUses(w.arena, b, l, Slot(s)) > 0 ==> w'.arena[s] == w.arena[s]
  {
    var N := w.arena;
    RunThree(N, a, m, b, l);
    forall s: nat | s < |N| && RunUses(N, a, l, Slot(s)) + RunUses(N, b, l, Slot(s)) > 0
      ensures w'.arena[s] == w.arena[s]
    {
      assert At(s);
      assert RunUses(N, a + m + b, l, Slot(s)) <= 1;
    }
  }

  /** The siblings on either side are as they were. */
  lemma BesideSame(w: World, w': World, a: seq<Entry>, m: seq<Entry>, b: seq<Entry>, i: nat, l: nat, lo: Key, hi: Key)
    requires Beside(w, w', a, m, b, i, l, lo, hi)
    ensures RunShape(w', a, l, lo, m[0].key) && RunShape(w', b, l, NextKey(b, hi), hi)
    ensures RunItems(w'.arena, a, l) == RunItems(w.arena, a, l)
    ensures RunItems(w'.arena, b, l) == RunItems(w.arena, b, l)
    ensures forall u :: RunUses(w'.arena, a, l, u) == RunUses(w.arena, a, l, u)
    ensures forall u :: RunUses(w'.arena, b, l, u) == RunUses(w.arena, b, l, u)
  {
    BesideParts(w, w', a, m, b, i, l, lo, hi);
    BesideKept(w, w', a, m, b, i, l, lo, hi);
    RunKept(w, w', a, l, lo, m[0].key);
    RunKept(w, w', b, l, NextKey(b, hi), hi);
  }

  /** Siblings `m` replaced by `g`, whose keys lie in the same range (or, at the left end, start
      lower). */
  lemma Replaced(w: World, w': World, a: seq<Entry>, m: seq<Entry>, b: seq<Entry>, i: nat, g: seq<Entry>, l: nat,
                 k: Key, lo: Key, hi: Key)
    requires Beside(w, w', a, m, b, i, l, lo, hi)
    requires RunShape(w', g, l, k, NextKey(b, hi))
    requires lo <= k <= m[0].key && (a != [] ==> k == m[0].key)
    ensures RunShape(w', a + g + b, l, lo, hi)
    ensures RunItems(w'.arena, a + g + b, l) ==
            RunItems(w.arena, a, l) + RunItems(w'.arena, g, l) + RunItems(w.arena, b, l)
    ensures forall u :: RunUses(w'.arena, a + g + b, l, u) ==
              RunUses(w.arena, a, l, u) + RunUses(w'.arena, g, l, u) + RunUses(w.arena, b, l, u)
  {
    BesideParts(w, w', a, m, b, i, l, lo, hi);
    BesideSame(w, w', a, m, b, i, l, lo, hi);
    assert a == [] ==> RunShape(w', a, l, lo, k);
    RunThree(w'.arena, a, g, b, l);
    JoinThree(w', a, g, b, l, k, lo, hi);
  }

  lemma JoinThree(w: World, a: seq<Entry>, g: seq<Entry>, b: seq<Entry>, l: nat, k: Key, lo: Key, hi: Key)
    requires RunShape(w, a, l, lo, k) && RunShape(w, g, l, k, NextKey(b, hi)) && RunShape(w, b, l, NextKey(b, hi), hi)
    requires lo <= k && (a != [] ==> k != 0) && Under(k, hi)
    requires b != [] ==> b[0].key != 0 && Under(b[0].key, hi) && k <= b[0].key
    ensures RunShape(w, a + g + b, l, lo, hi)
  {
    if b == [] {
      assert g + b == g;
    } else {
      JoinRun(w, g, b, l, k, b[0].key, hi);
    }
    assert a + g + b == a + (g + b);
    if a == [] {
      assert a + (g + b) == g + b;
      WidenRun(w, g + b, l, k, hi, lo, hi);
    } else {
      JoinRun(w, a, g + b, l, lo, k, hi);
    }
  }

  // --- Splitting ---

  /** What a leaf has for items, and an interior node for its table of children. */
  const ROOM: nat := BLOCK - HEADER
  const MAX_KIDS: nat := ROOM / INTERIOR_ENTRY

  lemma {:induction false} PayloadConcat(a: Items, b: Items)
    ensures Payload(a + b) == Payload(a) + Payload(b)
  {
    if b == [] {
      assert a + b == a;
    } else {
      assert (a + b)[..|a + b| - 1] == a + b[..|b| - 1];
      PayloadConcat(a, b[..|b| - 1]);
    }
  }

  lemma PayloadAround(s: Items, p: nat)
    requires p < |s|
    ensures Payload(s) == Payload(s[..p]) + ItemSize(s[p]) + Payload(s[p + 1..])
    ensures Payload(s[..p + 1]) == Payload(s[..p]) + ItemSize(s[p])
  {
    Halves(s, p);
    PayloadConcat(s[..p] + [s[p]], s[p + 1..]);
    PayloadConcat(s[..p], [s[p]]);
    assert [s[p]][..0] == [];
    assert s[..p + 1] == s[..p] + [s[p]];
  }

  /** Leaf parts laid end to end. */
  function Flat(parts: seq<Items>): Items {
    if parts == [] then [] else Flat(parts[..|parts| - 1]) + parts[|parts| - 1]
  }

  lemma FlatPush(parts: seq<Items>, x: Items)
    ensures Flat(parts + [x]) == Flat(parts) + x
  {
    assert (parts + [x])[..|parts|] == parts;
  }

  lemma {:induction false} FlatFirst(parts: seq<Items>)
    requires parts != [] && parts[0] != []
    ensures Flat(parts) != [] && Flat(parts)[0] == parts[0][0]
  {
    if |parts| > 1 {
      assert parts[..|parts| - 1][0] == parts[0];
      FlatFirst(parts[..|parts| - 1]);
    } else {
      assert Flat([]) == [] && parts[..0] == [];
    }
  }

  ghost predicate Fitting(parts: seq<Items>) {
    forall j {:trigger parts[j]} :: 0 <= j < |parts| ==> parts[j] != [] && Payload(parts[j]) <= ROOM
  }

  lemma FittingPush(parts: seq<Items>, cur: Items)
    requires Fitting(parts) && cur != [] && Payload(cur) <= ROOM
    ensures Fitting(parts + [cur])
  {
    forall j | 0 <= j < |parts| + 1 ensures (parts + [cur])[j] != [] && Payload((parts + [cur])[j]) <= ROOM {
      assert j < |parts| ==> (parts + [cur])[j] == parts[j];
    }
  }

  /** The first `n` items, as finished parts and the one being filled. */
  ghost predicate Parted(items: Items, n: nat, parts: seq<Items>, cur: Items) {
    n <= |items| && Flat(parts) + cur == items[..n] && (n > 0 ==> cur != [])
  }

  lemma PartedPush(items: Items, n: nat, parts: seq<Items>, cur: Items)
    requires Parted(items, n, parts, cur) && n < |items|
    ensures Parted(items, n + 1, parts, cur + [items[n]])
    ensures Payload(cur + [items[n]]) == Payload(cur) + ItemSize(items[n])
    ensures Payload(Flat(parts)) + Payload(cur) + ItemSize(items[n]) <= Payload(items)
  {
    var x := [items[n]];
    PayloadPush(cur, items[n]);
    PayloadConcat(Flat(parts), cur);
    PayloadAround(items, n);
    OneMore(Flat(parts), cur, items, n);
  }

  lemma PayloadPush(s: Items, it: Item)
    ensures Payload(s + [it]) == Payload(s) + ItemSize(it)
  {
    assert (s + [it])[..|s|] == s;
  }

  lemma OneMore<T>(a: seq<T>, b: seq<T>, s: seq<T>, n: nat)
    requires n < |s| && a + b == s[..n]
    ensures a + (b + [s[n]]) == s[..n + 1]
  {
    assert a + (b + [s[n]]) == (a + b) + [s[n]];
    assert s[..n + 1] == s[..n] + [s[n]];
  }

  lemma PartedClose(items: Items, n: nat, parts: seq<Items>, cur: Items)
    requires Parted(items, n, parts, cur) && n < |items| && cur != []
    ensures Parted(items, n + 1, parts + [cur], [items[n]])
    ensures Payload([items[n]]) == ItemSize(items[n])
    ensures Payload(Flat(parts + [cur])) == Payload(Flat(parts)) + Payload(cur)
    ensures Payload(Flat(parts)) + Payload(cur) + ItemSize(items[n]) <= Payload(items)
    ensures Payload(cur) >= ItemSize(cur[0])
  {
    PartedPush(items, n, parts, cur);
    FlatPush(parts, cur);
    PayloadConcat(Flat(parts), cur);
    FirstSize(cur);
    var x := [items[n]];
    assert x[..0] == [];
    assert Flat(parts + [cur]) + x == Flat(parts) + (cur + x);
  }

  lemma FirstSize(s: Items)
    requires s != []
    ensures Payload(s) >= ItemSize(s[0])
  {
    PayloadAround(s, 0);
  }

  /** Why two cuts are enough: the first was made because half the payload, or a full block, was
      reached; the second leaves less than half. */
  ghost predicate CutsOk(cuts: nat, done: nat, first: nat, target: nat) {
    && cuts <= 2
    && (cuts == 0 ==> done == 0)
    && (cuts == 1 ==> done >= target || done + first > ROOM)
    && (cuts == 2 ==> done > ROOM)
  }

  /** As even as whole items allow: a part ends only where it has its share of the bytes or the next item does not
      fit, and nothing is added to one that has its share. */
  ghost predicate Even(parts: seq<Items>, share: nat) {
    parts != [] ==>
      var last := parts[|parts| - 1];
      && Even(parts[..|parts| - 1], share)
      && (|last| > 1 ==> Payload(last[..|last| - 1]) < share)
      && (|parts| > 1 ==> Enough(parts[|parts| - 2], last, share))
  }

  ghost predicate Enough(part: Items, next: Items, share: nat) {
    Payload(part) >= share || (next != [] && Payload(part) + ItemSize(next[0]) > ROOM)
  }

  lemma EvenMore(parts: seq<Items>, cur: Items, it: Item, share: nat)
    requires Even(parts + [cur], share) && (cur == [] ==> parts == []) && (cur != [] ==> Payload(cur) < share)
    ensures Even(parts + [cur + [it]], share)
  {
    assert (parts + [cur])[..|parts|] == parts && (parts + [cur + [it]])[..|parts|] == parts;
    assert (cur + [it])[..|cur|] == cur;
  }

  lemma EvenNext(parts: seq<Items>, cur: Items, it: Item, share: nat)
    requires Even(parts + [cur], share) && (Payload(cur) >= share || Payload(cur) + ItemSize(it) > ROOM)
    ensures Even(parts + [cur] + [[it]], share)
  {
    assert (parts + [cur] + [[it]])[..|parts| + 1] == parts + [cur];
  }

  /** The state of the cutting, after the first `n` items. */
  ghost predicate Filling(items: Items, n: nat, parts: seq<Items>, cur: Items, target: nat) {
    && Parted(items, n, parts, cur) && Fitting(parts) && Payload(cur) <= ROOM
    && (|parts| > 0 ==> cur != [])
    && CutsOk(|parts|, Payload(Flat(parts)), if cur == [] then 0 else ItemSize(cur[0]), target)
    && Even(parts + [cur], target)
  }

  lemma FillMore(items: Items, n: nat, parts: seq<Items>, cur: Items, target: nat)
    requires Filling(items, n, parts, cur, target) && n < |items| && Payload(cur) + ItemSize(items[n]) <= ROOM
    requires cur != [] ==> Payload(cur) < target
    ensures Filling(items, n + 1, parts, cur + [items[n]], target)
    ensures Payload(cur + [items[n]]) == Payload(cur) + ItemSize(items[n])
  {
    PartedPush(items, n, parts, cur);
    EvenMore(parts, cur, items[n], target);
  }

  lemma FillNext(items: Items, n: nat, parts: seq<Items>, cur: Items, target: nat)
    requires Filling(items, n, parts, cur, target) && n < |items| && cur != [] && ItemSize(items[n]) <= ROOM
    requires Payload(cur) + ItemSize(items[n]) > ROOM || Payload(cur) >= target
    requires Payload(items) <= 2 * ROOM && 2 * target + 1 >= Payload(items)
    ensures Filling(items, n + 1, parts + [cur], [items[n]], target)
    ensures Payload([items[n]]) == ItemSize(items[n])
  {
    PartedClose(items, n, parts, cur);
    EvenNext(parts, cur, items[n], target);
    FittingPush(parts, cur);
  }

  lemma FillDone(items: Items, parts: seq<Items>, cur: Items, target: nat)
    requires Filling(items, |items|, parts, cur, target) && ROOM < Payload(items)
    ensures Flat(parts + [cur]) == items && Fitting(parts + [cur]) && 2 <= |parts + [cur]| <= 3
    ensures Even(parts + [cur], target)
  {
    FlatPush(parts, cur);
    assert items[..|items|] == items;
    PayloadConcat(Flat(parts), cur);
    FittingPush(parts, cur);
  }

  /** Two or three non-empty parts, each of which fits a leaf, that put end to end give back the items. */
  method PartItems(items: Items) returns (parts: seq<Items>)
    requires ROOM < Payload(items) <= 2 * ROOM
    requires forall j :: 0 <= j < |items| ==> ItemSize(items[j]) <= ROOM
    ensures Flat(parts) == items && Fitting(parts)
    ensures 2 <= |parts| <= 3
    ensures Even(parts, Payload(items) / 2)
  {
    var payload := Payload(items);
    var ways := (payload + ROOM - 1) / ROOM;
    var target := payload / if ways > 2 then ways else 2;
    assert ways == 2;
    parts := [];
    var cur, used := [], 0;
    var n := 0;
    while n < |items|
      invariant 0 <= n <= |items| && used == Payload(cur)
      invariant Filling(items, n, parts, cur, target)
    {
      var it := items[n];
      var need := ItemSize(it);
      if cur != [] && (used + need > ROOM || used >= target) {
        FillNext(items, n, parts, cur, target);
        parts := parts + [cur];
        cur, used := [it], need;
      } else {
        FillMore(items, n, parts, cur, target);
        cur, used := cur + [it], used + need;
      }
      n := n + 1;
    }
    FillDone(items, parts, cur, target);
    parts := parts + [cur];
  }

  // --- Putting the parts in the tree ---

  /** `N'` is `N` with slot `i` replaced and any number of nodes added. */
  ghost predicate Grown(N: Arena, N': Arena, i: nat) {
    |N| <= |N'| && forall s: nat {:trigger At(s)} :: At(s) && s < |N| && s != i ==> N'[s] == N[s]
  }

  /** A lone leaf as a run of siblings. */
  lemma LeafRun(w: World, s: nat, items: Items, k: Key, hi: Key)
    requires s < |w.arena| && w.arena[s] == Node(0, items, [])
    requires items != [] && Payload(items) <= ROOM && Sorted(items) && Within(items, k, hi) && Under(k, hi)
    ensures RunShape(w, [Entry(k, Mem(s))], 0, k, hi)
    ensures RunItems(w.arena, [Entry(k, Mem(s))], 0) == items
    ensures forall u :: RunUses(w.arena, [Entry(k, Mem(s))], 0, u) == Here(Mem(s), u)
  {
    RunOne(w.arena, Entry(k, Mem(s)), 0);
    assert Shape(w, Mem(s), 0, k, hi);
    assert RunKid(w, [Entry(k, Mem(s))], 0, 0, hi);
  }

  /** The leaves `parts` in slots `slots` (none twice), under lower bounds that are their first
      keys, except that the first may be lower. */
  ghost predicate LeavesAt(N: Arena, g: seq<Entry>, parts: seq<Items>) {
    && |g| == |parts|
    && forall j {:trigger g[j]} :: 0 <= j < |g| ==>
         && parts[j] != [] && g[j].child.Mem? && g[j].child.slot < |N| && N[g[j].child.slot] == Node(0, parts[j], [])
         && (if j == 0 then g[j].key <= parts[j][0].key else g[j].key == parts[j][0].key)
  }

  lemma {:induction false} LeavesRun(w: World, g: seq<Entry>, parts: seq<Items>, lo: Key, hi: Key)
    requires g != [] && LeavesAt(w.arena, g, parts) && Fitting(parts) && g[0].key == lo
    requires Sorted(Flat(parts)) && Within(Flat(parts), lo, hi)
    ensures RunShape(w, g, 0, lo, hi)
    ensures RunItems(w.arena, g, 0) == Flat(parts)
    ensures forall b: nat :: RunUses(w.arena, g, 0, Blk(b)) == 0
  {
    var n := |g| - 1;
    var a, e, init, last := g[..n], g[n], parts[..n], parts[n];
    assert g == a + [e];
    RunItemsConcat(w.arena, a, [e], 0);
    forall b: nat ensures RunUses(w.arena, g, 0, Blk(b)) == RunUses(w.arena, a, 0, Blk(b)) + RunUses(w.arena, [e], 0, Blk(b)) {
      RunUsesConcat(w.arena, a, [e], 0, Blk(b));
    }
    SortedEnd(Flat(init), last, lo, hi);
    LeavesInit(w.arena, g, parts);
    if n == 0 {
      LeafRun(w, e.child.slot, last, lo, hi);
    } else {
      LeafRun(w, e.child.slot, last, e.key, hi);
      LeavesRun(w, a, init, lo, e.key);
      JoinRun(w, a, [e], 0, lo, e.key, hi);
    }
  }

  lemma LeavesInit(N: Arena, g: seq<Entry>, parts: seq<Items>)
    requires g != [] && LeavesAt(N, g, parts) && Fitting(parts)
    ensures LeavesAt(N, g[..|g| - 1], parts[..|g| - 1]) && Fitting(parts[..|g| - 1])
    ensures var n := |g| - 1;
            && parts[n] != [] && Payload(parts[n]) <= ROOM
            && g[n].child.Mem? && g[n].child.slot < |N| && N[g[n].child.slot] == Node(0, parts[n], [])
            && (n > 0 ==> g[n].key == parts[n][0].key)
  {
    var n := |g| - 1;
    var a: seq<Entry>, init: seq<Items> := g[..n], parts[..n];
    assert g[n].child.Mem? && parts[n] != [];
    forall j | 0 <= j < n
      ensures init[j] != [] && Payload(init[j]) <= ROOM
      ensures a[j].child.Mem? && a[j].child.slot < |N| && N[a[j].child.slot] == Node(0, init[j], [])
      ensures if j == 0 then a[j].key <= init[j][0].key else a[j].key == init[j][0].key
    {
      assert a[j] == g[j] && init[j] == parts[j];
    }
  }

  lemma SortedEnd(a: Items, b: Items, lo: Key, hi: Key)
    requires Sorted(a + b) && Within(a + b, lo, hi) && b != []
    ensures Sorted(a) && Sorted(b) && Within(b, b[0].key, hi) && Within(b, lo, hi)
    ensures Under(b[0].key, hi) && lo <= b[0].key && (a != [] ==> b[0].key != 0 && lo < b[0].key)
    ensures a != [] ==> Within(a, lo, b[0].key)
  {
    var s := a + b;
    forall i | 0 <= i < |a| ensures a[i].key < b[0].key && a[i].key == s[i].key {
      assert s[i].key < s[|a|].key;
    }
    forall i, j | 0 <= i < j < |b| ensures b[i].key < b[j].key {
      assert s[|a| + i].key < s[|a| + j].key;
    }
    forall i | 0 <= i < |b| ensures b[i] == s[|a| + i] {}
    assert a != [] ==> lo <= s[0].key && s[0] == a[0] && a[0].key < b[0].key;
  }

  /** An interior node in a slot of its own, as a run of siblings. */
  lemma InteriorRun(w: World, s: nat, kids: seq<Entry>, l: nat, k: Key, hi: Key)
    requires s < |w.arena| && w.arena[s] == Node(l + 1, [], kids) && kids != [] && |kids| <= MAX_KIDS
    requires RunShape(w, kids, l, k, hi) && Under(k, hi)
    ensures RunShape(w, [Entry(k, Mem(s))], l + 1, k, hi)
    ensures RunItems(w.arena, [Entry(k, Mem(s))], l + 1) == RunItems(w.arena, kids, l)
    ensures forall u :: RunUses(w.arena, [Entry(k, Mem(s))], l + 1, u) == Here(Mem(s), u) + RunUses(w.arena, kids, l, u)
  {
    var c := Mem(s);
    RunOne(w.arena, Entry(k, c), l + 1);
    assert NodeOf(w.arena, c).kids == kids;
    assert TreeItems(w.arena, c, l + 1) == RunItems(w.arena, kids, l);
    forall u ensures Uses(w.arena, c, l + 1, u) == Here(c, u) + RunUses(w.arena, kids, l, u) {}
    assert Shape(w, c, l + 1, k, hi);
    assert RunKid(w, [Entry(k, c)], 0, l + 1, hi);
  }

  /** An overfull interior node halved: the left half stays, the right half goes in a new slot. */
  lemma Halved(w: World, w': World, i: nat, kids: seq<Entry>, h: nat, l: nat, lo: Key, hi: Key)
    requires RunShape(w, kids, l, lo, hi) && SameDisk(w, w') && Under(lo, hi)
    requires i < |w.arena| && RunUses(w.arena, kids, l, Slot(i)) == 0
    requires 0 < h < |kids| && h <= MAX_KIDS && |kids| - h <= MAX_KIDS
    requires w'.arena == w.arena[i := Node(l + 1, [], kids[..h])] + [Node(l + 1, [], kids[h..])]
    ensures var g := [Entry(lo, Mem(i)), Entry(kids[h].key, Mem(|w.arena|))];
            && RunShape(w', g, l + 1, lo, hi)
            && RunItems(w'.arena, g, l + 1) == RunItems(w.arena, kids, l)
            && forall u :: RunUses(w'.arena, g, l + 1, u) ==
                 Here(Mem(i), u) + Here(Mem(|w.arena|), u) + RunUses(w.arena, kids, l, u)
  {
    RunNoFresh(w, kids, l, lo, hi);
    RunKept(w, w', kids, l, lo, hi);
    SplitRun(w', kids, h, l, lo, hi);
    assert kids[0].key < kids[h].key;
    TwoHalves(w', i, |w.arena|, kids, h, l, lo, hi);
  }

  lemma TwoHalves(w: World, i: nat, j: nat, kids: seq<Entry>, h: nat, l: nat, lo: Key, hi: Key)
    requires 0 < h < |kids| && h <= MAX_KIDS && |kids| - h <= MAX_KIDS && lo < kids[h].key && Under(kids[h].key, hi)
    requires RunShape(w, kids[..h], l, lo, kids[h].key) && RunShape(w, kids[h..], l, kids[h].key, hi)
    requires i < |w.arena| && w.arena[i] == Node(l + 1, [], kids[..h])
    requires j < |w.arena| && w.arena[j] == Node(l + 1, [], kids[h..])
    ensures var g := [Entry(lo, Mem(i)), Entry(kids[h].key, Mem(j))];
            && RunShape(w, g, l + 1, lo, hi)
            && RunItems(w.arena, g, l + 1) == RunItems(w.arena, kids, l)
            && forall u :: RunUses(w.arena, g, l + 1, u) ==
                 Here(Mem(i), u) + Here(Mem(j), u) + RunUses(w.arena, kids, l, u)
  {
    var k := kids[h].key;
    var x, y := [Entry(lo, Mem(i))], [Entry(k, Mem(j))];
    InteriorRun(w, i, kids[..h], l, lo, k);
    InteriorRun(w, j, kids[h..], l, k, hi);
    JoinRun(w, x, y, l + 1, lo, k, hi);
    assert kids[..h] + kids[h..] == kids;
    RunItemsConcat(w.arena, x, y, l + 1);
    RunItemsConcat(w.arena, kids[..h], kids[h..], l);
    forall u ensures RunUses(w.arena, x + y, l + 1, u) == Here(Mem(i), u) + Here(Mem(j), u) + RunUses(w.arena, kids, l, u) {
      RunUsesConcat(w.arena, x, y, l + 1, u);
      RunUsesConcat(w.arena, kids[..h], kids[h..], l, u);
    }
    assert x + y == [Entry(lo, Mem(i)), Entry(k, Mem(j))];
  }

  // --- Finding the place ---

  method BinarySearch(items: Items, key: Key) returns (found: bool, p: nat)
    requires Sorted(items)
    ensures p == Pos(items, key) && (found <==> Hit(items, key) == 1)
  {
    var lo, hi := 0, |items|;
    while lo < hi
      invariant 0 <= lo <= hi <= |items|
      invariant lo > 0 ==> items[lo - 1].key < key
      invariant hi < |items| ==> key <= items[hi].key
    {
      var mid := (lo + hi) / 2;
      if items[mid].key < key {
        lo := mid + 1;
      } else {
        hi := mid;
      }
    }
    PosIs(items, key, lo);
    found, p := lo < |items| && items[lo].key == key, lo;
  }

  /** Every separator up to `p` is at most `key` and every one behind is greater; a key smaller than all of them
      goes with the first. */
  ghost predicate IsChildIndex(kids: seq<Entry>, key: Key, p: nat) {
    && p < |kids|
    && (p > 0 ==> kids[p].key <= key)
    && (p + 1 < |kids| ==> key < kids[p + 1].key)
  }

  method ChildIndex(kids: seq<Entry>, key: Key) returns (p: nat)
    requires kids != [] && forall i, j :: 0 <= i < j < |kids| ==> kids[i].key < kids[j].key
    ensures IsChildIndex(kids, key, p)
  {
    var lo, hi := 0, |kids|;
    while lo < hi
      invariant 0 <= lo <= hi <= |kids|
      invariant lo > 0 ==> kids[lo - 1].key <= key
      invariant hi < |kids| ==> key < kids[hi].key
    {
      var mid := (lo + hi) / 2;
      if kids[mid].key <= key {
        lo := mid + 1;
      } else {
        hi := mid;
      }
    }
    p := if lo == 0 then 0 else lo - 1;
  }

  // --- The states an insertion goes through ---

  /** A node before it is split: well-formed but for its size, which one more item or two more
      children may have pushed past a block. */
  ghost predicate Loose(w: World, i: nat, l: nat, lo: Key, hi: Key) {
    && i < |w.arena| && w.arena[i].level == l && Under(lo, hi)
    && var n := w.arena[i];
       if l == 0 then
         && n.kids == [] && n.items != [] && Sorted(n.items) && Within(n.items, lo, hi)
         && Payload(n.items) <= 2 * ROOM
         && forall j :: 0 <= j < |n.items| ==> ItemSize(n.items[j]) <= ROOM
       else
         && n.items == [] && n.kids != [] && |n.kids| <= 2 * MAX_KIDS
         && RunShape(w, n.kids, l - 1, lo, hi)
         && RunUses(w.arena, n.kids, l - 1, Slot(i)) == 0
  }

  /** Node `i` has become the siblings `g`, which mean the same and occupy the same blocks; only new
      slots were added. */
  ghost predicate SplitInto(N: Arena, N': Arena, i: nat, g: seq<Entry>, l: nat) {
    && Grown(N, N', i)
    && RunItems(N', g, l) == TreeItems(N, Mem(i), l)
    && (forall b: nat {:trigger At(b)} :: At(b) ==> RunUses(N', g, l, Blk(b)) == Uses(N, Mem(i), l, Blk(b)))
    && (forall s: nat {:trigger At(s)} ::
          At(s) ==> if s < |N| then RunUses(N', g, l, Slot(s)) == Uses(N, Mem(i), l, Slot(s)) else RunUses(N', g, l, Slot(s)) <= 1)
  }

  /** Splitting nothing. */
  lemma NotSplit(w: World, i: nat, l: nat, lo: Key, hi: Key)
    requires Loose(w, i, l, lo, hi) && NodeSize(w.arena[i]) <= BLOCK
    ensures RunShape(w, [Entry(lo, Mem(i))], l, lo, hi)
    ensures SplitInto(w.arena, w.arena, i, [Entry(lo, Mem(i))], l)
  {
    assert Shape(w, Mem(i), l, lo, hi);
    assert RunKid(w, [Entry(lo, Mem(i))], 0, l, hi);
    RunOne(w.arena, Entry(lo, Mem(i)), l);
    NoFreshSlots(w, Mem(i), l, lo, hi);
  }

  /** The sibling that gets part `t` when the new slots start at `n`. */
  function NewLeaf(parts: seq<Items>, n: nat, t: nat): Entry
    requires 1 <= t < |parts| && parts[t] != []
  {
    Entry(parts[t][0].key, Mem(n + t - 1))
  }

  lemma NewLeaves(N: Arena, i: nat, parts: seq<Items>, g: seq<Entry>, n: nat)
    requires Fitting(parts) && |g| == |parts| > 0 && g[0].child == Mem(i) && i < n && |N| == n + |g| - 1
    requires parts[0] != [] && g[0].key <= parts[0][0].key && N[i] == Node(0, parts[0], [])
    requires forall t {:trigger g[t]} :: 1 <= t < |g| ==> g[t] == NewLeaf(parts, n, t)
    requires forall t {:trigger parts[t]} :: 1 <= t < |parts| ==> N[n + t - 1] == Node(0, parts[t], [])
    ensures LeavesAt(N, g, parts)
  {
    forall t | 0 <= t < |g|
      ensures parts[t] != [] && g[t].child.Mem? && g[t].child.slot < |N| && N[g[t].child.slot] == Node(0, parts[t], [])
      ensures if t == 0 then g[t].key <= parts[t][0].key else g[t].key == parts[t][0].key
    {
      assert parts[t] != [];
    }
  }

  /** Splitting a leaf into `parts`, the first of which stays in slot `i`. */
  lemma LeafSplit(w: World, w': World, i: nat, parts: seq<Items>, g: seq<Entry>, lo: Key, hi: Key)
    requires i < |w.arena| && w.arena[i] == Node(0, Flat(parts), []) && Grown(w.arena, w'.arena, i)
    requires Sorted(Flat(parts)) && Within(Flat(parts), lo, hi) && Fitting(parts)
    requires |g| == |parts| > 0 && g[0] == Entry(lo, Mem(i)) && |w'.arena| == |w.arena| + |g| - 1
    requires w'.arena[i] == Node(0, parts[0], [])
    requires forall t {:trigger g[t]} :: 1 <= t < |g| ==> g[t] == NewLeaf(parts, |w.arena|, t)
    requires forall t {:trigger parts[t]} :: 1 <= t < |parts| ==> w'.arena[|w.arena| + t - 1] == Node(0, parts[t], [])
    ensures RunShape(w', g, 0, lo, hi)
    ensures SplitInto(w.arena, w'.arena, i, g, 0)
  {
    FlatFirst(parts);
    FirstWithin(Flat(parts), lo, hi);
    NewLeaves(w'.arena, i, parts, g, |w.arena|);
    LeavesRun(w', g, parts, lo, hi);
    LeavesSplitInto(w.arena, w'.arena, i, g);
  }

  lemma FirstWithin(s: Items, lo: Key, hi: Key)
    requires s != [] && Within(s, lo, hi)
    ensures lo <= s[0].key
  {
  }

  lemma LeavesSplitInto(N: Arena, N': Arena, i: nat, g: seq<Entry>)
    requires Grown(N, N', i) && i < |N| && g != [] && g[0].child == Mem(i)
    requires forall t {:trigger g[t]} :: 1 <= t < |g| ==> g[t].child == Mem(|N| + t - 1)
    requires RunItems(N', g, 0) == TreeItems(N, Mem(i), 0)
    requires forall b: nat :: RunUses(N', g, 0, Blk(b)) == 0
    ensures SplitInto(N, N', i, g, 0)
  {
    forall s: nat
      ensures if s < |N| then RunUses(N', g, 0, Slot(s)) == Here(Mem(i), Slot(s)) else RunUses(N', g, 0, Slot(s)) <= 1
    {
      LeafSlots(N', g, i, |N|, s);
    }
  }

  lemma {:induction false} LeafSlots(N: Arena, g: seq<Entry>, i: nat, n: nat, s: nat)
    requires g != [] && g[0].child == Mem(i) && i < n
    requires forall t {:trigger g[t]} :: 1 <= t < |g| ==> g[t].child == Mem(n + t - 1)
    ensures RunUses(N, g, 0, Slot(s)) == if s == i || n <= s < n + |g| - 1 then 1 else 0
  {
    var m := |g| - 1;
    var a, e := g[..m], g[m];
    assert g == a + [e];
    RunUsesConcat(N, a, [e], 0, Slot(s));
    RunOne(N, e, 0);
    if m > 0 {
      LeafSlots(N, a, i, n, s);
    } else {
      assert a == [];
    }
  }

  /** Halving an interior node. */
  lemma InteriorSplit(w: World, w': World, i: nat, h: nat, l: nat, lo: Key, hi: Key)
    requires Loose(w, i, l + 1, lo, hi) && SameDisk(w, w')
    requires var kids := w.arena[i].kids;
             && 0 < h < |kids| && h <= MAX_KIDS && |kids| - h <= MAX_KIDS
             && w'.arena == w.arena[i := Node(l + 1, [], kids[..h])] + [Node(l + 1, [], kids[h..])]
    ensures var g := [Entry(lo, Mem(i)), Entry(w.arena[i].kids[h].key, Mem(|w.arena|))];
            RunShape(w', g, l + 1, lo, hi) && SplitInto(w.arena, w'.arena, i, g, l + 1)
  {
    var kids := w.arena[i].kids;
    Halved(w, w', i, kids, h, l, lo, hi);
    RunNoFresh(w, kids, l, lo, hi);
  }

  // --- Going down to a child and coming back ---

  /** Every block the subtree occupies is in the data area and marked used. */
  ghost predicate InUse(s: Spc, N: Arena, c: Child, l: nat, total: nat) {
    forall b: nat {:trigger At(b)} ::
      At(b) ==> Uses(N, c, l, Blk(b)) <= if DATA_START <= b < total then BitAt(s, b) else 0
  }

  /** Bits and references changed in step: what was freed is exactly what is no longer referred to. */
  ghost predicate Balance(s: Spc, s': Spc, N: Arena, c: Child, N': Arena, g: seq<Entry>, l: nat) {
    forall b: nat {:trigger At(b)} ::
      At(b) ==> BitAt(s', b) + Uses(N, c, l, Blk(b)) == BitAt(s, b) + RunUses(N', g, l, Blk(b))
  }

  ghost predicate RunBalance(s: Spc, s': Spc, N: Arena, kids: seq<Entry>, N': Arena, g: seq<Entry>, l: nat) {
    forall b: nat {:trigger At(b)} ::
      At(b) ==> BitAt(s', b) + RunUses(N, kids, l, Blk(b)) == BitAt(s, b) + RunUses(N', g, l, Blk(b))
  }

  /** What `own` does to the free space. */
  ghost predicate Released(s: Spc, s': Spc, child: Child, total: nat) {
    && SpcOk(s', total) && Step(s, s', total)
    && forall b: nat {:trigger At(b)} :: At(b) ==> BitAt(s', b) + Here(child, Blk(b)) == BitAt(s, b)
  }

  ghost predicate Ready(w: World, s: Spc, c: Child, l: nat, lo: Key, hi: Key, total: nat) {
    && Shape(w, c, l, lo, hi) && Single(w.arena, c, l) && InUse(s, w.arena, c, l, total) && SpcOk(s, total)
  }

  /** A child, as part of its parent, is ready to be worked on. */
  lemma ChildReady(w: World, s: Spc, i: nat, p: nat, l: nat, lo: Key, hi: Key, total: nat)
    requires Ready(w, s, Mem(i), l + 1, lo, hi, total)
    requires p < |NodeOf(w.arena, Mem(i)).kids|
    ensures var kids := NodeOf(w.arena, Mem(i)).kids;
            && Ready(w, s, kids[p].child, l, kids[p].key, Next(kids, p, hi), total)
            && ChildOk(w, kids[p].child)
            && Uses(w.arena, kids[p].child, l, Slot(i)) == 0
  {
    var kids := NodeOf(w.arena, Mem(i)).kids;
    var c := kids[p].child;
    KidShape(w, kids, p, l, lo, hi);
    KidUses(w.arena, kids, p, l);
    forall u ensures Uses(w.arena, c, l, u) + Here(Mem(i), u) <= Uses(w.arena, Mem(i), l + 1, u) {}
    forall t: nat ensures Uses(w.arena, c, l, Slot(t)) <= 1 {
      assert At(t);
      assert Uses(w.arena, Mem(i), l + 1, Slot(t)) <= 1;
    }
    forall b: nat ensures Uses(w.arena, c, l, Blk(b)) <= if DATA_START <= b < total then BitAt(s, b) else 0 {
      assert At(b);
      assert Uses(w.arena, Mem(i), l + 1, Blk(b)) <= if DATA_START <= b < total then BitAt(s, b) else 0;
    }
    assert At(i);
  }

  /** A disk node ready to be copied: its block is a marked data block. */
  lemma DiskReady(w: World, s: Spc, c: Child, l: nat, lo: Key, hi: Key, total: nat)
    requires Ready(w, s, c, l, lo, hi, total) && c.Disk?
    ensures DATA_START <= c.bp.block < total && c.bp.block < |s.bits| && s.bits[c.bp.block]
  {
    assert At(c.bp.block);
    assert Uses(w.arena, c, l, Blk(c.bp.block)) >= 1;
  }

  /** The child, copied into memory, is ready too. */
  lemma OwnedReady(w: World, w': World, s: Spc, s': Spc, child: Child, c: nat, i: nat, l: nat, lo: Key, lo': Key,
                   hi: Key, total: nat)
    requires Ready(w, s, child, l, lo, hi, total) && Uses(w.arena, child, l, Slot(i)) == 0
    requires CopiedTo(w.arena, w'.arena, child, c, i) && SameDisk(w, w') && Released(s, s', child, total)
    requires lo' <= lo
    ensures Ready(w', s', Mem(c), l, lo', hi, total)
    ensures TreeItems(w'.arena, Mem(c), l) == TreeItems(w.arena, child, l)
    ensures forall b: nat {:trigger At(b)} ::
              At(b) ==> Uses(w'.arena, Mem(c), l, Blk(b)) + Here(child, Blk(b)) == Uses(w.arena, child, l, Blk(b))
    ensures forall t: nat {:trigger At(t)} ::
              At(t) && t < |w.arena| && Uses(w.arena, child, l, Slot(t)) == 0 ==> Uses(w'.arena, Mem(c), l, Slot(t)) == 0
  {
    Copied(w, w', child, c, i, l, lo, hi);
    Widen(w', Mem(c), l, lo, hi, lo', hi);
    NoFreshSlots(w, child, l, lo, hi);
    forall b: nat ensures Uses(w'.arena, Mem(c), l, Blk(b)) <= if DATA_START <= b < total then BitAt(s', b) else 0 {
      assert At(b);
      assert Uses(w.arena, child, l, Blk(b)) <= if DATA_START <= b < total then BitAt(s, b) else 0;
    }
    OwnedSlots(w.arena, w'.arena, child, c, i, l);
  }

  lemma OwnedSlots(N: Arena, N': Arena, child: Child, c: nat, i: nat, l: nat)
    requires Single(N, child, l) && CopiedTo(N, N', child, c, i)
    requires forall t: nat :: t >= |N| ==> Uses(N, child, l, Slot(t)) == 0
    requires forall u :: Uses(N', Mem(c), l, u) + Here(child, u) == Uses(N, child, l, u) + Here(Mem(c), u)
    ensures Single(N', Mem(c), l)
    ensures forall t: nat {:trigger At(t)} ::
              At(t) && t < |N| && Uses(N, child, l, Slot(t)) == 0 ==> Uses(N', Mem(c), l, Slot(t)) == 0
  {
    forall t: nat
      ensures Uses(N', Mem(c), l, Slot(t)) <= 1
      ensures t < |N| && Uses(N, child, l, Slot(t)) == 0 ==> Uses(N', Mem(c), l, Slot(t)) == 0
    {
      assert At(t);
      assert Uses(N, child, l, Slot(t)) <= 1;
      assert child.Mem? ==> Uses(N, child, l, Slot(c)) >= 1;
    }
  }

  /** Siblings `m` under node `i` have become the siblings `g`: memory outside `m` and slot `i` is as
      it was, and `g` uses none of it. */
  ghost predicate Turned(w: World, w': World, m: seq<Entry>, g: seq<Entry>, i: nat, l: nat) {
    && SameDisk(w, w') && |w.arena| <= |w'.arena| && Unshared(w'.arena, g, l)
    && RunUses(w'.arena, g, l, Slot(i)) == 0
    && forall t: nat {:trigger At(t)} :: At(t) && t < |w.arena| && t != i && RunUses(w.arena, m, l, Slot(t)) == 0 ==>
         w'.arena[t] == w.arena[t] && RunUses(w'.arena, g, l, Slot(t)) == 0
  }

  /** The same, seen from the parent: all its children `kids` have become `kids'`. */
  ghost predicate Rebuilt(w: World, w': World, kids: seq<Entry>, kids': seq<Entry>, i: nat, l: nat, lo: Key, hi: Key) {
    && RunShape(w', kids', l, lo, hi) && Turned(w, w', kids, kids', i, l)
  }

  /** Once the parent's own slot is rewritten, what came of some of its children (`m`, between `a`
      and `b`) is what came of all. */
  lemma Rebuild(w: World, w': World, w'': World, s: Spc, s': Spc, i: nat, a: seq<Entry>, m: seq<Entry>, b: seq<Entry>,
                g: seq<Entry>, n: Node, k: Key, l: nat, lo: Key, hi: Key)
    requires i < |w.arena| && RunShape(w, a + m + b, l, lo, hi) && Unshared(w.arena, a + m + b, l) && m != []
    requires RunUses(w.arena, a + m + b, l, Slot(i)) == 0
    requires Turned(w, w', m, g, i, l) && SameDisk(w', w'') && w''.arena == w'.arena[i := n]
    requires RunShape(w', g, l, k, NextKey(b, hi)) && lo <= k <= m[0].key && (a != [] ==> k == m[0].key)
    requires RunBalance(s, s', w.arena, m, w'.arena, g, l)
    ensures Rebuilt(w, w'', a + m + b, a + g + b, i, l, lo, hi)
    ensures RunItems(w''.arena, a + g + b, l) ==
            RunItems(w.arena, a, l) + RunItems(w'.arena, g, l) + RunItems(w.arena, b, l)
    ensures RunBalance(s, s', w.arena, a + m + b, w''.arena, a + g + b, l)
  {
    RunKept(w', w'', g, l, k, NextKey(b, hi));
    RunThree(w.arena, a, m, b, l);
    RebuildBeside(w, w', w'', i, a, m, b, g, n, l, lo, hi);
    Replaced(w, w'', a, m, b, i, g, l, k, lo, hi);
    RebuildTurned(w, w', w'', i, a, m, b, g, n, l, lo, hi);
  }

  lemma RebuildBeside(w: World, w': World, w'': World, i: nat, a: seq<Entry>, m: seq<Entry>, b: seq<Entry>,
                      g: seq<Entry>, n: Node, l: nat, lo: Key, hi: Key)
    requires i < |w.arena| && RunShape(w, a + m + b, l, lo, hi) && Unshared(w.arena, a + m + b, l) && m != []
    requires RunUses(w.arena, a + m + b, l, Slot(i)) == 0
    requires Turned(w, w', m, g, i, l) && SameDisk(w', w'') && w''.arena == w'.arena[i := n]
    ensures Beside(w, w'', a, m, b, i, l, lo, hi)
  {
  }

  lemma RebuildTurned(w: World, w': World, w'': World, i: nat, a: seq<Entry>, m: seq<Entry>, b: seq<Entry>,
                      g: seq<Entry>, n: Node, l: nat, lo: Key, hi: Key)
    requires i < |w.arena| && RunShape(w, a + m + b, l, lo, hi) && Unshared(w.arena, a + m + b, l)
    requires RunUses(w.arena, a + m + b, l, Slot(i)) == 0
    requires Turned(w, w', m, g, i, l) && SameDisk(w', w'') && w''.arena == w'.arena[i := n]
    requires forall u :: RunUses(w''.arena, g, l, u) == RunUses(w'.arena, g, l, u)
    requires forall u :: RunUses(w.arena, a + m + b, l, u) ==
               RunUses(w.arena, a, l, u) + RunUses(w.arena, m, l, u) + RunUses(w.arena, b, l, u)
    requires forall u :: RunUses(w''.arena, a + g + b, l, u) ==
               RunUses(w.arena, a, l, u) + RunUses(w''.arena, g, l, u) + RunUses(w.arena, b, l, u)
    ensures Turned(w, w'', a + m + b, a + g + b, i, l)
  {
    var N, N'', kids, kids' := w.arena, w''.arena, a + m + b, a + g + b;
    RunNoFresh(w, kids, l, lo, hi);
    forall t: nat ensures RunUses(N'', kids', l, Slot(t)) <= 1 {
      assert At(t);
      assert RunUses(N, kids, l, Slot(t)) <= 1;
      assert RunUses(w'.arena, g, l, Slot(t)) <= 1;
      if t < |N| && t != i && RunUses(N, m, l, Slot(t)) == 0 {
        assert w'.arena[t] == N[t];
      }
    }
    forall t: nat | t < |N| && t != i && RunUses(N, kids, l, Slot(t)) == 0
      ensures N''[t] == N[t] && RunUses(N'', kids', l, Slot(t)) == 0
    {
      assert At(t);
      assert RunUses(N, m, l, Slot(t)) == 0;
      assert w'.arena[t] == N[t];
    }
  }

  /** A child copied into slot `c` and then turned into `g`, seen from before the copy. */
  lemma ChildTurned(w: World, w': World, w'': World, e: Entry, c: nat, g: seq<Entry>, i: nat, l: nat)
    requires i < |w.arena| && Uses(w.arena, e.child, l, Slot(i)) == 0
    requires CopiedTo(w.arena, w'.arena, e.child, c, i) && SameDisk(w, w') && SameDisk(w', w'')
    requires forall t: nat {:trigger At(t)} ::
               At(t) && t < |w.arena| && Uses(w.arena, e.child, l, Slot(t)) == 0 ==> Uses(w'.arena, Mem(c), l, Slot(t)) == 0
    requires Kept(w'.arena, w''.arena, Mem(c), g, l) && Unshared(w''.arena, g, l)
    ensures Turned(w, w'', [e], g, i, l)
  {
    RunOne(w.arena, e, l);
    assert At(i);
    assert Uses(w'.arena, Mem(c), l, Slot(i)) == 0;
    assert w''.arena[i] == w'.arena[i];
    forall t: nat | t < |w.arena| && t != i && RunUses(w.arena, [e], l, Slot(t)) == 0
      ensures w''.arena[t] == w.arena[t] && RunUses(w''.arena, g, l, Slot(t)) == 0
    {
      assert At(t);
      assert Uses(w'.arena, Mem(c), l, Slot(t)) == 0;
      assert w'.arena[t] == w.arena[t];
    }
  }

  lemma ChildBalance(s: Spc, s': Spc, s'': Spc, N: Arena, N': Arena, N'': Arena, e: Entry, c: nat, g: seq<Entry>,
                     l: nat, total: nat)
    requires Released(s, s', e.child, total) && Balance(s', s'', N', Mem(c), N'', g, l)
    requires forall b: nat {:trigger At(b)} ::
               At(b) ==> Uses(N', Mem(c), l, Blk(b)) + Here(e.child, Blk(b)) == Uses(N, e.child, l, Blk(b))
    ensures RunBalance(s, s'', N, [e], N'', g, l)
  {
    RunOne(N, e, l);
    forall b: nat ensures BitAt(s'', b) + RunUses(N, [e], l, Blk(b)) == BitAt(s, b) + RunUses(N'', g, l, Blk(b)) {
      assert At(b);
      assert BitAt(s', b) + Here(e.child, Blk(b)) == BitAt(s, b);
    }
  }

  // --- Insertion ---

  /** Node `i` with an item put under it, as the siblings `g`. */
  ghost predicate Inserted(w: World, w': World, s: Spc, s': Spc, i: nat, g: seq<Entry>, key: Key, data: Data, l: nat,
                           lo: Key, hi: Key, total: nat) {
    && RunShape(w', g, l, lo, hi)
    && RunItems(w'.arena, g, l) == Put(TreeItems(w.arena, Mem(i), l), key, data)
    && Became(w, w', s, s', i, g, l, total)
  }

  /** Node `i` has become the siblings `g`, touching nothing else and keeping the books. */
  ghost predicate Became(w: World, w': World, s: Spc, s': Spc, i: nat, g: seq<Entry>, l: nat, total: nat) {
    && SameDisk(w, w') && Unshared(w'.arena, g, l)
    && Kept(w.arena, w'.arena, Mem(i), g, l)
    && Balance(s, s', w.arena, Mem(i), w'.arena, g, l)
    && Step(s, s', total)
  }

  /** Node `i` changed in place and then split. */
  lemma ThenSplit(w: World, w': World, w'': World, s: Spc, s': Spc, i: nat, g: seq<Entry>, l: nat, total: nat)
    requires i < |w.arena| <= |w'.arena| && SameDisk(w, w') && SameDisk(w', w'')
    requires Step(s, s', total) && Single(w'.arena, Mem(i), l)
    requires forall t: nat {:trigger At(t)} :: At(t) && t < |w.arena| && Uses(w.arena, Mem(i), l, Slot(t)) == 0 ==>
               w'.arena[t] == w.arena[t] && Uses(w'.arena, Mem(i), l, Slot(t)) == 0
    requires forall b: nat {:trigger At(b)} ::
               At(b) ==> BitAt(s', b) + Uses(w.arena, Mem(i), l, Blk(b)) == BitAt(s, b) + Uses(w'.arena, Mem(i), l, Blk(b))
    requires SplitInto(w'.arena, w''.arena, i, g, l)
    ensures Became(w, w'', s, s', i, g, l, total)
  {
    forall t: nat ensures RunUses(w''.arena, g, l, Slot(t)) <= 1 {
      assert At(t);
      assert Uses(w'.arena, Mem(i), l, Slot(t)) <= 1;
    }
    forall t: nat | t < |w.arena| && Uses(w.arena, Mem(i), l, Slot(t)) == 0
      ensures w''.arena[t] == w.arena[t] && RunUses(w''.arena, g, l, Slot(t)) == 0
    {
      assert At(t);
      assert w'.arena[t] == w.arena[t];
      assert RunUses(w''.arena, g, l, Slot(t)) == Uses(w'.arena, Mem(i), l, Slot(t));
      assert Uses(w.arena, Mem(i), l, Slot(i)) > 0;
    }
    forall b: nat
      ensures BitAt(s', b) + Uses(w.arena, Mem(i), l, Blk(b)) == BitAt(s, b) + RunUses(w''.arena, g, l, Blk(b))
    {
      assert At(b);
      assert RunUses(w''.arena, g, l, Blk(b)) == Uses(w'.arena, Mem(i), l, Blk(b));
    }
  }

  /** The same for an interior node, in terms of its children. */
  lemma RebuiltThenSplit(w: World, w': World, w'': World, s: Spc, s': Spc, i: nat, kids: seq<Entry>, kids': seq<Entry>,
                         g: seq<Entry>, l: nat, lo: Key, hi: Key, total: nat)
    requires i < |w.arena| && w.arena[i] == Node(l + 1, [], kids) && i < |w'.arena|
    requires w'.arena[i] == Node(l + 1, [], kids')
    requires Rebuilt(w, w', kids, kids', i, l, lo, hi) && Step(s, s', total) && SameDisk(w', w'')
    requires RunBalance(s, s', w.arena, kids, w'.arena, kids', l)
    requires SplitInto(w'.arena, w''.arena, i, g, l + 1)
    ensures Became(w, w'', s, s', i, g, l + 1, total)
  {
    var c := Mem(i);
    forall u ensures Uses(w.arena, c, l + 1, u) == Here(c, u) + RunUses(w.arena, kids, l, u) {}
    forall u ensures Uses(w'.arena, c, l + 1, u) == Here(c, u) + RunUses(w'.arena, kids', l, u) {}
    forall t: nat ensures Uses(w'.arena, c, l + 1, Slot(t)) <= 1 {
      assert At(t);
      assert RunUses(w'.arena, kids', l, Slot(t)) <= 1;
    }
    forall t: nat | t < |w.arena| && Uses(w.arena, c, l + 1, Slot(t)) == 0
      ensures w'.arena[t] == w.arena[t] && Uses(w'.arena, c, l + 1, Slot(t)) == 0
    {
      assert At(t);
      assert RunUses(w.arena, kids, l, Slot(t)) == 0;
      assert w'.arena[t] == w.arena[t];
    }
    ThenSplit(w, w', w'', s, s', i, g, l + 1, total);
  }

  /** What the two ways of putting an item in a leaf come to. */
  lemma PutInPlace(s: Items, k: Key, d: Data)
    ensures var p := Pos(s, k);
            Put(s, k, d) == if Hit(s, k) == 1 then s[p := Item(k, d)] else s[..p] + [Item(k, d)] + s[p..]
  {
    if Hit(s, k) == 1 {
      Update(s, Pos(s, k), Item(k, d));
    }
  }

  lemma PayloadPut(s: Items, k: Key, d: Data)
    ensures Payload(Put(s, k, d)) <= Payload(s) + ItemSize(Item(k, d))
    ensures Put(s, k, d) != []
  {
    var p, x := Pos(s, k), Item(k, d);
    PayloadPush(s[..p], x);
    PayloadConcat(s[..p] + [x], s[p + Hit(s, k)..]);
    PayloadCut(s, k);
    PayloadConcat(s[..p], s[p + Hit(s, k)..]);
  }

  lemma PayloadCut(s: Items, k: Key)
    ensures Payload(Cut(s, k)) <= Payload(s)
  {
    var p := Pos(s, k);
    PayloadConcat(s[..p], s[p + Hit(s, k)..]);
    if Hit(s, k) == 1 {
      PayloadAround(s, p);
    } else {
      Halves(s, p);
    }
  }

  lemma {:induction false} ItemFits(s: Items, j: nat)
    requires j < |s|
    ensures ItemSize(s[j]) <= Payload(s)
  {
    PayloadAround(s, j);
  }

  lemma PutFits(s: Items, k: Key, d: Data)
    requires Sorted(s) && Payload(s) <= ROOM && ItemSize(Item(k, d)) <= ROOM
    ensures forall j :: 0 <= j < |Put(s, k, d)| ==> ItemSize(Put(s, k, d)[j]) <= ROOM
  {
    forall j | 0 <= j < |Put(s, k, d)| ensures ItemSize(Put(s, k, d)[j]) <= ROOM {
      if j != Pos(s, k) {
        var i := PutFrom(s, k, d, j);
        ItemFits(s, i);
      }
    }
  }

  lemma PutWithin(s: Items, k: Key, d: Data, lo: Key, hi: Key)
    requires Sorted(s) && Within(s, lo, hi) && lo <= k && Under(k, hi)
    ensures Within(Put(s, k, d), lo, hi)
  {
    var t := Put(s, k, d);
    forall j | 0 <= j < |t| ensures lo <= t[j].key && Under(t[j].key, hi) {
      if j != Pos(s, k) {
        var i := PutFrom(s, k, d, j);
      }
    }
  }

  /** A leaf with one item more, before it is split. */
  lemma LeafLoose(w: World, w': World, i: nat, key: Key, data: Data, lo: Key, hi: Key)
    requires Shape(w, Mem(i), 0, lo, hi) && lo <= key && Under(key, hi) && SameDisk(w, w')
    requires ITEM_HEADER + DataSize(data) <= ROOM
    requires w'.arena == w.arena[i := Node(0, Put(w.arena[i].items, key, data), [])]
    ensures Loose(w', i, 0, lo, hi)
  {
    var s := w.arena[i].items;
    PutSorted(s, key, data);
    PutWithin(s, key, data, lo, hi);
    PayloadPut(s, key, data);
    PutFits(s, key, data);
  }

  /** What an interior node that is ready to be worked on says about its children. */
  lemma InteriorFacts(w: World, s: Spc, i: nat, l: nat, lo: Key, hi: Key, total: nat)
    requires Ready(w, s, Mem(i), l + 1, lo, hi, total)
    ensures var kids := w.arena[i].kids;
            && w.arena[i] == Node(l + 1, [], kids) && kids != [] && |kids| <= MAX_KIDS
            && RunShape(w, kids, l, lo, hi) && Unshared(w.arena, kids, l)
            && RunUses(w.arena, kids, l, Slot(i)) == 0
            && TreeItems(w.arena, Mem(i), l + 1) == RunItems(w.arena, kids, l)
  {
    var kids := w.arena[i].kids;
    forall t: nat ensures RunUses(w.arena, kids, l, Slot(t)) + Here(Mem(i), Slot(t)) <= 1 {
      assert At(t);
      assert Uses(w.arena, Mem(i), l + 1, Slot(t)) <= 1;
    }
    assert At(i) && Here(Mem(i), Slot(i)) == 1;
  }

  /** The bounds a key gives the child it belongs under. */
  lemma ChildBounds(kids: seq<Entry>, key: Key, p: nat, lo: Key, hi: Key)
    requires KeysOk(kids, lo, hi) && IsChildIndex(kids, key, p) && lo <= key && Under(key, hi)
    ensures var k, next := if key < kids[p].key then key else kids[p].key, Next(kids, p, hi);
            && lo <= k <= kids[p].key && k <= key && Under(key, next) && Under(k, hi)
            && (p > 0 ==> k == kids[p].key)
            && next == NextKey(kids[p + 1..], hi)
  {
    assert p + 1 < |kids| ==> kids[p + 1..][0] == kids[p + 1];
  }

  /** A child of node `i` (the entry `e`, in slot `c` once copied) became the siblings `g`. */
  ghost predicate ChildBecame(w0: World, w1: World, w2: World, s0: Spc, s1: Spc, s2: Spc, i: nat, e: Entry, c: nat,
                              g: seq<Entry>, l: nat, total: nat) {
    && CopiedTo(w0.arena, w1.arena, e.child, c, i) && SameDisk(w0, w1) && Released(s0, s1, e.child, total)
    && Became(w1, w2, s1, s2, c, g, l, total)
  }

  /** Back in an interior node: its children, with what became of child `p` in its place. */
  lemma BackUp(w0: World, w1: World, w2: World, w3: World, s0: Spc, s1: Spc, s2: Spc, i: nat, p: nat, c: nat,
               g: seq<Entry>, n: Node, k: Key, l: nat, lo: Key, hi: Key, total: nat)
    requires Ready(w0, s0, Mem(i), l + 1, lo, hi, total) && p < |w0.arena[i].kids|
    requires ChildBecame(w0, w1, w2, s0, s1, s2, i, w0.arena[i].kids[p], c, g, l, total)
    requires SameDisk(w2, w3) && w3.arena == w2.arena[i := n]
    requires RunShape(w2, g, l, k, Next(w0.arena[i].kids, p, hi))
    requires lo <= k <= w0.arena[i].kids[p].key && (p > 0 ==> k == w0.arena[i].kids[p].key)
    ensures var kids := w0.arena[i].kids;
            var kids' := kids[..p] + g + kids[p + 1..];
            && Rebuilt(w0, w3, kids, kids', i, l, lo, hi)
            && RunBalance(s0, s2, w0.arena, kids, w3.arena, kids', l)
            && RunItems(w3.arena, kids', l) ==
                 RunItems(w0.arena, kids[..p], l) + RunItems(w2.arena, g, l) + RunItems(w0.arena, kids[p + 1..], l)
            && Step(s0, s2, total)
  {
    var kids := w0.arena[i].kids;
    var a, e, b := kids[..p], kids[p], kids[p + 1..];
    InteriorFacts(w0, s0, i, l, lo, hi, total);
    ChildReady(w0, s0, i, p, l, lo, hi, total);
    OwnedReady(w0, w1, s0, s1, e.child, c, i, l, e.key, e.key, Next(kids, p, hi), total);
    ChildTurned(w0, w1, w2, e, c, g, i, l);
    ChildBalance(s0, s1, s2, w0.arena, w1.arena, w2.arena, e, c, g, l, total);
    StepTrans(s0, s1, s2, total);
    assert kids == a + [e] + b;
    assert NextKey(b, hi) == Next(kids, p, hi);
    Rebuild(w0, w2, w3, s0, s2, i, a, [e], b, g, n, k, l, lo, hi);
  }

  /** The items of a run, around child `p`, and where `key` falls among them. */
  lemma ItemsAround(w: World, kids: seq<Entry>, p: nat, key: Key, l: nat, lo: Key, hi: Key)
    requires RunShape(w, kids, l, lo, hi) && IsChildIndex(kids, key, p)
    ensures var a, m, b := RunItems(w.arena, kids[..p], l), TreeItems(w.arena, kids[p].child, l), RunItems(w.arena,
                                    kids[p + 1..], l);
            RunItems(w.arena, kids, l) == a + m + b && Sorted(a + m + b) && Below(a, key) && Above(b, key)
  {
    RunAround(w.arena, kids, p, l);
    RunOrdered(w, kids, l, lo, hi);
    SplitRun(w, kids, p, l, lo, hi);
    RunOrdered(w, kids[..p], l, lo, kids[p].key);
    if p == 0 {
      assert kids[..p] == [];
    }
    if p + 1 < |kids| {
      SplitRun(w, kids, p + 1, l, lo, hi);
      RunOrdered(w, kids[p + 1..], l, kids[p + 1].key, hi);
    } else {
      assert kids[p + 1..] == [];
    }
  }

  /** Inserting under child `p` is inserting in the whole. */
  lemma InsertedItems(w: World, kids: seq<Entry>, p: nat, key: Key, data: Data, l: nat, lo: Key, hi: Key)
    requires RunShape(w, kids, l, lo, hi) && IsChildIndex(kids, key, p)
    ensures RunItems(w.arena, kids[..p], l) + Put(TreeItems(w.arena, kids[p].child, l), key, data) + RunItems(w.arena, kids[p + 1..], l)
            == Put(RunItems(w.arena, kids, l), key, data)
  {
    ItemsAround(w, kids, p, key, l, lo, hi);
    LocalPut(RunItems(w.arena, kids[..p], l), TreeItems(w.arena, kids[p].child, l),
             RunItems(w.arena, kids[p + 1..], l), key, data);
  }

  lemma RebuiltLoose(w: World, w': World, kids: seq<Entry>, kids': seq<Entry>, i: nat, l: nat, lo: Key, hi: Key)
    requires Rebuilt(w, w', kids, kids', i, l, lo, hi) && Under(lo, hi)
    requires i < |w'.arena| && w'.arena[i] == Node(l + 1, [], kids') && kids' != [] && |kids'| <= 2 * MAX_KIDS
    ensures Loose(w', i, l + 1, lo, hi)
  {
  }

  /** Node `i` is an interior node still, with other children: they hold `items`, and the books are
      kept. */
  ghost predicate Grafted(w: World, w': World, s: Spc, s': Spc, i: nat, l: nat, lo: Key, hi: Key, items: Items,
                          total: nat) {
    && i < |w.arena| && i < |w'.arena|
    && w.arena[i] == Node(l + 1, [], w.arena[i].kids) && w'.arena[i] == Node(l + 1, [], w'.arena[i].kids)
    && Rebuilt(w, w', w.arena[i].kids, w'.arena[i].kids, i, l, lo, hi)
    && Step(s, s', total)
    && RunBalance(s, s', w.arena, w.arena[i].kids, w'.arena, w'.arena[i].kids, l)
    && RunItems(w'.arena, w'.arena[i].kids, l) == items
  }

  lemma InPlace<T>(s: seq<T>, p: nat, x: T, more: seq<T>)
    requires p < |s|
    ensures s[p := x][..p + 1] + more + s[p := x][p + 1..] == s[..p] + ([x] + more) + s[p + 1..]
  {
    assert s[p := x][..p + 1] == s[..p] + [x];
    assert s[p := x][p + 1..] == s[p + 1..];
  }

  /** Back in an interior node after an insertion under its child `p`. */
  lemma InsertedBelow(w0: World, w1: World, w2: World, w3: World, s0: Spc, s1: Spc, s2: Spc, i: nat, p: nat, c: nat,
                      g: seq<Entry>, key: Key, data: Data, k: Key, l: nat, lo: Key, hi: Key, total: nat)
    requires Ready(w0, s0, Mem(i), l + 1, lo, hi, total) && IsChildIndex(w0.arena[i].kids, key, p)
    requires ChildBecame(w0, w1, w2, s0, s1, s2, i, w0.arena[i].kids[p], c, g, l, total)
    requires var kids := w0.arena[i].kids;
             SameDisk(w2, w3) && i < |w2.arena| && w3.arena == w2.arena[i := Node(l + 1, [], kids[..p] + g + kids[p + 1..])]
    requires RunShape(w2, g, l, k, Next(w0.arena[i].kids, p, hi))
    requires lo <= k <= w0.arena[i].kids[p].key && (p > 0 ==> k == w0.arena[i].kids[p].key)
    requires RunItems(w2.arena, g, l) == Put(TreeItems(w1.arena, Mem(c), l), key, data)
    ensures Grafted(w0, w3, s0, s2, i, l, lo, hi, Put(TreeItems(w0.arena, Mem(i), l + 1), key, data), total)
  {
    var kids := w0.arena[i].kids;
    InteriorFacts(w0, s0, i, l, lo, hi, total);
    ChildReady(w0, s0, i, p, l, lo, hi, total);
    Copied(w0, w1, kids[p].child, c, i, l, kids[p].key, Next(kids, p, hi));
    BackUp(w0, w1, w2, w3, s0, s1, s2, i, p, c, g, w3.arena[i], k, l, lo, hi, total);
    InsertedItems(w0, kids, p, key, data, l, lo, hi);
  }

  // --- The root ---

  function FirstKey(n: Node): Option<Key> {
    if n.level == 0 then if n.items == [] then None else Some(n.items[0].key)
    else if n.kids == [] then None else Some(n.kids[0].key)
  }

  /** A lower bound can be raised to the node's first key. */
  lemma Tighten(w: World, c: Child, l: nat, lo: Key, hi: Key)
    requires Shape(w, c, l, lo, hi) && !IsEmpty(NodeOf(w.arena, c))
    ensures FirstKey(NodeOf(w.arena, c)).Some?
    ensures var k := FirstKey(NodeOf(w.arena, c)).value; lo <= k && Under(k, hi) && Shape(w, c, l, k, hi)
  {
    var n := NodeOf(w.arena, c);
    if l == 0 {
      forall j | 0 <= j < |n.items| ensures n.items[0].key <= n.items[j].key {
        OneBefore(n.items, 0, j);
      }
    } else {
      forall j | 0 <= j < |n.kids| ensures RunKid(w, n.kids, j, l - 1, hi) && n.kids[0].key <= n.kids[j].key {}
    }
  }

  /** Siblings under a new root in slot `r`, the first one's lower bound being its first key. */
  lemma NewRoot(w: World, w': World, first: Child, extra: seq<Entry>, k: Key, l: nat)
    requires RunShape(w, [Entry(0, first)] + extra, l, 0, 0) && |extra| < MAX_KIDS
    requires FirstKey(NodeOf(w.arena, first)) == Some(k)
    requires SameDisk(w, w') && w'.arena == w.arena + [Node(l + 1, [], [Entry(k, first)] + extra)]
    requires Unshared(w.arena, [Entry(0, first)] + extra, l)
    ensures var c := Mem(|w.arena|);
            && Shape(w', c, l + 1, 0, 0) && Single(w'.arena, c, l + 1)
            && TreeItems(w'.arena, c, l + 1) == RunItems(w.arena, [Entry(0, first)] + extra, l)
            && forall b: nat {:trigger At(b)} :: At(b) ==>
                 Uses(w'.arena, c, l + 1, Blk(b)) == RunUses(w.arena, [Entry(0, first)] + extra, l, Blk(b))
  {
    var g, g' := [Entry(0, first)] + extra, [Entry(k, first)] + extra;
    RunNoFresh(w, g, l, 0, 0);
    RunKept(w, w', g, l, 0, 0);
    RaiseFirst(w', first, extra, k, l);
    var c := Mem(|w.arena|);
    assert NodeOf(w'.arena, c) == Node(l + 1, [], g');
    assert TreeItems(w'.arena, c, l + 1) == RunItems(w'.arena, g', l);
    forall t: nat ensures Uses(w'.arena, c, l + 1, Slot(t)) <= 1 {
      assert At(t);
      assert Uses(w'.arena, c, l + 1, Slot(t)) == Here(c, Slot(t)) + RunUses(w'.arena, g', l, Slot(t));
    }
    forall b: nat ensures Uses(w'.arena, c, l + 1, Blk(b)) == RunUses(w.arena, g, l, Blk(b)) {
      assert Uses(w'.arena, c, l + 1, Blk(b)) == Here(c, Blk(b)) + RunUses(w'.arena, g', l, Blk(b));
    }
  }

  lemma RaiseFirst(w: World, first: Child, extra: seq<Entry>, k: Key, l: nat)
    requires RunShape(w, [Entry(0, first)] + extra, l, 0, 0)
    requires FirstKey(NodeOf(w.arena, first)) == Some(k)
    ensures var g, g' := [Entry(0, first)] + extra, [Entry(k, first)] + extra;
            && RunShape(w, g', l, 0, 0) && RunItems(w.arena, g', l) == RunItems(w.arena, g, l)
            && forall u :: RunUses(w.arena, g', l, u) == RunUses(w.arena, g, l, u)
  {
    var g, g' := [Entry(0, first)] + extra, [Entry(k, first)] + extra;
    assert g[1..] == extra && g'[1..] == extra;
    KidShape(w, g, 0, l, 0, 0);
    Tighten(w, first, l, 0, Next(g, 0, 0));
    forall j | 1 <= j < |g| ensures g[j] == g'[j] {}
    forall j | 0 <= j < |g'| ensures RunKid(w, g', j, l, 0) {
      assert RunKid(w, g, j, l, 0);
    }
    forall i, j | 0 <= i < j < |g'| ensures g'[i].key < g'[j].key {
      assert j == 1 ==> Next(g, 0, 0) == g[1].key;
      assert g[1].key <= g[j].key;
    }
  }

  ghost predicate RootBalance(s: Spc, s': Spc, N: Arena, c: Child, l: nat, N': Arena, c': Child, l': nat) {
    forall b: nat {:trigger At(b)} :: At(b) ==>
      BitAt(s', b) + Uses(N, c, l, Blk(b)) == BitAt(s, b) + Uses(N', c', l', Blk(b))
  }

  // --- Merging ---

  /** Two neighbours at level `l`, in slots `li` and `ri`, share no slot. */
  ghost predicate Apart(N: Arena, li: nat, ri: nat, l: nat) {
    && li < |N| && ri < |N| && li != ri
    && forall t: nat {:trigger At(t)} :: At(t) ==> Uses(N, Mem(li), l, Slot(t)) + Uses(N, Mem(ri), l, Slot(t)) <= 1
  }

  /** The left one has taken over the right one's items and children. */
  predicate TakenOver(N: Arena, N': Arena, li: nat, ri: nat) {
    && li < |N| && ri < |N|
    && N' == N[ri := EMPTY][li := Node(N[li].level, N[li].items + N[ri].items, N[li].kids + N[ri].kids)]
  }

  lemma MergedLeaves(w: World, w': World, li: nat, ri: nat, lo: Key, mid: Key, hi: Key)
    requires Shape(w, Mem(li), 0, lo, mid) && Shape(w, Mem(ri), 0, mid, hi) && lo <= mid && mid != 0 && Under(mid, hi)
    requires li != ri && TakenOver(w.arena, w'.arena, li, ri) && SameDisk(w, w')
    requires NodeSize(w.arena[li]) + NodeSize(w.arena[ri]) - HEADER <= BLOCK
    ensures Shape(w', Mem(li), 0, lo, hi)
    ensures TreeItems(w'.arena, Mem(li), 0) == TreeItems(w.arena, Mem(li), 0) + TreeItems(w.arena, Mem(ri), 0)
  {
    JoinSorted(w.arena[li].items, w.arena[ri].items, lo, lo, mid, hi);
    PayloadConcat(w.arena[li].items, w.arena[ri].items);
  }

  lemma MergedInterior(w: World, w': World, li: nat, ri: nat, l: nat, lo: Key, mid: Key, hi: Key)
    requires Shape(w, Mem(li), l + 1, lo, mid) && Shape(w, Mem(ri), l + 1, mid, hi) && lo <= mid && mid != 0
    requires Under(mid, hi)
    requires Apart(w.arena, li, ri, l + 1) && TakenOver(w.arena, w'.arena, li, ri) && SameDisk(w, w')
    requires NodeSize(w.arena[li]) + NodeSize(w.arena[ri]) - HEADER <= BLOCK
    ensures Shape(w', Mem(li), l + 1, lo, hi)
    ensures TreeItems(w'.arena, Mem(li), l + 1) == TreeItems(w.arena, Mem(li), l + 1) + TreeItems(w.arena, Mem(ri), l + 1)
    ensures forall u :: Uses(w'.arena, Mem(li), l + 1, u) + Here(Mem(ri), u) ==
              Uses(w.arena, Mem(li), l + 1, u) + Uses(w.arena, Mem(ri), l + 1, u)
  {
    var kl, kr := w.arena[li].kids, w.arena[ri].kids;
    forall t: nat | t == li || t == ri
      ensures RunUses(w.arena, kl, l, Slot(t)) == 0 && RunUses(w.arena, kr, l, Slot(t)) == 0
    {
      assert At(t);
      assert Uses(w.arena, Mem(li), l + 1, Slot(t)) == Here(Mem(li), Slot(t)) + RunUses(w.arena, kl, l, Slot(t));
      assert Uses(w.arena, Mem(ri), l + 1, Slot(t)) == Here(Mem(ri), Slot(t)) + RunUses(w.arena, kr, l, Slot(t));
    }
    RunKept(w, w', kl, l, lo, mid);
    RunKept(w, w', kr, l, mid, hi);
    JoinRun(w', kl, kr, l, lo, mid, hi);
    RunItemsConcat(w'.arena, kl, kr, l);
    forall u ensures Uses(w'.arena, Mem(li), l + 1, u) + Here(Mem(ri), u) ==
                     Uses(w.arena, Mem(li), l + 1, u) + Uses(w.arena, Mem(ri), l + 1, u)
    {
      RunUsesConcat(w'.arena, kl, kr, l, u);
    }
  }

  lemma Merged(w: World, w': World, li: nat, ri: nat, l: nat, lo: Key, mid: Key, hi: Key)
    requires Shape(w, Mem(li), l, lo, mid) && Shape(w, Mem(ri), l, mid, hi) && lo <= mid && mid != 0 && Under(mid, hi)
    requires Apart(w.arena, li, ri, l) && TakenOver(w.arena, w'.arena, li, ri) && SameDisk(w, w')
    requires NodeSize(w.arena[li]) + NodeSize(w.arena[ri]) - HEADER <= BLOCK
    ensures Shape(w', Mem(li), l, lo, hi)
    ensures TreeItems(w'.arena, Mem(li), l) == TreeItems(w.arena, Mem(li), l) + TreeItems(w.arena, Mem(ri), l)
    ensures forall u :: Uses(w'.arena, Mem(li), l, u) + Here(Mem(ri), u) ==
              Uses(w.arena, Mem(li), l, u) + Uses(w.arena, Mem(ri), l, u)
  {
    if l == 0 {
      MergedLeaves(w, w', li, ri, lo, mid, hi);
    } else {
      MergedInterior(w, w', li, ri, l - 1, lo, mid, hi);
    }
  }

  /** A copy in memory occupies what the original did, but for its own place. */
  ghost predicate SameUses(N: Arena, c: Child, N': Arena, c': Child, l: nat) {
    && TreeItems(N', c', l) == TreeItems(N, c, l)
    && forall u {:trigger Uses(N', c', l, u)} :: Uses(N', c', l, u) + Here(c, u) == Uses(N, c, l, u) + Here(c', u)
  }

  /** A lone sibling that nothing happened to. */
  lemma OneKept(w: World, w': World, e: Entry, l: nat, hi: Key)
    requires Shape(w, e.child, l, e.key, hi) && SameDisk(w, w') && |w.arena| <= |w'.arena|
    requires forall s: nat :: s < |w.arena| ==> w'.arena[s] == w.arena[s]
    ensures Shape(w', e.child, l, e.key, hi)
    ensures TreeItems(w'.arena, e.child, l) == TreeItems(w.arena, e.child, l)
    ensures forall u :: Uses(w'.arena, e.child, l, u) == Uses(w.arena, e.child, l, u)
  {
    NoFreshSlots(w, e.child, l, e.key, hi);
    FrameShape(w, w', e.child, l, e.key, hi);
    RunOne(w.arena, e, l);
    RunOne(w'.arena, e, l);
    Frame(w.arena, w'.arena, [e], l);
  }

  /** Two neighbours, both copied into memory. */
  lemma TwoOwned(w0: World, w1: World, w2: World, eL: Entry, eR: Entry, li: nat, ri: nat, l: nat, hi: Key)
    requires Shape(w0, eL.child, l, eL.key, eR.key) && Shape(w0, eR.child, l, eR.key, hi)
    requires Unshared(w0.arena, [eL, eR], l)
    requires CopiedTo(w0.arena, w1.arena, eL.child, li, |w0.arena|) && SameDisk(w0, w1)
    requires CopiedTo(w1.arena, w2.arena, eR.child, ri, |w1.arena|) && SameDisk(w1, w2)
    ensures Shape(w2, Mem(li), l, eL.key, eR.key) && Shape(w2, Mem(ri), l, eR.key, hi)
    ensures SameUses(w0.arena, eL.child, w2.arena, Mem(li), l) && SameUses(w0.arena, eR.child, w2.arena, Mem(ri), l)
    ensures Apart(w2.arena, li, ri, l)
    ensures |w0.arena| <= |w2.arena|
    ensures forall s: nat {:trigger At(s)} :: At(s) && s < |w0.arena| ==> w2.arena[s] == w0.arena[s]
  {
    NoFreshSlots(w0, eL.child, l, eL.key, eR.key);
    NoFreshSlots(w0, eR.child, l, eR.key, hi);
    forall s: nat | s < |w0.arena| ensures w1.arena[s] == w0.arena[s] { assert At(s); }
    forall s: nat | s < |w1.arena| ensures w2.arena[s] == w1.arena[s] { assert At(s); }
    Copied(w0, w1, eL.child, li, |w0.arena|, l, eL.key, eR.key);
    OneKept(w0, w1, eR, l, hi);
    NoFreshSlots(w1, eR.child, l, eR.key, hi);
    Copied(w1, w2, eR.child, ri, |w1.arena|, l, eR.key, hi);
    OneKept(w1, w2, Entry(eL.key, Mem(li)), l, eR.key);
    TwoApart(w0.arena, w2.arena, eL, eR, li, ri, l);
  }

  lemma TwoApart(N: Arena, N': Arena, eL: Entry, eR: Entry, li: nat, ri: nat, l: nat)
    requires Unshared(N, [eL, eR], l) && li < |N'| && ri < |N'|
    requires forall s: nat :: s >= |N| ==> Uses(N, eL.child, l, Slot(s)) == 0 && Uses(N, eR.child, l, Slot(s)) == 0
    requires SameUses(N, eL.child, N', Mem(li), l) && SameUses(N, eR.child, N', Mem(ri), l)
    requires if eL.child.Mem? then li == eL.child.slot < |N| else li == |N|
    requires if eR.child.Mem? then ri == eR.child.slot < |N| else ri >= |N| && (eL.child.Disk? ==> ri > |N|)
    ensures Apart(N', li, ri, l)
  {
    TwoUses(N, eL, eR, l);
    assert At(li);
    forall t: nat ensures Uses(N', Mem(li), l, Slot(t)) + Uses(N', Mem(ri), l, Slot(t)) <= 1 {
      assert At(t);
    }
  }

  lemma TwoUses(N: Arena, eL: Entry, eR: Entry, l: nat)
    ensures RunItems(N, [eL, eR], l) == TreeItems(N, eL.child, l) + TreeItems(N, eR.child, l)
    ensures forall u :: RunUses(N, [eL, eR], l, u) == Uses(N, eL.child, l, u) + Uses(N, eR.child, l, u)
  {
    assert [eL, eR] == [eL] + [eR];
    RunItemsConcat(N, [eL], [eR], l);
    RunOne(N, eL, l);
    RunOne(N, eR, l);
    forall u ensures RunUses(N, [eL, eR], l, u) == Uses(N, eL.child, l, u) + Uses(N, eR.child, l, u) {
      RunUsesConcat(N, [eL], [eR], l, u);
    }
  }

  /** Two neighbours have become one. */
  lemma TwoMerged(w0: World, w2: World, w3: World, s0: Spc, s1: Spc, s2: Spc, eL: Entry, eR: Entry, li: nat, ri: nat,
                  i: nat, l: nat, hi: Key, total: nat)
    requires Unshared(w0.arena, [eL, eR], l) && RunUses(w0.arena, [eL, eR], l, Slot(i)) == 0 && i < |w0.arena|
    requires SameDisk(w0, w2) && SameDisk(w2, w3)
    requires Shape(w2, Mem(li), l, eL.key, eR.key) && Shape(w2, Mem(ri), l, eR.key, hi)
    requires eL.key < eR.key && Under(eR.key, hi)
    requires SameUses(w0.arena, eL.child, w2.arena, Mem(li), l) && SameUses(w0.arena, eR.child, w2.arena, Mem(ri), l)
    requires if eL.child.Mem? then li == eL.child.slot else li >= |w0.arena|
    requires if eR.child.Mem? then ri == eR.child.slot else ri >= |w0.arena|
    requires Apart(w2.arena, li, ri, l) && TakenOver(w2.arena, w3.arena, li, ri)
    requires NodeSize(w2.arena[li]) + NodeSize(w2.arena[ri]) - HEADER <= BLOCK
    requires !IsEmpty(w2.arena[li])
    requires |w0.arena| <= |w2.arena|
    requires forall s: nat {:trigger At(s)} :: At(s) && s < |w0.arena| ==> w2.arena[s] == w0.arena[s]
    requires Released(s0, s1, eL.child, total) && Released(s1, s2, eR.child, total)
    ensures var g := [Entry(eL.key, Mem(li))];
            && RunShape(w3, g, l, eL.key, hi) && Turned(w0, w3, [eL, eR], g, i, l)
            && RunItems(w3.arena, g, l) == RunItems(w0.arena, [eL, eR], l)
            && RunBalance(s0, s2, w0.arena, [eL, eR], w3.arena, g, l)
            && Step(s0, s2, total)
  {
    var e := Entry(eL.key, Mem(li));
    Merged(w2, w3, li, ri, l, eL.key, eR.key, hi);
    TwoUses(w0.arena, eL, eR, l);
    RunOne(w3.arena, e, l);
    assert RunKid(w3, [e], 0, l, hi);
    StepTrans(s0, s1, s2, total);
    MergedTurned(w0.arena, w2.arena, w3.arena, eL, eR, li, ri, i, l);
    forall b: nat ensures BitAt(s2, b) + RunUses(w0.arena, [eL, eR], l, Blk(b)) == BitAt(s0, b) + RunUses(w3.arena, [e], l, Blk(b)) {
      assert At(b);
      assert Uses(w3.arena, Mem(li), l, Blk(b)) + Here(Mem(ri), Blk(b)) ==
             Uses(w2.arena, Mem(li), l, Blk(b)) + Uses(w2.arena, Mem(ri), l, Blk(b));
    }
  }

  lemma MergedTurned(N0: Arena, N2: Arena, N3: Arena, eL: Entry, eR: Entry, li: nat, ri: nat, i: nat, l: nat)
    requires RunUses(N0, [eL, eR], l, Slot(i)) == 0 && i < |N0| <= |N2|
    requires SameUses(N0, eL.child, N2, Mem(li), l) && SameUses(N0, eR.child, N2, Mem(ri), l)
    requires if eL.child.Mem? then li == eL.child.slot else li >= |N0|
    requires if eR.child.Mem? then ri == eR.child.slot else ri >= |N0|
    requires Apart(N2, li, ri, l) && TakenOver(N2, N3, li, ri)
    requires forall s: nat {:trigger At(s)} :: At(s) && s < |N0| ==> N2[s] == N0[s]
    requires forall u :: Uses(N3, Mem(li), l, u) + Here(Mem(ri), u) == Uses(N2, Mem(li), l, u) + Uses(N2, Mem(ri), l, u)
    ensures var g := [Entry(eL.key, Mem(li))];
            && |N0| <= |N3| && Unshared(N3, g, l) && RunUses(N3, g, l, Slot(i)) == 0
            && forall t: nat {:trigger At(t)} :: At(t) && t < |N0| && RunUses(N0, [eL, eR], l, Slot(t)) == 0 ==>
                 N3[t] == N0[t] && RunUses(N3, g, l, Slot(t)) == 0
  {
    var g := [Entry(eL.key, Mem(li))];
    forall t: nat
      ensures RunUses(N3, g, l, Slot(t)) <= 1
      ensures t < |N0| && RunUses(N0, [eL, eR], l, Slot(t)) == 0 ==> N3[t] == N0[t] && RunUses(N3, g, l, Slot(t)) == 0
    {
      MergedAt(N0, N2, N3, eL, eR, li, ri, l, t);
    }
  }

  lemma MergedAt(N0: Arena, N2: Arena, N3: Arena, eL: Entry, eR: Entry, li: nat, ri: nat, l: nat, t: nat)
    requires |N0| <= |N2|
    requires SameUses(N0, eL.child, N2, Mem(li), l) && SameUses(N0, eR.child, N2, Mem(ri), l)
    requires if eL.child.Mem? then li == eL.child.slot else li >= |N0|
    requires if eR.child.Mem? then ri == eR.child.slot else ri >= |N0|
    requires Apart(N2, li, ri, l) && TakenOver(N2, N3, li, ri)
    requires forall s: nat {:trigger At(s)} :: At(s) && s < |N0| ==> N2[s] == N0[s]
    requires forall u :: Uses(N3, Mem(li), l, u) + Here(Mem(ri), u) == Uses(N2, Mem(li), l, u) + Uses(N2, Mem(ri), l, u)
    ensures RunUses(N3, [Entry(eL.key, Mem(li))], l, Slot(t)) <= 1
    ensures t < |N0| && RunUses(N0, [eL, eR], l, Slot(t)) == 0 ==>
              N3[t] == N0[t] && RunUses(N3, [Entry(eL.key, Mem(li))], l, Slot(t)) == 0
  {
    var u := Slot(t);
    TwoUsesAt(N0, eL, eR, l, u);
    RunOne(N3, Entry(eL.key, Mem(li)), l);
    assert At(t);
    assert RunUses(N3, [Entry(eL.key, Mem(li))], l, u) == Uses(N3, Mem(li), l, u);
    MergedSlot(Uses(N0, eL.child, l, u), Uses(N0, eR.child, l, u), Uses(N2, Mem(li), l, u), Uses(N2, Mem(ri), l, u),
               Uses(N3, Mem(li), l, u), eL.child, eR.child, li, ri, |N0|, t);
  }

  lemma TwoUsesAt(N: Arena, eL: Entry, eR: Entry, l: nat, u: Use)
    ensures RunUses(N, [eL, eR], l, u) == Uses(N, eL.child, l, u) + Uses(N, eR.child, l, u)
    ensures eL.child.Mem? && u == Slot(eL.child.slot) ==> Uses(N, eL.child, l, u) > 0
    ensures eR.child.Mem? && u == Slot(eR.child.slot) ==> Uses(N, eR.child, l, u) > 0
  {
    TwoUses(N, eL, eR, l);
  }

  /** One slot's uses before and after a merge. */
  lemma MergedSlot(l0: nat, r0: nat, l2: nat, r2: nat, l3: nat, cl: Child, cr: Child, li: nat, ri: nat, n: nat, t: nat)
    requires l2 + Here(cl, Slot(t)) == l0 + Here(Mem(li), Slot(t))
    requires r2 + Here(cr, Slot(t)) == r0 + Here(Mem(ri), Slot(t))
    requires l3 + Here(Mem(ri), Slot(t)) == l2 + r2 <= 1
    requires if cl.Mem? then li == cl.slot else li >= n
    requires if cr.Mem? then ri == cr.slot else ri >= n
    requires cl.Mem? && cl.slot == t ==> l0 > 0
    requires cr.Mem? && cr.slot == t ==> r0 > 0
    ensures l3 <= 1
    ensures t < n && l0 + r0 == 0 ==> t != li && t != ri && l3 == 0
  {
  }

  /** Children `x` and `x + 1` of node `i` merged: the node means what it did. */
  lemma KidsMerged(w0: World, w1: World, w2: World, w3: World, w4: World, s0: Spc, s1: Spc, s2: Spc, i: nat, x: nat,
                   li: nat, ri: nat, l: nat, lo: Key, hi: Key, total: nat)
    requires Ready(w0, s0, Mem(i), l + 1, lo, hi, total) && x + 1 < |w0.arena[i].kids|
    requires var eL, eR := w0.arena[i].kids[x], w0.arena[i].kids[x + 1];
             && CopiedTo(w0.arena, w1.arena, eL.child, li, |w0.arena|) && SameDisk(w0, w1) && Released(s0, s1, eL.child, total)
             && CopiedTo(w1.arena, w2.arena, eR.child, ri, |w1.arena|) && SameDisk(w1, w2) && Released(s1, s2, eR.child, total)
             && NodeSize(NodeOf(w0.arena, eL.child)) + NodeSize(NodeOf(w0.arena, eR.child)) - HEADER <= BLOCK
    requires TakenOver(w2.arena, w3.arena, li, ri) && SameDisk(w2, w3) && SameDisk(w3, w4)
    requires var kids := w0.arena[i].kids;
             i < |w3.arena| && w4.arena == w3.arena[i := Node(l + 1, [], kids[..x] + [Entry(kids[x].key, Mem(li))] + kids[x + 2..])]
    ensures Grafted(w0, w4, s0, s2, i, l, lo, hi, TreeItems(w0.arena, Mem(i), l + 1), total)
  {
    var kids := w0.arena[i].kids;
    var a, m, b := kids[..x], kids[x..x + 2], kids[x + 2..];
    var eL, eR := kids[x], kids[x + 1];
    assert m == [eL, eR] && kids == a + m + b;
    InteriorFacts(w0, s0, i, l, lo, hi, total);
    KidShape(w0, kids, x, l, lo, hi);
    KidShape(w0, kids, x + 1, l, lo, hi);
    var hi' := Next(kids, x + 1, hi);
    assert NextKey(b, hi) == hi';
    PairUnshared(w0.arena, a, m, b, i, l);
    TwoOwned(w0, w1, w2, eL, eR, li, ri, l, hi');
    CopiesSame(w0, w1, w2, eL, eR, li, ri, l, hi');
    TwoMerged(w0, w2, w3, s0, s1, s2, eL, eR, li, ri, i, l, hi', total);
    Rebuild(w0, w3, w4, s0, s2, i, a, m, b, [Entry(eL.key, Mem(li))], w4.arena[i], eL.key, l, lo, hi);
    RunThree(w0.arena, a, m, b, l);
  }

  lemma PairUnshared(N: Arena, a: seq<Entry>, m: seq<Entry>, b: seq<Entry>, i: nat, l: nat)
    requires Unshared(N, a + m + b, l) && RunUses(N, a + m + b, l, Slot(i)) == 0
    ensures Unshared(N, m, l) && RunUses(N, m, l, Slot(i)) == 0
  {
    RunThree(N, a, m, b, l);
  }

  lemma CopiesSame(w0: World, w1: World, w2: World, eL: Entry, eR: Entry, li: nat, ri: nat, l: nat, hi: Key)
    requires Shape(w0, eR.child, l, eR.key, hi) && Shape(w0, eL.child, l, eL.key, eR.key)
    requires CopiedTo(w0.arena, w1.arena, eL.child, li, |w0.arena|)
    requires CopiedTo(w1.arena, w2.arena, eR.child, ri, |w1.arena|)
    requires Apart(w2.arena, li, ri, l)
    ensures w2.arena[li] == NodeOf(w0.arena, eL.child) && w2.arena[ri] == NodeOf(w0.arena, eR.child)
    ensures if eL.child.Mem? then li == eL.child.slot else li >= |w0.arena|
    ensures if eR.child.Mem? then ri == eR.child.slot else ri >= |w0.arena|
  {
    assert At(li);
    assert eR.child.Mem? ==> At(eR.child.slot);
  }

  /** What grafting comes to for the node as a whole. */
  lemma GraftedBecame(w: World, w': World, s: Spc, s': Spc, i: nat, l: nat, lo: Key, hi: Key, items: Items, total: nat)
    requires Grafted(w, w', s, s', i, l, lo, hi, items, total)
    ensures Became(w, w', s, s', i, [Entry(lo, Mem(i))], l + 1, total)
    ensures TreeItems(w'.arena, Mem(i), l + 1) == items
    ensures 0 < |w'.arena[i].kids| <= MAX_KIDS ==> Shape(w', Mem(i), l + 1, lo, hi)
    ensures w'.arena[i].kids == [] ==> IsEmpty(w'.arena[i])
  {
    var e := Entry(lo, Mem(i));
    RunOne(w'.arena, e, l + 1);
    assert TreeItems(w'.arena, Mem(i), l + 1) == RunItems(w'.arena, w'.arena[i].kids, l);
    GraftedSplit(w, w', s, s', i, e, l, l + 1, lo, hi, items, total);
  }

  lemma GraftedSplit(w: World, w': World, s: Spc, s': Spc, i: nat, e: Entry, l: nat, m: nat, lo: Key, hi: Key,
                     items: Items, total: nat)
    requires Grafted(w, w', s, s', i, l, lo, hi, items, total) && e.child == Mem(i)
    requires m == l + 1 && RunItems(w'.arena, [e], m) == TreeItems(w'.arena, Mem(i), m)
    requires forall u :: RunUses(w'.arena, [e], m, u) == Uses(w'.arena, Mem(i), m, u)
    ensures Became(w, w', s, s', i, [e], l + 1, total)
  {
    var kids, kids' := w.arena[i].kids, w'.arena[i].kids;
    forall t: nat | t >= |w'.arena| ensures Uses(w'.arena, Mem(i), l + 1, Slot(t)) <= 1 {
      assert At(t);
      assert Uses(w'.arena, Mem(i), l + 1, Slot(t)) == Here(Mem(i), Slot(t)) + RunUses(w'.arena, kids', l, Slot(t));
    }
    RebuiltThenSplit(w, w', w', s, s', i, kids, kids', [e], l, lo, hi, total);
  }

  /** One change after another to node `i`. */
  lemma BecameTrans(w: World, w': World, w'': World, s: Spc, s': Spc, s'': Spc, i: nat, e: Entry, l: nat, total: nat)
    requires e.child == Mem(i)
    requires Became(w, w', s, s', i, [e], l, total) && Became(w', w'', s', s'', i, [e], l, total)
    ensures Became(w, w'', s, s'', i, [e], l, total)
  {
    StepTrans(s, s', s'', total);
    RunOne(w'.arena, e, l);
    forall t: nat | t < |w.arena| && Uses(w.arena, Mem(i), l, Slot(t)) == 0
      ensures w''.arena[t] == w.arena[t] && RunUses(w''.arena, [e], l, Slot(t)) == 0
    {
      assert At(t);
      assert RunUses(w'.arena, [e], l, Slot(t)) == Uses(w'.arena, Mem(i), l, Slot(t));
    }
    forall b: nat ensures BitAt(s'', b) + Uses(w.arena, Mem(i), l, Blk(b)) == BitAt(s, b) + RunUses(w''.arena, [e], l, Blk(b)) {
      assert At(b);
      assert RunUses(w'.arena, [e], l, Blk(b)) == Uses(w'.arena, Mem(i), l, Blk(b));
    }
  }

  /** And the node can be worked on again. */
  lemma BecameReady(w: World, w': World, s: Spc, s': Spc, i: nat, e: Entry, l: nat, lo: Key, hi: Key, total: nat)
    requires Ready(w, s, Mem(i), l, lo, hi, total) && e.child == Mem(i) && SpcOk(s', total)
    requires Became(w, w', s, s', i, [e], l, total) && Shape(w', Mem(i), l, lo, hi)
    ensures Ready(w', s', Mem(i), l, lo, hi, total)
  {
    RunOne(w'.arena, e, l);
    StepSafe(s, s', total);
    forall t: nat ensures Uses(w'.arena, Mem(i), l, Slot(t)) <= 1 {
      assert At(t);
      assert RunUses(w'.arena, [e], l, Slot(t)) == Uses(w'.arena, Mem(i), l, Slot(t));
    }
    forall b: nat ensures Uses(w'.arena, Mem(i), l, Blk(b)) <= if DATA_START <= b < total then BitAt(s', b) else 0 {
      assert At(b);
      assert RunUses(w'.arena, [e], l, Blk(b)) == Uses(w'.arena, Mem(i), l, Blk(b));
      assert b < DATA_START || total <= b ==> BitAt(s', b) == BitAt(s, b);
    }
  }

  // --- Removal ---

  /** The subtree at `i` has the old items without `key`, and may have none left at all. */
  ghost predicate TreeRemoved(w: World, w': World, s: Spc, s': Spc, i: nat, key: Key, l: nat, lo: Key, hi: Key,
                              total: nat) {
    && i < |w'.arena| && (IsEmpty(w'.arena[i]) || Shape(w', Mem(i), l, lo, hi))
    && TreeItems(w'.arena, Mem(i), l) == Cut(TreeItems(w.arena, Mem(i), l), key)
    && Became(w, w', s, s', i, [Entry(lo, Mem(i))], l, total)
  }

  /** An empty child takes nothing with it when it is dropped. */
  lemma DropEmpty(w: World, w': World, s: Spc, s': Spc, c: nat, k: Key, l: nat, total: nat)
    requires Became(w, w', s, s', c, [Entry(k, Mem(c))], l, total)
    requires c < |w'.arena| && IsEmpty(w'.arena[c])
    ensures Became(w, w', s, s', c, [], l, total)
    ensures TreeItems(w'.arena, Mem(c), l) == []
  {
    var e := Entry(k, Mem(c));
    RunOne(w'.arena, e, l);
    forall b: nat ensures BitAt(s', b) + Uses(w.arena, Mem(c), l, Blk(b)) == BitAt(s, b) + RunUses(w'.arena, [], l, Blk(b)) {
      assert At(b);
      assert RunUses(w'.arena, [e], l, Blk(b)) == Uses(w'.arena, Mem(c), l, Blk(b)) == 0;
    }
  }

  /** Removing under child `p` is removing from the whole. */
  lemma RemovedItems(w: World, kids: seq<Entry>, p: nat, key: Key, l: nat, lo: Key, hi: Key)
    requires RunShape(w, kids, l, lo, hi) && IsChildIndex(kids, key, p)
    ensures RunItems(w.arena, kids[..p], l) + Cut(TreeItems(w.arena, kids[p].child, l), key) + RunItems(w.arena, kids[p + 1..], l)
            == Cut(RunItems(w.arena, kids, l), key)
    ensures Find(TreeItems(w.arena, kids[p].child, l), key) == Find(RunItems(w.arena, kids, l), key)
  {
    ItemsAround(w, kids, p, key, l, lo, hi);
    LocalCut(RunItems(w.arena, kids[..p], l), TreeItems(w.arena, kids[p].child, l),
             RunItems(w.arena, kids[p + 1..], l), key);
    LocalFind(RunItems(w.arena, kids[..p], l), TreeItems(w.arena, kids[p].child, l),
              RunItems(w.arena, kids[p + 1..], l), key);
  }

  /** What is left of a child after a removal under it. */
  function Remains(N: Arena, c: nat, k: Key): seq<Entry>
    requires c < |N|
  {
    if IsEmpty(N[c]) then [] else [Entry(k, Mem(c))]
  }

  lemma RemainsBecame(w: World, w': World, s: Spc, s': Spc, c: nat, key: Key, k: Key, l: nat, hi: Key, total: nat)
    requires TreeRemoved(w, w', s, s', c, key, l, k, hi, total) && Under(k, hi)
    ensures var g := Remains(w'.arena, c, k);
            && Became(w, w', s, s', c, g, l, total) && RunShape(w', g, l, k, hi)
            && RunItems(w'.arena, g, l) == Cut(TreeItems(w.arena, Mem(c), l), key)
  {
    var e := Entry(k, Mem(c));
    if IsEmpty(w'.arena[c]) {
      DropEmpty(w, w', s, s', c, k, l, total);
    } else {
      RunOne(w'.arena, e, l);
      assert RunKid(w', [e], 0, l, hi);
    }
  }

  /** Back in an interior node after a removal under its child `p`, which is dropped if empty. */
  lemma RemovedBelow(w0: World, w1: World, w2: World, w3: World, s0: Spc, s1: Spc, s2: Spc, i: nat, p: nat, c: nat,
                     key: Key, l: nat, lo: Key, hi: Key, total: nat)
    requires Ready(w0, s0, Mem(i), l + 1, lo, hi, total) && IsChildIndex(w0.arena[i].kids, key, p)
    requires var kids := w0.arena[i].kids;
             && CopiedTo(w0.arena, w1.arena, kids[p].child, c, i) && SameDisk(w0, w1) && Released(s0, s1, kids[p].child, total)
             && TreeRemoved(w1, w2, s1, s2, c, key, l, kids[p].key, Next(kids, p, hi), total)
             && i < |w2.arena| && SameDisk(w2, w3)
             && w3.arena == w2.arena[i := Node(l + 1, [], kids[..p] + Remains(w2.arena, c, kids[p].key) + kids[p + 1..])]
    ensures Grafted(w0, w3, s0, s2, i, l, lo, hi, Cut(TreeItems(w0.arena, Mem(i), l + 1), key), total)
    ensures Find(TreeItems(w1.arena, Mem(c), l), key) == Find(TreeItems(w0.arena, Mem(i), l + 1), key)
  {
    var kids := w0.arena[i].kids;
    var k, next := kids[p].key, Next(kids, p, hi);
    InteriorFacts(w0, s0, i, l, lo, hi, total);
    ChildReady(w0, s0, i, p, l, lo, hi, total);
    Copied(w0, w1, kids[p].child, c, i, l, k, next);
    RemainsBecame(w1, w2, s1, s2, c, key, k, l, next, total);
    BackUp(w0, w1, w2, w3, s0, s1, s2, i, p, c, Remains(w2.arena, c, k), w3.arena[i], k, l, lo, hi, total);
    RemovedItems(w0, kids, p, key, l, lo, hi);
  }

  /** A child to be copied is in memory, or on disk at a marked data block. */
  lemma KidMarked(w: World, s: Spc, i: nat, x: nat, l: nat, lo: Key, hi: Key, total: nat)
    requires Ready(w, s, Mem(i), l + 1, lo, hi, total) && x < |w.arena[i].kids|
    ensures var e := w.arena[i].kids[x];
            && Shape(w, e.child, l, e.key, Next(w.arena[i].kids, x, hi))
            && ChildOk(w, e.child) && DiskMarked(s, e.child, total)
  {
    var kids := w.arena[i].kids;
    ChildReady(w, s, i, x, l, lo, hi, total);
    if kids[x].child.Disk? {
      DiskReady(w, s, kids[x].child, l, kids[x].key, Next(kids, x, hi), total);
    }
  }

  /** It still is once its left neighbour has been copied. */
  lemma NextMarked(w: World, w': World, s: Spc, s': Spc, i: nat, x: nat, li: nat, l: nat, lo: Key, hi: Key, total: nat)
    requires Ready(w, s, Mem(i), l + 1, lo, hi, total) && x + 1 < |w.arena[i].kids|
    requires CopiedTo(w.arena, w'.arena, w.arena[i].kids[x].child, li, |w.arena|) && SameDisk(w, w')
    requires Released(s, s', w.arena[i].kids[x].child, total)
    ensures ChildOk(w', w.arena[i].kids[x + 1].child) && DiskMarked(s', w.arena[i].kids[x + 1].child, total)
  {
    var eR := w.arena[i].kids[x + 1];
    KidMarked(w, s, i, x + 1, l, lo, hi, total);
    if eR.child.Disk? {
      PairDistinct(w, s, i, x, l, lo, hi, total);
      assert At(eR.child.bp.block);
    }
  }

  ghost predicate DiskMarked(s: Spc, c: Child, total: nat) {
    c.Disk? ==> DATA_START <= c.bp.block < total && BitAt(s, c.bp.block) == 1
  }

  lemma PairDistinct(w: World, s: Spc, i: nat, x: nat, l: nat, lo: Key, hi: Key, total: nat)
    requires Ready(w, s, Mem(i), l + 1, lo, hi, total) && x + 1 < |w.arena[i].kids|
    requires w.arena[i].kids[x + 1].child.Disk? && ChildOk(w, w.arena[i].kids[x + 1].child)
    ensures Here(w.arena[i].kids[x].child, Blk(w.arena[i].kids[x + 1].child.bp.block)) == 0
  {
    var kids := w.arena[i].kids;
    var eL, eR, b := kids[x], kids[x + 1], kids[x + 1].child.bp.block;
    assert kids == kids[..x] + [eL, eR] + kids[x + 2..];
    RunThree(w.arena, kids[..x], [eL, eR], kids[x + 2..], l);
    TwoUses(w.arena, eL, eR, l);
    assert At(b);
    assert Uses(w.arena, Mem(i), l + 1, Blk(b)) == RunUses(w.arena, kids, l, Blk(b));
    assert Uses(w.arena, eR.child, l, Blk(b)) >= 1;
    assert Uses(w.arena, eL.child, l, Blk(b)) >= Here(eL.child, Blk(b));
    assert RunUses(w.arena, kids, l, Blk(b)) >= Uses(w.arena, eL.child, l, Blk(b)) + Uses(w.arena, eR.child, l, Blk(b));
  }

  /** The value found under child `p`, once copied, is the one found in the whole. */
  lemma FoundBelow(w0: World, w1: World, s: Spc, i: nat, p: nat, c: nat, key: Key, l: nat, lo: Key, hi: Key, total: nat)
    requires Ready(w0, s, Mem(i), l + 1, lo, hi, total) && IsChildIndex(w0.arena[i].kids, key, p)
    requires CopiedTo(w0.arena, w1.arena, w0.arena[i].kids[p].child, c, i) && SameDisk(w0, w1)
    ensures Find(TreeItems(w1.arena, Mem(c), l), key) == Find(TreeItems(w0.arena, Mem(i), l + 1), key)
  {
    var kids := w0.arena[i].kids;
    InteriorFacts(w0, s, i, l, lo, hi, total);
    ChildReady(w0, s, i, p, l, lo, hi, total);
    Copied(w0, w1, kids[p].child, c, i, l, kids[p].key, Next(kids, p, hi));
    RemovedItems(w0, kids, p, key, l, lo, hi);
  }

  /** A removal that left the node with children, as a removal from the node. */
  lemma GraftedRemoved(w: World, w': World, s: Spc, s': Spc, i: nat, key: Key, l: nat, lo: Key, hi: Key, total: nat)
    requires Grafted(w, w', s, s', i, l, lo, hi, Cut(TreeItems(w.arena, Mem(i), l + 1), key), total)
    requires |w'.arena[i].kids| <= MAX_KIDS
    ensures TreeRemoved(w, w', s, s', i, key, l + 1, lo, hi, total)
  {
    GraftedBecame(w, w', s, s', i, l, lo, hi, Cut(TreeItems(w.arena, Mem(i), l + 1), key), total);
  }

  /** And after that a merge. */
  lemma RemovedThenMerged(w: World, w': World, w'': World, s: Spc, s': Spc, s'': Spc, i: nat, key: Key, l: nat,
                          lo: Key, hi: Key, total: nat)
    requires TreeRemoved(w, w', s, s', i, key, l + 1, lo, hi, total)
    requires Grafted(w', w'', s', s'', i, l, lo, hi, TreeItems(w'.arena, Mem(i), l + 1), total)
    requires 0 < |w''.arena[i].kids| <= MAX_KIDS
    ensures TreeRemoved(w, w'', s, s'', i, key, l + 1, lo, hi, total)
  {
    GraftedBecame(w', w'', s', s'', i, l, lo, hi, TreeItems(w'.arena, Mem(i), l + 1), total);
    BecameTrans(w, w', w'', s, s', s'', i, Entry(lo, Mem(i)), l + 1, total);
  }

  lemma RemovedReady(w: World, w': World, s: Spc, s': Spc, i: nat, key: Key, l: nat, lo: Key, hi: Key, total: nat)
    requires Ready(w, s, Mem(i), l, lo, hi, total) && TreeRemoved(w, w', s, s', i, key, l, lo, hi, total)
    requires !IsEmpty(w'.arena[i])
    ensures Ready(w', s', Mem(i), l, lo, hi, total)
  {
    StepSafe(s, s', total);
    BecameReady(w, w', s, s', i, Entry(lo, Mem(i)), l, lo, hi, total);
  }

  lemma CutFits(s: Items, key: Key, lo: Key, hi: Key)
    requires Sorted(s) && Within(s, lo, hi)
    ensures Sorted(Cut(s, key)) && Within(Cut(s, key), lo, hi) && Payload(Cut(s, key)) <= Payload(s)
  {
    var t := Cut(s, key);
    CutSorted(s, key);
    PayloadCut(s, key);
    forall j | 0 <= j < |t| ensures lo <= t[j].key && Under(t[j].key, hi) {
      var i := CutFrom(s, key, j);
    }
  }

  /** Removing from a leaf. */
  lemma LeafRemoved(w: World, w': World, s: Spc, i: nat, key: Key, lo: Key, hi: Key, total: nat)
    requires Ready(w, s, Mem(i), 0, lo, hi, total) && SameDisk(w, w')
    requires w'.arena == w.arena[i := Node(0, Cut(w.arena[i].items, key), [])]
    ensures TreeRemoved(w, w', s, s, i, key, 0, lo, hi, total)
  {
    CutFits(w.arena[i].items, key, lo, hi);
    RunOne(w'.arena, Entry(lo, Mem(i)), 0);
    StepNone(s, total);
  }

  /** The copies of two neighbours, and their parent, are in three different slots. */
  lemma PairDiffers(w0: World, w1: World, w2: World, s: Spc, i: nat, x: nat, li: nat, ri: nat, l: nat, lo: Key,
                    hi: Key, total: nat)
    requires Ready(w0, s, Mem(i), l + 1, lo, hi, total) && x + 1 < |w0.arena[i].kids|
    requires CopiedTo(w0.arena, w1.arena, w0.arena[i].kids[x].child, li, |w0.arena|) && SameDisk(w0, w1)
    requires CopiedTo(w1.arena, w2.arena, w0.arena[i].kids[x + 1].child, ri, |w1.arena|) && SameDisk(w1, w2)
    ensures i < |w2.arena| && li < |w2.arena| && ri < |w2.arena| && li != ri && li != i && ri != i
    ensures w2.arena[li].level == w2.arena[ri].level
  {
    var kids := w0.arena[i].kids;
    var eL, eR := kids[x], kids[x + 1];
    InteriorFacts(w0, s, i, l, lo, hi, total);
    KidShape(w0, kids, x, l, lo, hi);
    KidShape(w0, kids, x + 1, l, lo, hi);
    var a, m, b := kids[..x], kids[x..x + 2], kids[x + 2..];
    assert m == [eL, eR] && kids == a + m + b;
    PairUnshared(w0.arena, a, m, b, i, l);
    TwoOwned(w0, w1, w2, eL, eR, li, ri, l, Next(kids, x + 1, hi));
    CopiesSame(w0, w1, w2, eL, eR, li, ri, l, Next(kids, x + 1, hi));
    TwoUses(w0.arena, eL, eR, l);
    assert eL.child.Mem? ==> Uses(w0.arena, eL.child, l, Slot(li)) > 0;
    assert eR.child.Mem? ==> Uses(w0.arena, eR.child, l, Slot(ri)) > 0;
  }

  lemma DropAt<T>(s: seq<T>, p: nat, x: T)
    requires p < |s|
    ensures s[p := x][..p] + s[p := x][p + 1..] == s[..p] + [] + s[p + 1..]
    ensures s[p := x] == s[..p] + [x] + s[p + 1..]
  {
  }

  lemma DropSecond<T>(s: seq<T>, x: nat, y: T)
    requires x + 1 < |s|
    ensures s[x := y][..x + 1] + s[x := y][x + 2..] == s[..x] + [y] + s[x + 2..]
  {
    assert s[x := y][..x + 1] == s[..x] + [y];
    assert s[x := y][x + 2..] == s[x + 2..];
  }

  /** An interior root with a single child and that child have the same items. */
  lemma OneKid(w: World, s: Spc, r: nat, l: nat, total: nat)
    requires Ready(w, s, Mem(r), l + 1, 0, 0, total) && |w.arena[r].kids| == 1
    ensures var c := w.arena[r].kids[0].child;
            && Ready(w, s, c, l, 0, 0, total)
            && TreeItems(w.arena, c, l) == TreeItems(w.arena, Mem(r), l + 1)
            && forall b: nat {:trigger At(b)} :: At(b) ==>
                 Uses(w.arena, c, l, Blk(b)) == Uses(w.arena, Mem(r), l + 1, Blk(b))
  {
    var kids := w.arena[r].kids;
    var e := kids[0];
    ChildReady(w, s, r, 0, l, 0, 0, total);
    Widen(w, e.child, l, e.key, 0, 0, 0);
    InteriorFacts(w, s, r, l, 0, 0, total);
    assert kids == [e];
    RunOne(w.arena, e, l);
    forall b: nat ensures Uses(w.arena, e.child, l, Blk(b)) == Uses(w.arena, Mem(r), l + 1, Blk(b)) {
      assert Uses(w.arena, Mem(r), l + 1, Blk(b)) == RunUses(w.arena, kids, l, Blk(b));
    }
  }

  /** The change an operation makes to the tree as a whole: what the tree refers to and what is
      marked used change in step. */
  ghost predicate Moved(w: World, w': World, s: Spc, s': Spc, c: Child, c': Child, l: nat, l': nat, total: nat) {
    && SameDisk(w, w') && Step(s, s', total)
    && RootBalance(s, s', w.arena, c, l, w'.arena, c', l')
  }

  lemma MovedTrans(w: World, w': World, w'': World, s: Spc, s': Spc, s'': Spc, c: Child, c': Child, c'': Child, l: nat,
                   l': nat, l'': nat, total: nat)
    requires Moved(w, w', s, s', c, c', l, l', total) && Moved(w', w'', s', s'', c', c'', l', l'', total)
    ensures Moved(w, w'', s, s'', c, c'', l, l'', total)
  {
    StepTrans(s, s', s'', total);
  }

  /** Copying the root into memory. */
  lemma RootOwned(w: World, w': World, s: Spc, s': Spc, c: Child, r: nat, l: nat, total: nat)
    requires Ready(w, s, c, l, 0, 0, total)
    requires CopiedTo(w.arena, w'.arena, c, r, |w.arena|) && SameDisk(w, w') && Released(s, s', c, total)
    ensures Ready(w', s', Mem(r), l, 0, 0, total)
    ensures TreeItems(w'.arena, Mem(r), l) == TreeItems(w.arena, c, l)
    ensures Moved(w, w', s, s', c, Mem(r), l, l, total)
  {
    NoFreshSlots(w, c, l, 0, 0);
    OwnedReady(w, w', s, s', c, r, |w.arena|, l, 0, 0, 0, total);
    forall b: nat ensures BitAt(s', b) + Uses(w.arena, c, l, Blk(b)) == BitAt(s, b) + Uses(w'.arena, Mem(r), l, Blk(b)) {
      assert At(b);
    }
  }

  /** Changing the tree under a root in memory that stays the root. */
  lemma RootBecame(w: World, w': World, s: Spc, s': Spc, r: nat, l: nat, total: nat)
    requires Became(w, w', s, s', r, [Entry(0, Mem(r))], l, total)
    ensures Moved(w, w', s, s', Mem(r), Mem(r), l, l, total)
  {
    RunOne(w'.arena, Entry(0, Mem(r)), l);
    forall b: nat ensures BitAt(s', b) + Uses(w.arena, Mem(r), l, Blk(b)) == BitAt(s, b) + Uses(w'.arena, Mem(r), l, Blk(b)) {
      assert At(b);
      assert RunUses(w'.arena, [Entry(0, Mem(r))], l, Blk(b)) == Uses(w'.arena, Mem(r), l, Blk(b));
    }
  }

  /** A root over the parts of a split has the items of all the parts. */
  lemma RootSplit(w: World, w': World, w'': World, s: Spc, s': Spc, r: nat, extra: seq<Entry>, k: Key, l: nat,
                  total: nat)
    requires Became(w, w', s, s', r, [Entry(0, Mem(r))] + extra, l, total) && SpcOk(s, total)
    requires RunShape(w', [Entry(0, Mem(r))] + extra, l, 0, 0) && |extra| <= 2
    requires InUse(s, w.arena, Mem(r), l, total)
    requires r < |w'.arena| && FirstKey(w'.arena[r]) == Some(k)
    requires SameDisk(w', w'') && w''.arena == w'.arena + [Node(l + 1, [], [Entry(k, Mem(r))] + extra)]
    ensures var c := Mem(|w'.arena|);
            && Ready(w'', s', c, l + 1, 0, 0, total)
            && TreeItems(w''.arena, c, l + 1) == RunItems(w'.arena, [Entry(0, Mem(r))] + extra, l)
            && Moved(w, w'', s, s', Mem(r), c, l, l + 1, total)
  {
    var c := Mem(|w'.arena|);
    NewRoot(w', w'', Mem(r), extra, k, l);
    StepSafe(s, s', total);
    forall b: nat
      ensures BitAt(s', b) + Uses(w.arena, Mem(r), l, Blk(b)) == BitAt(s, b) + Uses(w''.arena, c, l + 1, Blk(b))
      ensures Uses(w''.arena, c, l + 1, Blk(b)) <= if DATA_START <= b < total then BitAt(s', b) else 0
    {
      assert At(b);
      assert b < DATA_START || total <= b ==> BitAt(s', b) == BitAt(s, b);
    }
  }

  /** Two trees that hold the same and occupy the same blocks. */
  ghost predicate SameTree(N: Arena, c: Child, l: nat, N': Arena, c': Child, l': nat) {
    && TreeItems(N', c', l') == TreeItems(N, c, l)
    && forall b: nat {:trigger At(b)} :: At(b) ==> Uses(N', c', l', Blk(b)) == Uses(N, c, l, Blk(b))
  }

  lemma EmptyTree(N: Arena, r: nat, l: nat)
    requires r < |N| && IsEmpty(N[r])
    ensures TreeItems(N, Mem(r), l) == [] && forall b: nat :: Uses(N, Mem(r), l, Blk(b)) == 0
  {
  }

  lemma EmptyReady(w: World, s: Spc, r: nat, total: nat)
    requires r < |w.arena| && w.arena[r] == Node(0, [], []) && SpcOk(s, total)
    ensures Ready(w, s, Mem(r), 0, 0, 0, total)
  {
  }

  // --- Scanning ---

  /** The same place found by looking through the entries in order. */
  method LastNotAfter(kids: seq<Entry>, start: Key) returns (first: nat)
    requires kids != [] && forall i, j :: 0 <= i < j < |kids| ==> kids[i].key < kids[j].key
    ensures IsChildIndex(kids, start, first)
  {
    first := 0;
    var i := 0;
    while i < |kids|
      invariant 0 <= i <= |kids| && first == if i == 0 then 0 else i - 1
      invariant first > 0 ==> kids[first].key <= start
    {
      if kids[i].key <= start {
        first := i;
      } else {
        break;
      }
      i := i + 1;
    }
  }

  method ScanLeaf(items: Items, start: Key, more: Item -> bool) returns (out: Items, go: bool)
    ensures (out, go) == Visit(items, start, more)
  {
    out, go := [], true;
    var j := 0;
    while j < |items|
      invariant 0 <= j <= |items| && go
      invariant Visit(items[..j], start, more) == (out, true)
    {
      var it := items[j];
      assert items[..j + 1] == items[..j] + [it];
      VisitConcat(items[..j], [it], start, more);
      VisitOne(it, start, more);
      assert out + [] == out;
      if it.key >= start {
        out := out + [it];
        if !more(it) {
          assert items == items[..j + 1] + items[j + 1..];
          VisitConcat(items[..j + 1], items[j + 1..], start, more);
          return out, false;
        }
      }
      j := j + 1;
    }
    assert items[..j] == items;
  }

  lemma VisitOne(it: Item, start: Key, more: Item -> bool)
    ensures Visit([it], start, more) ==
            if it.key < start then ([], true) else ([it], more(it))
  {
    assert [it][1..] == [];
    assert [it] + [] == [it];
  }

  /** What a scan sees under a node: what it sees under its children from the right one on. */
  lemma {:induction false} VisitFrom(w: World, kids: seq<Entry>, first: nat, start: Key, more: Item -> bool, l: nat, lo: Key, hi: Key)
    requires RunShape(w, kids, l, lo, hi) && IsChildIndex(kids, start, first)
    ensures Visit(RunItems(w.arena, kids, l), start, more) == Visit(RunItems(w.arena, kids[first..], l), start, more)
  {
    var a, b := kids[..first], kids[first..];
    assert kids == a + b;
    RunItemsConcat(w.arena, a, b, l);
    if first > 0 {
      SplitRun(w, kids, first, l, lo, hi);
      RunOrdered(w, a, l, lo, kids[first].key);
    }
    var x, y := RunItems(w.arena, a, l), RunItems(w.arena, b, l);
    VisitSkips(x, start, more);
    VisitConcat(x, y, start, more);
    assert [] + Visit(y, start, more).0 == Visit(y, start, more).0;
  }

  /** One more child scanned. */
  lemma {:induction false} VisitNext(N: Arena, ks: seq<Entry>, j: nat, out: Items, start: Key, more: Item -> bool, l: nat)
    requires j < |ks| && Visit(RunItems(N, ks[..j], l), start, more) == (out, true)
    ensures var v := Visit(TreeItems(N, ks[j].child, l), start, more);
            && Visit(RunItems(N, ks[..j + 1], l), start, more) == (out + v.0, v.1)
            && (!v.1 ==> Visit(RunItems(N, ks, l), start, more) == (out + v.0, false))
  {
    assert ks[..j + 1] == ks[..j] + [ks[j]];
    RunOne(N, ks[j], l);
    VisitTwo(N, ks[..j], [ks[j]], start, more, l);
    assert ks == ks[..j + 1] + ks[j + 1..];
    VisitTwo(N, ks[..j + 1], ks[j + 1..], start, more, l);
  }

  /** A scan of two runs of siblings. */
  lemma {:induction false} VisitTwo(N: Arena, a: seq<Entry>, b: seq<Entry>, start: Key, more: Item -> bool, l: nat)
    ensures var v, w := Visit(RunItems(N, a, l), start, more), Visit(RunItems(N, b, l), start, more);
            Visit(RunItems(N, a + b, l), start, more) == if v.1 then (v.0 + w.0, w.1) else v
  {
    RunItemsConcat(N, a, b, l);
    VisitConcat(RunItems(N, a, l), RunItems(N, b, l), start, more);
  }
}
