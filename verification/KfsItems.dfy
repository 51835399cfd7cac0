/** Sorted runs of items: what the B+tree means. */
module KfsItems {
  import opened Wrappers
  import opened KfsTypes

  type Items = seq<Item>

  ghost predicate Sorted(s: Items) {
    forall i, j :: 0 <= i < j < |s| ==> s[i].key < s[j].key
  }

  /** `hi == 0` means there is no upper bound. */
  predicate Under(k: Key, hi: Key) {
    hi == 0 || k < hi
  }

  ghost predicate Within(s: Items, lo: Key, hi: Key) {
    forall i :: 0 <= i < |s| ==> lo <= s[i].key && Under(s[i].key, hi)
  }

  ghost predicate Below(s: Items, k: Key) {
    forall i :: 0 <= i < |s| ==> s[i].key < k
  }

  ghost predicate Above(s: Items, k: Key) {
    forall i :: 0 <= i < |s| ==> k < s[i].key
  }

  ghost predicate IsPos(s: Items, k: Key, p: nat) {
    p <= |s| && (forall i :: 0 <= i < p ==> s[i].key < k) && (p < |s| ==> k <= s[p].key)
  }

  /** How many leading items have smaller keys. */
  ghost function Pos(s: Items, k: Key): (p: nat)
    ensures p <= |s|
  {
    if s == [] || k <= s[0].key then 0 else 1 + Pos(s[1..], k)
  }

  lemma {:induction false} PosSpec(s: Items, k: Key)
    ensures IsPos(s, k, Pos(s, k))
  {
    if s != [] && s[0].key < k {
      PosSpec(s[1..], k);
      var p := Pos(s[1..], k);
      forall i | 0 <= i < 1 + p ensures s[i].key < k {
        assert i > 0 ==> s[i] == s[1..][i - 1];
      }
    }
  }

  /** Whether there is an item with that key, as a number. */
  ghost function Hit(s: Items, k: Key): (h: nat)
    ensures Pos(s, k) + h <= |s| && h <= 1
  {
    var p := Pos(s, k);
    if p < |s| && s[p].key == k then 1 else 0
  }

  ghost function Put(s: Items, k: Key, d: Data): Items {
    s[..Pos(s, k)] + [Item(k, d)] + s[Pos(s, k) + Hit(s, k)..]
  }

  ghost function Cut(s: Items, k: Key): Items {
    s[..Pos(s, k)] + s[Pos(s, k) + Hit(s, k)..]
  }

  ghost function Find(s: Items, k: Key): Option<Data> {
    if Hit(s, k) == 1 then Some(s[Pos(s, k)].data) else None
  }

  function ToMap(s: Items): map<Key, Data> {
    if s == [] then map[] else ToMap(s[..|s| - 1])[s[|s| - 1].key := s[|s| - 1].data]
  }

  /** The items a scan hands its callback: from the first key at or after `start`, up to and
      including the first one the callback turns down (`more` is false). */
  function Visit(s: Items, start: Key, more: Item -> bool): (r: (Items, bool)) {
    if s == [] then ([], true)
    else if s[0].key < start then Visit(s[1..], start, more)
    else if !more(s[0]) then ([s[0]], false)
    else var rest := Visit(s[1..], start, more); ([s[0]] + rest.0, rest.1)
  }

  // --- Positions and concatenation ---

  lemma OneBefore(s: Items, i: nat, j: nat)
    requires Sorted(s) && i <= j < |s|
    ensures s[i].key <= s[j].key
  {
  }

  lemma PosIs(s: Items, k: Key, p: nat)
    requires Sorted(s) && p <= |s|
    requires p > 0 ==> s[p - 1].key < k
    requires p < |s| ==> k <= s[p].key
    ensures Pos(s, k) == p
  {
    PosSpec(s, k);
  }

  lemma PosConcat(a: Items, m: Items, b: Items, k: Key)
    requires Sorted(a + m + b) && Below(a, k) && Above(b, k)
    ensures Pos(a + m + b, k) == |a| + Pos(m, k) && Hit(a + m + b, k) == Hit(m, k)
  {
    var s, p := a + m + b, Pos(m, k);
    PosSpec(m, k);
    assert |a| + p > 0 ==> s[|a| + p - 1] == if p > 0 then m[p - 1] else a[|a| - 1];
    assert |a| + p < |s| ==> s[|a| + p] == if p < |m| then m[p] else b[0];
    PosIs(s, k, |a| + p);
  }

  lemma Splice<T>(a: seq<T>, m: seq<T>, b: seq<T>, p: nat)
    requires p <= |m|
    ensures (a + m + b)[..|a| + p] == a + m[..p]
    ensures (a + m + b)[|a| + p..] == m[p..] + b
    ensures p < |m| ==> (a + m + b)[|a| + p] == m[p]
  {
  }

  lemma Update<T>(s: seq<T>, p: nat, x: T)
    requires p < |s|
    ensures s[p := x] == s[..p] + [x] + s[p + 1..]
  {
  }

  lemma Assoc<T>(a: seq<T>, b: seq<T>, c: seq<T>)
    ensures (a + b) + c == a + (b + c)
  {
  }

  /** Part of the middle run, replaced. */
  lemma Changed<T>(a: seq<T>, m: seq<T>, b: seq<T>, p: nat, q: nat, x: seq<T>)
    requires p <= q <= |m|
    ensures (a + m + b)[..|a| + p] + x + (a + m + b)[|a| + q..] == a + (m[..p] + x + m[q..]) + b
  {
    Splice(a, m, b, p);
    Splice(a, m, b, q);
    Assoc(a + m[..p] + x, m[q..], b);
    Assoc(a, m[..p], x);
    Assoc(a, m[..p] + x, m[q..]);
  }

  lemma Taken<T>(a: seq<T>, m: seq<T>, b: seq<T>, p: nat, q: nat)
    requires p <= q <= |m|
    ensures (a + m + b)[..|a| + p] + (a + m + b)[|a| + q..] == a + (m[..p] + m[q..]) + b
  {
    Splice(a, m, b, p);
    Splice(a, m, b, q);
    Assoc(a + m[..p], m[q..], b);
    Assoc(a, m[..p], m[q..]);
  }

  /** Inserting in, removing from and looking up in a long run only concern the part the key
      falls in. */
  lemma LocalPut(a: Items, m: Items, b: Items, k: Key, d: Data)
    requires Sorted(a + m + b) && Below(a, k) && Above(b, k)
    ensures Put(a + m + b, k, d) == a + Put(m, k, d) + b
  {
    PosConcat(a, m, b, k);
    Changed(a, m, b, Pos(m, k), Pos(m, k) + Hit(m, k), [Item(k, d)]);
  }

  lemma LocalCut(a: Items, m: Items, b: Items, k: Key)
    requires Sorted(a + m + b) && Below(a, k) && Above(b, k)
    ensures Cut(a + m + b, k) == a + Cut(m, k) + b
  {
    PosConcat(a, m, b, k);
    Taken(a, m, b, Pos(m, k), Pos(m, k) + Hit(m, k));
  }

  lemma LocalFind(a: Items, m: Items, b: Items, k: Key)
    requires Sorted(a + m + b) && Below(a, k) && Above(b, k)
    ensures Find(a + m + b, k) == Find(m, k)
  {
    PosConcat(a, m, b, k);
    Splice(a, m, b, Pos(m, k));
  }

  /** The items after the key's place have greater keys. */
  lemma RestAbove(s: Items, k: Key)
    requires Sorted(s)
    ensures Below(s[..Pos(s, k)], k) && Above(s[Pos(s, k) + Hit(s, k)..], k)
  {
    PosSpec(s, k);
    var p, q := Pos(s, k), Pos(s, k) + Hit(s, k);
    forall i | q <= i < |s| ensures k < s[i].key {
      OneBefore(s, q, i);
    }
  }

  /** Where the items of the new run come from. */
  lemma PutFrom(s: Items, k: Key, d: Data, j: nat) returns (i: nat)
    requires j < |Put(s, k, d)| && j != Pos(s, k)
    ensures i < |s| && Put(s, k, d)[j] == s[i]
  {
    i := if j < Pos(s, k) then j else j - 1 + Hit(s, k);
  }

  lemma CutFrom(s: Items, k: Key, j: nat) returns (i: nat)
    requires j < |Cut(s, k)|
    ensures i < |s| && Cut(s, k)[j] == s[i]
  {
    i := if j < Pos(s, k) then j else j + Hit(s, k);
  }

  lemma JoinItems(a: Items, x: Items, b: Items, k: Key)
    requires Sorted(a) && Sorted(b) && Below(a, k) && Above(b, k)
    requires |x| <= 1 && (|x| == 1 ==> x[0].key == k)
    ensures Sorted(a + x + b)
  {
    var t := a + x + b;
    forall i, j | 0 <= i < j < |t| ensures t[i].key < t[j].key {
      assert i < |a| ==> t[i] == a[i] && t[i].key < k;
      assert j >= |a| + |x| ==> t[j] == b[j - |a| - |x|] && k < t[j].key;
      assert i >= |a| + |x| ==> t[i] == b[i - |a| - |x|];
      assert j < |a| ==> t[j] == a[j];
    }
  }

  lemma SliceSorted(s: Items, p: nat, q: nat)
    requires Sorted(s) && p <= q <= |s|
    ensures Sorted(s[p..q])
  {
  }

  lemma PutSorted(s: Items, k: Key, d: Data)
    requires Sorted(s)
    ensures Sorted(Put(s, k, d))
  {
    RestAbove(s, k);
    SliceSorted(s, 0, Pos(s, k));
    SliceSorted(s, Pos(s, k) + Hit(s, k), |s|);
    JoinItems(s[..Pos(s, k)], [Item(k, d)], s[Pos(s, k) + Hit(s, k)..], k);
  }

  lemma CutSorted(s: Items, k: Key)
    requires Sorted(s)
    ensures Sorted(Cut(s, k))
  {
    RestAbove(s, k);
    SliceSorted(s, 0, Pos(s, k));
    SliceSorted(s, Pos(s, k) + Hit(s, k), |s|);
    var a, b := s[..Pos(s, k)], s[Pos(s, k) + Hit(s, k)..];
    JoinItems(a, [], b, k);
    assert a + [] + b == a + b;
  }

  // --- The run as a map ---

  lemma {:induction false} ToMapKey(s: Items, k: Key) returns (i: nat)
    requires k in ToMap(s)
    ensures i < |s| && s[i].key == k
  {
    if s[|s| - 1].key == k {
      i := |s| - 1;
    } else {
      i := ToMapKey(s[..|s| - 1], k);
    }
  }

  lemma {:induction false} ToMapConcat(a: Items, b: Items)
    ensures ToMap(a + b) == ToMap(a) + ToMap(b)
  {
    if b == [] {
      assert a + b == a;
      assert ToMap(a) + map[] == ToMap(a);
    } else {
      var b' := b[..|b| - 1];
      assert (a + b)[..|a + b| - 1] == a + b';
      ToMapConcat(a, b');
    }
  }

  lemma ToMapMiddle(a: Items, x: Item, b: Items)
    requires x.key !in ToMap(b)
    ensures ToMap(a + [x] + b) == ToMap(a + b)[x.key := x.data]
  {
    ToMapConcat(a + [x], b);
    ToMapConcat(a, [x]);
    ToMapConcat(a, b);
    assert [x][..0] == [];
    assert ToMap([x]) == map[x.key := x.data];
  }

  /** The run is what is before the key, what is at it, and what is after. */
  lemma Around(s: Items, k: Key)
    requires Sorted(s)
    ensures var a, b := s[..Pos(s, k)], s[Pos(s, k) + Hit(s, k)..];
            && k !in ToMap(a) && k !in ToMap(b)
            && s == if Hit(s, k) == 1 then a + [s[Pos(s, k)]] + b else a + b
  {
    RestAbove(s, k);
    NoKey(s[..Pos(s, k)], k);
    NoKey(s[Pos(s, k) + Hit(s, k)..], k);
    Halves(s, Pos(s, k));
  }

  lemma Halves<T>(s: seq<T>, p: nat)
    requires p <= |s|
    ensures s == s[..p] + s[p..]
    ensures p < |s| ==> s == s[..p] + [s[p]] + s[p + 1..]
  {
  }

  lemma NoKey(s: Items, k: Key)
    requires Above(s, k) || Below(s, k)
    ensures k !in ToMap(s)
  {
    if k in ToMap(s) {
      var i := ToMapKey(s, k);
    }
  }

  /** The run as a map, in terms of the rest. */
  lemma MapAround(s: Items, k: Key)
    requires Sorted(s)
    ensures k !in ToMap(Cut(s, k))
    ensures ToMap(s) == if Hit(s, k) == 1 then ToMap(Cut(s, k))[k := s[Pos(s, k)].data] else ToMap(Cut(s, k))
  {
    Around(s, k);
    var a, b := s[..Pos(s, k)], s[Pos(s, k) + Hit(s, k)..];
    ToMapConcat(a, b);
    if Hit(s, k) == 1 {
      ToMapMiddle(a, s[Pos(s, k)], b);
    }
  }

  /** `Put` is map update. */
  lemma PutIsUpdate(s: Items, k: Key, d: Data)
    requires Sorted(s)
    ensures ToMap(Put(s, k, d)) == ToMap(s)[k := d]
  {
    Around(s, k);
    MapAround(s, k);
    ToMapMiddle(s[..Pos(s, k)], Item(k, d), s[Pos(s, k) + Hit(s, k)..]);
    Overwrite(ToMap(Cut(s, k)), k, if Hit(s, k) == 1 then s[Pos(s, k)].data else d, d);
  }

  lemma Overwrite<X, Y>(m: map<X, Y>, k: X, v: Y, w: Y)
    ensures m[k := v][k := w] == m[k := w]
  {
  }

  /** `Cut` is deletion. */
  lemma CutIsDelete(s: Items, k: Key)
    requires Sorted(s)
    ensures ToMap(Cut(s, k)) == ToMap(s) - {k}
  {
    MapAround(s, k);
  }

  /** `Find` is lookup. */
  lemma FindIsLookup(s: Items, k: Key)
    requires Sorted(s)
    ensures Find(s, k) == if k in ToMap(s) then Some(ToMap(s)[k]) else None
  {
    MapAround(s, k);
  }

  /** Lookups after an item is put or cut. */
  lemma FindPut(s: Items, k: Key, d: Data, j: Key)
    requires Sorted(s)
    ensures Find(Put(s, k, d), j) == if j == k then Some(d) else Find(s, j)
  {
    PutSorted(s, k, d);
    PutIsUpdate(s, k, d);
    FindIsLookup(s, j);
    FindIsLookup(Put(s, k, d), j);
  }

  lemma FindCut(s: Items, k: Key, j: Key)
    requires Sorted(s)
    ensures Find(Cut(s, k), j) == if j == k then None else Find(s, j)
  {
    CutSorted(s, k);
    CutIsDelete(s, k);
    FindIsLookup(s, j);
    FindIsLookup(Cut(s, k), j);
  }

  /** An item of the run is what a lookup of its key finds. */
  lemma FindAt(s: Items, i: nat)
    requires Sorted(s) && i < |s|
    ensures Find(s, s[i].key) == Some(s[i].data)
  {
    PosIs(s, s[i].key, i);
  }

  lemma FoundAt(s: Items, k: Key) returns (i: nat)
    requires Find(s, k).Some?
    ensures i < |s| && s[i].key == k && s[i].data == Find(s, k).value
  {
    i := Pos(s, k);
  }

  // --- Scans ---

  lemma {:induction false} VisitConcat(a: Items, b: Items, start: Key, more: Item -> bool)
    ensures Visit(a + b, start, more) ==
            var va := Visit(a, start, more);
            if !va.1 then va else var vb := Visit(b, start, more); (va.0 + vb.0, vb.1)
  {
    if a == [] {
      assert a + b == b;
      assert [] + Visit(b, start, more).0 == Visit(b, start, more).0;
    } else {
      assert (a + b)[0] == a[0] && (a + b)[1..] == a[1..] + b;
      VisitConcat(a[1..], b, start, more);
      var va, vb := Visit(a[1..], start, more).0, Visit(b, start, more).0;
      assert [a[0]] + (va + vb) == [a[0]] + va + vb;
    }
  }

  lemma {:induction false} VisitSkips(a: Items, start: Key, more: Item -> bool)
    requires Below(a, start)
    ensures Visit(a, start, more) == ([], true)
  {
    if a != [] {
      VisitSkips(a[1..], start, more);
    }
  }

  /** Past the smaller keys, a scan that is turned down at position `e` sees what lies between. */
  lemma {:induction false} VisitAll(s: Items, start: Key, more: Item -> bool, e: nat)
    requires e <= |s|
    requires forall i :: 0 <= i < |s| ==> start <= s[i].key
    requires forall i :: 0 <= i < e ==> more(s[i])
    requires e < |s| ==> !more(s[e])
    ensures Visit(s, start, more) == if e < |s| then (s[..e + 1], false) else (s, true)
  {
    if s == [] {
      assert [] == s;
    } else if e > 0 {
      VisitAll(s[1..], start, more, e - 1);
      assert s == [s[0]] + s[1..];
      assert e < |s| ==> s[..e + 1] == [s[0]] + s[1..][..e];
    } else {
      assert s[..1] == [s[0]];
    }
  }

  /** A scan sees the items from `start` on, up to the first it is told to stop at. */
  lemma VisitUntil(s: Items, start: Key, more: Item -> bool) returns (e: nat)
    requires Sorted(s)
    ensures Pos(s, start) <= e <= |s|
    ensures forall i :: Pos(s, start) <= i < e ==> more(s[i])
    ensures e < |s| ==> !more(s[e])
    ensures Visit(s, start, more).0 == if e < |s| then s[Pos(s, start)..e + 1] else s[Pos(s, start)..]
  {
    var p := Pos(s, start);
    e := p;
    while e < |s| && more(s[e])
      invariant p <= e <= |s| && forall i :: p <= i < e ==> more(s[i])
    {
      e := e + 1;
    }
    PosSpec(s, start);
    PosAfter(s, start);
    VisitParts(s, p, start, more);
    var rest := s[p..];
    forall i | 0 <= i < |rest| ensures start <= rest[i].key && (i < e - p ==> more(rest[i])) {
      assert rest[i] == s[p + i];
    }
    VisitAll(rest, start, more, e - p);
    Slice(s, p, e);
  }

  /** A scan whose callback turns down keys at or past `end` sees exactly the items with keys in
      `start..end`, in order, and then at most the one it turns down. */
  lemma VisitRange(s: Items, start: Key, end: Key, more: Item -> bool)
    requires Sorted(s) && start <= end
    requires forall x: Item {:trigger more(x)} :: start <= x.key ==> (more(x) <==> x.key < end)
    ensures var p, e := Pos(s, start), Pos(s, end);
            && p <= e
            && Visit(s, start, more) == if e < |s| then (s[p..e + 1], false) else (s[p..], true)
  {
    var p, e := Pos(s, start), Pos(s, end);
    var rest := s[p..];
    PosSpec(s, start);
    VisitParts(s, p, start, more);
    RestInRange(s, rest, start, end, more);
    VisitAll(rest, start, more, e - p);
    Slice(s, p, e);
  }

  lemma Slice<T>(s: seq<T>, p: nat, e: nat)
    requires p <= e <= |s|
    ensures e < |s| ==> s[p..][..e - p + 1] == s[p..e + 1]
  {
  }

  lemma PosOrder(s: Items, start: Key, end: Key)
    requires Sorted(s) && start <= end
    ensures Pos(s, start) <= Pos(s, end)
  {
    PosAfter(s, end);
    PosSpec(s, start);
  }

  lemma RestInRange(s: Items, rest: Items, start: Key, end: Key, more: Item -> bool)
    requires Sorted(s) && start <= end && rest == s[Pos(s, start)..]
    requires forall x: Item {:trigger more(x)} :: start <= x.key ==> (more(x) <==> x.key < end)
    ensures Pos(s, start) <= Pos(s, end)
    ensures forall i :: 0 <= i < |rest| ==> start <= rest[i].key
    ensures forall i :: 0 <= i < Pos(s, end) - Pos(s, start) ==> more(rest[i])
    ensures Pos(s, end) < |s| ==> !more(rest[Pos(s, end) - Pos(s, start)])
  {
    PosOrder(s, start, end);
    PosAfter(s, start);
    PosAfter(s, end);
    PosSpec(s, end);
    var p, e := Pos(s, start), Pos(s, end);
    forall i | 0 <= i < |rest| ensures start <= rest[i].key && (i < e - p ==> more(rest[i])) {
      assert rest[i] == s[p + i];
    }
    assert e < |s| ==> rest[e - p] == s[e];
  }

  lemma PosAfter(s: Items, k: Key)
    requires Sorted(s)
    ensures forall i :: Pos(s, k) <= i < |s| ==> k <= s[i].key
  {
    PosSpec(s, k);
    forall i | Pos(s, k) <= i < |s| ensures k <= s[i].key {
      OneBefore(s, Pos(s, k), i);
    }
  }

  lemma VisitParts(s: Items, p: nat, start: Key, more: Item -> bool)
    requires p <= |s| && Below(s[..p], start)
    ensures Visit(s, start, more) == Visit(s[p..], start, more)
  {
    assert s == s[..p] + s[p..];
    VisitSkips(s[..p], start, more);
    VisitConcat(s[..p], s[p..], start, more);
    var v := Visit(s[p..], start, more).0;
    assert [] + v == v;
  }

  /** A scan that stops at once sees the first item at or after `start`: a lookup. */
  lemma VisitFirst(s: Items, start: Key)
    requires Sorted(s)
    ensures var v := Visit(s, start, _ => false).0;
            Find(s, start) == if v != [] && v[0].key == start then Some(v[0].data) else None
  {
    var p := Pos(s, start);
    PosSpec(s, start);
    VisitParts(s, p, start, _ => false);
    if p < |s| {
      assert s[p..][0] == s[p];
    }
  }
}
