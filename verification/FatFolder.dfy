/** A FAT16 folder: finding names in it, giving a new file its entries, and taking them away. */
module FatFolder {
  import opened Wrappers
  import opened FatAliases
  import opened FatNames

  /** Where the long-name entries in front of slot `i` start. */
  function LfnStart(d: seq<Entry>, i: nat): (r: nat)
    requires i <= |d|
    ensures r <= i && (forall j :: r <= j < i ==> IsLfn(d[j])) && (r > 0 ==> !IsLfn(d[r - 1]))
  {
    if i > 0 && IsLfn(d[i - 1]) then LfnStart(d, i - 1) else i
  }

  /** What a scan says of an entry: its name, its bytes, and the slots that belong to it. */
  datatype Found = Found(name: Name, raw: Entry, lo: nat, slot: nat)

  ghost function FoundIn(d: seq<Entry>, lo: nat, i: nat): Found
    requires lo <= i < |d|
  {
    Found(if lo == i then ShortName(d[i]) else LongName(d[lo..i]), d[i], lo, i)
  }

  /** Nothing up to slot `i` says that the folder ends. */
  predicate InUse(d: seq<Entry>, i: nat)
    requires i < |d|
  {
    forall j :: 0 <= j <= i ==> !IsFree(d[j])
  }

  /** What a scan finds at slot `i`. */
  ghost function At(d: seq<Entry>, i: nat): Option<Found> {
    if i < |d| && InUse(d, i) && IsShort(d[i]) then Some(FoundIn(d, LfnStart(d, i), i)) else None
  }

  /** What it finds in the first `n` slots. */
  ghost function Listing(d: seq<Entry>, n: nat): seq<Found> {
    if n == 0 then [] else Listing(d, n - 1) + if At(d, n - 1).Some? then [At(d, n - 1).value] else []
  }

  predicate LfnAt(d: seq<Entry>, i: int) { 0 <= i < |d| && IsLfn(d[i]) }

  /** Behind the first free slot all are free. */
  predicate FreeTail(d: seq<Entry>) { forall i, j :: 0 <= i < j < |d| && IsFree(d[i]) ==> IsFree(d[j]) }

  /** No long-name entry is without the entry it names. */
  ghost predicate Attached(d: seq<Entry>) {
    forall i :: LfnAt(d, i) ==> i + 1 < |d| && (IsLfn(d[i + 1]) || IsShort(d[i + 1]))
  }

  ghost predicate Orderly(d: seq<Entry>) {
    forall n: nat {:trigger Open(FolderSeal, n)} :: Open(FolderSeal, n) ==> FreeTail(d) && Attached(d)
  }

  /** The first such slots there are, with none that may be written to right before them. */
  ghost predicate FirstRoom(d: seq<Entry>, at: nat, n: nat) {
    && at + n <= |d|
    && forall m: nat {:trigger Open(FolderSeal, m)} :: Open(FolderSeal, m) ==>
         && Room(d, at, n) && (at > 0 && n > 0 ==> !Usable(d[at - 1]))
         && forall before: nat :: before < at ==> !Room(d, before, n)
  }

  /** `n` slots from `at` on may be written to. */
  predicate Room(d: seq<Entry>, at: nat, n: nat) {
    at + n <= |d| && forall i :: at <= i < at + n ==> Usable(d[i])
  }

  /** The folder after entries have been written from slot `at` on. */
  function Put(d: seq<Entry>, at: nat, es: seq<Entry>): (r: seq<Entry>)
    requires at + |es| <= |d|
    ensures |r| == |d| && (forall i :: at <= i < at + |es| ==> r[i] == es[i - at])
    ensures forall i :: 0 <= i < |d| && !(at <= i < at + |es|) ==> r[i] == d[i]
  {
    d[..at] + es + d[at + |es|..]
  }

  /** What is written for a new entry: long-name entries, then the short entry they name. */
  predicate Naming(es: seq<Entry>) {
    es != [] && (forall i :: 0 <= i < |es| - 1 ==> IsLfn(es[i])) && IsShort(es[|es| - 1])
  }

  lemma NoLfnBefore(d: seq<Entry>, at: nat)
    requires Attached(d) && at < |d| && Usable(d[at])
    ensures at > 0 ==> !IsLfn(d[at - 1])
  {
    assert at > 0 ==> !LfnAt(d, at - 1);
  }

  lemma PutAttached(d: seq<Entry>, at: nat, es: seq<Entry>)
    requires Attached(d) && Naming(es) && Room(d, at, |es|)
    ensures Attached(Put(d, at, es))
  {
    var r := Put(d, at, es);
    NoLfnBefore(d, at);
    forall i | LfnAt(r, i)
      ensures i + 1 < |r| && (IsLfn(r[i + 1]) || IsShort(r[i + 1]))
    {
      if at <= i < at + |es| {
        assert r[i] == es[i - at] && r[i + 1] == es[i + 1 - at];
      } else {
        assert r[i] == d[i] && LfnAt(d, i) && i + 1 != at;
      }
    }
  }

  lemma PutFreeTail(d: seq<Entry>, at: nat, es: seq<Entry>)
    requires FreeTail(d) && Naming(es) && Room(d, at, |es|) && (forall i :: 0 <= i < at ==> !IsFree(d[i]))
    ensures FreeTail(Put(d, at, es))
  {
    var r := Put(d, at, es);
    forall i | at <= i < at + |es|
      ensures !IsFree(r[i])
    {
      assert r[i] == es[i - at] && (IsLfn(es[i - at]) || IsShort(es[i - at]));
    }
  }

  lemma {:induction false} StartUnique(d: seq<Entry>, i: nat, lo: nat)
    requires lo <= i <= |d| && (forall j :: lo <= j < i ==> IsLfn(d[j])) && (lo > 0 ==> !IsLfn(d[lo - 1]))
    ensures LfnStart(d, i) == lo
  {
    if lo < i {
      StartUnique(d, i - 1, lo);
    }
  }

  /** A slot is found as before when neither it nor the long-name entries in front of it have changed. */
  lemma FoundAlike(d: seq<Entry>, r: seq<Entry>, i: nat, lo: nat)
    requires i < |d| == |r| && lo == LfnStart(d, i) && (lo > 0 ==> !IsLfn(r[lo - 1]))
    requires forall j :: lo <= j <= i ==> r[j] == d[j]
    requires InUse(d, i) == InUse(r, i)
    ensures At(r, i) == At(d, i)
  {
    StartUnique(r, i, lo);
    SameSlice(d, r, lo, i);
  }

  lemma SameSlice(d: seq<Entry>, r: seq<Entry>, lo: nat, hi: nat)
    requires lo <= hi <= |d| == |r| && forall j :: lo <= j < hi ==> r[j] == d[j]
    ensures r[lo..hi] == d[lo..hi]
  {
  }

  /** A scan finds one more entry, and all others as before. */
  ghost predicate Gained(was: seq<Entry>, now: seq<Entry>, f: Found) {
    forall n: nat {:trigger Open(FolderSeal, n)} ::
      Open(FolderSeal, n) ==> forall i: nat :: At(now, i) == if i == f.slot then Some(f) else At(was, i)
  }

  /** Or one less. */
  ghost predicate Lost(was: seq<Entry>, now: seq<Entry>, slot: nat) {
    forall n: nat {:trigger Open(FolderSeal, n)} ::
      Open(FolderSeal, n) ==> forall i: nat :: At(now, i) == if i == slot then None else At(was, i)
  }

  /** The name a new entry has. */
  ghost function NamedBy(es: seq<Entry>): Name
    requires es != []
  {
    if |es| == 1 then ShortName(es[0]) else LongName(es[..|es| - 1])
  }

  lemma PutBefore(d: seq<Entry>, at: nat, es: seq<Entry>, i: nat)
    requires at + |es| <= |d| && i < at
    ensures At(Put(d, at, es), i) == At(d, i)
  {
    FoundAlike(d, Put(d, at, es), i, LfnStart(d, i));
  }

  lemma PutInside(d: seq<Entry>, at: nat, es: seq<Entry>, i: nat)
    requires Naming(es) && Room(d, at, |es|) && at <= i < at + |es| - 1
    ensures At(Put(d, at, es), i) == At(d, i) == None
  {
    assert IsLfn(es[i - at]) && Put(d, at, es)[i] == es[i - at] && Usable(d[i]);
  }

  lemma PutBehind(d: seq<Entry>, at: nat, es: seq<Entry>, i: nat)
    requires FreeTail(d) && Attached(d) && Naming(es) && Room(d, at, |es|)
    requires (forall j :: 0 <= j < at ==> !IsFree(d[j]))
    requires at + |es| <= i < |d|
    ensures At(Put(d, at, es), i) == At(d, i)
  {
    var r, slot := Put(d, at, es), at + |es| - 1;
    assert Usable(d[slot]) && IsShort(r[slot]);
    LfnAbove(d, slot, i);
    PutInUse(d, at, es, i);
    FoundAlike(d, r, i, LfnStart(d, i));
  }

  /** The long-name entries in front of a slot stop behind any slot that is none. */
  lemma LfnAbove(d: seq<Entry>, k: nat, i: nat)
    requires k < i <= |d| && !IsLfn(d[k])
    ensures LfnStart(d, i) > k
  {
  }

  lemma PutInUse(d: seq<Entry>, at: nat, es: seq<Entry>, i: nat)
    requires FreeTail(d) && Attached(d) && Naming(es) && Room(d, at, |es|)
    requires (forall j :: 0 <= j < at ==> !IsFree(d[j]))
    requires at + |es| <= i < |d|
    ensures InUse(Put(d, at, es), i) == InUse(d, i)
  {
    var r := Put(d, at, es);
    if InUse(d, i) {
      forall j | 0 <= j <= i
        ensures !IsFree(r[j])
      {
        assert at <= j < at + |es| ==> r[j] == es[j - at] && (IsLfn(es[j - at]) || IsShort(es[j - at]));
      }
    } else if IsFree(d[i]) {
      assert IsFree(r[i]);
    }
  }

  lemma PutUsed(d: seq<Entry>, at: nat, es: seq<Entry>)
    requires FreeTail(d) && Attached(d) && Naming(es) && Room(d, at, |es|)
    requires (forall j :: 0 <= j < at ==> !IsFree(d[j]))
    ensures InUse(Put(d, at, es), at + |es| - 1)
  {
    var r := Put(d, at, es);
    forall j | 0 <= j <= at + |es| - 1
      ensures !IsFree(r[j])
    {
      assert at <= j ==> r[j] == es[j - at] && (IsLfn(es[j - at]) || IsShort(es[j - at]));
    }
  }

  lemma PutStart(d: seq<Entry>, at: nat, es: seq<Entry>)
    requires FreeTail(d) && Attached(d) && Naming(es) && Room(d, at, |es|)
    ensures LfnStart(Put(d, at, es), at + |es| - 1) == at
  {
    var r, slot := Put(d, at, es), at + |es| - 1;
    forall j | at <= j < slot
      ensures IsLfn(r[j])
    {
      assert IsLfn(es[j - at]);
    }
    NoLfnBefore(d, at);
    StartUnique(r, slot, at);
  }

  /** The folder with slots `lo` to `slot` marked deleted. */
  function Deleted(d: seq<Entry>, lo: nat, slot: nat): (r: seq<Entry>)
    requires lo <= slot < |d|
    ensures |r| == |d|
  {
    seq(|d|, i requires 0 <= i < |d| => if lo <= i <= slot then d[i][0 := ENTRY_DELETED] else d[i])
  }

  lemma DeletedAttached(d: seq<Entry>, slot: nat)
    requires Attached(d) && At(d, slot).Some?
    ensures Attached(Deleted(d, LfnStart(d, slot), slot))
  {
    var lo := LfnStart(d, slot);
    var r := Deleted(d, lo, slot);
    forall i | LfnAt(r, i)
      ensures i + 1 < |r| && (IsLfn(r[i + 1]) || IsShort(r[i + 1]))
    {
      assert !(lo <= i <= slot) && LfnAt(d, i) && i + 1 != lo;
      assert r[i + 1] == d[i + 1];
    }
  }

  lemma DeletedFreeTail(d: seq<Entry>, slot: nat)
    requires FreeTail(d) && At(d, slot).Some?
    ensures FreeTail(Deleted(d, LfnStart(d, slot), slot))
  {
    var lo := LfnStart(d, slot);
    var r := Deleted(d, lo, slot);
    assert forall i :: 0 <= i < |d| ==> IsFree(r[i]) == (IsFree(d[i]) && !(lo <= i <= slot));
  }

  lemma DeletedInUse(d: seq<Entry>, lo: nat, slot: nat, i: nat)
    requires lo <= slot < |d| && InUse(d, slot) && i < |d|
    ensures InUse(Deleted(d, lo, slot), i) == InUse(d, i)
  {
    var r := Deleted(d, lo, slot);
    assert forall j :: 0 <= j < |d| ==> IsFree(r[j]) == (IsFree(d[j]) && !(lo <= j <= slot));
  }

  lemma DeletedBefore(d: seq<Entry>, lo: nat, slot: nat, i: nat)
    requires i < lo <= slot < |d| && InUse(d, slot)
    ensures At(Deleted(d, lo, slot), i) == At(d, i)
  {
    DeletedInUse(d, lo, slot, i);
    FoundAlike(d, Deleted(d, lo, slot), i, LfnStart(d, i));
  }

  lemma DeletedBehind(d: seq<Entry>, lo: nat, slot: nat, i: nat)
    requires lo <= slot < i < |d| && InUse(d, slot) && !IsLfn(d[slot])
    ensures At(Deleted(d, lo, slot), i) == At(d, i)
  {
    var r, start := Deleted(d, lo, slot), LfnStart(d, i);
    DeletedInUse(d, lo, slot, i);
    LfnAbove(d, slot, i);
    assert start - 1 > slot ==> r[start - 1] == d[start - 1];
    assert KindOf(r[slot]) == DeletedKind;
    FoundAlike(d, r, i, start);
  }

  /** A scan of the folder without the entry finds all others as before. */
  lemma DeletedFinds(d: seq<Entry>, slot: nat, i: nat)
    requires At(d, slot).Some? && i < |d|
    ensures At(Deleted(d, LfnStart(d, slot), slot), i) == if i == slot then None else At(d, i)
  {
    var lo := LfnStart(d, slot);
    if lo <= i <= slot {
      assert KindOf(Deleted(d, lo, slot)[i]) == DeletedKind && (i < slot ==> IsLfn(d[i]));
    } else if i < lo {
      DeletedBefore(d, lo, slot, i);
    } else {
      DeletedBehind(d, lo, slot, i);
    }
  }

  lemma {:induction false} ListingHas(d: seq<Entry>, n: nat, f: Found)
    ensures f in Listing(d, n) <==> f.slot < n && At(d, f.slot) == Some(f)
  {
    if n > 0 {
      ListingHas(d, n - 1, f);
    }
  }

  /** A short name some entry has, other than the one at slot `except`. */
  ghost predicate Taken(d: seq<Entry>, short: seq<nat>, except: Option<nat>) {
    exists i: nat :: At(d, i).Some? && Some(i) != except && At(d, i).value.raw[..11] == short
  }

  predicate IsAlias(short: seq<nat>, name: Name, n: nat) { n < 1000 && short == Alias(name, n) }

  ghost predicate AliasesTaken(d: seq<Entry>, name: Name, except: Option<nat>) {
    forall n :: 1 <= n < 1000 ==> Taken(d, Alias(name, n), except)
  }

  /** The first alias of a name that is not taken. */
  ghost predicate MadeUp(d: seq<Entry>, short: seq<nat>, name: Name, except: Option<nat>) {
    exists n :: 1 <= n && IsAlias(short, name, n) && forall k :: 1 <= k < n ==> Taken(d, Alias(name, k), except)
  }

  /** The short name of the entry at slot `i`. */
  ghost function ShortAt(d: seq<Entry>, i: nat): (r: Option<seq<nat>>)
    ensures r.Some? ==> |r.value| == 11
  {
    if At(d, i).Some? then Some(At(d, i).value.raw[..11]) else None
  }

  ghost function NumberAt(d: seq<Entry>, i: nat): nat {
    match ShortAt(d, i)
    case Some(short) => AliasNumber(short)
    case None => 0
  }

  lemma HolderFound(d: seq<Entry>, name: Name, except: Option<nat>, k: nat) returns (i: nat)
    requires 1 <= k < 1000 && Taken(d, Alias(name, k), except)
    ensures i < |d| && NumberAt(d, i) == k
  {
    AliasNumbered(name, k);
    i :| At(d, i).Some? && Some(i) != except && At(d, i).value.raw[..11] == Alias(name, k);
  }

  lemma {:induction false} UpToIn(s: seq<nat>, k: nat) returns (found: set<nat>)
    requires forall m :: 1 <= m <= k ==> m in s
    ensures |found| == k && forall m :: m in found ==> 1 <= m <= k && m in s
  {
    if k == 0 {
      found := {};
    } else {
      found := UpToIn(s, k - 1);
      found := found + {k};
    }
  }

  lemma {:induction false} AsManyAsDiffer(s: seq<nat>, found: set<nat>)
    requires forall m :: m in found ==> m in s
    ensures |found| <= |s|
  {
    if s == [] {
      assert found == {};
    } else {
      AsManyAsDiffer(s[1..], found - {s[0]});
    }
  }

  /** Aliases that are taken are names of different entries, so there are as many slots. */
  lemma AliasHolders(d: seq<Entry>, name: Name, except: Option<nat>)
    requires AliasesTaken(d, name, except)
    ensures |d| >= 999
  {
    var numbers := seq(|d|, i requires 0 <= i < |d| => NumberAt(d, i));
    forall m | 1 <= m <= 999
      ensures m in numbers
    {
      assert Taken(d, Alias(name, m), except);
      var i := HolderFound(d, name, except, m);
      assert numbers[i] == m;
    }
    var found := UpToIn(numbers, 999);
    AsManyAsDiffer(numbers, found);
  }

  predicate NamesOneOf(fs: seq<Found>, short: seq<nat>, except: Option<nat>) {
    exists f :: f in fs && Some(f.slot) != except && f.raw[..11] == short
  }

  lemma ListedIsTaken(d: seq<Entry>, short: seq<nat>, except: Option<nat>)
    ensures NamesOneOf(Listing(d, |d|), short, except) <==> Taken(d, short, except)
  {
    if f: Found :| f in Listing(d, |d|) && Some(f.slot) != except && f.raw[..11] == short {
      ListingHas(d, |d|, f);
      assert At(d, f.slot).Some?;
    }
    if i: nat :| At(d, i).Some? && Some(i) != except && At(d, i).value.raw[..11] == short {
      ListingHas(d, |d|, At(d, i).value);
    }
  }

  /** An entry is found by its name. */
  ghost predicate Named(d: seq<Entry>, i: nat, name: Name) { At(d, i).Some? && SameName(At(d, i).value.name, name) }

  /** No two entries have the same name, or the same short name. */
  ghost predicate Distinct(d: seq<Entry>) {
    forall i: nat, j: nat :: i < j && At(d, i).Some? && At(d, j).Some? ==>
      && !SameName(At(d, i).value.name, At(d, j).value.name)
      && At(d, i).value.raw[..11] != At(d, j).value.raw[..11]
  }

  predicate Before(fs: seq<Found>, n: nat) {
    (forall i, j :: 0 <= i < j < |fs| ==> fs[i].slot < fs[j].slot) && forall i :: 0 <= i < |fs| ==> fs[i].slot < n
  }

  lemma {:induction false} ListingRises(d: seq<Entry>, n: nat)
    ensures Before(Listing(d, n), n)
  {
    if n > 0 {
      ListingRises(d, n - 1);
    }
  }

  lemma {:induction false} NoneBehind(d: seq<Entry>, i: nat, n: nat)
    requires i <= n && i < |d| && IsFree(d[i])
    ensures Listing(d, n) == Listing(d, i)
    decreases n - i
  {
    if i < n {
      NoneBehind(d, i, n - 1);
    }
  }

  /** What is written for a new entry. */
  function EntriesFor(name: Name, short: seq<nat>, own: Entry): (r: seq<Entry>)
    requires |short| == 11
    ensures r != [] && |r| == SlotsFor(name, short)
  {
    (if ShortName(short) != name then LfnEntries(name, Checksum(short)) else []) + [own]
  }

  /** How many slots it takes. */
  function SlotsFor(name: Name, short: seq<nat>): (r: nat)
    requires |short| == 11
    ensures r > 0
  {
    if ShortName(short) == name then 1 else LfnCount(name) + 1
  }

  lemma ShortIsShort(short: seq<nat>, own: Entry)
    requires WellFormed(short) && own[..11] == short && own[11] != ATTR_LFN && own[11] / 8 % 2 == 0
    ensures IsShort(own) && ShortName(own) == ShortName(short)
  {
    assert own[0] == short[0] == short[..8][0];
    assert short[..8] == own[..8] && short[8..11] == own[8..11];
  }

  /** What is written for a name is an entry with that name. */
  lemma EntryNames(name: Name, short: seq<nat>, own: Entry)
    requires ValidName(name) && WellFormed(short) && own[..11] == short && own[11] != ATTR_LFN && own[11] / 8 % 2 == 0
    ensures var es := EntriesFor(name, short, own);
      Naming(es) && NamedBy(es) == name && es[|es| - 1] == own
  {
    ShortIsShort(short, own);
    if ShortName(short) != name {
      var lfn := LfnEntries(name, Checksum(short));
      LongNameRead(name, Checksum(short));
      LfnAreLfn(name, Checksum(short), LfnCount(name), 0);
      assert (lfn + [own])[..|lfn|] == lfn;
    }
  }

  lemma {:induction false} LfnAreLfn(name: Name, sum: nat, n: nat, m: nat)
    requires n <= 31
    ensures forall i :: 0 <= i < |LfnDown(name, sum, n, m)| ==> IsLfn(LfnDown(name, sum, n, m)[i])
    decreases n - m
  {
    if m < n {
      LfnAreLfn(name, sum, n, m + 1);
    }
  }

  /** A new entry may be written here. */
  ghost predicate Ready(d: seq<Entry>, at: nat, es: seq<Entry>) {
    && at + |es| <= |d| && es != []
    && forall n: nat {:trigger Open(FolderSeal, n)} :: Open(FolderSeal, n) ==>
         FreeTail(d) && Attached(d) && Naming(es) && Room(d, at, |es|) && (forall j :: 0 <= j < at ==> !IsFree(d[j]))
  }

  /** What a scan finds at a slot once a new entry is there. */
  ghost predicate AsPut(d: seq<Entry>, r: seq<Entry>, f: Found, i: nat) {
    At(r, i) == if i == f.slot then Some(f) else At(d, i)
  }

  lemma FoundPut(d: seq<Entry>, at: nat, es: seq<Entry>)
    requires at + |es| <= |d| && es != []
    ensures FoundIn(Put(d, at, es), at, at + |es| - 1) == Found(NamedBy(es), es[|es| - 1], at, at + |es| - 1)
  {
    assert Put(d, at, es)[at..at + |es| - 1] == es[..|es| - 1];
  }

  lemma PutLast(d: seq<Entry>, at: nat, es: seq<Entry>, f: Found)
    requires Ready(d, at, es) && f == Found(NamedBy(es), es[|es| - 1], at, at + |es| - 1)
    ensures AsPut(d, Put(d, at, es), f, f.slot)
  {
    var r := Put(d, at, es);
    assert Open(FolderSeal, 0);
    PutUsed(d, at, es);
    PutStart(d, at, es);
    assert r[f.slot] == es[|es| - 1];
    FoundPut(d, at, es);
    assert At(r, f.slot) == Some(FoundIn(r, at, f.slot));
  }

  lemma PutElsewhere(d: seq<Entry>, at: nat, es: seq<Entry>, f: Found, i: nat)
    requires Ready(d, at, es) && f.slot == at + |es| - 1 && i != f.slot
    ensures AsPut(d, Put(d, at, es), f, i)
  {
    assert Open(FolderSeal, 0);
    if i < at {
      PutBefore(d, at, es, i);
    } else if i < at + |es| {
      PutInside(d, at, es, i);
    } else if i < |d| {
      PutBehind(d, at, es, i);
    }
  }

  lemma PutFinds(d: seq<Entry>, at: nat, es: seq<Entry>, i: nat, f: Found)
    requires Ready(d, at, es) && f == Found(NamedBy(es), es[|es| - 1], at, at + |es| - 1)
    ensures At(Put(d, at, es), i) == if i == f.slot then Some(f) else At(d, i)
  {
    if i == f.slot {
      PutLast(d, at, es, f);
    } else {
      PutElsewhere(d, at, es, f, i);
    }
    assert AsPut(d, Put(d, at, es), f, i);
  }

  /** A scan of the folder with the new entry finds it, by its name, and all others as before. */
  lemma PutGains(d: seq<Entry>, at: nat, es: seq<Entry>, f: Found)
    requires Ready(d, at, es) && f == Found(NamedBy(es), es[|es| - 1], at, at + |es| - 1)
    ensures Gained(d, Put(d, at, es), f)
  {
    forall i: nat
      ensures At(Put(d, at, es), i) == if i == f.slot then Some(f) else At(d, i)
    {
      PutFinds(d, at, es, i, f);
    }
  }

  lemma RoomStarts(d: seq<Entry>, at: nat)
    requires FreeTail(d) && Attached(d) && at < |d| && (at > 0 ==> !Usable(d[at - 1]))
    ensures forall i :: 0 <= i < at ==> !IsFree(d[i])
  {
    assert at > 0 ==> !IsFree(d[at - 1]);
  }

  /** A scan's next step at a slot in use. */
  lemma ListingNext(d: seq<Entry>, lo: nat, i: nat)
    requires i < |d| && InUse(d, i) && lo == LfnStart(d, i)
    ensures Listing(d, i + 1) == Listing(d, i) + if IsShort(d[i]) then [FoundIn(d, lo, i)] else []
    ensures LfnStart(d, i + 1) == if IsLfn(d[i]) then lo else i + 1
  {
  }

  lemma PartAdded(d: seq<Entry>, lo: nat, i: nat)
    requires lo <= i < |d|
    ensures Parts(d[lo..i + 1]) == Parts(d[lo..i]) + [PartOf(d[i])]
  {
    assert d[lo..i + 1][..i - lo] == d[lo..i];
  }

  /** Where nothing listed has a name, nothing has. */
  lemma {:induction false} NoneNamed(d: seq<Entry>, n: nat, name: Name)
    requires forall f :: f in Listing(d, n) ==> !SameName(f.name, name)
    ensures forall i: nat :: i < n ==> !Named(d, i, name)
  {
    if n > 0 {
      NoneNamed(d, n - 1, name);
    }
  }

  lemma RisesAt(fs: seq<Found>, n: nat, j: nat, k: nat)
    requires Before(fs, n) && j < |fs| && k < |fs|
    ensures j <= k ==> fs[j].slot <= fs[k].slot
  {
  }

  /** Where an entry is listed. */
  lemma {:induction false} ListingPlace(d: seq<Entry>, n: nat, i: nat) returns (j: nat)
    requires i < n && At(d, i).Some?
    ensures j < |Listing(d, n)| && Listing(d, n)[j] == At(d, i).value
  {
    if i == n - 1 {
      j := |Listing(d, n)| - 1;
    } else {
      j := ListingPlace(d, n - 1, i);
    }
  }

  /** What is listed first of all with a name is the first with it. */
  lemma FirstNamed(d: seq<Entry>, k: nat, name: Name)
    requires var fs := Listing(d, |d|);
      k < |fs| && SameName(fs[k].name, name) && forall j :: 0 <= j < k ==> !SameName(fs[j].name, name)
    ensures var f := Listing(d, |d|)[k];
      At(d, f.slot) == Some(f) && forall i: nat :: i < f.slot ==> !Named(d, i, name)
  {
    var fs := Listing(d, |d|);
    ListingRises(d, |d|);
    ListingHas(d, |d|, fs[k]);
    forall i: nat | i < fs[k].slot && At(d, i).Some?
      ensures !SameName(At(d, i).value.name, name)
    {
      var j := ListingPlace(d, |d|, i);
      RisesAt(fs, |d|, k, j);
    }
  }

  ghost predicate Unnamed(d: seq<Entry>, name: Name) { forall i: nat :: !Named(d, i, name) }

  /** There are no `n` slots in a row that may be written to. */
  ghost predicate Crowded(d: seq<Entry>, n: nat) { forall at: nat :: !Room(d, at, n) }

  lemma CrowdedForMore(d: seq<Entry>, n: nat, m: nat)
    requires n <= m && Crowded(d, n)
    ensures Crowded(d, m)
  {
    forall at: nat
      ensures !Room(d, at, m)
    {
      assert !Room(d, at, n);
    }
  }

  /** Names stay apart when the new one is nobody's. */
  lemma GainedDistinct(was: seq<Entry>, now: seq<Entry>, f: Found)
    requires Gained(was, now, f) && Distinct(was) && Unnamed(was, f.name)
    requires !Taken(was, f.raw[..11], None)
    ensures Distinct(now) && forall i: nat :: Named(now, i, f.name) <==> i == f.slot
  {
    assert Open(FolderSeal, 0);
    forall i: nat | i != f.slot && At(now, i).Some?
      ensures !SameName(At(now, i).value.name, f.name) && At(now, i).value.raw[..11] != f.raw[..11]
    {
      assert At(now, i) == At(was, i) && !Named(was, i, f.name);
    }
    forall i: nat, j: nat | i < j && At(now, i).Some? && At(now, j).Some?
      ensures !SameName(At(now, i).value.name, At(now, j).value.name)
      ensures At(now, i).value.raw[..11] != At(now, j).value.raw[..11]
    {
      if i != f.slot && j != f.slot {
        assert At(now, i) == At(was, i) && At(now, j) == At(was, j);
      } else {
        assert At(now, f.slot) == Some(f);
      }
    }
    assert At(now, f.slot) == Some(f);
  }

  class Folder {
    const slots: array<Entry>

    /** All the entries, in the order they stand in. */
    method ScanDir() returns (out: seq<Found>)
      ensures out == Listing(slots[..], slots.Length)
    {
      out := [];
      var i: nat := 0;
      var parts, lo: nat := [], 0;
      ghost var d := slots[..];
      while i < slots.Length
        invariant lo <= i <= slots.Length && lo == LfnStart(d, i) && parts == Parts(d[lo..i])
        invariant out == Listing(d, i) && (i > 0 ==> InUse(d, i - 1))
      {
        var e := slots[i];
        if IsFree(e) {
          NoneBehind(d, i, slots.Length);
          return;
        }
        ListingNext(d, lo, i);
        if IsLfn(e) {
          PartAdded(d, lo, i);
          parts := parts + [PartOf(e)];
        } else {
          if IsShort(e) {
            var name := ShortName(e);
            if parts != [] {
              name := ReconstructLongName(parts);
              LongNameIs(d[lo..i]);
            }
            out := out + [Found(name, e, lo, i)];
          }
          parts, lo := [], i + 1;
        }
        i := i + 1;
      }
    }

    /** The first entry called `name`. */
    method FindSlots(name: Name) returns (r: Option<Found>)
      ensures r.Some? ==> Named(slots[..], r.value.slot, name) && At(slots[..], r.value.slot) == r
      ensures r.Some? ==> forall i: nat :: i < r.value.slot ==> !Named(slots[..], i, name)
      ensures r.None? ==> Unnamed(slots[..], name)
    {
      var found := ScanDir();
      var k := 0;
      while k < |found|
        invariant k <= |found| && forall j :: 0 <= j < k ==> !SameName(found[j].name, name)
      {
        if SameName(found[k].name, name) {
          FirstNamed(slots[..], k, name);
          return Some(found[k]);
        }
        k := k + 1;
      }
      NoneNamed(slots[..], slots.Length, name);
      return None;
    }

    /** Marks an entry's slots deleted. */
    method DeleteSlots(f: Found)
      requires Orderly(slots[..]) && At(slots[..], f.slot) == Some(f)
      modifies slots
      ensures Orderly(slots[..])
      ensures Lost(old(slots[..]), slots[..], f.slot)
    {
      ghost var d := slots[..];
      assert Open(FolderSeal, 0);
      var i := f.lo;
      while i <= f.slot
        invariant f.lo <= i <= f.slot + 1
        invariant forall j :: 0 <= j < slots.Length ==> slots[j] == if f.lo <= j < i then d[j][0 := ENTRY_DELETED] else d[j]
      {
        slots[i] := slots[i][0 := ENTRY_DELETED];
        i := i + 1;
      }
      assert slots[..] == Deleted(d, f.lo, f.slot);
      DeletedAttached(d, f.slot);
      DeletedFreeTail(d, f.slot);
      forall j: nat
        ensures At(slots[..], j) == if j == f.slot then None else At(d, j)
      {
        if j < |d| {
          DeletedFinds(d, f.slot, j);
        }
      }
    }

    /** The first `count` slots in a row that may be written to. */
    method LocateSlotRun(count: nat) returns (r: Option<nat>)
      requires count > 0
      ensures r.Some? ==> FirstRoom(slots[..], r.value, count)
      ensures r.None? <==> Crowded(slots[..], count)
    {
      var i: nat, run: nat := 0, 0;
      while i < slots.Length
        invariant run <= i <= slots.Length && run < count
        invariant forall j :: i - run <= j < i ==> Usable(slots[j])
        invariant i - run > 0 ==> !Usable(slots[i - run - 1])
        invariant forall at: nat :: at < i - run ==> !Room(slots[..], at, count)
      {
        if Usable(slots[i]) {
          run := run + 1;
          if run == count {
            assert Room(slots[..], i + 1 - run, count);
            return Some(i + 1 - run);
          }
        } else {
          forall at: nat | at <= i
            ensures !Room(slots[..], at, count)
          {
            assert i - run <= at && at + count <= slots.Length ==> at <= i < at + count && !Usable(slots[..][i]);
          }
          run := 0;
        }
        i := i + 1;
      }
      return None;
    }

    /** Writes a new entry, its long-name entries first, to one slot after another. */
    method WriteNamedEntry(at: nat, es: seq<Entry>)
      requires at + |es| <= slots.Length
      modifies slots
      ensures slots[..] == Put(old(slots[..]), at, es)
    {
      ghost var d := slots[..];
      var i := 0;
      while i < |es|
        invariant i <= |es| && slots[..] == Put(d, at, es[..i])
      {
        slots[at + i] := es[i];
        i := i + 1;
      }
      assert es[..i] == es;
    }

    /** A well-formed short name nobody has (the entry at `except` aside): the name itself in capitals, else the
        first alias left. It fails only when that and all 999 aliases are taken. */
    method MakeShortName(name: Name, except: Option<nat>) returns (r: Option<seq<nat>>)
      requires name != []
      ensures r.Some? ==> WellFormed(r.value) && !Taken(slots[..], r.value, except)
      ensures r.Some? ==>
                if Fits(name) && !Taken(slots[..], ToShort(name), except) then r.value == ToShort(name)
                else MadeUp(slots[..], r.value, name, except)
      ensures r.None? ==> slots.Length >= 999
      ensures r.None? <==> (Fits(name) ==> Taken(slots[..], ToShort(name), except))
                           && AliasesTaken(slots[..], name, except)
    {
      var taken := TakenNames(except);
      if Fits(name) && ToShort(name) !in taken {
        PlainWellFormed(name);
        return Some(ToShort(name));
      }
      var n := FirstAlias(name, taken);
      if n.None? {
        AliasHolders(slots[..], name, except);
        return None;
      }
      AliasWellFormed(name, n.value);
      assert IsAlias(Alias(name, n.value), name, n.value);
      return Some(Alias(name, n.value));
    }

    /** The first made-up name that is not taken. */
    method FirstAlias(name: Name, taken: seq<seq<nat>>) returns (r: Option<nat>)
      ensures r.Some? ==> 1 <= r.value < 1000 && Alias(name, r.value) !in taken
      ensures forall n :: 1 <= n < (if r.Some? then r.value else 1000) ==> Alias(name, n) in taken
    {
      var n: nat := 1;
      while n < 1000
        invariant 1 <= n <= 1000 && forall k :: 1 <= k < n ==> Alias(name, k) in taken
      {
        if Alias(name, n) !in taken {
          return Some(n);
        }
        n := n + 1;
      }
      return None;
    }

    /** The short names the entries have. */
    method TakenNames(except: Option<nat>) returns (taken: seq<seq<nat>>)
      ensures forall short :: short in taken <==> Taken(slots[..], short, except)
    {
      var found := ScanDir();
      ghost var d := slots[..];
      taken := [];
      var k := 0;
      while k < |found|
        invariant k <= |found| && forall short :: short in taken <==> NamesOneOf(found[..k], short, except)
      {
        if Some(found[k].slot) != except {
          taken := taken + [found[k].raw[..11]];
        }
        assert found[..k + 1] == found[..k] + [found[k]];
        k := k + 1;
      }
      assert found[..k] == found;
      forall short
        ensures NamesOneOf(found, short, except) <==> Taken(d, short, except)
      {
        ListedIsTaken(d, short, except);
      }
    }

    /** Makes what is to be written for a new entry. */
    method BuildEntries(name: Name, short: seq<nat>, own: Entry) returns (es: seq<Entry>)
      requires ValidName(name) && WellFormed(short) && own[..11] == short && own[11] != ATTR_LFN && own[11] / 8 % 2 == 0
      ensures Naming(es) && NamedBy(es) == name && es[|es| - 1] == own && |es| == SlotsFor(name, short)
    {
      es := [own];
      if ShortName(short) != name {
        var lfn := BuildLfnEntries(name, short);
        es := lfn + es;
      }
      EntryNames(name, short, own);
    }

    method PlaceAt(at: nat, es: seq<Entry>)
      requires Orderly(slots[..]) && Naming(es) && FirstRoom(slots[..], at, |es|)
      modifies slots
      ensures Orderly(slots[..])
      ensures Gained(old(slots[..]), slots[..], Found(NamedBy(es), es[|es| - 1], at, at + |es| - 1))
    {
      assert Open(FolderSeal, 0);
      RoomStarts(slots[..], at);
      PutFreeTail(slots[..], at, es);
      PutAttached(slots[..], at, es);
      PutGains(slots[..], at, es, Found(NamedBy(es), es[|es| - 1], at, at + |es| - 1));
      WriteNamedEntry(at, es);
    }

    /** Gives a file its entry, with long-name entries in front whenever the short name alone says something else. */
    method PlaceEntry(name: Name, short: seq<nat>, entry: Entry) returns (r: Option<nat>)
      requires Orderly(slots[..]) && ValidName(name) && WellFormed(short) && entry[11] != ATTR_LFN
      requires entry[11] / 8 % 2 == 0
      modifies slots
      ensures Orderly(slots[..])
      ensures r.None? <==> Crowded(old(slots[..]), SlotsFor(name, short))
      ensures r.None? ==> slots[..] == old(slots[..])
      ensures r.Some? ==> FirstRoom(old(slots[..]), r.value, SlotsFor(name, short))
      ensures r.Some? ==>
                var slot := r.value + SlotsFor(name, short) - 1;
                Gained(old(slots[..]), slots[..], Found(name, short + entry[11..], r.value, slot))
    {
      var own: Entry := short + entry[11..];
      var es := BuildEntries(name, short, own);
      r := LocateSlotRun(|es|);
      if r.Some? {
        PlaceAt(r.value, es);
      }
    }

    /** Adds a file or folder to the folder, under a name nothing in it has yet. */
    method AddEntry(name: Name, entry: Entry) returns (r: Option<nat>, ghost f: Found)
      requires Orderly(slots[..]) && Distinct(slots[..]) && entry[11] != ATTR_LFN && entry[11] / 8 % 2 == 0
      modifies slots
      ensures Orderly(slots[..]) && Distinct(slots[..])
      ensures r.None? ==> slots[..] == old(slots[..])
      ensures r.None? ==>
                || !ValidName(name) || !Unnamed(old(slots[..]), name) || AliasesTaken(old(slots[..]), name, None)
                || Crowded(old(slots[..]), LfnCount(name) + 1)
      ensures r.Some? ==> ValidName(name) && Unnamed(old(slots[..]), name) && Gained(old(slots[..]), slots[..], f)
      ensures r.Some? ==> f.slot == r.value && f.name == name && WellFormed(f.raw[..11]) && f.raw[11..] == entry[11..]
      ensures r.Some? ==>
        if Fits(name) && !Taken(old(slots[..]), ToShort(name), None) then f.raw[..11] == ToShort(name)
        else MadeUp(old(slots[..]), f.raw[..11], name, None)
      ensures r.Some? ==> FirstRoom(old(slots[..]), f.lo, SlotsFor(name, f.raw[..11]))
      ensures r.Some? ==> forall i: nat :: Named(slots[..], i, name) <==> i == r.value
    {
      f := Found([], entry, 0, 0);
      var there := FindSlots(name);
      if there.Some? || !ValidName(name) {
        return None, f;
      }
      var short := MakeShortName(name, None);
      if short.None? {
        return None, f;
      }
      ghost var d := slots[..];
      var at := PlaceEntry(name, short.value, entry);
      if at.None? {
        CrowdedForMore(d, SlotsFor(name, short.value), LfnCount(name) + 1);
        return None, f;
      }
      var slot := at.value + SlotsFor(name, short.value) - 1;
      f := Found(name, short.value + entry[11..], at.value, slot);
      GainedDistinct(d, slots[..], f);
      return Some(slot), f;
    }
  }
}
