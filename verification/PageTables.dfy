/** Four-level page tables: private user halves hanging off a root frame each, over a kernel half they
    share. */
module PageTables {
  import opened Wrappers

  const ENTRIES: nat := 512
  const USER_HALF: nat := 256
  const PAGE_SIZE: nat := 4096
  const USER_END: nat := 0x8000_0000_0000
  const PAGE_PRESENT: nat := 1
  const PAGE_WRITABLE: nat := 2
  const PAGE_USER: nat := 4
  const PAGE_HUGE: nat := 128
  const PAGE_NX: nat := 0x8000_0000_0000_0000
  /** What the entry for a table says: present, writable, reachable from user code. */
  const TABLE_FLAGS: nat := PAGE_PRESENT + PAGE_WRITABLE + PAGE_USER

  /** An entry: the frame it leads to and its other bits. */
  datatype Pte = Absent | Present(frame: nat, flags: nat)

  predicate HasBit(flags: nat, bit: nat)
    requires bit > 0
  {
    flags / bit % 2 == 1
  }

  predicate IsHuge(flags: nat) { HasBit(flags, PAGE_HUGE) }

  /** What an entry above the last level must say to take nothing away from the entries below it. */
  predicate LetsThrough(flags: nat) {
    && HasBit(flags, PAGE_PRESENT) && HasBit(flags, PAGE_WRITABLE) && HasBit(flags, PAGE_USER)
    && !HasBit(flags, PAGE_NX) && !IsHuge(flags)
  }

  function WithPresent(flags: nat): nat { if flags % 2 == 1 then flags else flags + 1 }

  // --- Addresses ---

  function Indices(virt: nat): (idx: seq<nat>)
    ensures |idx| == 4
  {
    [virt / 0x80_0000_0000 % ENTRIES, virt / 0x4000_0000 % ENTRIES, virt / 0x20_0000 % ENTRIES, virt / PAGE_SIZE % ENTRIES]
  }

  /** Different pages have different indices, all of them in range. */
  lemma IndicesApart(v: nat, w: nat)
    requires v < USER_END && w < USER_END
    ensures Indices(v) == Indices(w) <==> v / PAGE_SIZE == w / PAGE_SIZE
    ensures PathOk(Indices(v))
  {
    IndicesSum(v);
    IndicesSum(w);
    IndicesOfPage(v);
    IndicesOfPage(w);
  }

  lemma IndicesSum(v: nat)
    requires v < USER_END
    ensures var i := Indices(v);
            v / PAGE_SIZE == i[0] * 0x800_0000 + i[1] * 0x4_0000 + i[2] * 0x200 + i[3] && i[0] < USER_HALF && i[1] < ENTRIES && i[2] < ENTRIES && i[3] < ENTRIES
  {
    var a, b, c, d := v / PAGE_SIZE, v / 0x20_0000, v / 0x4000_0000, v / 0x80_0000_0000;
    assert b == a / ENTRIES && c == b / ENTRIES && d == c / ENTRIES;
    assert d < USER_HALF;
  }

  /** The indices are those of the page. */
  lemma IndicesOfPage(v: nat)
    ensures var a := v / PAGE_SIZE;
            Indices(v) == [a / 0x800_0000 % ENTRIES, a / 0x4_0000 % ENTRIES, a / 0x200 % ENTRIES, a % ENTRIES]
  {
    var a := v / PAGE_SIZE;
    assert v / 0x20_0000 == a / 0x200 && v / 0x4000_0000 == a / 0x4_0000 && v / 0x80_0000_0000 == a / 0x800_0000;
  }

  // --- Places ---

  /** A place in an address space: the way to it from the root. The root itself, a table of one of the
      three levels below, or a page. */
  datatype Place = Place(root: nat, path: seq<nat>)

  function Kid(k: Place, i: nat): Place { Place(k.root, k.path + [i]) }

  function Parent(k: Place): Place
    requires k.path != []
  {
    Place(k.root, k.path[..|k.path| - 1])
  }

  function Last(k: Place): nat
    requires k.path != []
  {
    k.path[|k.path| - 1]
  }

  predicate PathOk(p: seq<nat>) {
    |p| <= 4 && forall j {:trigger p[j]} :: 0 <= j < |p| ==> p[j] < if j == 0 then USER_HALF else ENTRIES
  }

  /** How many of a table's entries are private. */
  function Width(k: Place): nat { if k.path == [] then USER_HALF else ENTRIES }

  predicate IsTable(k: Place) { |k.path| < 4 }

  // --- The state of memory ---

  type Table = seq<Pte>

  /** The tables in memory, the frames not in use, what frame is at every place of every address space,
      the frames of the shared kernel half, and what every root has for it. */
  datatype State = State(mem: map<nat, Table>, free: set<nat>, frames: map<Place, nat>, kernel: set<nat>, upper: Table)

  function EntryOf(s: State, k: Place, i: nat): Pte
    requires k in s.frames && s.frames[k] in s.mem && i < |s.mem[s.frames[k]]|
  {
    s.mem[s.frames[k]][i]
  }

  ghost predicate TableThere(s: State, k: Place) {
    k in s.frames && IsTable(k) ==>
      && s.frames[k] in s.mem && |s.mem[s.frames[k]]| == ENTRIES
      && (k.path == [] ==> s.mem[s.frames[k]][USER_HALF..] == s.upper)
  }

  /** A table's entries and the places below it agree. */
  ghost predicate EntryOk(s: State, k: Place, i: nat) {
    k in s.frames && IsTable(k) && i < Width(k) ==>
      && s.frames[k] in s.mem && i < |s.mem[s.frames[k]]|
      && match EntryOf(s, k, i)
         case Absent => Kid(k, i) !in s.frames
         case Present(f, flags) =>
           && Kid(k, i) in s.frames && s.frames[Kid(k, i)] == f
           && if |k.path| < 3 then LetsThrough(flags) else HasBit(flags, PAGE_PRESENT)
  }

  ghost predicate PlaceOk(s: State, k: Place) {
    k in s.frames ==>
      && PathOk(k.path) && s.frames[k] !in s.free && s.frames[k] !in s.kernel
      && if k.path == [] then s.frames[k] == k.root else Parent(k) in s.frames
  }

  ghost predicate Apart(s: State, k: Place, k': Place) {
    k in s.frames && k' in s.frames && s.frames[k] == s.frames[k'] ==> k == k'
  }

  /** Every frame is in one place only, and every table's entries are as its place says. */
  ghost predicate Sound(s: State) {
    && (forall k {:trigger PlaceOk(s, k)} :: PlaceOk(s, k))
    && (forall k {:trigger TableThere(s, k)} :: TableThere(s, k))
    && (forall k, i {:trigger EntryOk(s, k, i)} :: EntryOk(s, k, i))
    && (forall k, k' {:trigger Apart(s, k, k')} :: Apart(s, k, k'))
    && s.free !! s.kernel
  }

  /** What is mapped at a page. */
  ghost function PageAt(s: State, k: Place): Option<Pte> {
    if |k.path| == 4 && k in s.frames && Parent(k) in s.frames && s.frames[Parent(k)] in s.mem && Last(k) < |s.mem[s.frames[Parent(k)]]| then
      Some(EntryOf(s, Parent(k), Last(k)))
    else None
  }

  // --- What the processor makes of it ---

  /** Where an access goes: nowhere, to a page larger than the ones mapped here, or to a frame, with what may be
      done there. */
  datatype Access = Fault | Large | Reached(frame: nat, writable: bool, user: bool, executable: bool)

  /** The way from the table in frame `t` through the entries at `path`. Each entry on it can take rights away. */
  function Walked(mem: map<nat, Table>, t: nat, path: seq<nat>): Access
    decreases |path|
  {
    if path == [] || t !in mem || path[0] >= |mem[t]| then Fault
    else
      match mem[t][path[0]]
      case Absent => Fault
      case Present(f, flags) =>
        if !HasBit(flags, PAGE_PRESENT) then Fault
        else if |path| == 1 then Granted(f, flags)
        else if IsHuge(flags) then Large
        else
          match Walked(mem, f, path[1..])
          case Reached(g, w, u, x) =>
            Reached(g, w && HasBit(flags, PAGE_WRITABLE), u && HasBit(flags, PAGE_USER), x && !HasBit(flags, PAGE_NX))
          case other => other
  }

  /** A page's frame, with the rights these flags give. */
  function Granted(frame: nat, flags: nat): Access {
    Reached(frame, HasBit(flags, PAGE_WRITABLE), HasBit(flags, PAGE_USER), !HasBit(flags, PAGE_NX))
  }

  /** What a page's own entry alone gives. */
  function OfEntry(page: Option<Pte>): Access {
    match page
    case Some(Present(f, flags)) => Granted(f, flags)
    case _ => Fault
  }

  ghost function Seen(s: State, k: Place): Access { Walked(s.mem, k.root, k.path) }

  ghost predicate HasRoot(s: State, root: nat) { Place(root, []) in s.frames }

  predicate IsPage(k: Place) { |k.path| == 4 && PathOk(k.path) }

  /** What is not at a place is not below it. */
  lemma {:induction false} NoneBelow(s: State, k: Place, path: seq<nat>)
    requires Sound(s) && path != [] && Kid(k, path[0]) !in s.frames
    ensures Place(k.root, k.path + path) !in s.frames
    decreases |path|
  {
    if |path| > 1 {
      var up := path[..|path| - 1];
      NoneBelow(s, k, up);
      var below := Place(k.root, k.path + path);
      assert PlaceOk(s, below);
      assert below.path[..|below.path| - 1] == k.path + up;
    } else {
      assert path == [path[0]];
    }
  }

  /** The walk from a table down to a page below it. */
  lemma {:induction false} WalkBelow(s: State, k: Place, path: seq<nat>)
    requires Sound(s) && k in s.frames && path != [] && |k.path| + |path| == 4 && PathOk(k.path + path)
    ensures Walked(s.mem, s.frames[k], path) == OfEntry(PageAt(s, Place(k.root, k.path + path)))
    decreases |path|
  {
    var i, page := path[0], Place(k.root, k.path + path);
    assert (k.path + path)[|k.path|] == i;
    assert EntryOk(s, k, i) && TableThere(s, k);
    KidParent(k, i);
    if |path| == 1 {
      assert page == Kid(k, i);
    } else if EntryOf(s, k, i) == Absent {
      NoneBelow(s, k, path);
    } else {
      assert k.path + path == Kid(k, i).path + path[1..];
      WalkBelow(s, Kid(k, i), path[1..]);
    }
  }

  /** The processor gets to a page's frame with the rights of the page's own flags, whatever is above it. */
  lemma PageSeen(s: State, k: Place)
    requires Sound(s) && IsPage(k) && HasRoot(s, k.root)
    ensures Seen(s, k) == OfEntry(PageAt(s, k))
  {
    assert PlaceOk(s, Place(k.root, []));
    assert [] + k.path == k.path;
    WalkBelow(s, Place(k.root, []), k.path);
  }

  /** Only the page at `k` is seen differently: as `access`. */
  ghost predicate SeesOnly(s: State, s': State, k: Place, access: Access) {
    forall k' {:trigger Seen(s', k')} :: IsPage(k') && HasRoot(s, k'.root) ==>
      Seen(s', k') == if k' == k then access else Seen(s, k')
  }

  /** No page of an address space that stays is seen differently. */
  ghost predicate SeesSame(s: State, s': State) {
    forall k {:trigger Seen(s', k)} :: IsPage(k) && HasRoot(s, k.root) && HasRoot(s', k.root) ==> Seen(s', k) == Seen(s, k)
  }

  lemma SameSeen(s: State, s': State)
    requires Sound(s) && Sound(s')
    requires forall k: Place {:trigger PageAt(s', k)} :: HasRoot(s', k.root) ==> PageAt(s', k) == PageAt(s, k)
    ensures SeesSame(s, s')
  {
    forall k | IsPage(k) && HasRoot(s, k.root) && HasRoot(s', k.root) ensures Seen(s', k) == Seen(s, k) {
      PageSeen(s, k);
      PageSeen(s', k);
    }
  }

  lemma WithPresentBits(flags: nat)
    ensures HasBit(WithPresent(flags), PAGE_PRESENT)
    ensures HasBit(WithPresent(flags), PAGE_WRITABLE) == HasBit(flags, PAGE_WRITABLE)
    ensures HasBit(WithPresent(flags), PAGE_USER) == HasBit(flags, PAGE_USER)
    ensures HasBit(WithPresent(flags), PAGE_NX) == HasBit(flags, PAGE_NX)
  {
  }

  /** Of the other bits of an entry, all stay. */
  lemma WithPresentKeeps(flags: nat)
    ensures WithPresent(flags) / 2 == flags / 2 && WithPresent(flags) % 2 == 1
  {
  }

  /** A page that is mapped is reached with exactly the rights asked for. */
  lemma MappedSeen(s: State, s': State, k: Place, f: nat, flags: nat)
    requires Sound(s) && Sound(s') && RootsKept(s, s') && MapsOnly(s, s', k, Some(Present(f, WithPresent(flags))))
    ensures SeesOnly(s, s', k, Granted(f, flags))
  {
    WithPresentBits(flags);
    forall k' | IsPage(k') && HasRoot(s, k'.root)
      ensures Seen(s', k') == if k' == k then Granted(f, flags) else Seen(s, k')
    {
      PageSeen(s, k');
      PageSeen(s', k');
    }
  }

  lemma UnmappedSeen(s: State, s': State, k: Place)
    requires Sound(s) && Sound(s') && RootsKept(s, s') && MapsOnly(s, s', k, None)
    ensures SeesOnly(s, s', k, Fault)
  {
    forall k' | IsPage(k') && HasRoot(s, k'.root)
      ensures Seen(s', k') == if k' == k then Fault else Seen(s, k')
    {
      PageSeen(s, k');
      PageSeen(s', k');
    }
  }

  lemma KidParent(k: Place, i: nat)
    ensures Parent(Kid(k, i)) == k && Last(Kid(k, i)) == i
  {
  }

  // --- Changing one entry ---

  /** Entry `i` of the table at `k` set to lead to `f` (a page's frame or, with an empty table there, a
      table's). */
  function Linked(s: State, k: Place, i: nat, f: nat, flags: nat): State
    requires k in s.frames && s.frames[k] in s.mem && i < |s.mem[s.frames[k]]|
  {
    var t := s.frames[k];
    s.(mem := s.mem[t := s.mem[t][i := Present(f, flags)]], frames := s.frames[Kid(k, i) := f])
  }

  /** Entry `i` of the table at `k` cleared. */
  function Unlinked(s: State, k: Place, i: nat): State
    requires k in s.frames && s.frames[k] in s.mem && i < |s.mem[s.frames[k]]|
  {
    var t := s.frames[k];
    s.(mem := s.mem[t := s.mem[t][i := Absent]], frames := s.frames - {Kid(k, i)})
  }

  /** Where a page may be mapped to: a frame that is in no other place. */
  ghost predicate Mappable(s: State, k: Place, f: nat) {
    f !in s.free && f !in s.kernel && forall k' {:trigger s.frames[k']} :: k' in s.frames && s.frames[k'] == f ==> k' == k
  }

  /** A page mapped: that page, and only that, is what it was asked to be. */
  lemma PageLinked(s: State, k: Place, i: nat, f: nat, flags: nat)
    requires Sound(s) && k in s.frames && |k.path| == 3 && i < ENTRIES && Mappable(s, Kid(k, i), f)
    requires HasBit(flags, PAGE_PRESENT)
    ensures s.frames[k] in s.mem && i < |s.mem[s.frames[k]]|
    ensures Sound(Linked(s, k, i, f, flags))
    ensures forall k' {:trigger PageAt(Linked(s, k, i, f, flags), k')} ::
              PageAt(Linked(s, k, i, f, flags), k') == if k' == Kid(k, i) then Some(Present(f, flags)) else PageAt(s, k')
  {
    assert TableThere(s, k) && PlaceOk(s, k);
    var s' := Linked(s, k, i, f, flags);
    forall k' ensures PlaceOk(s', k') && TableThere(s', k') {
      assert PlaceOk(s, k') && TableThere(s, k') && Apart(s, k, k');
      KidParent(k, i);
    }
    forall k', j: nat ensures EntryOk(s', k', j) {
      LinkedEntry(s, k, i, f, flags, k', j);
    }
    forall a, b ensures Apart(s', a, b) {
      assert Apart(s, a, b);
    }
    forall k' ensures PageAt(s', k') == if k' == Kid(k, i) then Some(Present(f, flags)) else PageAt(s, k') {
      LinkedPage(s, k, i, f, flags, k');
    }
  }

  lemma LinkedEntry(s: State, k: Place, i: nat, f: nat, flags: nat, k': Place, j: nat)
    requires Sound(s) && k in s.frames && |k.path| == 3 && i < ENTRIES && s.frames[k] in s.mem
    requires i < |s.mem[s.frames[k]]| && HasBit(flags, PAGE_PRESENT)
    ensures EntryOk(Linked(s, k, i, f, flags), k', j)
  {
    assert EntryOk(s, k', j) && Apart(s, k, k') && TableThere(s, k');
    assert Kid(k', j) == Kid(k, i) ==> k' == k && j == i by {
      KidParent(k, i);
      KidParent(k', j);
    }
  }

  lemma LinkedPage(s: State, k: Place, i: nat, f: nat, flags: nat, k': Place)
    requires Sound(s) && k in s.frames && |k.path| == 3 && i < ENTRIES && s.frames[k] in s.mem
    requires i < |s.mem[s.frames[k]]|
    ensures PageAt(Linked(s, k, i, f, flags), k') == if k' == Kid(k, i) then Some(Present(f, flags)) else PageAt(s, k')
  {
    KidParent(k, i);
    if |k'.path| == 4 && k' in s.frames {
      assert PlaceOk(s, k');
      assert Apart(s, k, Parent(k'));
      assert k' == Kid(Parent(k'), Last(k'));
    }
  }

  /** A page taken out. */
  lemma PageUnlinked(s: State, k: Place, i: nat)
    requires Sound(s) && k in s.frames && |k.path| == 3 && i < ENTRIES
    ensures s.frames[k] in s.mem && i < |s.mem[s.frames[k]]|
    ensures Sound(Unlinked(s, k, i))
    ensures forall k' {:trigger PageAt(Unlinked(s, k, i), k')} ::
              PageAt(Unlinked(s, k, i), k') == if k' == Kid(k, i) then None else PageAt(s, k')
  {
    assert TableThere(s, k) && PlaceOk(s, k);
    var s' := Unlinked(s, k, i);
    KidParent(k, i);
    forall k' ensures PlaceOk(s', k') && TableThere(s', k') {
      assert PlaceOk(s, k') && TableThere(s, k') && Apart(s, k, k');
      assert k' in s.frames && k'.path != [] ==> |Parent(k').path| < 4;
    }
    forall k', j: nat ensures EntryOk(s', k', j) {
      UnlinkedEntry(s, k, i, k', j);
    }
    forall a, b ensures Apart(s', a, b) {
      assert Apart(s, a, b);
    }
    forall k' ensures PageAt(s', k') == if k' == Kid(k, i) then None else PageAt(s, k') {
      UnlinkedPage(s, k, i, k');
    }
  }

  lemma UnlinkedEntry(s: State, k: Place, i: nat, k': Place, j: nat)
    requires Sound(s) && k in s.frames && |k.path| == 3 && i < ENTRIES && s.frames[k] in s.mem
    requires i < |s.mem[s.frames[k]]|
    ensures EntryOk(Unlinked(s, k, i), k', j)
  {
    assert EntryOk(s, k', j) && Apart(s, k, k') && TableThere(s, k');
    assert Kid(k', j) == Kid(k, i) ==> k' == k && j == i by {
      KidParent(k, i);
      KidParent(k', j);
    }
  }

  lemma UnlinkedPage(s: State, k: Place, i: nat, k': Place)
    requires Sound(s) && k in s.frames && |k.path| == 3 && i < ENTRIES && s.frames[k] in s.mem
    requires i < |s.mem[s.frames[k]]|
    ensures PageAt(Unlinked(s, k, i), k') == if k' == Kid(k, i) then None else PageAt(s, k')
  {
    KidParent(k, i);
    if |k'.path| == 4 && k' in s.frames {
      assert PlaceOk(s, k');
      assert Apart(s, k, Parent(k'));
      assert k' == Kid(Parent(k'), Last(k'));
    }
  }

  // --- Adding a table ---

  function Zeroed(): Table { seq(ENTRIES, _ => Absent) }

  /** An empty table at entry `i` of the table at `k`. */
  function WithTable(s: State, k: Place, i: nat, f: nat): State
    requires k in s.frames && s.frames[k] in s.mem && i < |s.mem[s.frames[k]]| && s.frames[k] != f
  {
    Linked(s.(mem := s.mem[f := Zeroed()], free := s.free - {f}), k, i, f, TABLE_FLAGS)
  }

  /** A new table changes nothing that is mapped. */
  lemma TableAdded(s: State, k: Place, i: nat, f: nat)
    requires Sound(s) && k in s.frames && |k.path| < 3 && i < Width(k) && f in s.free
    requires Kid(k, i) !in s.frames
    ensures s.frames[k] in s.mem && i < |s.mem[s.frames[k]]| && s.frames[k] != f
    ensures Sound(WithTable(s, k, i, f))
    ensures forall k' {:trigger PageAt(WithTable(s, k, i, f), k')} :: PageAt(WithTable(s, k, i, f), k') == PageAt(s, k')
  {
    assert TableThere(s, k) && PlaceOk(s, k);
    var s' := WithTable(s, k, i, f);
    KidParent(k, i);
    forall k' ensures PlaceOk(s', k') && TableThere(s', k') {
      assert PlaceOk(s, k') && TableThere(s, k') && Apart(s, k, k');
      PathGrows(k, i);
      UpperKept(s.mem[s.frames[k]], i, Present(f, TABLE_FLAGS));
    }
    forall k', j: nat ensures EntryOk(s', k', j) {
      AddedEntry(s, k, i, f, k', j);
    }
    forall a, b ensures Apart(s', a, b) {
      assert Apart(s, a, b) && PlaceOk(s, a) && PlaceOk(s, b);
    }
    forall k' ensures PageAt(s', k') == PageAt(s, k') {
      AddedPage(s, k, i, f, k');
    }
  }

  /** An entry of the private half does not matter to the other. */
  lemma UpperKept(t: Table, i: nat, e: Pte)
    requires |t| == ENTRIES && i < |t|
    ensures i < USER_HALF ==> t[i := e][USER_HALF..] == t[USER_HALF..]
  {
  }

  lemma PathGrows(k: Place, i: nat)
    requires PathOk(k.path) && |k.path| < 4 && i < Width(k)
    ensures PathOk(Kid(k, i).path)
  {
  }

  lemma AddedEntry(s: State, k: Place, i: nat, f: nat, k': Place, j: nat)
    requires Sound(s) && k in s.frames && |k.path| < 3 && i < Width(k) && f in s.free && Kid(k, i) !in s.frames
    requires s.frames[k] in s.mem && i < |s.mem[s.frames[k]]| && s.frames[k] != f
    ensures EntryOk(WithTable(s, k, i, f), k', j)
  {
    assert EntryOk(s, k', j) && Apart(s, k, k') && TableThere(s, k') && PlaceOk(s, k') && PlaceOk(s, Kid(k', j));
    assert Kid(k', j) == Kid(k, i) ==> k' == k && j == i by {
      KidParent(k, i);
      KidParent(k', j);
    }
    if k' == Kid(k, i) {
      KidParent(k', j);
      assert |k'.path| == |k.path| + 1;
    }
  }

  lemma AddedPage(s: State, k: Place, i: nat, f: nat, k': Place)
    requires Sound(s) && k in s.frames && |k.path| < 3 && i < Width(k) && f in s.free && Kid(k, i) !in s.frames
    requires s.frames[k] in s.mem && i < |s.mem[s.frames[k]]| && s.frames[k] != f
    ensures PageAt(WithTable(s, k, i, f), k') == PageAt(s, k')
  {
    KidParent(k, i);
    if |k'.path| == 4 && k' in s.frames {
      assert PlaceOk(s, k') && PlaceOk(s, Parent(k'));
      assert Apart(s, k, Parent(k'));
      assert k' == Kid(Parent(k'), Last(k'));
    }
  }

  // --- Taking a table back ---

  /** The same, but for what is in frames not in use. */
  ghost predicate Like(s: State, s': State) {
    && s'.frames == s.frames && s'.free == s.free && s'.kernel == s.kernel && s'.upper == s.upper
    && forall k {:trigger s.frames[k]} :: k in s.frames && IsTable(k) ==>
         s.frames[k] in s.mem && s.frames[k] in s'.mem && s'.mem[s.frames[k]] == s.mem[s.frames[k]]
  }

  lemma LikeSelf(s: State)
    requires Sound(s)
    ensures Like(s, s)
  {
    forall k | k in s.frames && IsTable(k) ensures s.frames[k] in s.mem {
      assert TableThere(s, k);
    }
  }

  lemma LikeSound(s: State, s': State)
    requires Sound(s) && Like(s, s')
    ensures Sound(s') && forall k {:trigger PageAt(s', k)} :: PageAt(s', k) == PageAt(s, k)
  {
    forall k ensures PlaceOk(s', k) && TableThere(s', k) {
      assert PlaceOk(s, k) && TableThere(s, k);
    }
    forall k, i: nat ensures EntryOk(s', k, i) {
      assert EntryOk(s, k, i);
    }
    forall a, b ensures Apart(s', a, b) {
      assert Apart(s, a, b);
    }
    forall k ensures PageAt(s', k) == PageAt(s, k) {
      if |k.path| == 4 && k in s.frames {
        assert PlaceOk(s, k);
      }
    }
  }

  /** Clearing the entry of a table that has just been added, and freeing its frame, undoes the addition. */
  lemma TableDropped(s: State, k: Place, i: nat, f: nat, s': State)
    requires Sound(s) && k in s.frames && |k.path| < 3 && i < Width(k) && f in s.free && Kid(k, i) !in s.frames
    requires s.frames[k] in s.mem && i < |s.mem[s.frames[k]]| && s.frames[k] != f
    requires Like(WithTable(s, k, i, f), s')
    ensures k in s'.frames && s'.frames[k] in s'.mem && i < |s'.mem[s'.frames[k]]|
    ensures Like(s, Unlinked(s', k, i).(free := s'.free + {f}))
  {
    var w := WithTable(s, k, i, f);
    assert w.frames[k] == s.frames[k];
    var u := Unlinked(s', k, i).(free := s'.free + {f});
    assert u.frames == s.frames;
    assert u.free == s.free;
    assert EntryOk(s, k, i);
    forall k' | k' in s.frames && IsTable(k')
      ensures s.frames[k'] in s.mem && s.frames[k'] in u.mem && u.mem[s.frames[k']] == s.mem[s.frames[k']]
    {
      assert w.frames[k'] == s.frames[k'];
      assert PlaceOk(s, k') && TableThere(s, k') && Apart(s, k, k');
    }
  }

  class Mmu {
    var mem: map<nat, Table>
    /** Frames not in use. */
    var free: set<nat>
    /** The root of the address space in use. */
    var cr3: nat
    ghost var frames: map<Place, nat>
    ghost var kernel: set<nat>
    ghost var upper: Table

    ghost function S(): State
      reads this
    {
      State(mem, free, frames, kernel, upper)
    }

    ghost predicate Valid()
      reads this
    {
      Sound(S()) && Place(cr3, []) in frames
    }

    /** One address space, with nothing in its own half. */
    constructor (root: nat, table: Table, unused: set<nat>, ghost shared: set<nat>)
      requires |table| == ENTRIES && forall i :: 0 <= i < USER_HALF ==> table[i] == Absent
      requires root !in unused && root !in shared && unused !! shared
      ensures Valid() && cr3 == root && free == unused && kernel == shared && frames == map[Place(root, []) := root]
    {
      mem, free, cr3 := map[root := table], unused, root;
      frames, kernel, upper := map[Place(root, []) := root], shared, table[USER_HALF..];
      new;
      forall k, i: nat ensures EntryOk(S(), k, i) {
        assert Kid(k, i).path != [];
      }
    }

    method AllocFrame() returns (r: Option<nat>)
      modifies this`free
      ensures r.None? ==> free == old(free) == {}
      ensures r.Some? ==> r.value in old(free) && free == old(free) - {r.value}
    {
      if free == {} {
        return None;
      }
      var f :| f in free;
      free := free - {f};
      return Some(f);
    }

    /** The table entry `i` of the table at `k` leads to, made if there is none yet. */
    method EnsureTable(t: nat, i: nat, ghost k: Place) returns (r: Option<nat>)
      requires Valid() && k in frames && frames[k] == t && |k.path| < 3 && i < Width(k)
      modifies this`mem, this`free, this`frames
      ensures Valid() && SamePages(old(S()), S()) && Extended(old(S()), S())
      ensures r.Some? ==> Kid(k, i) in frames && frames[Kid(k, i)] == r.value
      ensures r.None? ==> free == {}
    {
      assert EntryOk(S(), k, i) && TableThere(S(), k);
      match mem[t][i] {
        case Present(next, _) =>
          return Some(next);
        case Absent =>
      }
      r := MakeTable(t, i, k);
    }

    /** An empty table in a frame of its own, at entry `i` of the table at `k`. */
    method MakeTable(t: nat, i: nat, ghost k: Place) returns (r: Option<nat>)
      requires Valid() && k in frames && frames[k] == t && |k.path| < 3 && i < Width(k) && Kid(k, i) !in frames
      modifies this`mem, this`free, this`frames
      ensures Valid() && SamePages(old(S()), S()) && Extended(old(S()), S())
      ensures r.None? ==> S() == old(S()) && free == {}
      ensures r.Some? ==> Step(Made(t, i, r.value), old(S()), k, S()) && |free| + 1 == |old(free)|
      ensures r.Some? ==> Kid(k, i) in frames && frames[Kid(k, i)] == r.value && mem[r.value] == Zeroed()
    {
      assert TableThere(S(), k) && PlaceOk(S(), k);
      ghost var s := S();
      var f := AllocFrame();
      if f.None? {
        return None;
      }
      TableAdded(s, k, i, f.value);
      mem := mem[f.value := Zeroed()];
      mem := mem[t := mem[t][i := Present(f.value, TABLE_FLAGS)]];
      frames := frames[Kid(k, i) := f.value];
      assert S() == WithTable(s, k, i, f.value);
      return f;
    }

    /** Writes the last entry on the way to a page. */
    method SetPage(t: nat, i: nat, f: nat, flags: nat, ghost k: Place)
      requires Valid() && k in frames && frames[k] == t && |k.path| == 3 && i < ENTRIES
      requires Mappable(S(), Kid(k, i), f)
      modifies this`mem, this`frames
      ensures Valid() && RootsKept(old(S()), S()) && frames == old(frames)[Kid(k, i) := f]
      ensures MapsOnly(old(S()), S(), Kid(k, i), Some(Present(f, WithPresent(flags))))
    {
      assert TableThere(S(), k);
      WithPresentBits(flags);
      PageLinked(S(), k, i, f, WithPresent(flags));
      mem := mem[t := mem[t][i := Present(f, WithPresent(flags))]];
      frames := frames[Kid(k, i) := f];
    }

    /** Maps a page, making the tables on the way. (Running out of frames for them stops the kernel.) */
    method MapPage(root: nat, virt: nat, phys: nat, flags: nat) returns (ok: bool)
      requires Valid() && Place(root, []) in frames && virt < USER_END
      requires Mappable(S(), Place(root, Indices(virt)), phys)
      modifies this`mem, this`free, this`frames
      ensures Valid()
      ensures ok ==> MapsOnly(old(S()), S(), Place(root, Indices(virt)), Some(Present(phys, WithPresent(flags))))
      ensures ok ==> SeesOnly(old(S()), S(), Place(root, Indices(virt)), Granted(phys, flags))
      ensures !ok ==> SamePages(old(S()), S()) && SeesSame(old(S()), S()) && free == {}
    {
      var idx := Indices(virt);
      IndicesApart(virt, virt);
      ghost var s, k := S(), Place(root, []);
      assert PlaceOk(s, k);
      var t, level := root, 0;
      while level < 3
        invariant 0 <= level <= 3 && Valid() && SamePages(s, S()) && Extended(s, S())
        invariant k == Place(root, idx[..level]) && k in frames && frames[k] == t
      {
        ghost var before := S();
        var next := EnsureTable(t, idx[level], k);
        ExtendedTrans(s, before, S());
        if next.None? {
          SameSeen(s, S());
          return false;
        }
        k := Kid(k, idx[level]);
        t, level := next.value, level + 1;
      }
      MappableKept(s, S(), Place(root, idx), phys);
      assert Kid(k, idx[3]) == Place(root, idx);
      SetPage(t, idx[3], phys, flags, k);
      MappedSeen(s, S(), Place(root, idx), phys, flags);
      return true;
    }

    /** The last table on the way to a page, if the way goes that far. */
    method FindTable(root: nat, idx: seq<nat>) returns (r: Option<nat>)
      requires Valid() && Place(root, []) in frames && |idx| == 4 && PathOk(idx)
      ensures r.Some? ==> Place(root, idx[..3]) in frames && frames[Place(root, idx[..3])] == r.value
      ensures r.None? ==> PageAt(S(), Place(root, idx)) == None
    {
      ghost var k := Place(root, []);
      var t, level := root, 0;
      assert PlaceOk(S(), k);
      while level < 3
        invariant 0 <= level <= 3 && k == Place(root, idx[..level]) && k in frames && frames[k] == t
      {
        assert EntryOk(S(), k, idx[level]) && TableThere(S(), k);
        match mem[t][idx[level]] {
          case Absent =>
            NoWayDown(S(), k, idx[level], Place(root, idx));
            return None;
          case Present(next, _) =>
            k := Kid(k, idx[level]);
            t, level := next, level + 1;
        }
      }
      return Some(t);
    }

    /** The frame mapped at an address. */
    method Translate(root: nat, virt: nat) returns (r: Option<nat>)
      requires Valid() && Place(root, []) in frames && virt < USER_END
      ensures match PageAt(S(), Place(root, Indices(virt)))
              case None => r == None
              case Some(e) => e.Present? && r == Some(e.frame)
      ensures match Seen(S(), Place(root, Indices(virt)))
              case Reached(frame, _, _, _) => r == Some(frame)
              case _ => r == None
    {
      var idx := Indices(virt);
      IndicesApart(virt, virt);
      PageSeen(S(), Place(root, idx));
      var t := FindTable(root, idx);
      if t.None? {
        return None;
      }
      LastEntry(S(), Place(root, idx[..3]), idx[3], Place(root, idx));
      match mem[t.value][idx[3]] {
        case Absent => return None;
        case Present(frame, _) => return Some(frame);
      }
    }

    /** Takes a page out, and returns the frame it was mapped to. */
    method UnmapPage(root: nat, virt: nat) returns (r: Option<nat>)
      requires Valid() && Place(root, []) in frames && virt < USER_END
      modifies this`mem, this`frames
      ensures Valid() && MapsOnly(old(S()), S(), Place(root, Indices(virt)), None)
      ensures SeesOnly(old(S()), S(), Place(root, Indices(virt)), Fault)
      ensures match old(PageAt(S(), Place(root, Indices(virt))))
              case None => r == None
              case Some(e) => e.Present? && r == Some(e.frame) && e.frame !in free && NoPlace(S(), e.frame)
    {
      var idx := Indices(virt);
      IndicesApart(virt, virt);
      var t := FindTable(root, idx);
      if t.None? {
        UnmappedSeen(S(), S(), Place(root, idx));
        return None;
      }
      ghost var s, k := S(), Place(root, idx[..3]);
      LastEntry(s, k, idx[3], Place(root, idx));
      match mem[t.value][idx[3]] {
        case Absent =>
          UnmappedSeen(s, S(), Place(root, idx));
          return None;
        case Present(frame, _) =>
          PageUnlinked(s, k, idx[3]);
          FrameLeft(s, k, idx[3]);
          mem := mem[t.value := mem[t.value][idx[3] := Absent]];
          frames := frames - {Kid(k, idx[3])};
          UnmappedSeen(s, S(), Place(root, idx));
          return Some(frame);
      }
    }

    /** Changes what is allowed of one page, if it is mapped. */
    method ProtectPage(root: nat, virt: nat, flags: nat)
      requires Valid() && Place(root, []) in frames && virt < USER_END
      modifies this`mem, this`frames
      ensures Valid() && frames == old(frames)
      ensures MapsOnly(old(S()), S(), Place(root, Indices(virt)), Protected(old(PageAt(S(), Place(root, Indices(virt)))), flags))
    {
      var idx := Indices(virt);
      IndicesApart(virt, virt);
      var t := FindTable(root, idx);
      if t.None? {
        return;
      }
      ghost var s, k := S(), Place(root, idx[..3]);
      LastEntry(s, k, idx[3], Place(root, idx));
      match mem[t.value][idx[3]] {
        case Absent => return;
        case Present(frame, _) =>
          StillMappable(s, Kid(k, idx[3]));
          SetPage(t.value, idx[3], frame, flags, k);
      }
    }

    /** Changes what is allowed of every mapped page of a range, and of no other. */
    method ProtectRange(root: nat, virt: nat, len: nat, flags: nat)
      requires Valid() && Place(root, []) in frames && virt + len <= USER_END
      modifies this`mem, this`frames
      ensures Valid() && frames == old(frames)
      ensures ProtectsRange(old(S()), S(), root, virt / PAGE_SIZE, (virt + len + PAGE_SIZE - 1) / PAGE_SIZE, flags)
      ensures SeesRange(old(S()), S(), root, virt / PAGE_SIZE, (virt + len + PAGE_SIZE - 1) / PAGE_SIZE, flags)
    {
      ghost var lo, page, hi := virt / PAGE_SIZE, virt / PAGE_SIZE, (virt + len + PAGE_SIZE - 1) / PAGE_SIZE;
      var addr := virt / PAGE_SIZE * PAGE_SIZE;
      var end := (virt + len + PAGE_SIZE - 1) / PAGE_SIZE * PAGE_SIZE;
      while addr < end
        invariant lo <= page <= hi && addr == page * PAGE_SIZE && Valid() && frames == old(frames)
        invariant ProtectsRange(old(S()), S(), root, lo, page, flags)
      {
        ghost var s := S();
        ProtectPage(root, addr, flags);
        ProtectedMore(old(S()), s, S(), root, lo, addr, flags);
        addr := addr + PAGE_SIZE;
        page := page + 1;
      }
      RangeSeen(old(S()), S(), root, lo, hi, flags);
    }

    method FreeFrame(f: nat)
      requires f !in free
      modifies this`free
      ensures free == old(free) + {f}
    {
      free := free + {f};
    }

    /** Maps a page that is not mapped yet. When that cannot be, everything is as it was: every translation,
        every table, every frame. */
    method TryMapPage(root: nat, virt: nat, phys: nat, flags: nat) returns (ok: bool)
      requires Valid() && Place(root, []) in frames && virt < USER_END
      requires Mappable(S(), Place(root, Indices(virt)), phys)
      modifies this`mem, this`free, this`frames
      ensures Valid()
      ensures ok ==> old(PageAt(S(), Place(root, Indices(virt)))) == None
      ensures ok ==> Extended(old(S()), S().(frames := S().frames - {Place(root, Indices(virt))}))
      ensures ok ==> MapsOnly(old(S()), S(), Place(root, Indices(virt)), Some(Present(phys, WithPresent(flags))))
      ensures ok ==> SeesOnly(old(S()), S(), Place(root, Indices(virt)), Granted(phys, flags))
      ensures !ok ==> Like(old(S()), S()) && SamePages(old(S()), S()) && SeesSame(old(S()), S())
      ensures !ok ==> old(PageAt(S(), Place(root, Indices(virt)))).Some? || |free| < 3
    {
      var idx := Indices(virt);
      IndicesApart(virt, virt);
      ghost var s, k := S(), Place(root, idx[..3]);
      var t := TryTables(root, idx);
      if t.None? {
        SameSeen(s, S());
        return false;
      }
      LastEntry(S(), k, idx[3], Place(root, idx));
      if mem[t.value][idx[3]].Present? {
        LikeSelf(s);
        SameSeen(s, S());
        return false;
      }
      MappableKept(s, S(), Place(root, idx), phys);
      SetPage(t.value, idx[3], phys, flags, k);
      MappedSeen(s, S(), Place(root, idx), phys, flags);
      return true;
    }

    /** The last table on the way to a page, with the tables missing on the way made; all of them or none. */
    method TryTables(root: nat, idx: seq<nat>) returns (r: Option<nat>)
      requires Valid() && Place(root, []) in frames && |idx| == 4 && PathOk(idx)
      modifies this`mem, this`free, this`frames
      ensures Valid() && SamePages(old(S()), S())
      ensures r.Some? ==> Place(root, idx[..3]) in frames && frames[Place(root, idx[..3])] == r.value && Extended(old(S()), S())
      ensures r.Some? ==> r.value in mem && |mem[r.value]| == ENTRIES && (mem[r.value] == Zeroed() || S() == old(S()))
      ensures r.None? ==> Like(old(S()), S()) && |free| < 3
    {
      ghost var s, k := S(), Place(root, []);
      assert PlaceOk(s, k) && TableThere(s, k);
      LikeSelf(s);
      var created: seq<Made> := [];
      ghost var before: seq<State>, at: seq<Place> := [], [];
      var t, level := root, 0;
      while level < 3
        invariant 0 <= level <= 3 && Valid() && SamePages(s, S()) && Extended(s, S())
        invariant k == Place(root, idx[..level]) && k in frames && frames[k] == t
        invariant |created| <= level && Chain(created, before, at, S()) && After(before, S(), 0) == s
        invariant |free| + |created| == |s.free| && t in mem && (created != [] ==> mem[t] == Zeroed())
      {
        assert EntryOk(S(), k, idx[level]) && TableThere(S(), k);
        match mem[t][idx[level]] {
          case Present(next, flags) =>
            if IsHuge(flags) {
              return None;
            }
            k := Kid(k, idx[level]);
            assert TableThere(S(), k);
            t := next;
          case Absent =>
            ghost var now := S();
            var f := MakeTable(t, idx[level], k);
            if f.None? {
              Rollback(created, before, at, now);
              LikeSound(s, S());
              return None;
            }
            ChainGrows(created, before, at, now, Made(t, idx[level], f.value), k, S());
            created, before, at := created + [Made(t, idx[level], f.value)], before + [now], at + [k];
            ExtendedTrans(s, now, S());
            k := Kid(k, idx[level]);
            t := f.value;
        }
        level := level + 1;
      }
      assert TableThere(S(), k);
      return Some(t);
    }

    /** Takes back the tables made, last first. */
    method Rollback(created: seq<Made>, ghost before: seq<State>, ghost at: seq<Place>, ghost now: State)
      requires Chain(created, before, at, now) && S() == now && Sound(now)
      modifies this`mem, this`free, this`frames
      ensures Like(After(before, now, 0), S())
    {
      var n := |created|;
      LikeSelf(now);
      while n > 0
        invariant 0 <= n <= |created| && Like(if n < |created| then before[n] else now, S())
      {
        n := n - 1;
        var m := created[n];
        assert Step(m, before[n], at[n], After(before, now, n + 1));
        TableDropped(before[n], at[n], m.index, m.frame, S());
        mem := mem[m.table := mem[m.table][m.index := Absent]];
        frames := frames - {Kid(at[n], m.index)};
        FreeFrame(m.frame);
      }
    }

    /** A new address space: nothing mapped in its own half, the other half as everywhere. */
    method NewAddressSpace() returns (r: Option<nat>)
      requires Valid()
      modifies this`mem, this`free, this`frames
      ensures Valid()
      ensures r.None? ==> S() == old(S()) && free == {}
      ensures r.Some? ==> r.value in old(free) && S() == WithRoot(old(S()), r.value) && SamePages(old(S()), S())
      ensures r.Some? ==> Place(r.value, []) in frames
      ensures r.Some? ==> forall k: Place {:trigger PageAt(S(), k)} :: k.root == r.value ==> PageAt(S(), k) == None
      ensures SeesSame(old(S()), S())
      ensures r.Some? ==> forall k: Place {:trigger Seen(S(), k)} :: IsPage(k) && k.root == r.value ==> Seen(S(), k) == Fault
    {
      ghost var s := S();
      assert TableThere(s, Place(cr3, [])) && PlaceOk(s, Place(cr3, []));
      var f := AllocFrame();
      if f.None? {
        SameSeen(s, S());
        return None;
      }
      RootAdded(s, f.value);
      var t, i := Zeroed(), USER_HALF;
      while i < ENTRIES
        invariant USER_HALF <= i <= ENTRIES && |t| == ENTRIES
        invariant forall j :: 0 <= j < ENTRIES ==> t[j] == if USER_HALF <= j < i then mem[cr3][j] else Absent
      {
        t := t[i := mem[cr3][i]];
        i := i + 1;
      }
      assert forall j :: 0 <= j < ENTRIES - USER_HALF ==> mem[cr3][USER_HALF..][j] == mem[cr3][USER_HALF + j];
      assert t == Zeroed()[..USER_HALF] + upper;
      mem := mem[f.value := t];
      frames := frames[Place(f.value, []) := f.value];
      SameSeen(s, S());
      forall k: Place | IsPage(k) && k.root == f.value ensures Seen(S(), k) == Fault {
        PageSeen(S(), k);
      }
      return f;
    }

    /** Frees what is at and below a place: each frame once. */
    method FreeBelow(t: nat, level: nat, ghost k: Place)
      requires Sound(S().(free := {})) && k in frames && frames[k] == t && |k.path| == level < 4
      requires free !! FramesBelow(S(), k)
      modifies this`free
      ensures free == old(free) + FramesBelow(S(), k)
      decreases 4 - level
    {
      ghost var s := S().(free := {});
      assert TableThere(s, k);
      var i, width := 0, if level == 0 then USER_HALF else ENTRIES;
      while i < width
        invariant 0 <= i <= width && free == old(free) + FramesTo(S(), k, i)
      {
        assert EntryOk(s, k, i);
        ApartBelow(s, k, i);
        NextBelow(s, k, i);
        match mem[t][i] {
          case Absent =>
          case Present(f, _) =>
            assert free !! FramesBelow(S(), Kid(k, i));
            if level == 3 {
              LeafBelow(s, Kid(k, i));
              FreeFrame(f);
            } else {
              FreeBelow(f, level + 1, Kid(k, i));
            }
        }
        i := i + 1;
      }
      AllBelow(s, k, width);
      FreeFrame(t);
    }

    /** Frees all that an address space has for itself: each of its tables, each of its pages' frames and
        its root, once; and nothing of what it shares. */
    method DestroyAddressSpace(root: nat)
      requires Valid() && Place(root, []) in frames && root != cr3
      modifies this`free, this`frames
      ensures Valid()
      ensures free == old(free) + FramesBelow(old(S()), Place(root, []))
      ensures old(free) !! FramesBelow(old(S()), Place(root, [])) && kernel !! FramesBelow(old(S()), Place(root, []))
      ensures forall k {:trigger k in frames} :: k in frames <==> k in old(frames) && k.root != root
      ensures forall k: Place {:trigger PageAt(S(), k)} :: PageAt(S(), k) == if k.root == root then None else old(PageAt(S(), k))
      ensures SeesSame(old(S()), S())
    {
      ghost var s, k := S(), Place(root, []);
      Unfreed(s, k);
      SpaceDropped(s, root);
      FreeBelow(root, 0, k);
      frames := map k | k in frames && k.root != root :: frames[k];
      assert S() == Dropped(s, root);
      SameSeen(s, S());
    }
  }

  /** A place at or below another. */
  predicate AtOrBelow(k: Place, k': Place) { k'.root == k.root && k.path <= k'.path }

  /** The frames at and below a place. */
  ghost function FramesBelow(s: State, k: Place): set<nat> {
    set k' | k' in s.frames && AtOrBelow(k, k') :: s.frames[k']
  }

  /** The frames below a place by way of its first `n` entries. */
  ghost function FramesTo(s: State, k: Place, n: nat): set<nat> {
    set k' | k' in s.frames && AtOrBelow(k, k') && |k'.path| > |k.path| && k'.path[|k.path|] < n :: s.frames[k']
  }

  /** A state with a new root. */
  function WithRoot(s: State, f: nat): State {
    s.(mem := s.mem[f := Zeroed()[..USER_HALF] + s.upper], free := s.free - {f}, frames := s.frames[Place(f, []) := f])
  }

  lemma RootAdded(s: State, f: nat)
    requires Sound(s) && f in s.free && |s.upper| == ENTRIES - USER_HALF
    ensures Sound(WithRoot(s, f))
    ensures SamePages(s, WithRoot(s, f))
    ensures forall k: Place {:trigger PageAt(WithRoot(s, f), k)} :: k.root == f ==> PageAt(WithRoot(s, f), k) == None
  {
    var s' := WithRoot(s, f);
    assert s'.mem[f][USER_HALF..] == s.upper;
    forall k ensures PlaceOk(s', k) && TableThere(s', k) {
      assert PlaceOk(s, k) && TableThere(s, k);
    }
    forall k, i: nat ensures EntryOk(s', k, i) {
      assert EntryOk(s, k, i) && PlaceOk(s, k);
      NotUnder(s, f, Kid(k, i));
    }
    forall a, b ensures Apart(s', a, b) {
      assert Apart(s, a, b) && PlaceOk(s, a) && PlaceOk(s, b);
    }
    forall k ensures PageAt(s', k) == PageAt(s, k) && (k.root == f ==> PageAt(s', k) == None) {
      NotUnder(s, f, k);
      if |k.path| == 4 && k in s.frames {
        assert PlaceOk(s, k) && PlaceOk(s, Parent(k)) && TableThere(s, Parent(k));
      }
    }
  }

  /** Nothing is under a root that is not there. */
  lemma NotUnder(s: State, f: nat, k: Place)
    requires Sound(s) && f in s.free
    ensures k.root == f ==> k !in s.frames
  {
    if k in s.frames {
      AncestorIn(s, k, 0);
      assert PlaceOk(s, Place(k.root, []));
    }
  }

  // --- Teardown ---

  lemma NextBelow(s: State, k: Place, i: nat)
    requires Sound(s) && k in s.frames && |k.path| < 4 && i < Width(k)
    ensures FramesTo(s, k, i + 1) == FramesTo(s, k, i) + FramesBelow(s, Kid(k, i))
    ensures Kid(k, i) !in s.frames ==> FramesBelow(s, Kid(k, i)) == {}
    ensures FramesTo(s, k, 0) == {}
  {
    forall k' | k' in s.frames && AtOrBelow(k, k') && |k'.path| > |k.path|
      ensures AtOrBelow(Kid(k, i), k') <==> k'.path[|k.path|] == i
    {
      assert k'.path[..|k.path|] == k.path;
      assert k'.path[..|k.path| + 1] == k.path + [k'.path[|k.path|]];
    }
    forall k' | k' in s.frames && AtOrBelow(Kid(k, i), k') ensures Kid(k, i) in s.frames && AtOrBelow(k, k') && |k'.path| > |k.path| {
      AncestorIn(s, k', |k.path| + 1);
      assert k'.path[..|k.path| + 1] == k.path + [i];
      assert k.path <= k.path + [i];
    }
  }

  /** What is below one entry is not below another, nor is it the table itself. */
  lemma ApartBelow(s: State, k: Place, i: nat)
    requires Sound(s) && k in s.frames && |k.path| < 4
    ensures FramesTo(s, k, i) !! FramesBelow(s, Kid(k, i))
    ensures FramesBelow(s, Kid(k, i)) <= FramesBelow(s, k)
  {
    forall a, b | a in s.frames && AtOrBelow(k, a) && |a.path| > |k.path| && a.path[|k.path|] < i && b in s.frames && AtOrBelow(Kid(k, i), b)
      ensures s.frames[a] != s.frames[b]
    {
      assert Apart(s, a, b);
      assert b.path[|k.path|] == (k.path + [i])[|k.path|];
    }
    forall b | b in s.frames && AtOrBelow(Kid(k, i), b) ensures AtOrBelow(k, b) {
      assert k.path <= k.path + [i];
    }
  }

  lemma LeafBelow(s: State, k: Place)
    requires Sound(s) && |k.path| == 4 && k in s.frames
    ensures FramesBelow(s, k) == {s.frames[k]}
  {
    forall k' | k' in s.frames && AtOrBelow(k, k') ensures k' == k {
      assert PlaceOk(s, k');
    }
    assert AtOrBelow(k, k);
  }

  lemma AllBelow(s: State, k: Place, width: nat)
    requires Sound(s) && k in s.frames && width == Width(k)
    ensures FramesBelow(s, k) == FramesTo(s, k, width) + {s.frames[k]} && s.frames[k] !in FramesTo(s, k, width)
  {
    forall k' | k' in s.frames && AtOrBelow(k, k') && |k'.path| > |k.path| ensures k'.path[|k.path|] < width {
      assert PlaceOk(s, k');
    }
    forall k' | k' in s.frames && AtOrBelow(k, k') && k' != k ensures |k'.path| > |k.path| && s.frames[k'] != s.frames[k] {
      assert Apart(s, k, k');
    }
    assert AtOrBelow(k, k);
  }

  /** The state without an address space. */
  ghost function Dropped(s: State, root: nat): State {
    s.(free := s.free + FramesBelow(s, Place(root, [])), frames := map k | k in s.frames && k.root != root :: s.frames[k])
  }

  lemma Unfreed(s: State, k: Place)
    requires Sound(s) && k in s.frames
    ensures Sound(s.(free := {})) && s.free !! FramesBelow(s, k) && s.kernel !! FramesBelow(s, k)
    ensures k.path == [] ==> s.frames[k] == k.root
  {
    var u := s.(free := {});
    assert PlaceOk(s, k);
    forall k' ensures PlaceOk(u, k') && TableThere(u, k') && (k' in s.frames ==> s.frames[k'] !in s.free && s.frames[k'] !in s.kernel) {
      assert PlaceOk(s, k') && TableThere(s, k');
    }
    forall k', i: nat ensures EntryOk(u, k', i) {
      assert EntryOk(s, k', i);
    }
    forall a, b ensures Apart(u, a, b) {
      assert Apart(s, a, b);
    }
  }

  lemma SpaceDropped(s: State, root: nat)
    requires Sound(s) && Place(root, []) in s.frames
    ensures Sound(Dropped(s, root))
    ensures forall k: Place {:trigger PageAt(Dropped(s, root), k)} :: PageAt(Dropped(s, root), k) == if k.root == root then None else PageAt(s, k)
  {
    var u := Dropped(s, root);
    Unfreed(s, Place(root, []));
    forall k ensures PlaceOk(u, k) && TableThere(u, k) {
      assert PlaceOk(s, k) && TableThere(s, k);
      if k in u.frames {
        Elsewhere(s, root, k);
      }
    }
    forall k, i: nat ensures EntryOk(u, k, i) {
      assert EntryOk(s, k, i);
    }
    forall a, b ensures Apart(u, a, b) {
      assert Apart(s, a, b);
    }
    forall k: Place ensures PageAt(u, k) == if k.root == root then None else PageAt(s, k) {
      if |k.path| == 4 && k in s.frames {
        assert PlaceOk(s, k);
      }
    }
  }

  lemma Elsewhere(s: State, root: nat, k: Place)
    requires Sound(s) && k in s.frames && k.root != root
    ensures s.frames[k] !in FramesBelow(s, Place(root, []))
  {
    forall k' | k' in s.frames && AtOrBelow(Place(root, []), k') ensures s.frames[k'] != s.frames[k] {
      assert Apart(s, k, k');
    }
  }

  /** A table made on the way: in which table, at which entry, and its frame. */
  datatype Made = Made(table: nat, index: nat, frame: nat)

  /** Making `m` has turned one state into another. */
  ghost predicate Step(m: Made, s: State, k: Place, s': State) {
    && Sound(s) && k in s.frames && |k.path| < 3 && m.index < Width(k) && m.frame in s.free && Kid(k, m.index) !in s.frames
    && s.frames[k] == m.table && m.table in s.mem && m.index < |s.mem[m.table]| && m.table != m.frame
    && s' == WithTable(s, k, m.index, m.frame)
  }

  ghost function After(before: seq<State>, now: State, i: nat): State { if i < |before| then before[i] else now }

  ghost predicate Chain(created: seq<Made>, before: seq<State>, at: seq<Place>, now: State) {
    && |before| == |at| == |created|
    && forall i: nat {:trigger created[i]} :: i < |created| ==> Step(created[i], before[i], at[i], After(before, now, i + 1))
  }

  lemma ChainGrows(created: seq<Made>, before: seq<State>, at: seq<Place>, now: State, m: Made, k: Place, next: State)
    requires Chain(created, before, at, now) && Step(m, now, k, next)
    ensures Chain(created + [m], before + [now], at + [k], next)
    ensures After(before + [now], next, 0) == After(before, now, 0)
  {
    var c, b, a := created + [m], before + [now], at + [k];
    forall i: nat | i < |c| ensures Step(c[i], b[i], a[i], After(b, next, i + 1)) {
      if i < |created| {
        assert Step(created[i], before[i], at[i], After(before, now, i + 1));
        assert After(b, next, i + 1) == After(before, now, i + 1);
      }
    }
  }

  function Protected(page: Option<Pte>, flags: nat): Option<Pte> {
    match page
    case Some(Present(f, _)) => Some(Present(f, WithPresent(flags)))
    case _ => page
  }

  /** The number of the page a path leads to. */
  function PageNumber(p: seq<nat>): nat
    requires |p| == 4
  {
    p[0] * 0x800_0000 + p[1] * 0x4_0000 + p[2] * 0x200 + p[3]
  }

  predicate InRange(k: Place, root: nat, lo: nat, hi: nat) {
    k.root == root && |k.path| == 4 && PathOk(k.path) && lo <= PageNumber(k.path) < hi
  }

  /** Of the pages numbered `lo` up to `hi` in one address space, those mapped allow something else now;
      they are where they were, and no other page has changed. */
  ghost predicate ProtectsRange(s: State, s': State, root: nat, lo: nat, hi: nat, flags: nat) {
    forall k {:trigger PageAt(s', k)} :: PageAt(s', k) == if InRange(k, root, lo, hi) then Protected(PageAt(s, k), flags) else PageAt(s, k)
  }

  /** The mapped pages of the range are reached where they were, with exactly the rights of `flags`; every other
      page is seen as before. */
  ghost predicate SeesRange(s: State, s': State, root: nat, lo: nat, hi: nat, flags: nat) {
    forall k {:trigger Seen(s', k)} :: IsPage(k) && HasRoot(s, k.root) ==>
      Seen(s', k) == match Seen(s, k)
                     case Reached(f, _, _, _) => if InRange(k, root, lo, hi) then Granted(f, flags) else Seen(s, k)
                     case other => other
  }

  lemma RangeSeen(s: State, s': State, root: nat, lo: nat, hi: nat, flags: nat)
    requires Sound(s) && Sound(s') && s'.frames == s.frames && ProtectsRange(s, s', root, lo, hi, flags)
    ensures SeesRange(s, s', root, lo, hi, flags)
  {
    WithPresentBits(flags);
    forall k | IsPage(k) && HasRoot(s, k.root)
      ensures Seen(s', k) == match Seen(s, k)
                             case Reached(f, _, _, _) => if InRange(k, root, lo, hi) then Granted(f, flags) else Seen(s, k)
                             case other => other
    {
      PageSeen(s, k);
      PageSeen(s', k);
      assert PageAt(s', k) == if InRange(k, root, lo, hi) then Protected(PageAt(s, k), flags) else PageAt(s, k);
    }
  }

  lemma ProtectedMore(s: State, s': State, r: State, root: nat, lo: nat, addr: nat, flags: nat)
    requires addr < USER_END && lo <= addr / PAGE_SIZE && ProtectsRange(s, s', root, lo, addr / PAGE_SIZE, flags)
    requires MapsOnly(s', r, Place(root, Indices(addr)), Protected(PageAt(s', Place(root, Indices(addr))), flags))
    ensures ProtectsRange(s, r, root, lo, addr / PAGE_SIZE + 1, flags)
  {
    forall k ensures PageAt(r, k) == if InRange(k, root, lo, addr / PAGE_SIZE + 1) then Protected(PageAt(s, k), flags) else PageAt(s, k) {
      RangeGrows(k, root, lo, addr);
      assert PageAt(s', k) == if InRange(k, root, lo, addr / PAGE_SIZE) then Protected(PageAt(s, k), flags) else PageAt(s, k);
    }
  }

  lemma RangeGrows(k: Place, root: nat, lo: nat, addr: nat)
    requires addr < USER_END && lo <= addr / PAGE_SIZE
    ensures InRange(k, root, lo, addr / PAGE_SIZE + 1) <==> InRange(k, root, lo, addr / PAGE_SIZE) || k == Place(root, Indices(addr))
    ensures k == Place(root, Indices(addr)) ==> !InRange(k, root, lo, addr / PAGE_SIZE)
  {
    IndicesSum(addr);
    IndicesApart(addr, addr);
    if |k.path| == 4 && PathOk(k.path) && PageNumber(k.path) == addr / PAGE_SIZE {
      OnePath(k.path, Indices(addr));
    }
  }

  lemma OnePath(p: seq<nat>, q: seq<nat>)
    requires |p| == 4 && |q| == 4 && PathOk(p) && PathOk(q) && PageNumber(p) == PageNumber(q)
    ensures p == q
  {
    Digits(p[0], p[1], p[2], p[3]);
    Digits(q[0], q[1], q[2], q[3]);
    assert p == [p[0], p[1], p[2], p[3]] && q == [q[0], q[1], q[2], q[3]];
  }

  lemma Digits(a: nat, b: nat, c: nat, d: nat)
    requires b < ENTRIES && c < ENTRIES && d < ENTRIES
    ensures var n := a * 0x800_0000 + b * 0x4_0000 + c * 0x200 + d;
            n / 0x800_0000 == a && n / 0x4_0000 % ENTRIES == b && n / 0x200 % ENTRIES == c && n % ENTRIES == d
  {
    var n := a * 0x800_0000 + b * 0x4_0000 + c * 0x200 + d;
    assert n / 0x200 == a * 0x4_0000 + b * 0x200 + c && n % 0x200 == d;
    assert n / 0x4_0000 == a * 0x200 + b;
  }

  ghost predicate NoPlace(s: State, f: nat) {
    forall k {:trigger s.frames[k]} :: k in s.frames ==> s.frames[k] != f
  }

  /** Whatever is below an absent entry is not there. */
  lemma NoWayDown(s: State, k: Place, i: nat, page: Place)
    requires Sound(s) && Kid(k, i) !in s.frames && page.root == k.root && |page.path| == 4 && |k.path| < 3
    requires page.path[..|k.path| + 1] == k.path + [i]
    ensures PageAt(s, page) == None
  {
    if page in s.frames {
      AncestorIn(s, page, |k.path| + 1);
    }
  }

  lemma {:induction false} AncestorIn(s: State, k: Place, n: nat)
    requires Sound(s) && k in s.frames && n <= |k.path|
    ensures Place(k.root, k.path[..n]) in s.frames
    decreases |k.path|
  {
    if n < |k.path| {
      assert PlaceOk(s, k);
      AncestorIn(s, Parent(k), n);
      assert Parent(k).path[..n] == k.path[..n];
    } else {
      assert k.path[..n] == k.path;
    }
  }

  /** The last entry on the way says what is mapped. */
  lemma LastEntry(s: State, k: Place, i: nat, page: Place)
    requires Sound(s) && k in s.frames && |k.path| == 3 && i < ENTRIES && page == Kid(k, i)
    ensures s.frames[k] in s.mem && |s.mem[s.frames[k]]| == ENTRIES
    ensures match EntryOf(s, k, i)
            case Absent => PageAt(s, page) == None
            case Present(f, flags) => PageAt(s, page) == Some(Present(f, flags)) && page in s.frames && s.frames[page] == f
  {
    KidParent(k, i);
    assert EntryOk(s, k, i) && TableThere(s, k);
  }

  lemma FrameLeft(s: State, k: Place, i: nat)
    requires Sound(s) && k in s.frames && Kid(k, i) in s.frames && s.frames[k] in s.mem && i < |s.mem[s.frames[k]]|
    ensures NoPlace(Unlinked(s, k, i), s.frames[Kid(k, i)]) && s.frames[Kid(k, i)] !in s.free
  {
    assert PlaceOk(s, Kid(k, i));
    forall a | a in s.frames && a != Kid(k, i) ensures s.frames[a] != s.frames[Kid(k, i)] {
      assert Apart(s, a, Kid(k, i));
    }
  }

  lemma StillMappable(s: State, k: Place)
    requires Sound(s) && k in s.frames
    ensures Mappable(s, k, s.frames[k])
  {
    assert PlaceOk(s, k);
    forall a | a in s.frames && s.frames[a] == s.frames[k] ensures a == k {
      assert Apart(s, a, k);
    }
  }

  /** The same pages are mapped, to the same frames. */
  ghost predicate SamePages(s: State, s': State) {
    forall k {:trigger PageAt(s', k)} :: PageAt(s', k) == PageAt(s, k)
  }

  /** Page `k` is now as said; no other page, of this address space or another, has changed. */
  ghost predicate MapsOnly(s: State, s': State, k: Place, page: Option<Pte>) {
    forall k' {:trigger PageAt(s', k')} :: PageAt(s', k') == if k' == k then page else PageAt(s, k')
  }

  /** Tables have been added, if anything. */
  ghost predicate Extended(s: State, s': State) {
    && s'.free <= s.free && s'.kernel == s.kernel && s'.upper == s.upper
    && (forall k {:trigger s'.frames[k]} :: k in s'.frames ==> (k in s.frames && s'.frames[k] == s.frames[k]) || s'.frames[k] in s.free)
    && RootsKept(s, s')
  }

  /** No address space is gone. */
  ghost predicate RootsKept(s: State, s': State) {
    forall r {:trigger HasRoot(s, r)} {:trigger HasRoot(s', r)} :: HasRoot(s, r) ==> HasRoot(s', r)
  }

  lemma ExtendedTrans(a: State, b: State, c: State)
    requires Extended(a, b) && Extended(b, c)
    ensures Extended(a, c)
  {
  }

  lemma MappableKept(s: State, s': State, k: Place, f: nat)
    requires Extended(s, s') && Mappable(s, k, f)
    ensures Mappable(s', k, f)
  {
  }
}
