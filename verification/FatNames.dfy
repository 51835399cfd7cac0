/** Names in a FAT16 folder: short entries, the long-name entries in front of them, and what a scan makes of both. */
module FatNames {
  import opened Wrappers

  const SPACE: nat := 0x20
  const DOT: nat := 0x2E
  const TILDE: nat := 0x7E
  const UNDERSCORE: nat := 0x5F
  const ENTRY_FREE: nat := 0x00
  const ENTRY_DELETED: nat := 0xE5
  const ATTR_LFN: nat := 0x0F
  const LFN_CHARS: nat := 13
  const LAST_LFN: nat := 0x40
  const MAX_NAME: nat := 200

  /** A folder's 32-byte slots. */
  type Entry = e: seq<nat> | |e| == 32 witness seq(32, _ => 0)

  type Name = seq<nat>

  /** What a slot holds: nothing any more, nothing yet, part of a long name, the entry of a file or folder, or
      something that is neither, such as a dot entry or a volume label. */
  datatype Kind = FreeKind | DeletedKind | LfnKind | OtherKind | ShortKind

  function KindOf(e: Entry): Kind {
    if e[0] == ENTRY_FREE then FreeKind
    else if e[0] == ENTRY_DELETED then DeletedKind
    else if e[11] == ATTR_LFN then LfnKind
    else if e[0] == DOT || e[11] / 8 % 2 == 1 then OtherKind
    else ShortKind
  }

  predicate IsFree(e: Entry) { KindOf(e) == FreeKind }

  predicate IsLfn(e: Entry) { KindOf(e) == LfnKind }

  predicate IsShort(e: Entry) { KindOf(e) == ShortKind }

  /** A slot a new entry may take. */
  predicate Usable(e: Entry) { KindOf(e) == FreeKind || KindOf(e) == DeletedKind }

  /** Which short entry long-name entries belong to. */
  function Checksum(short: seq<nat>): (r: nat)
    ensures r < 0x100
  {
    if short == [] then 0
    else
      var sum := Checksum(short[..|short| - 1]);
      (sum / 2 + (if sum % 2 == 1 then 0x80 else 0) + short[|short| - 1]) % 0x100
  }

  // Long names

  /** Where the `i`th long-name entry starts in the name. */
  function Offset(i: nat): nat { 13 * i }

  /** Which code units the `i`th long-name entry of a name holds: the name's own, a zero, then filling. */
  function Unit(name: Name, i: nat, k: nat): nat {
    var pos := Offset(i) + k;
    if pos < |name| then name[pos] else if pos == |name| then 0 else 0xFFFF
  }

  function Units(name: Name, i: nat): (r: seq<nat>)
    ensures |r| == LFN_CHARS
  {
    seq(LFN_CHARS, k requires 0 <= k < LFN_CHARS => Unit(name, i, k))
  }

  function Half(unit: nat, high: bool): nat { if high then unit / 256 else unit % 256 }

  /** The bytes of that entry. */
  function LfnByte(name: Name, sum: nat, i: nat, last: bool, j: nat): nat {
    if j == 0 then i + 1 + (if last then LAST_LFN else 0)
    else if j < 11 then Half(Unit(name, i, (j - 1) / 2), (j - 1) % 2 == 1)
    else if j == 11 then ATTR_LFN
    else if j == 12 then 0
    else if j == 13 then sum
    else if j < 26 then Half(Unit(name, i, 5 + (j - 14) / 2), (j - 14) % 2 == 1)
    else if j < 28 then 0
    else Half(Unit(name, i, 11 + (j - 28) / 2), (j - 28) % 2 == 1)
  }

  function LfnEntry(name: Name, sum: nat, i: nat, last: bool): Entry {
    seq(32, j requires 0 <= j < 32 => LfnByte(name, sum, i, last, j))
  }

  function LfnCount(name: Name): (r: nat)
    ensures r > 0 && |name| <= Offset(r) && (|name| > 0 ==> Offset(r - 1) < |name|)
  {
    if |name| == 0 then 1 else (|name| + 12) / 13
  }

  /** A name's entries from the `n`th down to the one after the `m`th, as they stand in the folder. */
  function LfnDown(name: Name, sum: nat, n: nat, m: nat): (r: seq<Entry>)
    ensures |r| == if m < n then n - m else 0
    decreases n - m
  {
    if n <= m then [] else LfnDown(name, sum, n, m + 1) + [LfnEntry(name, sum, m, m + 1 == LfnCount(name))]
  }

  function LfnEntries(name: Name, sum: nat): seq<Entry> { LfnDown(name, sum, LfnCount(name), 0) }

  /** What a reader takes from an entry: its number and its code units. */
  datatype Part = Part(number: nat, units: seq<nat>)

  /** Where an entry has its `k`th unit. */
  function UnitPlace(k: nat): nat { if k < 5 then 1 + k * 2 else if k < 11 then 4 + k * 2 else 6 + k * 2 }

  function Word(e: Entry, at: nat): nat
    requires at + 1 < 32
  {
    e[at] + 256 * e[at + 1]
  }

  function UnitIn(e: Entry, k: nat): nat
    requires k < LFN_CHARS
  {
    Word(e, UnitPlace(k))
  }

  function PartOf(e: Entry): Part {
    Part(e[0] % 32, seq(LFN_CHARS, k requires 0 <= k < LFN_CHARS => UnitIn(e, k)))
  }

  function Parts(es: seq<Entry>): (r: seq<Part>)
    ensures |r| == |es|
  {
    if es == [] then [] else Parts(es[..|es| - 1]) + [PartOf(es[|es| - 1])]
  }

  /** Parts in the order of their numbers, those with the same number in the order they came. */
  function Sorted(ps: seq<Part>): seq<Part> {
    if ps == [] then [] else Insert(Sorted(ps[..|ps| - 1]), ps[|ps| - 1])
  }

  function Insert(ps: seq<Part>, p: Part): seq<Part> {
    if ps == [] || ps[|ps| - 1].number <= p.number then ps + [p]
    else Insert(ps[..|ps| - 1], p) + [ps[|ps| - 1]]
  }

  function Joined(ps: seq<Part>): seq<nat> {
    if ps == [] then [] else ps[0].units + Joined(ps[1..])
  }

  /** A code unit that is no character by itself reads as a question mark. */
  function Char(unit: nat): nat { if 0xD800 <= unit < 0xE000 then 0x3F else unit }

  function Cut(units: seq<nat>): Name {
    if units == [] || units[0] == 0 then [] else [Char(units[0])] + Cut(units[1..])
  }

  /** The name a file's long-name entries make, kept closed: `LongNameIs` says how. */
  ghost function LongName(es: seq<Entry>): Name {
    assert MakesName(es, Cut(Joined(Sorted(Parts(es)))));
    var name :| MakesName(es, name);
    name
  }

  ghost predicate MakesName(es: seq<Entry>, name: Name) {
    forall n: nat {:trigger Open(NameSeal, n)} :: Open(NameSeal, n) ==> name == Cut(Joined(Sorted(Parts(es))))
  }

  lemma LongNameIs(es: seq<Entry>)
    ensures LongName(es) == Cut(Joined(Sorted(Parts(es))))
  {
    assert Open(NameSeal, 0);
  }

  lemma CutNext(name: Name, units: seq<nat>, rest: seq<nat>)
    requires units != []
    ensures name + Cut(units + rest)
         == if units[0] == 0 then name else name + [Char(units[0])] + Cut(units[1..] + rest)
  {
    var all := units + rest;
    assert all[1..] == units[1..] + rest;
    assert name + ([Char(units[0])] + Cut(all[1..])) == name + [Char(units[0])] + Cut(all[1..]);
  }

  /** Puts the parts of a name in order and joins them, up to the first zero. */
  method ReconstructLongName(parts: seq<Part>) returns (name: Name)
    ensures name == Cut(Joined(Sorted(parts)))
  {
    var sorted := Sorted(parts);
    name := [];
    var i := 0;
    while i < |sorted|
      invariant i <= |sorted| && name + Cut(Joined(sorted[i..])) == Cut(Joined(sorted))
    {
      var k := 0;
      var units := sorted[i].units;
      ghost var rest := Joined(sorted[i + 1..]);
      assert units[0..] == units && sorted[i..][1..] == sorted[i + 1..];
      while k < |units|
        invariant k <= |units| && name + Cut(units[k..] + rest) == Cut(Joined(sorted))
      {
        CutNext(name, units[k..], rest);
        if units[k] == 0 {
          return;
        }
        name := name + [Char(units[k])];
        k := k + 1;
      }
      assert units[k..] + rest == rest;
      i := i + 1;
    }
  }

  /** Names whose characters can be told from the marks. */
  predicate Plain(name: Name) { forall i :: 0 <= i < |name| ==> 0 < name[i] < 0xD800 }

  /** Two bytes of a unit put together are the unit. */
  lemma WordRead(e: Entry, at: nat, unit: nat)
    requires at + 1 < 32 && e[at] == Half(unit, false) && e[at + 1] == Half(unit, true)
    ensures Word(e, at) == unit
  {
  }

  lemma UnitRead(name: Name, sum: nat, i: nat, last: bool, k: nat)
    requires k < LFN_CHARS
    ensures UnitIn(LfnEntry(name, sum, i, last), k) == Unit(name, i, k)
  {
    var e, at := LfnEntry(name, sum, i, last), UnitPlace(k);
    assert e[at] == LfnByte(name, sum, i, last, at) && e[at + 1] == LfnByte(name, sum, i, last, at + 1);
    ByteHalves(name, sum, i, last, k, at);
    WordRead(e, at, Unit(name, i, k));
  }

  lemma ByteHalves(name: Name, sum: nat, i: nat, last: bool, k: nat, at: nat)
    requires k < LFN_CHARS && at == UnitPlace(k)
    ensures LfnByte(name, sum, i, last, at) == Half(Unit(name, i, k), false)
    ensures LfnByte(name, sum, i, last, at + 1) == Half(Unit(name, i, k), true)
  {
    if k < 5 {
      assert (at - 1) / 2 == k && at / 2 == k;
    } else if k < 11 {
      assert 5 + (at - 14) / 2 == k && 5 + (at - 13) / 2 == k;
    } else {
      assert 11 + (at - 28) / 2 == k && 11 + (at - 27) / 2 == k;
    }
  }

  lemma PartRead(name: Name, sum: nat, i: nat, last: bool)
    requires Plain(name) && i < 31
    ensures PartOf(LfnEntry(name, sum, i, last)) == Part(i + 1, Units(name, i))
    ensures IsLfn(LfnEntry(name, sum, i, last))
  {
    forall k | 0 <= k < LFN_CHARS
      ensures UnitIn(LfnEntry(name, sum, i, last), k) == Unit(name, i, k)
    {
      UnitRead(name, sum, i, last, k);
    }
  }

  /** Puts the units of a name's `i`th part into an entry, `n` of them from the `k`th on. */
  method PutUnits(entry: array<nat>, at: nat, units: seq<nat>, k: nat, n: nat)
    requires at + 2 * n <= entry.Length && k + n <= |units|
    modifies entry
    ensures forall j :: 0 <= j < at || at + 2 * n <= j < entry.Length ==> entry[j] == old(entry[j])
    ensures forall j :: 0 <= j < n ==>
              entry[at + 2 * j] == Half(units[k + j], false) && entry[at + 2 * j + 1] == Half(units[k + j], true)
  {
    for j := 0 to n
      invariant forall i :: 0 <= i < at || at + 2 * j <= i < entry.Length ==> entry[i] == old(entry[i])
      invariant forall i :: 0 <= i < j ==>
                  entry[at + 2 * i] == Half(units[k + i], false) && entry[at + 2 * i + 1] == Half(units[k + i], true)
    {
      entry[at + 2 * j] := units[k + j] % 256;
      entry[at + 2 * j + 1] := units[k + j] / 256;
    }
  }

  /** Every byte of an entry is one of a unit's, or none of any. */
  lemma EveryByte(j: nat) returns (k: nat)
    requires j < 32 && j !in {0, 11, 12, 13, 26, 27}
    ensures k < LFN_CHARS && (j == UnitPlace(k) || j == UnitPlace(k) + 1)
  {
    k := if j < 11 then (j - 1) / 2 else if j < 26 then (j - 4) / 2 else (j - 6) / 2;
  }

  lemma {:induction false} DownMore(name: Name, sum: nat, n: nat, m: nat)
    requires m <= n
    ensures LfnDown(name, sum, n + 1, m) == [LfnEntry(name, sum, n, n + 1 == LfnCount(name))] + LfnDown(name, sum, n, m)
    decreases n - m
  {
    if m < n {
      DownMore(name, sum, n, m + 1);
    }
  }

  predicate HasUnit(e: Entry, units: seq<nat>, k: nat)
    requires k < |units| == LFN_CHARS
  {
    e[UnitPlace(k)] == Half(units[k], false) && e[UnitPlace(k) + 1] == Half(units[k], true)
  }

  lemma UnitsThere(e: Entry, units: seq<nat>)
    requires |units| == LFN_CHARS
    requires forall j :: 0 <= j < 5 ==> e[1 + 2 * j] == Half(units[j], false) && e[1 + 2 * j + 1] == Half(units[j], true)
    requires forall j :: 0 <= j < 6 ==> e[14 + 2 * j] == Half(units[5 + j], false) && e[14 + 2 * j + 1] == Half(units[5 + j], true)
    requires forall j :: 0 <= j < 2 ==> e[28 + 2 * j] == Half(units[11 + j], false) && e[28 + 2 * j + 1] == Half(units[11 + j], true)
    ensures forall k: nat :: k < LFN_CHARS ==> HasUnit(e, units, k)
  {
    forall k: nat | k < LFN_CHARS
      ensures HasUnit(e, units, k)
    {
      if 5 <= k < 11 {
        assert e[14 + 2 * (k - 5)] == Half(units[k], false);
      } else if 11 <= k {
        assert e[28 + 2 * (k - 11)] == Half(units[k], false);
      }
    }
  }

  lemma EntryFilled(e: Entry, name: Name, sum: nat, i: nat, last: bool)
    requires e[0] == (if last then i + 1 + LAST_LFN else i + 1) && e[11] == ATTR_LFN && e[13] == sum
    requires e[12] == e[26] == e[27] == 0 && forall k: nat :: k < LFN_CHARS ==> HasUnit(e, Units(name, i), k)
    ensures e == LfnEntry(name, sum, i, last)
  {
    forall j: nat | j < 32 && j !in {0, 11, 12, 13, 26, 27}
      ensures e[j] == LfnByte(name, sum, i, last, j)
    {
      var k := EveryByte(j);
      ByteHalves(name, sum, i, last, k, UnitPlace(k));
      assert HasUnit(e, Units(name, i), k);
    }
  }

  /** Puts all of a part's units where an entry has them. */
  method FillUnits(entry: array<nat>, units: seq<nat>)
    requires entry.Length == 32 && |units| == LFN_CHARS
    modifies entry
    ensures forall j :: j in {0, 11, 12, 13, 26, 27} ==> entry[j] == old(entry[j])
    ensures forall k: nat :: k < LFN_CHARS ==> HasUnit(entry[..], units, k)
  {
    PutUnits(entry, 1, units, 0, 5);
    PutUnits(entry, 14, units, 5, 6);
    PutUnits(entry, 28, units, 11, 2);
    UnitsThere(entry[..], units);
  }

  /** Fills one long-name entry. */
  method BuildLfnEntry(name: Name, sum: nat, i: nat, last: bool) returns (e: Entry)
    ensures e == LfnEntry(name, sum, i, last)
  {
    var entry := new nat[32](_ => 0);
    entry[0] := if last then i + 1 + LAST_LFN else i + 1;
    entry[11], entry[12], entry[13] := ATTR_LFN, 0, sum;
    entry[26], entry[27] := 0, 0;
    FillUnits(entry, Units(name, i));
    e := entry[..];
    EntryFilled(e, name, sum, i, last);
  }

  /** Adds up a name's long-name entries from the first part to the last, and so has the last in front. */
  method BuildLfnEntries(name: Name, short: seq<nat>) returns (entries: seq<Entry>)
    ensures entries == LfnEntries(name, Checksum(short))
  {
    var sum := Checksum(short);
    entries := [];
    for i := 0 to LfnCount(name)
      invariant entries == LfnDown(name, sum, i, 0)
    {
      var entry := BuildLfnEntry(name, sum, i, i + 1 == LfnCount(name));
      DownMore(name, sum, i, 0);
      entries := [entry] + entries;
    }
  }

  /** A name's parts in rising order. */
  function Rising(name: Name, m: nat, n: nat): seq<Part>
    decreases n - m
  {
    if n <= m then [] else [Part(m + 1, Units(name, m))] + Rising(name, m + 1, n)
  }

  lemma {:induction false} InsertFirst(ps: seq<Part>, p: Part)
    requires forall i :: 0 <= i < |ps| ==> p.number < ps[i].number
    ensures Insert(ps, p) == [p] + ps
  {
    if ps != [] {
      InsertFirst(ps[..|ps| - 1], p);
      assert [p] + ps[..|ps| - 1] + [ps[|ps| - 1]] == [p] + ps;
    }
  }

  lemma {:induction false} RisingNumbers(name: Name, m: nat, n: nat)
    ensures forall i :: 0 <= i < |Rising(name, m, n)| ==> Rising(name, m, n)[i].number > m
    decreases n - m
  {
    if m < n {
      RisingNumbers(name, m + 1, n);
    }
  }

  /** Sorting what was written from the last part to the first puts it the right way round. */
  lemma {:induction false} SortedIsRising(name: Name, sum: nat, n: nat, m: nat)
    requires Plain(name) && n <= 31
    ensures Sorted(Parts(LfnDown(name, sum, n, m))) == Rising(name, m, n)
    decreases n - m
  {
    if m < n {
      var down, e := LfnDown(name, sum, n, m + 1), LfnEntry(name, sum, m, m + 1 == LfnCount(name));
      SortedIsRising(name, sum, n, m + 1);
      PartRead(name, sum, m, m + 1 == LfnCount(name));
      assert (down + [e])[..|down|] == down;
      assert Parts(down + [e])[..|down|] == Parts(down);
      RisingNumbers(name, m + 1, n);
      InsertFirst(Rising(name, m + 1, n), PartOf(e));
    }
  }

  lemma {:induction false} CutAfter(a: seq<nat>, b: seq<nat>)
    requires Plain(a)
    ensures Cut(a + b) == a + Cut(b)
  {
    if a == [] {
      assert a + b == b;
    } else {
      CutAfter(a[1..], b);
      assert (a + b)[1..] == a[1..] + b;
    }
  }

  lemma FullPart(name: Name, m: nat, rest: seq<nat>)
    requires Plain(name) && Offset(m + 1) <= |name|
    ensures Cut(Units(name, m) + rest) == name[Offset(m)..Offset(m + 1)] + Cut(rest)
  {
    assert Units(name, m) == name[Offset(m)..Offset(m + 1)];
    CutAfter(Units(name, m), rest);
  }

  lemma LastPart(name: Name, m: nat, rest: seq<nat>)
    requires Plain(name) && Offset(m) <= |name| < Offset(m + 1)
    ensures Cut(Units(name, m) + rest) == name[Offset(m)..]
  {
    var units, own := Units(name, m), |name| - Offset(m);
    assert units[..own] == name[Offset(m)..] && units[own] == 0;
    CutAfter(units[..own], units[own..] + rest);
    assert units + rest == units[..own] + (units[own..] + rest);
  }

  lemma RisingJoined(name: Name, m: nat, n: nat)
    requires m < n
    ensures Joined(Rising(name, m, n)) == Units(name, m) + Joined(Rising(name, m + 1, n))
  {
    assert Rising(name, m, n)[1..] == Rising(name, m + 1, n);
  }

  /** The units of a name's parts are the name, up to the first zero. */
  lemma {:induction false} RisingIsName(name: Name, m: nat, n: nat)
    requires Plain(name) && Offset(m) <= |name| <= Offset(n) && (m < n ==> Offset(n - 1) < |name|)
    ensures Cut(Joined(Rising(name, m, n))) == name[Offset(m)..]
    decreases n - m
  {
    if m < n {
      RisingJoined(name, m, n);
      if Offset(m + 1) <= |name| {
        RisingIsName(name, m + 1, n);
        FullPart(name, m, Joined(Rising(name, m + 1, n)));
      } else {
        LastPart(name, m, Joined(Rising(name, m + 1, n)));
      }
    }
  }

  /** A long name read from its entries is the name they were written for. */
  lemma LongNameRead(name: Name, sum: nat)
    requires Plain(name) && 0 < |name| <= MAX_NAME
    ensures LongName(LfnEntries(name, sum)) == name
  {
    LongNameIs(LfnEntries(name, sum));
    SortedIsRising(name, sum, LfnCount(name), 0);
    RisingIsName(name, 0, LfnCount(name));
    assert name[0..] == name;
  }

  // Short names

  /** A short entry's eight and three characters without what fills them up. */
  function Trimmed(s: seq<nat>): (r: seq<nat>)
    ensures r <= s
  {
    if s != [] && s[|s| - 1] == SPACE then Trimmed(s[..|s| - 1]) else s
  }

  function ShortName(short: seq<nat>): Name
    requires |short| >= 11
  {
    var base, ext := Trimmed(short[..8]), Trimmed(short[8..11]);
    if ext == [] then base else base + [DOT] + ext
  }

  function Upper(b: nat): nat { if 0x61 <= b <= 0x7A then b - 0x20 else b }

  function Uppers(s: seq<nat>): (r: seq<nat>)
    ensures |r| == |s|
  {
    seq(|s|, i requires 0 <= i < |s| => Upper(s[i]))
  }

  /** Characters a short name may have: digits, letters and these. */
  predicate ShortChar(b: nat) {
    || 0x30 <= b <= 0x39 || 0x41 <= b <= 0x5A || 0x61 <= b <= 0x7A
    || b in {0x21, 0x23, 0x24, 0x25, 0x26, 0x27, 0x28, 0x29, 0x2D, 0x40, 0x5E, UNDERSCORE, 0x60, 0x7B, 0x7D, TILDE}
  }

  predicate ShortChars(s: seq<nat>) { forall i :: 0 <= i < |s| ==> ShortChar(s[i]) }

  /** Characters no name may have. */
  predicate Forbidden(b: nat) {
    b < 0x20 || b >= 0x7F || b in {0x5C, 0x2F, 0x3A, 0x2A, 0x3F, 0x22, 0x3C, 0x3E, 0x7C}
  }

  predicate ValidName(name: Name) {
    && 0 < |name| <= MAX_NAME && name[0] != SPACE && name[|name| - 1] != SPACE
    && name != [DOT] && name != [DOT, DOT] && forall i :: 0 <= i < |name| ==> !Forbidden(name[i])
  }

  /** Names are the same when only the case of letters differs. */
  predicate SameName(a: Name, b: Name) { Uppers(a) == Uppers(b) }

  /** How much of a name comes before its last dot; all of it if there is none. */
  function Stem(name: Name): (r: nat)
    ensures r <= |name|
  {
    if DOT !in name then |name| else if name[|name| - 1] == DOT then |name| - 1 else Stem(name[..|name| - 1])
  }

  function After(name: Name, stem: nat): Name { if stem < |name| then name[stem + 1..] else [] }

  /** The two halves of a name, where a dot at the start divides nothing. */
  function Base(name: Name): Name { if Stem(name) == 0 then name else name[..Stem(name)] }

  function Extension(name: Name): Name { if Stem(name) == 0 then [] else After(name, Stem(name)) }

  predicate Fits(name: Name) {
    |Base(name)| <= 8 && |Extension(name)| <= 3 && ShortChars(Base(name)) && ShortChars(Extension(name))
  }

  /** `s`, cut or filled up to `n` characters. */
  function Filled(s: seq<nat>, n: nat): (r: seq<nat>)
    ensures |r| == n
  {
    if |s| >= n then s[..n] else s + seq(n - |s|, _ => SPACE)
  }

  /** A name in capitals, cut to eight and three characters. */
  function ToShort(name: Name): (r: seq<nat>)
    ensures |r| == 11
  {
    Filled(Uppers(name[..Stem(name)]), 8) + Filled(Uppers(After(name, Stem(name))), 3)
  }

  /** At most `n` characters of `s`, without spaces and dots, in capitals, with those not allowed replaced. */
  function Cleaned(s: Name, n: nat): (r: seq<nat>)
    ensures |r| <= n
  {
    if s == [] || n == 0 then []
    else if s[0] == SPACE || s[0] == DOT then Cleaned(s[1..], n)
    else [if ShortChar(s[0]) then Upper(s[0]) else UNDERSCORE] + Cleaned(s[1..], n - 1)
  }

  function Digits(n: nat): (r: seq<nat>)
    ensures |r| > 0 && (n < 10 ==> |r| == 1) && (n < 100 ==> |r| <= 2) && (n < 1000 ==> |r| <= 3)
  {
    if n < 10 then [0x30 + n] else Digits(n / 10) + [0x30 + n % 10]
  }

  function Least(a: nat, b: nat): nat { if a < b then a else b }

  /** The `n`th short name made up for `name`. */
  function Alias(name: Name, n: nat): (r: seq<nat>)
    requires n < 1000
    ensures |r| == 11
  {
    var basis, tail := Cleaned(Base(name), 6), Digits(n);
    Filled(basis[..Least(|basis|, 7 - |tail|)] + [TILDE] + tail, 8) + Filled(Cleaned(Extension(name), 3), 3)
  }

  /** Capitals, digits and the like, then nothing but spaces. */
  predicate Field(s: seq<nat>) {
    exists n: nat :: n <= |s| && IsField(s, n)
  }

  predicate IsField(s: seq<nat>, n: nat)
    requires n <= |s|
  {
    && (forall i :: 0 <= i < n ==> ShortChar(s[i]) && Upper(s[i]) == s[i])
    && forall i :: n <= i < |s| ==> s[i] == SPACE
  }

  /** A name in the old form: eight characters of which there is at least one, and three more. */
  predicate WellFormed(short: seq<nat>) {
    |short| == 11 && short[0] != SPACE && Field(short[..8]) && Field(short[8..])
  }

  lemma FilledIsField(s: seq<nat>, n: nat)
    requires |s| <= n && IsField(s, |s|)
    ensures Field(Filled(s, n)) && (|s| > 0 ==> Filled(s, n)[0] == s[0])
  {
    assert IsField(Filled(s, n), |s|);
  }

  lemma WholeIsWellFormed(a: seq<nat>, b: seq<nat>)
    requires 0 < |a| <= 8 && |b| <= 3 && IsField(a, |a|) && IsField(b, |b|)
    ensures WellFormed(Filled(a, 8) + Filled(b, 3))
  {
    FilledIsField(a, 8);
    FilledIsField(b, 3);
    var short := Filled(a, 8) + Filled(b, 3);
    assert short[..8] == Filled(a, 8) && short[8..] == Filled(b, 3);
    assert short[0] == a[0] && ShortChar(a[0]);
  }

  lemma {:induction false} CleanedIsField(s: Name, n: nat)
    ensures IsField(Cleaned(s, n), |Cleaned(s, n)|)
    decreases |s|
  {
    if s != [] && n > 0 {
      CleanedIsField(s[1..], n);
      CleanedIsField(s[1..], n - 1);
    }
  }

  lemma {:induction false} DigitsAreField(n: nat)
    ensures IsField(Digits(n), |Digits(n)|)
  {
    if n >= 10 {
      DigitsAreField(n / 10);
    }
  }

  lemma AliasWellFormed(name: Name, n: nat)
    requires n < 1000
    ensures WellFormed(Alias(name, n))
  {
    var basis, tail := Cleaned(Base(name), 6), Digits(n);
    CleanedIsField(Base(name), 6);
    CleanedIsField(Extension(name), 3);
    DigitsAreField(n);
    var keep := Least(|basis|, 7 - |tail|);
    WholeIsWellFormed(basis[..keep] + [TILDE] + tail, Cleaned(Extension(name), 3));
  }

  lemma UppersAreField(s: seq<nat>)
    requires ShortChars(s)
    ensures IsField(Uppers(s), |s|)
  {
  }

  lemma {:induction false} DotDivides(name: Name)
    ensures Stem(name) < |name| ==> name[Stem(name)] == DOT
  {
    if DOT in name && name[|name| - 1] != DOT {
      DotDivides(name[..|name| - 1]);
    }
  }

  /** A name that fits keeps all its characters. */
  lemma PlainWellFormed(name: Name)
    requires Fits(name) && name != []
    ensures WellFormed(ToShort(name))
  {
    DotDivides(name);
    UppersAreField(Base(name));
    UppersAreField(Extension(name));
    WholeIsWellFormed(Uppers(Base(name)), Uppers(Extension(name)));
  }
}
