/** What short names say: a plain one the name itself, a made-up one its number, and the checksum which it is. */
module FatAliases {
  import opened FatNames

  // Plain short names

  /** Two characters that are the same but for the case of a letter. */
  predicate CaseAlike(x: nat, y: nat) {
    x == y || (0x41 <= x <= 0x5A && y == x + 0x20) || (0x61 <= x <= 0x7A && x == y + 0x20)
  }

  /** Names are the same exactly if they are so character by character. */
  lemma SameNameIsAlike(a: Name, b: Name)
    ensures SameName(a, b) <==> |a| == |b| && forall i :: 0 <= i < |a| ==> CaseAlike(a[i], b[i])
  {
    if SameName(a, b) {
      assert |Uppers(a)| == |Uppers(b)|;
      forall i | 0 <= i < |a|
        ensures CaseAlike(a[i], b[i])
      {
        assert Uppers(a)[i] == Uppers(b)[i];
      }
    }
  }

  lemma {:induction false} TrimmedFilled(s: seq<nat>, n: nat)
    requires |s| <= n && (s != [] ==> s[|s| - 1] != SPACE)
    ensures Trimmed(Filled(s, n)) == s
    decreases n
  {
    if |s| < n {
      var all := Filled(s, n);
      assert all[n - 1] == SPACE && all[..n - 1] == Filled(s, n - 1);
      TrimmedFilled(s, n - 1);
    } else {
      assert Filled(s, n) == s;
    }
  }

  /** The name a short entry shows that was put together from two fields. */
  lemma FieldsShown(a: seq<nat>, b: seq<nat>)
    requires |a| <= 8 && |b| <= 3 && IsField(a, |a|) && IsField(b, |b|)
    ensures ShortName(Filled(a, 8) + Filled(b, 3)) == if b == [] then a else a + [DOT] + b
    ensures Trimmed((Filled(a, 8) + Filled(b, 3))[..8]) == a && Trimmed((Filled(a, 8) + Filled(b, 3))[8..11]) == b
  {
    var short := Filled(a, 8) + Filled(b, 3);
    assert short[..8] == Filled(a, 8) && short[8..11] == Filled(b, 3);
    TrimmedFilled(a, 8);
    TrimmedFilled(b, 3);
  }

  /** A name that fits is shown by its plain short name in capitals, but for a dot at its end. */
  lemma PlainShown(name: Name)
    requires Fits(name) && name != []
    ensures ShortName(ToShort(name)) == Uppers(if name[|name| - 1] == DOT then name[..|name| - 1] else name)
    ensures name[|name| - 1] != DOT ==> SameName(ShortName(ToShort(name)), name)
  {
    PartsShown(name);
    DotFree(name);
    UppersDotted(Base(name), Extension(name));
    UppersTwice(name);
  }

  lemma PartsShown(name: Name)
    requires Fits(name) && name != []
    ensures var a, b := Uppers(Base(name)), Uppers(Extension(name));
            ShortName(ToShort(name)) == if b == [] then a else a + [DOT] + b
  {
    DotDivides(name);
    UppersAreField(Base(name));
    UppersAreField(Extension(name));
    FieldsShown(Uppers(Base(name)), Uppers(Extension(name)));
  }

  lemma UppersDotted(a: Name, b: Name)
    ensures Uppers(a + [DOT] + b) == Uppers(a) + [DOT] + Uppers(b)
  {
  }

  lemma UppersTwice(s: seq<nat>)
    ensures Uppers(Uppers(s)) == Uppers(s)
  {
  }

  lemma StemThere(name: Name)
    requires Fits(name) && name != []
    ensures Stem(name) > 0
  {
    DotDivides(name);
    assert Stem(name) == 0 ==> Base(name)[0] == DOT && !ShortChar(DOT);
  }

  lemma {:induction false} StemWhole(name: Name)
    ensures Stem(name) == |name| ==> DOT !in name
  {
  }

  lemma DotFree(name: Name)
    requires Fits(name) && name != []
    ensures Extension(name) == [] ==> Base(name) == if name[|name| - 1] == DOT then name[..|name| - 1] else name
    ensures Extension(name) != [] ==> name[|name| - 1] != DOT && name == Base(name) + [DOT] + Extension(name)
  {
    StemThere(name);
    StemWhole(name);
    DotDivides(name);
    assert Extension(name) != [] ==> ShortChar(Extension(name)[|Extension(name)| - 1]) && !ShortChar(DOT);
  }

  // Made-up short names

  /** The characters of a name that a made-up name is made of. */
  function Kept(s: Name): Name {
    if s == [] then []
    else
      var c := s[|s| - 1];
      Kept(s[..|s| - 1]) + if c == SPACE || c == DOT then [] else [if ShortChar(c) then Upper(c) else UNDERSCORE]
  }

  lemma {:induction false} KeptConcat(a: Name, b: Name)
    ensures Kept(a + b) == Kept(a) + Kept(b)
  {
    if b == [] {
      assert a + b == a;
    } else {
      var c := b[..|b| - 1];
      assert (a + b)[..|a + b| - 1] == a + c;
      KeptConcat(a, c);
    }
  }

  lemma KeptFirst(s: Name)
    requires s != []
    ensures var c := s[0];
      Kept(s) == (if c == SPACE || c == DOT then [] else [if ShortChar(c) then Upper(c) else UNDERSCORE]) + Kept(s[1..])
  {
    var h := [s[0]];
    assert s == h + s[1..] && h[..0] == [];
    KeptConcat(h, s[1..]);
  }

  /** Cleaning a name takes as many of these as are wanted. */
  lemma {:induction false} CleanedIsKept(s: Name, n: nat)
    ensures Cleaned(s, n) == Kept(s)[..Least(|Kept(s)|, n)]
    decreases |s|
  {
    if s != [] && n > 0 {
      KeptFirst(s);
      CleanedIsKept(s[1..], if s[0] == SPACE || s[0] == DOT then n else n - 1);
    }
  }

  function DigitValue(b: nat): nat { if 0x30 <= b <= 0x39 then b - 0x30 else 0 }

  /** The number a row of digits stands for. */
  function Number(s: seq<nat>): nat {
    if s == [] then 0 else Number(s[..|s| - 1]) * 10 + DigitValue(s[|s| - 1])
  }

  predicate AllDigits(s: seq<nat>) { forall i :: 0 <= i < |s| ==> 0x30 <= s[i] <= 0x39 }

  lemma {:induction false} NumberRead(n: nat)
    ensures Number(Digits(n)) == n && AllDigits(Digits(n)) && (n > 0 ==> Digits(n)[0] != 0x30)
  {
    if n >= 10 {
      NumberRead(n / 10);
      assert Digits(n)[..|Digits(n)| - 1] == Digits(n / 10);
    } else {
      assert Digits(n)[..0] == [];
    }
  }

  /** What stands behind the last tilde, and in front of it. */
  function Behind(s: seq<nat>): seq<nat> {
    if s == [] || s[|s| - 1] == TILDE then [] else Behind(s[..|s| - 1]) + [s[|s| - 1]]
  }

  function InFront(s: seq<nat>): seq<nat> {
    if s == [] then [] else if s[|s| - 1] == TILDE then s[..|s| - 1] else InFront(s[..|s| - 1])
  }

  lemma {:induction false} TildeDivides(a: seq<nat>, b: seq<nat>)
    requires AllDigits(b)
    ensures Behind(a + [TILDE] + b) == b && InFront(a + [TILDE] + b) == a
  {
    var s := a + [TILDE] + b;
    if b == [] {
      assert s[..|s| - 1] == a;
    } else {
      assert s[..|s| - 1] == a + [TILDE] + b[..|b| - 1];
      TildeDivides(a, b[..|b| - 1]);
      assert b == b[..|b| - 1] + [b[|b| - 1]];
    }
  }

  /** The characters of a short name's first field. */
  function Stump(short: seq<nat>): seq<nat>
    requires |short| == 11
  {
    Trimmed(short[..8])
  }

  /** What a made-up name is put together from. */
  lemma AliasParts(name: Name, n: nat, keep: seq<nat>)
    requires n < 1000
    requires keep == Cleaned(Base(name), 6)[..Least(|Cleaned(Base(name), 6)|, 7 - |Digits(n)|)]
    ensures Stump(Alias(name, n)) == keep + [TILDE] + Digits(n)
    ensures Trimmed(Alias(name, n)[8..11]) == Cleaned(Extension(name), 3)
  {
    CleanedIsField(Base(name), 6);
    CleanedIsField(Extension(name), 3);
    DigitsAreField(n);
    FieldsShown(keep + [TILDE] + Digits(n), Cleaned(Extension(name), 3));
  }

  lemma Took(kept: seq<nat>, n: nat, m: nat)
    ensures kept[..Least(|kept|, n)][..Least(Least(|kept|, n), m)] <= kept
  {
  }

  /** A made-up name: the start of what the name's base keeps, as much as there is room for, a tilde, and the number
      in decimal; and of what its extension keeps, the first three. */
  lemma AliasRead(name: Name, n: nat)
    requires 1 <= n < 1000
    ensures var s := Stump(Alias(name, n));
      && AllDigits(Behind(s)) && Behind(s) != [] && Behind(s)[0] != 0x30 && Number(Behind(s)) == n
      && InFront(s) <= Kept(Base(name)) && |s| == |InFront(s)| + 1 + |Behind(s)|
      && |InFront(s)| == Least(Least(|Kept(Base(name))|, 6), 7 - |Behind(s)|)
    ensures Trimmed(Alias(name, n)[8..11]) == Kept(Extension(name))[..Least(|Kept(Extension(name))|, 3)]
  {
    var kept, tail := Kept(Base(name)), Digits(n);
    var keep := kept[..Least(|kept|, 6)][..Least(Least(|kept|, 6), 7 - |tail|)];
    CleanedIsKept(Base(name), 6);
    CleanedIsKept(Extension(name), 3);
    Took(kept, 6, 7 - |tail|);
    NumberRead(n);
    AliasParts(name, n, keep);
    TildeDivides(keep, tail);
  }

  /** The number a made-up name ends in. */
  function AliasNumber(short: seq<nat>): nat
    requires |short| == 11
  {
    Number(Behind(Stump(short)))
  }

  lemma AliasNumbered(name: Name, n: nat)
    requires 1 <= n < 1000
    ensures AliasNumber(Alias(name, n)) == n
  {
    AliasRead(name, n);
  }

  /** No two of the made-up names are the same. */
  lemma AliasesDiffer(name: Name, m: nat, n: nat)
    requires 1 <= m < 1000 && 1 <= n < 1000 && m != n
    ensures Alias(name, m) != Alias(name, n)
  {
    AliasNumbered(name, m);
    AliasNumbered(name, n);
  }

  // The checksum

  predicate Bytes(s: seq<nat>) { forall i :: 0 <= i < |s| ==> s[i] < 0x100 }

  lemma StepTells(s: nat, t: nat, b: nat, c: nat)
    requires s < 0x100 && t < 0x100 && b < 0x100 && c < 0x100 && (s == t <==> b != c)
    ensures (s / 2 + (if s % 2 == 1 then 0x80 else 0) + b) % 0x100 != (t / 2 + (if t % 2 == 1 then 0x80 else 0) + c) % 0x100
  {
  }

  /** Short names that differ in one character have different checksums. */
  lemma {:induction false} ChecksumTells(a: seq<nat>, b: seq<nat>, k: nat)
    requires |a| == |b| && k < |a| && Bytes(a) && Bytes(b) && a[k] != b[k]
    requires forall i :: 0 <= i < |a| && i != k ==> a[i] == b[i]
    ensures Checksum(a) != Checksum(b)
  {
    var n: nat := |a| - 1;
    if k == n {
      assert a[..n] == b[..n];
    } else {
      ChecksumTells(a[..n], b[..n], k);
    }
    StepTells(Checksum(a[..n]), Checksum(b[..n]), a[n], b[n]);
  }
}
