/** Paths as strings. */
module KfsPaths {
  import opened Wrappers
  import opened KfsTypes
  import opened KfsNames

  /** Where the first slash is, or the end. */
  function FirstSlash(p: seq<char>): (n: nat)
    ensures n <= |p|
    ensures (forall i :: 0 <= i < n ==> p[i] != '/') && (n < |p| ==> p[n] == '/')
  {
    if p == [] || p[0] == '/' then 0 else 1 + FirstSlash(p[1..])
  }

  /** The parts between slashes, empty ones left out. */
  function Parts(p: seq<char>): seq<Name>
    decreases |p|
  {
    if p == [] then []
    else if p[0] == '/' then Parts(p[1..])
    else [p[..FirstSlash(p)]] + Parts(p[FirstSlash(p)..])
  }

  function TrimEnd(p: seq<char>): seq<char> {
    if p != [] && p[|p| - 1] == '/' then TrimEnd(p[..|p| - 1]) else p
  }

  /** Where the last slash is. */
  function LastSlash(p: seq<char>): (r: Option<nat>)
    ensures r.Some? ==> r.value < |p| && p[r.value] == '/' && forall i :: r.value < i < |p| ==> p[i] != '/'
    ensures r.None? ==> '/' !in p
  {
    if p == [] then None
    else if p[|p| - 1] == '/' then Some(|p| - 1)
    else LastSlash(p[..|p| - 1])
  }

  /** `"/a/b/c"` as `("/a/b", "c")`. */
  function SplitPath(path: seq<char>): Result<(seq<char>, Name)> {
    var p := TrimEnd(path);
    match LastSlash(p)
    case None => Err(Refused)
    case Some(cut) => if p[cut + 1..] == [] then Err(Refused) else Ok((p[..cut], p[cut + 1..]))
  }

  predicate IsRoot(path: seq<char>) {
    forall c | c in path :: c == '/'
  }

  /** The test a rename makes for moving a folder into itself. */
  predicate Continues(from: seq<char>, to: seq<char>) {
    from <= to && to[|from|..] != [] && to[|from|] == '/'
  }

  // --- What these have to do with each other ---

  lemma {:induction false} PartsConcat(p: seq<char>, q: seq<char>)
    requires q == [] || q[0] == '/' || p == [] || p[|p| - 1] == '/'
    ensures Parts(p + q) == Parts(p) + Parts(q)
    decreases |p|
  {
    if p == [] {
      assert p + q == q;
    } else if p[0] == '/' {
      assert (p + q)[1..] == p[1..] + q;
      PartsConcat(p[1..], q);
    } else {
      var n := FirstSlash(p);
      FirstOfConcat(p, q);
      assert (p + q)[..n] == p[..n] && (p + q)[n..] == p[n..] + q;
      PartsConcat(p[n..], q);
    }
  }

  lemma {:induction false} FirstOfConcat(p: seq<char>, q: seq<char>)
    requires q == [] || q[0] == '/' || p == [] || p[|p| - 1] == '/'
    requires p != []
    ensures FirstSlash(p + q) == FirstSlash(p)
  {
    if p[0] != '/' {
      assert (p + q)[1..] == p[1..] + q;
      if p[1..] == [] {
        assert (p + q)[1..] == q;
      } else {
        FirstOfConcat(p[1..], q);
      }
    }
  }

  lemma {:induction false} TrimParts(p: seq<char>)
    ensures Parts(TrimEnd(p)) == Parts(p)
  {
    if p != [] && p[|p| - 1] == '/' {
      var q := p[..|p| - 1];
      assert p == q + "/";
      PartsConcat(q, "/");
      assert Parts("/") == [];
      TrimParts(q);
    }
  }

  lemma NameParts(n: Name)
    requires n != [] && '/' !in n
    ensures Parts(n) == [n]
  {
    assert forall i :: 0 <= i < |n| ==> n[i] in n;
    assert FirstSlash(n) == |n|;
    assert n[..|n|] == n && n[|n|..] == [];
  }

  /** Splitting off the last part. */
  lemma SplitParts(path: seq<char>)
    requires SplitPath(path).Ok?
    ensures var (parent, name) := SplitPath(path).value; Parts(path) == Parts(parent) + [name] && name != [] && '/' !in name
  {
    var p := TrimEnd(path);
    var cut := LastSlash(p).value;
    var parent, name := p[..cut], p[cut + 1..];
    TrimParts(path);
    assert p == parent + ("/" + name);
    PartsConcat(parent, "/" + name);
    assert ("/" + name)[1..] == name;
    NameParts(name);
  }

  // --- Paths as they should be written ---

  function Join(parts: seq<Name>): seq<char> {
    if parts == [] then [] else "/" + parts[0] + Join(parts[1..])
  }

  /** A slash before every part, and no other. */
  predicate Canonical(p: seq<char>) {
    p == Join(Parts(p))
  }

  ghost predicate AllNames(parts: seq<Name>) {
    forall i :: 0 <= i < |parts| ==> parts[i] != [] && '/' !in parts[i]
  }

  lemma {:induction false} PartsAreNames(p: seq<char>)
    ensures AllNames(Parts(p))
    decreases |p|
  {
    if p != [] {
      if p[0] == '/' {
        PartsAreNames(p[1..]);
      } else {
        PartsAreNames(p[FirstSlash(p)..]);
      }
    }
  }

  lemma {:induction false} JoinConcat(x: seq<Name>, y: seq<Name>)
    ensures Join(x + y) == Join(x) + Join(y)
  {
    if x == [] {
      assert x + y == y;
    } else {
      assert (x + y)[0] == x[0] && (x + y)[1..] == x[1..] + y;
      JoinConcat(x[1..], y);
    }
  }

  lemma JoinHead(x: seq<Name>)
    ensures Join(x) == [] || Join(x)[0] == '/'
  {
  }

  lemma SlashFirst(t: seq<char>)
    ensures Parts("/" + t) == Parts(t)
  {
    assert ("/" + t)[1..] == t;
  }

  lemma {:induction false} JoinParts(x: seq<Name>)
    requires AllNames(x)
    ensures Parts(Join(x)) == x
  {
    if x != [] {
      var rest := Join(x[1..]);
      var t := x[0] + rest;
      assert Join(x) == "/" + t;
      JoinHead(x[1..]);
      SlashFirst(t);
      JoinParts(x[1..]);
      PartsConcat(x[0], rest);
      NameParts(x[0]);
      assert x == [x[0]] + x[1..];
    }
  }

  /** On canonical paths the test is right: one string continues the other past a slash exactly when
      its parts do. */
  lemma ContinuesIsPrefix(from: seq<char>, to: seq<char>)
    requires Canonical(from) && Canonical(to)
    ensures Continues(from, to) <==> Parts(from) < Parts(to)
  {
    var x, y := Parts(from), Parts(to);
    if Continues(from, to) {
      var rest := to[|from|..];
      assert to == from + rest;
      PartsConcat(from, rest);
      assert Parts(rest) == [] ==> x == y && from == to;
    }
    if x < y {
      assert y == x + y[|x|..];
      JoinConcat(x, y[|x|..]);
      JoinHead(y[|x|..]);
      assert to == from + Join(y[|x|..]);
    }
  }

  /** A canonical path cut before a slash is canonical. */
  lemma {:induction false} CutCanonical(x: seq<Name>, p: seq<char>, rest: seq<char>)
    requires AllNames(x) && Join(x) == p + rest && rest != [] && rest[0] == '/'
    ensures Canonical(p)
    decreases |x|
  {
    if p == [] {
      assert Join([]) == [];
    } else {
      var n, tail := x[0], Join(x[1..]);
      assert Join(x) == "/" + n + tail;
      assert (p + rest)[|p|] == '/';
      assert forall i :: 1 <= i <= |n| ==> Join(x)[i] == n[i - 1] && n[i - 1] in n;
      assert |p| >= 1 + |n|;
      var p' := p[1 + |n|..];
      assert p == "/" + n + p' by {
        assert p == (p + rest)[..|p|];
        assert Join(x)[..1 + |n|] == "/" + n;
      }
      assert tail == p' + rest by {
        assert tail == Join(x)[1 + |n|..] == (p + rest)[1 + |n|..];
      }
      CutCanonical(x[1..], p', rest);
      JoinHead(x[1..]);
      assert p' != [] ==> p'[0] == tail[0];
      assert p == "/" + (n + p');
      SlashFirst(n + p');
      PartsConcat(n, p');
      NameParts(n);
      assert Parts(p) == [n] + Parts(p');
      assert ([n] + Parts(p'))[1..] == Parts(p');
    }
  }

  /** When the test can be relied on: for canonical destinations, exactly when the source is canonical
      too. */
  lemma ContinuesExact(from: seq<char>)
    ensures Canonical(from) <==>
            forall to {:trigger Canonical(to)} :: Canonical(to) ==> (Continues(from, to) <==> Parts(from) < Parts(to))
  {
    if Canonical(from) {
      forall to | Canonical(to) ensures Continues(from, to) <==> Parts(from) < Parts(to) {
        ContinuesIsPrefix(from, to);
      }
    }
    if forall to {:trigger Canonical(to)} :: Canonical(to) ==> (Continues(from, to) <==> Parts(from) < Parts(to)) {
      var x: seq<Name> := Parts(from) + ["x"];
      PartsAreNames(from);
      JoinParts(x);
      var to := Join(x);
      assert Canonical(to) && Continues(from, to);
      assert to == from + to[|from|..];
      CutCanonical(x, from, to[|from|..]);
    }
  }

  /** Where it cannot: a destination that leads into `/a` without continuing it, and a source with a
      slash at the end. */
  lemma ContinuesMisses()
    ensures !Continues("/a", "//a/b") && Parts("/a") < Parts("//a/b")
    ensures !Continues("/a/", "/a/b") && Parts("/a/") < Parts("/a/b")
  {
    NameParts("a");
    NameParts("b");
    SlashFirst("a");
    SlashFirst("b");
    PartsConcat("/a", "/b");
    assert "/a/b" == "/a" + "/b" && "//a/b" == "/" + "/a/b";
    SlashFirst("/a/b");
    PartsConcat("/a", "/");
    assert Parts("/") == [] && "/a/" == "/a" + "/";
  }
}
