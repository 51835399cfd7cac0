/** A FAT16 volume: whole-file reads in runs, reads through a cursor, and chains that are taken and given back. */
module FatVolume {
  import opened Wrappers
  import opened FatChains

  const SECTOR: nat := 512
  const CURSOR_LIMIT: nat := 0xFFF0
  const MAX_CLUSTERS: nat := 65524

  datatype Outcome<+T> = Success(value: T) | Failure {
    predicate IsFailure() { Failure? }
    function PropagateFailure<U>(): Outcome<U>
      requires Failure?
    {
      Failure
    }
    function Extract(): T
      requires Success?
    {
      value
    }
  }

  /** `Holds`, kept closed. */
  ghost predicate Written(data: seq<int>, size: nat, ch: seq<nat>, bytes: seq<int>) {
    forall n: nat {:trigger Open(ChainSeal, n)} :: Open(ChainSeal, n) ==> Holds(data, size, ch, bytes)
  }

  /** `k` clusters reach to `offset`, and the last of them was needed for `n` bytes. */
  ghost predicate Reached(k: nat, offset: nat, n: nat, size: nat) {
    forall m: nat {:trigger Open(ChainSeal, m)} ::
      Open(ChainSeal, m) ==> offset == k * size && (k == 0 || (k - 1) * size < n)
  }

  lemma ReachedNext(k: nat, offset: nat, n: nat, size: nat)
    requires Reached(k, offset, n, size) && offset < n
    ensures Reached(k + 1, offset + size, n, size)
    ensures size > 0 ==> k < Ceil(n, size)
  {
    assert Open(ChainSeal, 0);
    Spread(k + 1, size);
    if size > 0 {
      Scaled(Ceil(n, size), k, size);
    }
  }

  lemma ReachedEnd(k: nat, offset: nat, n: nat, size: nat)
    requires Reached(k, offset, n, size) && offset >= n && size > 0
    ensures k == Ceil(n, size)
  {
    assert Open(ChainSeal, 0);
    var m := Ceil(n, size);
    if m > 0 {
      Scaled(k, m - 1, size);
    }
    if k > 0 {
      Scaled(m, k - 1, size);
    }
  }

  /** What a chain that is being written has done to the table and the disk so far. */
  ghost predicate LaidOut(was: seq<nat>, now: seq<nat>, last: nat, before: seq<int>, data: seq<int>, size: nat,
                          ch: seq<nat>) {
    forall n: nat {:trigger Open(ChainSeal, n)} :: Open(ChainSeal, n) ==>
      && IsChain(now, ch) && TakenBy(was, now, ch) && SameBut(before, data, size, ch)
      && last <= |was| && Spare(now, last) + |ch| == Spare(was, last) && forall x :: x in ch ==> x < last
  }

  lemma LaidMore(was: seq<nat>, now: seq<nat>, last: nat, before: seq<int>, held: seq<int>, data: seq<int>, size: nat,
                 ch: seq<nat>, c: nat)
    requires LaidOut(was, now, last, before, held, size, ch) && GoesOn(c) && c < last <= |now| && now[c] == FAT_FREE
    requires IsChain(now, ch) && SameBut(held, data, size, [c])
    requires Spare(Grow(now, ch, c), last) + 1 == Spare(now, last)
    ensures LaidOut(was, Grow(now, ch, c), last, before, data, size, ch + [c])
  {
    assert Open(ChainSeal, 0);
    GrowIsChain(now, ch, c);
    TakenGrows(was, now, ch, c);
    SameButTwice(before, held, data, size, ch, c);
  }

  function Min(a: nat, b: nat): nat { if a < b then a else b }

  class Volume {
    /** The table in memory, entry by entry. */
    const fat: array<nat>
    /** What the disk holds from the first cluster on. */
    var data: seq<int>
    const sectorsPerCluster: nat
    /** Bytes in a cluster. */
    const size: nat
    const clusters: nat

    predicate Valid()
      reads this
    {
      0 < size == sectorsPerCluster * SECTOR && clusters <= MAX_CLUSTERS && clusters * size <= |data|
    }

    function FatEntry(c: nat): Outcome<nat>
      reads fat
    {
      if c < fat.Length then Success(fat[c]) else Failure
    }

    /** How far the chain runs straight on from its `k`th cluster `start`, and what comes after that. */
    method Stretch(ghost first: nat, ghost k: nat, ghost n: nat, start: nat, done: nat, total: nat)
        returns (r: Outcome<(nat, nat)>)
      requires Valid() && k < n && Follow(fat[..], first, k) == Some(start)
      requires done == k * size && total == n * size
      ensures r.Failure? ==> !RunReadable(fat[..], data, size, first, n)
      ensures r.Success? ==>
                var (run, next) := r.value;
                && 0 < run && k + run <= n && Straight(fat[..], first, k, start, run)
                && Follow(fat[..], first, k + run) == Some(next)
                && (k + run < n ==> !Extends(fat[..], first, k + run))
    {
      ghost var table := fat[..];
      var run := 1;
      var next :- Step(first, k, n, start);
      assert Straight(table, first, k, start, 0) && Straight(table, first, k, start, 1);
      while next == start + run && done + (run + 1) * size <= total
        invariant 0 < run && k + run <= n && Straight(table, first, k, start, run)
        invariant Follow(table, first, k + run) == Some(next)
        decreases n - k - run
      {
        Along(k, run + 1, size);
        Scaled(k + run + 1, n, size);
        next :- Step(first, k + run, n, next);
        run := run + 1;
      }
      Along(k, run + 1, size);
      Scaled(k + run + 1, n, size);
      return Success((run, next));
    }

    /** The entry of a chain's `k`th cluster. */
    method Step(ghost first: nat, ghost k: nat, ghost n: nat, c: nat) returns (r: Outcome<nat>)
      requires k < n && Follow(fat[..], first, k) == Some(c)
      ensures r.Failure? ==> c >= fat.Length && !RunReadable(fat[..], data, size, first, n)
      ensures r.Success? ==> c < fat.Length && Follow(fat[..], first, k + 1) == Some(r.value)
    {
      ReadableLess(fat[..], data, size, first, k + 1, n);
      return FatEntry(c);
    }

    /** Reads the run that starts with a chain's `k`th cluster. */
    method NextRun(ghost first: nat, ghost k: nat, ghost n: nat, start: nat, done: nat, total: nat)
        returns (r: Outcome<(seq<int>, nat)>, ghost run: nat)
      requires Valid() && k < n && Follow(fat[..], first, k) == Some(start) && GoesOn(start)
      requires RunReadable(fat[..], data, size, first, k) && done == k * size && total == n * size
      ensures r.Failure? ==> !RunReadable(fat[..], data, size, first, n)
      ensures r.Success? ==>
                && 0 < run && k + run <= n && RunReadable(fat[..], data, size, first, k + run)
                && Contents(fat[..], data, size, first, k) + r.value.0 == Contents(fat[..], data, size, first, k + run)
                && Follow(fat[..], first, k + run) == Some(r.value.1)
                && (k + run < n ==> !Extends(fat[..], first, k + run))
    {
      run := 0;
      var stretch :- Stretch(first, k, n, start, done, total);
      var (length, next) := stretch;
      run := length;
      var before: nat := start - 2;
      var at, bytes := before * size, length * size;
      if at + bytes > |data| {
        NotOnDisk(fat[..], data, size, first, k, n, start, length);
        return Failure, run;
      }
      OnePiece(fat[..], data, size, first, k, start, length, at, bytes);
      return Success((data[at..at + bytes], next)), run;
    }

    /** Reads a file, every run of clusters that follow each other on the disk in one go. */
    method ReadFile(first: nat, bytes: nat) returns (r: Outcome<seq<int>>)
      requires Valid()
      ensures r.Success? <==> RunReadable(fat[..], data, size, first, Ceil(bytes, size))
      ensures r.Success? ==> r.value == Contents(fat[..], data, size, first, Ceil(bytes, size))[..bytes]
    {
      var n := Ceil(bytes, size);
      var got := [];
      var cluster := first;
      ghost var k: nat := 0;
      ghost var table := fat[..];
      while GoesOn(cluster) && |got| < bytes
        invariant k <= n && Follow(table, first, k) == Some(cluster)
        invariant RunReadable(table, data, size, first, k)
        invariant got == Contents(table, data, size, first, k)
        invariant k < n ==> !Extends(table, first, k)
        decreases n - k
      {
        Scaled(n, k, size);
        var read, run := NextRun(first, k, n, cluster, |got|, n * size);
        if read.Failure? {
          return Failure;
        }
        got := got + read.value.0;
        k := k + run;
        cluster := read.value.1;
      }
      if |got| < bytes {
        Scaled(n, k, size);
        Stuck(table, data, size, first, k, n, cluster);
        return Failure;
      }
      if k < n {
        Scaled(k, n - 1, size);
      }
      return Success(got[..bytes]);
    }

    /** Where the search for a free cluster stops. */
    function Last(): (r: nat)
      ensures r <= fat.Length
    {
      Min(2 + clusters, fat.Length)
    }

    /** Takes the first free cluster, as the end of a chain of its own. */
    method AllocateCluster() returns (r: Outcome<nat>)
      requires Valid()
      modifies fat
      ensures r.Failure? <==> old(Spare(fat[..], Last())) == 0
      ensures r.Failure? ==> fat[..] == old(fat[..])
      ensures r.Success? ==>
                && 2 <= r.value < Last() && GoesOn(r.value) && fat[..] == old(fat[..])[r.value := FAT_EOC]
                && old(fat[r.value]) == FAT_FREE && forall c :: 2 <= c < r.value ==> old(fat[c]) != FAT_FREE
    {
      NoneSpare(fat[..], Last());
      var c := 2;
      while c < Last() && fat[c] != FAT_FREE
        invariant 2 <= c && forall x :: 2 <= x < c && x < Last() ==> fat[x] != FAT_FREE
      {
        c := c + 1;
      }
      if c >= Last() {
        return Failure;
      }
      fat[c] := FAT_EOC;
      return Success(c);
    }

    method FreeOne(cluster: nat)
      requires cluster < fat.Length
      modifies fat
      ensures fat[..] == old(fat[..])[cluster := FAT_FREE]
    {
      fat[cluster] := FAT_FREE;
    }

    /** Frees what the links from `first` lead to. It ends on every table, even where they run in a circle. */
    method FreeChain(first: nat) returns (r: Outcome<()>, ghost trail: seq<nat>)
      modifies fat
      ensures Trail(old(fat[..]), first, trail) && Freed(old(fat[..]), fat[..], trail)
      ensures var next := Beyond(old(fat[..]), first, trail);
        && (r.Success? <==> !GoesOn(next) || next in trail)
        && (r.Failure? ==> next >= fat.Length)
    {
      trail := [];
      var cluster := first;
      ghost var was := fat[..];
      while GoesOn(cluster)
        invariant Trail(was, first, trail) && Freed(was, fat[..], trail)
        invariant cluster == Beyond(was, first, trail) || (cluster == FAT_FREE && Beyond(was, first, trail) in trail)
        decreases fat.Length - Spare(fat[..], fat.Length), cluster
      {
        if cluster >= fat.Length {
          return Failure, trail;
        }
        var next := fat[cluster];
        SpareAfter(fat[..], fat.Length, cluster, FAT_FREE);
        if cluster !in trail {
          TrailStep(was, fat[..], first, trail, cluster);
          trail := trail + [cluster];
        }
        FreeOne(cluster);
        cluster := next;
      }
      return Success(()), trail;
    }

    /** Puts the next part of a file into its cluster: whole sectors first, then the rest padded to one. */
    method WriteCluster(cluster: nat, part: seq<int>)
      requires Valid() && 2 <= cluster < 2 + clusters && |part| <= size
      modifies this`data
      ensures Valid() && SameBut(old(data), data, size, [cluster])
      ensures OnDisk(data, size, cluster) && ClusterAt(data, size, cluster)[..|part|] == part
    {
      ClusterThere(data, size, clusters, cluster);
      SectorsFit(|part|, size, sectorsPerCluster);
      var whole := |part| / SECTOR * SECTOR;
      ghost var before := data;
      if whole > 0 {
        WriteBytes(cluster, 0, part[..whole]);
      }
      ghost var mid := data;
      if |part| > whole {
        WriteRest(cluster, part, whole);
        SameButAgain(before, mid, data, size, [cluster]);
      }
    }

    /** Writes what is left of a part behind its whole sectors. */
    method WriteRest(cluster: nat, part: seq<int>, whole: nat)
      requires Valid() && OnDisk(data, size, cluster) && whole < |part| <= whole + SECTOR <= size
      requires ClusterAt(data, size, cluster)[..whole] == part[..whole]
      modifies this`data
      ensures Valid() && SameBut(old(data), data, size, [cluster])
      ensures OnDisk(data, size, cluster) && ClusterAt(data, size, cluster)[..|part|] == part
    {
      ghost var front := ClusterAt(data, size, cluster);
      var rest := part[whole..] + seq(SECTOR - (|part| - whole), _ => 0);
      WriteBytes(cluster, whole, rest);
      PartThere(front, part, whole, rest);
    }

    /** Writes `bytes` from byte `lo` of a cluster on. */
    method WriteBytes(cluster: nat, lo: nat, bytes: seq<int>)
      requires Valid() && OnDisk(data, size, cluster) && lo + |bytes| <= size
      modifies this`data
      ensures Valid() && SameBut(old(data), data, size, [cluster]) && OnDisk(data, size, cluster)
      ensures ClusterAt(data, size, cluster) == Splice(old(ClusterAt(data, size, cluster)), lo, bytes)
    {
      RewriteElsewhere(data, size, cluster, lo, bytes);
      RewriteHere(data, size, cluster, lo, bytes);
      data := Rewrite(data, size, cluster, lo, bytes);
    }

    /** Takes a free cluster and links it to the chain that ends at `prev`. */
    method TakeNext(prev: Option<nat>, ghost ch: seq<nat>) returns (r: Outcome<nat>)
      requires Valid() && IsChain(fat[..], ch) && prev == (if ch == [] then None else Some(ch[|ch| - 1]))
      modifies fat
      ensures r.Failure? ==> old(Spare(fat[..], Last())) == 0 && fat[..] == old(fat[..])
      ensures r.Success? ==>
                && 2 <= r.value < Last() && GoesOn(r.value) && old(fat[r.value]) == FAT_FREE
                && fat[..] == Grow(old(fat[..]), ch, r.value)
                && Spare(fat[..], Last()) + 1 == old(Spare(fat[..], Last()))
    {
      var cluster :- AllocateCluster();
      SpareAfter(old(fat[..]), Last(), cluster, FAT_EOC);
      if prev.Some? {
        ChainTaken(old(fat[..]), ch);
        SpareAfter(fat[..], Last(), prev.value, cluster);
        fat[prev.value] := cluster;
      }
      return Success(cluster);
    }

    ghost predicate Laid(was: seq<nat>, before: seq<int>, ch: seq<nat>)
      reads this, fat
    {
      LaidOut(was, fat[..], Last(), before, data, size, ch)
    }

    /** Frees a chain that was taken from free clusters. */
    method GiveBack(first: nat, ghost was: seq<nat>, ghost before: seq<int>, ghost ch: seq<nat>)
      requires Laid(was, before, ch) && Spare(fat[..], Last()) == 0 && first == (if ch == [] then 0 else ch[0])
      modifies fat
      ensures fat[..] == was && TakenBy(was, fat[..], ch) && SameBut(before, data, size, ch)
      ensures Spare(was, Last()) == |ch|
    {
      assert Open(ChainSeal, 0);
      if first >= 2 {
        ghost var now := fat[..];
        var freed, trail := FreeChain(first);
        TrailIsChain(now, ch, trail);
        GivenBack(was, now, fat[..], ch);
      }
    }

    /** Takes the next cluster of a chain and writes the part of `bytes` that belongs there. */
    method WriteNext(prev: Option<nat>, bytes: seq<int>, offset: nat, ghost was: seq<nat>, ghost before: seq<int>,
                     ghost ch: seq<nat>, ghost more: seq<int>)
        returns (r: Outcome<nat>)
      requires more == bytes[..Min(offset + size, |bytes|)]
      requires Valid() && Laid(was, before, ch) && prev == (if ch == [] then None else Some(ch[|ch| - 1]))
      requires Reached(|ch|, offset, |bytes|, size) && offset < |bytes| && Written(data, size, ch, bytes[..offset])
      modifies this`data, fat
      ensures Valid()
      ensures r.Failure? ==> Spare(fat[..], Last()) == 0 && Laid(was, before, ch)
      ensures r.Success? ==>
                && 2 <= r.value && Laid(was, before, ch + [r.value])
                && Written(data, size, ch + [r.value], more)
    {
      ghost var now, held := fat[..], data;
      assert Open(ChainSeal, 0);
      var cluster :- TakeNext(prev, ch);
      GrowIsChain(now, ch, cluster);
      var end := Min(offset + size, |bytes|);
      WriteCluster(cluster, bytes[offset..end]);
      LaidMore(was, now, Last(), before, held, data, size, ch, cluster);
      HoldsMore(held, data, size, ch, bytes, offset, end, cluster);
      return Success(cluster);
    }

    /** Takes clusters for `bytes` and fills them, one by one; when they run out, those taken are freed. */
    method WriteParts(bytes: seq<int>) returns (r: Outcome<nat>, ghost ch: seq<nat>)
      requires Valid()
      modifies this`data, fat
      ensures Valid()
      ensures r.Failure? ==> fat[..] == old(fat[..]) && TakenBy(old(fat[..]), fat[..], ch)
      ensures r.Failure? ==> SameBut(old(data), data, size, ch)
      ensures r.Failure? ==> old(Spare(fat[..], Last())) == |ch| < Ceil(|bytes|, size)
      ensures r.Success? ==>
                && Laid(old(fat[..]), old(data), ch) && Written(data, size, ch, bytes)
                && |ch| == Ceil(|bytes|, size) && r.value == if ch == [] then 0 else ch[0]
    {
      var first: nat, offset: nat := 0, 0;
      var prev := None;
      ch := [];
      ghost var was, before, done := fat[..], data, bytes[..0];
      while offset < |bytes|
        invariant Valid() && Laid(was, before, ch)
        invariant first == (if ch == [] then 0 else ch[0]) && (ch != [] ==> first >= 2)
        invariant prev == if ch == [] then None else Some(ch[|ch| - 1])
        invariant Reached(|ch|, offset, |bytes|, size)
        invariant Written(data, size, ch, done) && done == bytes[..Min(offset, |bytes|)]
        decreases |bytes| - offset
      {
        ReachedNext(|ch|, offset, |bytes|, size);
        done := bytes[..Min(offset + size, |bytes|)];
        var next := WriteNext(prev, bytes, offset, was, before, ch, done);
        if next.Failure? {
          GiveBack(first, was, before, ch);
          return Failure, ch;
        }
        if first == 0 {
          first := next.value;
        }
        ch := ch + [next.value];
        prev := Some(next.value);
        offset := offset + size;
      }
      ReachedEnd(|ch|, offset, |bytes|, size);
      assert bytes[..|bytes|] == bytes;
      return Success(first), ch;
    }

    /** Writes `bytes` to a chain of free clusters, or leaves the table as it was if there are too few. */
    method WriteChain(bytes: seq<int>) returns (r: Outcome<nat>, ghost ch: seq<nat>)
      requires Valid()
      modifies this`data, fat
      ensures Valid() && TakenBy(old(fat[..]), fat[..], ch) && SameBut(old(data), data, size, ch)
      ensures r.Success? <==> Ceil(|bytes|, size) <= old(Spare(fat[..], Last()))
      ensures r.Failure? ==> fat[..] == old(fat[..])
      ensures r.Success? ==>
                && IsChain(fat[..], ch) && |ch| == Ceil(|bytes|, size) && r.value == (if ch == [] then 0 else ch[0])
                && Holds(data, size, ch, bytes) && Spare(fat[..], Last()) + |ch| == old(Spare(fat[..], Last()))
                && forall x :: x in ch ==> x < Last()
    {
      r, ch := WriteParts(bytes);
      assert Open(ChainSeal, 0);
    }

    /** Files still hold what they held. */
    ghost predicate StillHold(before: seq<int>, files: map<nat, seq<nat>>)
      reads this
    {
      forall g, bs :: g in files && Holds(before, size, files[g], bs) ==> Holds(data, size, files[g], bs)
    }

    lemma StillHeld(before: seq<int>, files: map<nat, seq<nat>>, ch: seq<nat>)
      requires SameBut(before, data, size, ch) && forall g, x :: g in files && x in files[g] ==> x !in ch
      ensures StillHold(before, files)
    {
      forall g, bs | g in files && Holds(before, size, files[g], bs)
        ensures Holds(data, size, files[g], bs)
      {
        HoldsStill(before, data, size, files[g], bs, ch);
      }
    }

    /** Frees the chain of file `f`. */
    method RemoveChain(first: nat, ghost files: map<nat, seq<nat>>, ghost f: nat)
      requires Owned(fat[..], Last(), files) && f in files && first == (if files[f] == [] then 0 else files[f][0])
      modifies fat
      ensures Owned(fat[..], Last(), files - {f}) && Freed(old(fat[..]), fat[..], files[f])
      ensures Spare(fat[..], Last()) == old(Spare(fat[..], Last())) + |files[f]|
    {
      ghost var was := fat[..];
      if first >= 2 {
        var freed, trail := FreeChain(first);
        TrailIsChain(was, files[f], trail);
      }
      OwnedWhileFreed(was, fat[..], Last(), files, f);
      SpareFreed(was, fat[..], Last(), files[f]);
    }

    /** Gives file `f` new contents: they are written to a chain of their own first, then the old chain is freed. */
    method Overwrite(first: nat, bytes: seq<int>, ghost files: map<nat, seq<nat>>, ghost f: nat)
        returns (r: Outcome<nat>, ghost ch: seq<nat>)
      requires Valid() && Owned(fat[..], Last(), files) && f in files
      requires first == (if files[f] == [] then 0 else files[f][0])
      modifies this`data, fat
      ensures Valid() && (r.Success? <==> Ceil(|bytes|, size) <= old(Spare(fat[..], Last())))
      ensures r.Failure? ==> fat[..] == old(fat[..]) && StillHold(old(data), files)
      ensures r.Success? ==>
                && Owned(fat[..], Last(), files[f := ch]) && StillHold(old(data), files - {f})
                && RunReadable(fat[..], data, size, r.value, Ceil(|bytes|, size))
                && Contents(fat[..], data, size, r.value, Ceil(|bytes|, size))[..|bytes|] == bytes
                && Spare(fat[..], Last()) + Ceil(|bytes|, size) == old(Spare(fat[..], Last())) + |files[f]|
    {
      ghost var was, before := fat[..], data;
      r, ch := WriteChain(bytes);
      OwnedWhileTaken(was, fat[..], Last(), files, ch);
      StillHeld(before, files, ch);
      if r.Success? {
        ghost var now := fat[..];
        RemoveChain(first, files, f);
        Replaced(now, fat[..], Last(), files, f, ch);
        HeldCanBeRead(fat[..], data, size, ch, bytes, r.value);
      }
    }
  }

  lemma PartThere(front: seq<int>, part: seq<int>, whole: nat, rest: seq<int>)
    requires whole <= |part| <= whole + |rest| <= |front| && front[..whole] == part[..whole]
    requires rest[..|part| - whole] == part[whole..]
    ensures Splice(front, whole, rest)[..|part|] == part
  {
    var now := Splice(front, whole, rest);
    assert now[..whole] == part[..whole];
    assert now[whole..|part|] == now[whole..whole + |rest|][..|part| - whole];
    assert now[..|part|] == now[..whole] + now[whole..|part|];
  }

  lemma ClusterThere(data: seq<int>, size: nat, clusters: nat, c: nat)
    requires 2 <= c < 2 + clusters && clusters * size <= |data|
    ensures OnDisk(data, size, c)
  {
    Spread(c - 1, size);
    Scaled(c - 1, clusters, size);
  }

  lemma SectorsFit(n: nat, size: nat, sectors: nat)
    requires n <= size == sectors * SECTOR
    ensures n / SECTOR * SECTOR <= n && (n / SECTOR * SECTOR < n ==> n / SECTOR * SECTOR + SECTOR <= size)
  {
  }

  /** A cluster the cursor may stand on. */
  predicate Sound(fat: seq<nat>, clusters: nat, c: nat) { 2 <= c < CURSOR_LIMIT && c - 2 < clusters && c < |fat| }

  /** The chain's first `n` clusters are all sound. */
  predicate Walks(fat: seq<nat>, clusters: nat, c: nat, n: nat)
    decreases n
  {
    n == 0
    || (Walks(fat, clusters, c, n - 1) && Follow(fat, c, n - 1).Some? && Sound(fat, clusters, Follow(fat, c, n - 1).value))
  }

  lemma {:induction false} WalksLess(fat: seq<nat>, clusters: nat, c: nat, m: nat, n: nat)
    requires m <= n
    ensures Walks(fat, clusters, c, n) ==> Walks(fat, clusters, c, m)
    decreases n
  {
    if m < n {
      WalksLess(fat, clusters, c, m, n - 1);
    }
  }

  /** A sound chain can be read as a whole. */
  lemma {:induction false} WalksIsReadable(fat: seq<nat>, data: seq<int>, size: nat, clusters: nat, c: nat, n: nat)
    requires Walks(fat, clusters, c, n) && clusters * size <= |data|
    ensures Readable(fat, data, size, c, n)
    decreases n
  {
    if n > 0 {
      WalksIsReadable(fat, data, size, clusters, c, n - 1);
      var x := Follow(fat, c, n - 1).value;
      Spread(x - 1, size);
      Scaled(x - 1, clusters, size);
    }
  }

  /** The byte at place `i` of a chain. */
  function ByteAt(fat: seq<nat>, data: seq<int>, size: nat, c: nat, i: nat): int
    requires size > 0
  {
    var x := Follow(fat, c, i / size);
    if x.Some? && OnDisk(data, size, x.value) then ClusterAt(data, size, x.value)[i % size] else 0
  }

  lemma DivAt(k: nat, w: nat, size: nat)
    requires w < size
    ensures (k * size + w) / size == k && (k * size + w) % size == w
  {
    var q, m := (k * size + w) / size, (k * size + w) % size;
    assert q * size + m == k * size + w;
    if q < k {
      Scaled(q + 1, k, size);
      Spread(q + 1, size);
    } else if q > k {
      Scaled(k + 1, q, size);
      Spread(k + 1, size);
    }
  }

  /** The bytes found one at a time are those of the chain read as a whole. */
  lemma BytesAreContents(fat: seq<nat>, data: seq<int>, size: nat, c: nat, n: nat, k: nat, w: nat, at: nat)
    requires w < size && k < n && RunReadable(fat, data, size, c, n) && at == k * size + w
    ensures at < n * size && ByteAt(fat, data, size, c, at) == Contents(fat, data, size, c, n)[at]
  {
    DivAt(k, w, size);
    ContentsAt(fat, data, size, c, n, k, k * size);
    SliceAt(Contents(fat, data, size, c, n), k * size, size, w);
  }

  lemma SliceAt(s: seq<int>, at: nat, size: nat, w: nat)
    requires at + size <= |s| && w < size
    ensures s[at..at + size][w] == s[at + w]
  {
  }

  lemma DivMono(a: nat, b: nat, size: nat)
    requires a <= b && size > 0
    ensures a / size <= b / size
  {
    var q := b / size;
    DivAt(a / size, a % size, size);
    if q < a / size {
      Scaled(q + 1, a / size, size);
      Spread(q + 1, size);
    }
  }

  /** A chain that is sound up to byte `end` is sound where the byte at `at` is. */
  lemma SoundBefore(fat: seq<nat>, clusters: nat, c: nat, size: nat, k: nat, at: nat, end: nat)
    requires size > 0 && at <= end && (k <= at / size + 1)
    ensures at / size <= end / size
    ensures Walks(fat, clusters, c, end / size + 1) ==> Walks(fat, clusters, c, k)
  {
    DivMono(at, end, size);
    WalksLess(fat, clusters, c, k, end / size + 1);
  }

  lemma SoundOnDisk(fat: seq<nat>, clusters: nat, data: seq<int>, size: nat, c: nat)
    requires Sound(fat, clusters, c) && clusters * size <= |data|
    ensures OnDisk(data, size, c)
  {
    ClusterThere(data, size, clusters, c);
  }

  /** `bytes` are those at `at` and after. */
  ghost predicate Spells(bytes: seq<int>, fat: seq<nat>, data: seq<int>, size: nat, c: nat, at: nat)
    requires size > 0
  {
    forall i :: 0 <= i < |bytes| ==> bytes[i] == ByteAt(fat, data, size, c, at + i)
  }

  lemma PieceSpells(fat: seq<nat>, data: seq<int>, size: nat, c: nat, k: nat, w: nat, piece: seq<int>)
    requires Follow(fat, c, k).Some? && OnDisk(data, size, Follow(fat, c, k).value) && w + |piece| <= size && 0 < size
    requires piece == ClusterAt(data, size, Follow(fat, c, k).value)[w..w + |piece|]
    ensures Spells(piece, fat, data, size, c, k * size + w)
  {
    forall i | 0 <= i < |piece|
      ensures piece[i] == ByteAt(fat, data, size, c, k * size + w + i)
    {
      DivAt(k, w + i, size);
    }
  }

  lemma SpellsMore(a: seq<int>, b: seq<int>, fat: seq<nat>, data: seq<int>, size: nat, c: nat, at: nat)
    requires size > 0 && Spells(a, fat, data, size, c, at) && Spells(b, fat, data, size, c, at + |a|)
    ensures Spells(a + b, fat, data, size, c, at)
  {
  }

  /** Byte `at` of a chain is byte `w` of its `k`th cluster, or the one before its end was. */
  ghost predicate Placed(k: nat, w: nat, at: nat, size: nat) {
    forall n: nat {:trigger Open(ChainSeal, n)} :: Open(ChainSeal, n) ==> at == k * size + w && w <= size
  }

  lemma PlacedFirst(at: nat, size: nat) returns (k: nat, w: nat)
    requires size > 0
    ensures k == at / size && w == at % size && w < size && Placed(k, w, at, size)
  {
    k, w := at / size, at % size;
    assert at == at / size * size + at % size;
  }

  lemma PlacedAt(k: nat, w: nat, at: nat, size: nat)
    requires Placed(k, w, at, size)
    ensures at == k * size + w
    ensures w < size ==> at / size == k
    ensures 0 < w <= size && 0 < at ==> (at - 1) / size == k
  {
    assert Open(ChainSeal, 0);
    if w < size {
      DivAt(k, w, size);
    }
    if 0 < w <= size {
      DivAt(k, w - 1, size);
    }
  }

  lemma PlacedOn(k: nat, w: nat, at: nat, size: nat, n: nat)
    requires Placed(k, w, at, size) && w + n <= size
    ensures Placed(k, w + n, at + n, size)
    ensures w + n == size ==> Placed(k + 1, 0, at + n, size)
  {
    assert Open(ChainSeal, 0);
    Spread(k + 1, size);
  }

  lemma ByteOfContents(fat: seq<nat>, data: seq<int>, size: nat, c: nat, n: nat, at: nat)
    requires size > 0 && RunReadable(fat, data, size, c, n) && at < n * size
    ensures ByteAt(fat, data, size, c, at) == Contents(fat, data, size, c, n)[at]
  {
    var k, w := PlacedFirst(at, size);
    PlacedAt(k, w, at, size);
    Scaled(n, k, size);
    BytesAreContents(fat, data, size, c, n, k, w, at);
  }

  /** What a read through the cursor gives is the slice of what reading the whole chain gives. */
  lemma SpelledIsSlice(bytes: seq<int>, fat: seq<nat>, data: seq<int>, size: nat, clusters: nat, c: nat, n: nat,
                       at: nat)
    requires size > 0 && clusters * size <= |data| && Walks(fat, clusters, c, n)
    requires Spells(bytes, fat, data, size, c, at) && at + |bytes| <= n * size
    ensures RunReadable(fat, data, size, c, n)
    ensures bytes == Contents(fat, data, size, c, n)[at..at + |bytes|]
  {
    WalksIsReadable(fat, data, size, clusters, c, n);
    PlainIsRuns(fat, data, size, c, n);
    forall i | 0 <= i < |bytes|
      ensures bytes[i] == Contents(fat, data, size, c, n)[at + i]
    {
      ByteOfContents(fat, data, size, c, n, at + i);
    }
  }

  /** A chain can be walked with the cursor as far as its clusters stay below the cursor's limit. */
  lemma {:induction false} ChainWalks(fat: seq<nat>, clusters: nat, ch: seq<nat>, n: nat)
    requires IsChain(fat, ch) && ch != [] && n <= |ch| && forall x :: x in ch ==> x < 2 + clusters
    ensures Walks(fat, clusters, ch[0], n) <==> forall i :: 0 <= i < n ==> ch[i] < CURSOR_LIMIT
  {
    if n > 0 {
      ChainWalks(fat, clusters, ch, n - 1);
      ChainFollowed(fat, ch, n - 1);
      assert ch[n - 1] in ch;
    }
  }

  /** Every chain of every table of a volume can be walked exactly when the volume's clusters end at the limit. */
  lemma CursorReachesAll(clusters: nat)
    ensures (forall fat: seq<nat>, ch: seq<nat> ::
               IsChain(fat, ch) && ch != [] && (forall x :: x in ch ==> x < 2 + clusters)
               ==> Walks(fat, clusters, ch[0], |ch|))
       <==> 2 + clusters <= CURSOR_LIMIT
  {
    if 2 + clusters <= CURSOR_LIMIT {
      forall fat: seq<nat>, ch: seq<nat> | IsChain(fat, ch) && ch != [] && forall x :: x in ch ==> x < 2 + clusters
        ensures Walks(fat, clusters, ch[0], |ch|)
      {
        ChainWalks(fat, clusters, ch, |ch|);
        assert forall i :: 0 <= i < |ch| ==> ch[i] in ch;
      }
    } else {
      var fat: seq<nat> := seq(CURSOR_LIMIT + 1, _ => FAT_EOC);
      var ch: seq<nat> := [CURSOR_LIMIT];
      ChainWalks(fat, clusters, ch, 1);
      assert IsChain(fat, ch) && ch[0] >= CURSOR_LIMIT && !Walks(fat, clusters, ch[0], |ch|);
    }
  }

  /** An open file: where it starts, how long it is, and the place in its chain reached last. */
  class File {
    const volume: Volume
    const first: nat
    const size: nat
    var cursorCluster: nat
    var cursorIndex: nat

    /** The cursor stands where its index says. */
    ghost predicate Valid()
      reads this, volume, volume.fat
    {
      && volume.Valid() && Walks(volume.fat[..], volume.clusters, first, cursorIndex)
      && Follow(volume.fat[..], first, cursorIndex) == Some(cursorCluster)
    }

    constructor (v: Volume, first: nat, size: nat)
      requires v.Valid()
      ensures Valid() && volume == v && this.first == first && this.size == size
    {
      this.volume, this.first, this.size := v, first, size;
      cursorCluster, cursorIndex := first, 0;
    }

    /** Whether `want > 0` bytes from `offset` are there to be read. */
    ghost predicate CanRead(offset: nat, want: nat)
      requires want > 0 && volume.size > 0
      reads this, volume, volume.fat
    {
      var last := (offset + want - 1) / volume.size;
      last < volume.clusters && Walks(volume.fat[..], volume.clusters, first, last + 1)
    }

    /** Reads up to `left` bytes of a cluster: as many whole sectors as are wanted, or part of one. */
    method ReadPiece(cluster: nat, within: nat, left: nat) returns (piece: seq<int>)
      requires volume.Valid() && OnDisk(volume.data, volume.size, cluster) && within < volume.size && 0 < left
      ensures 0 < |piece| <= left && within + |piece| <= volume.size
      ensures piece == ClusterAt(volume.data, volume.size, cluster)[within..within + |piece|]
    {
      var lba := Sector(volume.sectorsPerCluster, cluster, within);
      var lo := within % SECTOR;
      var whole := Min((volume.size - within) / SECTOR, left / SECTOR);
      if lo == 0 && whole > 0 {
        var take := whole * SECTOR;
        SectorAt(volume.data, volume.size, volume.sectorsPerCluster, cluster, within, take);
        piece := volume.data[lba * SECTOR..lba * SECTOR + take];
      } else {
        var take := Min(SECTOR - lo, left);
        InSector(0, 0, within, volume.size, volume.sectorsPerCluster);
        SectorAt(volume.data, volume.size, volume.sectorsPerCluster, cluster, within, take);
        var read := volume.data[lba * SECTOR..lba * SECTOR + SECTOR];
        SliceIn(volume.data, lba * SECTOR, SECTOR, lo, take);
        piece := read[lo..lo + take];
      }
    }

    /** Follows the chain to its `target`th cluster, from the cursor if that is not behind it. */
    method Seek(target: nat) returns (r: Outcome<nat>)
      requires Valid()
      ensures r.Success? <==> Walks(volume.fat[..], volume.clusters, first, target)
      ensures r.Success? ==> Follow(volume.fat[..], first, target) == Some(r.value)
    {
      var cluster, index := cursorCluster, cursorIndex;
      if target < cursorIndex {
        cluster, index := first, 0;
      }
      ghost var table := volume.fat[..];
      while index < target
        invariant index <= target && Walks(table, volume.clusters, first, index)
        invariant Follow(table, first, index) == Some(cluster)
      {
        WalksLess(table, volume.clusters, first, index + 1, target);
        if !(2 <= cluster < CURSOR_LIMIT && cluster - 2 < volume.clusters && cluster < volume.fat.Length) {
          return Failure;
        }
        cluster := volume.fat[cluster];
        index := index + 1;
      }
      return Success(cluster);
    }

    /** Reads the next piece of the chain's `index`th cluster to where it belongs in `out`. */
    method CopyPiece(ghost index: nat, cluster: nat, within: nat, out: array<int>, ghost offset: nat, done: nat,
                     want: nat)
        returns (take: nat)
      requires volume.Valid() && out as object != volume.fat && within < volume.size && done < want <= out.Length
      requires Follow(volume.fat[..], first, index) == Some(cluster) && Sound(volume.fat[..], volume.clusters, cluster)
      requires Placed(index, within, offset + done, volume.size)
      requires Spells(out[..done], volume.fat[..], volume.data, volume.size, first, offset)
      modifies out
      ensures 0 < take && done + take <= want && within + take <= volume.size
      ensures Spells(out[..done + take], volume.fat[..], volume.data, volume.size, first, offset)
      ensures out[want..] == old(out[want..])
    {
      ghost var table, front := volume.fat[..], out[..done];
      PlacedAt(index, within, offset + done, volume.size);
      SoundOnDisk(table, volume.clusters, volume.data, volume.size, cluster);
      var piece := ReadPiece(cluster, within, want - done);
      PieceSpells(table, volume.data, volume.size, first, index, within, piece);
      SpellsMore(front, piece, table, volume.data, volume.size, first, offset);
      CopyInto(out, done, piece);
      take := |piece|;
      assert out[..done + take] == front + piece;
    }

    /** Reads `want` bytes from `offset` on, which is in the chain's `start`th cluster. */
    method ReadOn(offset: nat, startCluster: nat, start: nat, out: array<int>, want: nat) returns (r: Outcome<nat>)
      requires Valid() && out as object != volume.fat && 0 < want <= out.Length && start == offset / volume.size
      requires Walks(volume.fat[..], volume.clusters, first, start)
      requires Follow(volume.fat[..], first, start) == Some(startCluster)
      modifies this`cursorCluster, this`cursorIndex, out
      ensures Valid() && (r.Success? <==> CanRead(offset, want))
      ensures r.Success? ==> r.value == want && out[want..] == old(out[want..])
      ensures r.Success? ==> Spells(out[..want], volume.fat[..], volume.data, volume.size, first, offset)
    {
      var cluster: nat, index: nat := startCluster, start;
      var within: nat, done: nat := offset % volume.size, 0;
      ghost var k, w := PlacedFirst(offset, volume.size);
      while done < want
        invariant Valid() && done <= want && within <= volume.size && (done < want ==> within < volume.size)
        invariant Placed(index, within, offset + done, volume.size)
        invariant Walks(volume.fat[..], volume.clusters, first, index)
        invariant Follow(volume.fat[..], first, index) == Some(cluster)
        invariant done == want ==> 0 < within && index < volume.clusters
        invariant done == want ==> Sound(volume.fat[..], volume.clusters, cluster)
        invariant Spells(out[..done], volume.fat[..], volume.data, volume.size, first, offset)
        invariant out[want..] == old(out[want..])
      {
        PlacedAt(index, within, offset + done, volume.size);
        SoundBefore(volume.fat[..], volume.clusters, first, volume.size, index + 1, offset + done, offset + want - 1);
        if !(2 <= cluster < CURSOR_LIMIT && cluster - 2 < volume.clusters && cluster < volume.fat.Length)
          || index >= volume.clusters {
          return Failure;
        }
        cursorCluster, cursorIndex := cluster, index;
        var take := CopyPiece(index, cluster, within, out, offset, done, want);
        PlacedOn(index, within, offset + done, volume.size, take);
        done, within := done + take, within + take;
        if within == volume.size && done < want {
          cluster := volume.fat[cluster];
          index, within := index + 1, 0;
        }
      }
      PlacedAt(index, within, offset + done, volume.size);
      return Success(done);
    }

    /** Reads what the file has of `offset..offset + out.Length`; the rest of `out` is not touched. */
    method ReadAt(offset: nat, out: array<int>) returns (r: Outcome<nat>)
      requires Valid() && out as object != volume.fat
      modifies this`cursorCluster, this`cursorIndex, out
      ensures Valid()
      ensures var want := if offset < size then Min(out.Length, size - offset) else 0;
        && (r.Success? <==> want == 0 || CanRead(offset, want))
        && (r.Success? ==> r.value == want && out[want..] == old(out[want..]))
        && (r.Success? ==> Spells(out[..want], volume.fat[..], volume.data, volume.size, first, offset))
    {
      if offset >= size || out.Length == 0 {
        return Success(0);
      }
      var want := Min(out.Length, size - offset);
      var target := offset / volume.size;
      SoundBefore(volume.fat[..], volume.clusters, first, volume.size, target, offset, offset + want - 1);
      if target >= volume.clusters {
        return Failure;
      }
      var cluster :- Seek(target);
      r := ReadOn(offset, cluster, target, out, want);
    }
  }

  /** The sector a byte of a cluster is in. */
  function Sector(sectors: nat, cluster: nat, within: nat): nat
    requires 2 <= cluster
  {
    (cluster - 2) * sectors + within / SECTOR
  }

  /** Where part of a cluster lies, counted in sectors. */
  lemma SectorAt(data: seq<int>, size: nat, sectors: nat, cluster: nat, within: nat, take: nat)
    requires OnDisk(data, size, cluster) && within < size == sectors * SECTOR && within + take <= size
    ensures var lba := Sector(sectors, cluster, within);
      && lba * SECTOR + SECTOR <= |data| && lba * SECTOR + within % SECTOR + take <= |data|
      && data[lba * SECTOR + within % SECTOR..lba * SECTOR + within % SECTOR + take]
      == ClusterAt(data, size, cluster)[within..within + take]
  {
    var base, row, at := (cluster - 2) * size, (cluster - 2) * sectors, within / SECTOR;
    Thrice(cluster - 2, sectors, SECTOR);
    Along(row, at, SECTOR);
    InSector(base, row * SECTOR, within, size, sectors);
    SliceIn(data, base, size, within, take);
  }

  lemma InSector(base: nat, row: nat, within: nat, size: nat, sectors: nat)
    requires base == row && within < size == sectors * SECTOR
    ensures row + within / SECTOR * SECTOR + within % SECTOR == base + within
    ensures within / SECTOR * SECTOR + SECTOR <= size
  {
  }

  lemma SliceIn(s: seq<int>, at: nat, size: nat, lo: nat, take: nat)
    requires at + size <= |s| && lo + take <= size
    ensures s[at..at + size][lo..lo + take] == s[at + lo..at + lo + take]
  {
    var t, u := s[at..at + size][lo..lo + take], s[at + lo..at + lo + take];
    assert forall i :: 0 <= i < take ==> t[i] == u[i];
  }

  lemma Thrice(a: nat, b: nat, c: nat)
    ensures a * b * c == a * (b * c)
  {
  }

  /** Copies `bytes` into `out` from `at` on. */
  method CopyInto(out: array<int>, at: nat, bytes: seq<int>)
    requires at + |bytes| <= out.Length
    modifies out
    ensures out[..] == old(out[..at]) + bytes + old(out[at + |bytes|..])
  {
    forall i | 0 <= i < |bytes| {
      out[at + i] := bytes[i];
    }
  }
}
