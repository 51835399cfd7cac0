/** Cluster chains on a FAT16 volume: what following them means, and what a set of files needs of them. */
module FatChains {
  import opened Wrappers

  const FAT_FREE: nat := 0
  const FAT_EOC: nat := 0xFFFF
  const CHAIN_END: nat := 0xFFF8

  /** An entry with this value names a next cluster. */
  predicate GoesOn(c: nat) { 2 <= c < CHAIN_END }

  /** Where `n` links from `c` lead. */
  function Follow(fat: seq<nat>, c: nat, n: nat): Option<nat>
    decreases n
  {
    if n == 0 then Some(c)
    else
      var x := Follow(fat, c, n - 1);
      if x.Some? && x.value < |fat| then Some(fat[x.value]) else None
  }

  /** Where cluster `c` starts in the data area. */
  function Start(c: nat, size: nat): nat
    requires 2 <= c
  {
    (c - 2) * size
  }

  /** The data area holds all of cluster `c`. */
  predicate OnDisk(data: seq<int>, size: nat, c: nat) { 2 <= c && Start(c, size) + size <= |data| }

  function ClusterAt(data: seq<int>, size: nat, c: nat): (r: seq<int>)
    requires OnDisk(data, size, c)
    ensures |r| == size
  {
    data[Start(c, size)..Start(c, size) + size]
  }

  /** The `k`th cluster of a chain can be read: it is a cluster, the table covers it and the disk holds it. */
  predicate Reads(fat: seq<nat>, data: seq<int>, size: nat, c: nat, k: nat) {
    var x := Follow(fat, c, k);
    x.Some? && GoesOn(x.value) && x.value < |fat| && OnDisk(data, size, x.value)
  }

  predicate Readable(fat: seq<nat>, data: seq<int>, size: nat, c: nat, n: nat)
    decreases n
  {
    n == 0 || (Readable(fat, data, size, c, n - 1) && Reads(fat, data, size, c, n - 1))
  }

  /** The `k`th link of a chain leads to the cluster right behind. */
  predicate Extends(fat: seq<nat>, c: nat, k: nat) {
    k > 0 && Follow(fat, c, k).Some? && Follow(fat, c, k).value == Follow(fat, c, k - 1).value + 1
  }

  /** As `Reads`, but a value that marks the end still counts as a cluster when it is one more than the
      cluster it stands at: that is how a reader that extends runs takes it. */
  predicate RunReads(fat: seq<nat>, data: seq<int>, size: nat, c: nat, k: nat) {
    var x := Follow(fat, c, k);
    && x.Some? && (GoesOn(x.value) || Extends(fat, c, k)) && x.value < |fat| && OnDisk(data, size, x.value)
  }

  predicate RunReadable(fat: seq<nat>, data: seq<int>, size: nat, c: nat, n: nat)
    decreases n
  {
    n == 0 || (RunReadable(fat, data, size, c, n - 1) && RunReads(fat, data, size, c, n - 1))
  }

  /** What a chain's first `n` clusters hold, one after another. */
  function Contents(fat: seq<nat>, data: seq<int>, size: nat, c: nat, n: nat): (r: seq<int>)
    requires RunReadable(fat, data, size, c, n)
    ensures |r| == n * size
    decreases n
  {
    if n == 0 then []
    else Contents(fat, data, size, c, n - 1) + ClusterAt(data, size, Follow(fat, c, n - 1).value)
  }

  /** Whether the table links the last cluster number to the first end mark. */
  predicate MarkLinked(fat: seq<nat>) { CHAIN_END < |fat| && fat[CHAIN_END - 1] == CHAIN_END }

  lemma {:induction false} RunsArePlain(fat: seq<nat>, data: seq<int>, size: nat, c: nat, n: nat)
    requires !MarkLinked(fat)
    ensures RunReadable(fat, data, size, c, n) <==> Readable(fat, data, size, c, n)
  {
    if n > 0 {
      RunsArePlain(fat, data, size, c, n - 1);
    }
  }

  lemma {:induction false} PlainIsRuns(fat: seq<nat>, data: seq<int>, size: nat, c: nat, n: nat)
    requires Readable(fat, data, size, c, n)
    ensures RunReadable(fat, data, size, c, n)
  {
    if n > 0 {
      PlainIsRuns(fat, data, size, c, n - 1);
    }
  }

  /** Reading in runs is reading cluster by cluster for every chain on every disk, exactly when the table
      does not link the last cluster number to the mark that follows it. */
  lemma RunsArePlainExactly(fat: seq<nat>, size: nat)
    ensures !MarkLinked(fat)
       <==> forall data: seq<int>, c: nat, n: nat ::
              RunReadable(fat, data, size, c, n) <==> Readable(fat, data, size, c, n)
  {
    if !MarkLinked(fat) {
      forall data: seq<int>, c: nat, n: nat
        ensures RunReadable(fat, data, size, c, n) <==> Readable(fat, data, size, c, n)
      {
        RunsArePlain(fat, data, size, c, n);
      }
    } else {
      var data := MarkRead(fat, size);
    }
  }

  lemma MarkRead(fat: seq<nat>, size: nat) returns (data: seq<int>)
    requires MarkLinked(fat)
    ensures RunReadable(fat, data, size, CHAIN_END - 1, 2) && !Readable(fat, data, size, CHAIN_END - 1, 2)
  {
    var c: nat := CHAIN_END - 1;
    data := seq(CHAIN_END * size, _ => 0);
    assert Follow(fat, c, 0) == Some(c) && Follow(fat, c, 1) == Some(CHAIN_END);
    assert OnDisk(data, size, c) && OnDisk(data, size, CHAIN_END);
    assert RunReads(fat, data, size, c, 0) && RunReads(fat, data, size, c, 1);
    assert RunReadable(fat, data, size, c, 0) && RunReadable(fat, data, size, c, 1);
    assert !Reads(fat, data, size, c, 1);
  }

  /** The clusters `from`, `from + 1`, ... are links `k` to `k + n - 1` of a chain. */
  predicate Straight(fat: seq<nat>, c: nat, k: nat, from: nat, n: nat)
    decreases n
  {
    n == 0
    || (Straight(fat, c, k, from, n - 1) && Follow(fat, c, k + n - 1) == Some(from + n - 1) && from + n - 1 < |fat|)
  }

  /** A straight run can be read if the disk reaches to its end. */
  lemma {:induction false} RunCanBeRead(fat: seq<nat>, data: seq<int>, size: nat, c: nat, k: nat, from: nat, n: nat)
    requires RunReadable(fat, data, size, c, k) && Straight(fat, c, k, from, n) && GoesOn(from)
    requires n > 0 ==> OnDisk(data, size, from + n - 1)
    ensures RunReadable(fat, data, size, c, k + n)
    decreases n
  {
    if n > 0 {
      if n > 1 {
        Scaled(from + n - 4, from + n - 3, size);
      }
      RunCanBeRead(fat, data, size, c, k, from, n - 1);
    }
  }

  lemma LastOfRun(from: nat, n: nat, size: nat)
    requires 2 <= from && 0 < n
    ensures (from + n - 1 - 2) * size + size == (from - 2) * size + n * size
  {
    Along(from - 2, n, size);
    Spread(from - 2 + n, size);
  }

  lemma LastPiece(data: seq<int>, size: nat, from: nat, n: nat, at: nat, len: nat)
    requires 2 <= from && 0 < n && at == Start(from, size) && len == n * size && at + len <= |data|
    ensures OnDisk(data, size, from + n - 1) && size <= len && len - size == (n - 1) * size
    ensures ClusterAt(data, size, from + n - 1) == data[at + (len - size)..at + len]
  {
    LastOfRun(from, n, size);
    Spread(n, size);
  }

  /** A chain's contents up to a cluster. */
  lemma ContentsMore(fat: seq<nat>, data: seq<int>, size: nat, c: nat, n: nat, x: nat, last: seq<int>)
    requires RunReadable(fat, data, size, c, n + 1) && Follow(fat, c, n) == Some(x)
    requires OnDisk(data, size, x) && ClusterAt(data, size, x) == last
    ensures RunReadable(fat, data, size, c, n)
    ensures Contents(fat, data, size, c, n + 1) == Contents(fat, data, size, c, n) + last
  {
  }

  /** It then lies there in one piece. */
  lemma {:induction false} RunIsOnePiece(fat: seq<nat>, data: seq<int>, size: nat, c: nat, k: nat, from: nat, n: nat,
                                         at: nat, len: nat)
    requires RunReadable(fat, data, size, c, k + n) && RunReadable(fat, data, size, c, k)
    requires Straight(fat, c, k, from, n) && GoesOn(from)
    requires at == Start(from, size) && len == n * size && at + len <= |data|
    ensures Contents(fat, data, size, c, k + n) == Contents(fat, data, size, c, k) + data[at..at + len]
    decreases n
  {
    if n == 0 {
      assert data[at..at + len] == [];
    } else {
      var m: nat := n - 1;
      LastPiece(data, size, from, n, at, len);
      ContentsMore(fat, data, size, c, k + m, from + m, data[at + (len - size)..at + len]);
      RunIsOnePiece(fat, data, size, c, k, from, m, at, len - size);
      Grown(Contents(fat, data, size, c, k), data, at, at + (len - size), at + len);
    }
  }

  lemma Grown(a: seq<int>, data: seq<int>, lo: nat, mid: nat, hi: nat)
    requires lo <= mid <= hi <= |data|
    ensures a + data[lo..mid] + data[mid..hi] == a + data[lo..hi]
  {
  }

  /** What a reader of runs needs of one it has found. */
  lemma OnePiece(fat: seq<nat>, data: seq<int>, size: nat, c: nat, k: nat, from: nat, n: nat, at: nat, len: nat)
    requires RunReadable(fat, data, size, c, k) && 0 < n && Straight(fat, c, k, from, n) && GoesOn(from)
    requires at == (from - 2) * size && len == n * size && at + len <= |data|
    ensures RunReadable(fat, data, size, c, k + n)
    ensures Contents(fat, data, size, c, k + n) == Contents(fat, data, size, c, k) + data[at..at + len]
  {
    LastOfRun(from, n, size);
    RunCanBeRead(fat, data, size, c, k, from, n);
    RunIsOnePiece(fat, data, size, c, k, from, n, at, len);
  }

  /** A run that leaves the disk cannot be read. */
  lemma NotOnDisk(fat: seq<nat>, data: seq<int>, size: nat, c: nat, k: nat, n: nat, from: nat, run: nat)
    requires 0 < run && k + run <= n && Straight(fat, c, k, from, run) && GoesOn(from)
    requires (from - 2) * size + run * size > |data|
    ensures !RunReadable(fat, data, size, c, n)
  {
    LastOfRun(from, run, size);
    ReadableLess(fat, data, size, c, k + run, n);
  }

  /** Nor can a chain that stops short. */
  lemma Stuck(fat: seq<nat>, data: seq<int>, size: nat, c: nat, k: nat, n: nat, cluster: nat)
    requires k < n && Follow(fat, c, k) == Some(cluster) && !GoesOn(cluster)
    requires !Extends(fat, c, k)
    ensures !RunReadable(fat, data, size, c, n)
  {
    ReadableLess(fat, data, size, c, k + 1, n);
  }

  lemma Spread(n: nat, size: nat)
    requires n > 0
    ensures n * size == (n - 1) * size + size
  {
  }

  lemma Along(a: nat, b: nat, size: nat)
    ensures (a + b) * size == a * size + b * size
  {
  }

  lemma Scaled(a: nat, b: nat, size: nat)
    ensures a <= b ==> a * size <= b * size
    ensures size > 0 ==> (a * size <= b * size <==> a <= b)
    ensures size > 0 ==> (a * size < b * size <==> a < b)
  {
    if a <= b {
      Along(a, b - a, size);
    } else {
      Along(b, a - b, size);
    }
    if a < b {
      Spread(b - a, size);
    }
    if b < a {
      Spread(a - b, size);
    }
  }

  /** A shorter piece of what can be read can be read. */
  lemma {:induction false} ReadableLess(fat: seq<nat>, data: seq<int>, size: nat, c: nat, m: nat, n: nat)
    requires m <= n
    ensures RunReadable(fat, data, size, c, n) ==> RunReadable(fat, data, size, c, m)
    decreases n
  {
    if m < n {
      ReadableLess(fat, data, size, c, m, n - 1);
    }
  }

  /** Where a cluster's bytes stand among those of its chain. */
  lemma {:induction false} ContentsAt(fat: seq<nat>, data: seq<int>, size: nat, c: nat, n: nat, k: nat, at: nat)
    requires RunReadable(fat, data, size, c, n) && k < n && at == k * size
    ensures RunReads(fat, data, size, c, k)
    ensures at + size <= n * size
    ensures Contents(fat, data, size, c, n)[at..at + size] == ClusterAt(data, size, Follow(fat, c, k).value)
    decreases n
  {
    Spread(n, size);
    if k < n - 1 {
      ContentsAt(fat, data, size, c, n - 1, k, at);
      Within(Contents(fat, data, size, c, n - 1), ClusterAt(data, size, Follow(fat, c, n - 1).value), at, at + size);
    }
  }

  lemma Within(a: seq<int>, b: seq<int>, lo: nat, hi: nat)
    requires lo <= hi <= |a|
    ensures (a + b)[lo..hi] == a[lo..hi]
  {
  }

  /** How many units of `size` it takes to hold `n` bytes. */
  function Ceil(n: nat, size: nat): (r: nat)
    requires size > 0
    ensures n <= r * size && (r > 0 ==> (r - 1) * size < n)
  {
    assert n / size * size + n % size == n;
    if n % size == 0 then n / size else n / size + 1
  }

  /** A file's clusters in order: each links to the next, and the last one's entry is an end mark. */
  predicate IsChain(fat: seq<nat>, ch: seq<nat>) {
    && (forall i :: 0 <= i < |ch| ==> GoesOn(ch[i]) && ch[i] < |fat|)
    && (forall i :: 0 <= i < |ch| - 1 ==> fat[ch[i]] == ch[i + 1])
    && (|ch| > 0 ==> fat[ch[|ch| - 1]] >= CHAIN_END)
  }

  /** A chain that ends does not visit a cluster twice. */
  lemma {:induction false} EndsOnce(fat: seq<nat>, ch: seq<nat>, i: nat, j: nat)
    requires IsChain(fat, ch) && i < j < |ch|
    ensures ch[i] != ch[j]
    decreases |ch| - j
  {
    if j + 1 < |ch| {
      EndsOnce(fat, ch, i + 1, j + 1);
      assert fat[ch[j]] == ch[j + 1];
    }
    assert fat[ch[i]] == ch[i + 1];
  }

  /** Following the links from a chain's first cluster visits the chain. */
  lemma {:induction false} ChainFollowed(fat: seq<nat>, ch: seq<nat>, k: nat)
    requires IsChain(fat, ch) && k < |ch|
    ensures Follow(fat, ch[0], k) == Some(ch[k])
  {
    if k > 0 {
      ChainFollowed(fat, ch, k - 1);
    }
  }

  /** No cluster of a chain is free. */
  lemma ChainTaken(fat: seq<nat>, ch: seq<nat>)
    requires IsChain(fat, ch)
    ensures forall i :: 0 <= i < |ch| ==> fat[ch[i]] != FAT_FREE
  {
    forall i | 0 <= i < |ch|
      ensures fat[ch[i]] != FAT_FREE
    {
      assert i < |ch| - 1 ==> fat[ch[i]] == ch[i + 1] && GoesOn(ch[i + 1]);
    }
  }

  /** A chain is a chain in every table that has the same entries for it. */
  lemma ChainKept(was: seq<nat>, fat: seq<nat>, ch: seq<nat>)
    requires IsChain(was, ch) && |fat| == |was|
    requires forall i :: 0 <= i < |ch| ==> fat[ch[i]] == was[ch[i]]
    ensures IsChain(fat, ch)
  {
    forall i | 0 <= i < |ch| - 1
      ensures fat[ch[i]] == ch[i + 1]
    {
      assert was[ch[i]] == ch[i + 1];
    }
  }

  /** The table after a chain has grown by `c`. */
  function Grow(fat: seq<nat>, ch: seq<nat>, c: nat): seq<nat>
    requires IsChain(fat, ch) && c < |fat|
  {
    var marked := fat[c := FAT_EOC];
    if ch == [] then marked else marked[ch[|ch| - 1] := c]
  }

  lemma GrowIsChain(fat: seq<nat>, ch: seq<nat>, c: nat)
    requires IsChain(fat, ch) && c < |fat| && GoesOn(c) && fat[c] == FAT_FREE
    ensures c !in ch && IsChain(Grow(fat, ch, c), ch + [c])
    ensures Grow(fat, ch, c)[c] == FAT_EOC
    ensures forall x :: 0 <= x < |fat| && x !in ch + [c] ==> Grow(fat, ch, c)[x] == fat[x]
  {
    ChainTaken(fat, ch);
    var all, now := ch + [c], Grow(fat, ch, c);
    assert forall x :: x in ch ==> x in all;
    assert c in all;
    forall i | 0 <= i < |all| - 1
      ensures now[all[i]] == all[i + 1]
    {
      if i + 1 < |ch| {
        EndsOnce(fat, ch, i, |ch| - 1);
        assert fat[ch[i]] == ch[i + 1];
      }
    }
  }

  /** How many clusters below `hi` are free. */
  function Spare(fat: seq<nat>, hi: nat): (r: nat)
    requires hi <= |fat|
    ensures r <= hi
  {
    if hi <= 2 then 0 else Spare(fat, hi - 1) + if fat[hi - 1] == FAT_FREE then 1 else 0
  }

  lemma {:induction false} SpareAfter(fat: seq<nat>, hi: nat, c: nat, v: nat)
    requires 2 <= c < |fat| && hi <= |fat|
    ensures Spare(fat[c := v], hi) + (if c < hi && fat[c] == FAT_FREE then 1 else 0)
         == Spare(fat, hi) + if c < hi && v == FAT_FREE then 1 else 0
    decreases hi
  {
    if hi > 2 {
      SpareAfter(fat, hi - 1, c, v);
    }
  }

  lemma {:induction false} NoneSpare(fat: seq<nat>, hi: nat)
    requires hi <= |fat|
    ensures Spare(fat, hi) == 0 <==> forall c :: 2 <= c < hi ==> fat[c] != FAT_FREE
  {
    if hi > 2 {
      NoneSpare(fat, hi - 1);
    }
  }

  /** What a walk that frees as it goes visits: `trail` follows the links of `fat` from `c`. */
  predicate Trail(fat: seq<nat>, c: nat, trail: seq<nat>) {
    && (forall i :: 0 <= i < |trail| ==> GoesOn(trail[i]) && trail[i] < |fat|)
    && (forall i, j :: 0 <= i < j < |trail| ==> trail[i] != trail[j])
    && (forall i :: 0 <= i < |trail| - 1 ==> fat[trail[i]] == trail[i + 1])
    && (|trail| > 0 ==> trail[0] == c)
  }

  /** Where it would go next. */
  function Beyond(fat: seq<nat>, c: nat, trail: seq<nat>): nat
    requires Trail(fat, c, trail)
  {
    if trail == [] then c else fat[trail[|trail| - 1]]
  }

  /** `now` is `was` with exactly the clusters of `gone` freed. */
  predicate Freed(was: seq<nat>, now: seq<nat>, gone: seq<nat>) {
    |now| == |was| && forall x :: 0 <= x < |was| ==> now[x] == if x in gone then FAT_FREE else was[x]
  }

  /** One more step of such a walk. */
  lemma TrailStep(was: seq<nat>, now: seq<nat>, c: nat, trail: seq<nat>, cluster: nat)
    requires Trail(was, c, trail) && Freed(was, now, trail) && GoesOn(cluster) && cluster < |was|
    requires cluster == Beyond(was, c, trail) && cluster !in trail
    ensures now[cluster] == was[cluster]
    ensures Trail(was, c, trail + [cluster]) && Beyond(was, c, trail + [cluster]) == was[cluster]
    ensures Freed(was, now[cluster := FAT_FREE], trail + [cluster])
  {
    var all := trail + [cluster];
    assert forall x :: x in all <==> x in trail || x == cluster;
    assert forall i :: 0 <= i < |all| - 1 ==> was[all[i]] == all[i + 1];
  }

  /** Of a chain, such a walk visits every cluster and nothing else. */
  lemma TrailIsChain(fat: seq<nat>, ch: seq<nat>, trail: seq<nat>)
    requires IsChain(fat, ch) && ch != [] && Trail(fat, ch[0], trail)
    requires !GoesOn(Beyond(fat, ch[0], trail)) || Beyond(fat, ch[0], trail) in trail || Beyond(fat, ch[0], trail) >= |fat|
    ensures trail == ch && !GoesOn(Beyond(fat, ch[0], trail))
  {
    var n := if |trail| < |ch| then |trail| else |ch|;
    assert |trail| > |ch| ==> fat[trail[|ch| - 1]] == trail[|ch|];
    TrailAlong(fat, ch, trail, n);
    if 0 < |trail| < |ch| {
      assert fat[ch[|trail| - 1]] == ch[|trail|];
      forall i | 0 <= i < |trail|
        ensures trail[i] != ch[|trail|]
      {
        EndsOnce(fat, ch, i, |trail|);
      }
    }
  }

  lemma {:induction false} TrailAlong(fat: seq<nat>, ch: seq<nat>, trail: seq<nat>, n: nat)
    requires IsChain(fat, ch) && ch != [] && Trail(fat, ch[0], trail) && n <= |trail| && n <= |ch|
    ensures forall i :: 0 <= i < n ==> trail[i] == ch[i]
  {
    if n > 1 {
      TrailAlong(fat, ch, trail, n - 1);
      assert fat[trail[n - 2]] == trail[n - 1] && fat[ch[n - 2]] == ch[n - 1];
    }
  }

  /** `data` with `bytes` written at `at`. */
  function Splice(data: seq<int>, at: nat, bytes: seq<int>): (r: seq<int>)
    requires at + |bytes| <= |data|
    ensures |r| == |data| && r[at..at + |bytes|] == bytes
    ensures forall i :: 0 <= i < |data| && !(at <= i < at + |bytes|) ==> r[i] == data[i]
  {
    data[..at] + bytes + data[at + |bytes|..]
  }

  /** Every cluster but those of `ch` holds what it held. */
  ghost predicate SameBut(was: seq<int>, now: seq<int>, size: nat, ch: seq<nat>) {
    && |now| == |was|
    && forall c :: OnDisk(was, size, c) && c !in ch ==> OnDisk(now, size, c) && ClusterAt(now, size, c) == ClusterAt(was, size, c)
  }

  /** A chain holds `bytes`, each cluster its part of them. */
  predicate Holds(data: seq<int>, size: nat, ch: seq<nat>, bytes: seq<int>)
    decreases |ch|
  {
    if ch == [] then bytes == []
    else
      var n := |ch| - 1;
      && n * size < |bytes| <= n * size + size && OnDisk(data, size, ch[n])
      && Holds(data, size, ch[..n], bytes[..n * size])
      && ClusterAt(data, size, ch[n])[..|bytes| - n * size] == bytes[n * size..]
  }

  lemma {:induction false} HoldsStill(was: seq<int>, now: seq<int>, size: nat, ch: seq<nat>, bytes: seq<int>,
                                      other: seq<nat>)
    requires Holds(was, size, ch, bytes) && SameBut(was, now, size, other)
    requires forall i :: 0 <= i < |ch| ==> ch[i] !in other
    ensures Holds(now, size, ch, bytes)
    decreases |ch|
  {
    if ch != [] {
      var n := |ch| - 1;
      HoldsStill(was, now, size, ch[..n], bytes[..n * size], other);
    }
  }

  /** A chain with one more cluster, which holds the next part. */
  lemma HoldsMore(was: seq<int>, now: seq<int>, size: nat, ch: seq<nat>, bytes: seq<int>, at: nat, end: nat, c: nat)
    requires at == |ch| * size && at < end <= |bytes| && end <= at + size
    requires Holds(was, size, ch, bytes[..at]) && SameBut(was, now, size, [c]) && c !in ch
    requires OnDisk(now, size, c) && ClusterAt(now, size, c)[..end - at] == bytes[at..end]
    ensures Holds(now, size, ch + [c], bytes[..end])
  {
    HoldsStill(was, now, size, ch, bytes[..at], [c]);
    var all, some := ch + [c], bytes[..end];
    assert all[..|ch|] == ch && some[..at] == bytes[..at] && some[at..] == bytes[at..end];
  }

  /** What a chain holds is what reading it gives. */
  lemma {:induction false} HeldIsRead(fat: seq<nat>, data: seq<int>, size: nat, ch: seq<nat>, n: nat, bytes: seq<int>)
    requires IsChain(fat, ch) && ch != [] && n <= |ch| && Holds(data, size, ch[..n], bytes)
    ensures Readable(fat, data, size, ch[0], n) && RunReadable(fat, data, size, ch[0], n)
    ensures |bytes| <= n * size && Contents(fat, data, size, ch[0], n)[..|bytes|] == bytes
    decreases n
  {
    if n > 0 {
      var m := n - 1;
      assert ch[..n][..m] == ch[..m];
      ChainFollowed(fat, ch, m);
      HeldIsRead(fat, data, size, ch, m, bytes[..m * size]);
      Spread(n, size);
      PartsJoined(Contents(fat, data, size, ch[0], m), ClusterAt(data, size, ch[m]), bytes);
    }
  }

  lemma PartsJoined(a: seq<int>, b: seq<int>, s: seq<int>)
    requires |a| <= |s| <= |a| + |b| && a == s[..|a|] && b[..|s| - |a|] == s[|a|..]
    ensures (a + b)[..|s|] == s
  {
  }

  lemma Apart(c: nat, d: nat, size: nat)
    requires 2 <= c && 2 <= d && c != d
    ensures Start(c, size) + size <= Start(d, size) || Start(d, size) + size <= Start(c, size)
  {
    Spread(c - 1, size);
    Spread(d - 1, size);
    if c < d {
      Scaled(c - 1, d - 2, size);
    } else {
      Scaled(d - 1, c - 2, size);
    }
  }

  /** `data` with `bytes` written into a cluster from `lo` on. */
  function Rewrite(data: seq<int>, size: nat, c: nat, lo: nat, bytes: seq<int>): (r: seq<int>)
    requires OnDisk(data, size, c) && lo + |bytes| <= size
    ensures |r| == |data| && OnDisk(r, size, c)
  {
    Splice(data, Start(c, size) + lo, bytes)
  }

  /** It changes no other cluster. */
  lemma RewriteElsewhere(data: seq<int>, size: nat, c: nat, lo: nat, bytes: seq<int>)
    requires OnDisk(data, size, c) && lo + |bytes| <= size
    ensures SameBut(data, Rewrite(data, size, c, lo, bytes), size, [c])
  {
    forall d: nat | OnDisk(data, size, d) && d !in [c]
      ensures OnDisk(Rewrite(data, size, c, lo, bytes), size, d)
      ensures ClusterAt(Rewrite(data, size, c, lo, bytes), size, d) == ClusterAt(data, size, d)
    {
      RewriteApart(data, size, c, lo, bytes, d);
    }
  }

  lemma RewriteApart(data: seq<int>, size: nat, c: nat, lo: nat, bytes: seq<int>, d: nat)
    requires OnDisk(data, size, c) && OnDisk(data, size, d) && c != d && lo + |bytes| <= size
    ensures ClusterAt(Rewrite(data, size, c, lo, bytes), size, d) == ClusterAt(data, size, d)
  {
    Apart(c, d, size);
    Untouched(data, Start(c, size) + lo, bytes, Start(d, size), Start(d, size) + size);
  }

  lemma Untouched(data: seq<int>, at: nat, bytes: seq<int>, lo: nat, hi: nat)
    requires at + |bytes| <= |data| && lo <= hi <= |data| && (hi <= at || at + |bytes| <= lo)
    ensures Splice(data, at, bytes)[lo..hi] == data[lo..hi]
  {
  }

  lemma RewriteHere(data: seq<int>, size: nat, c: nat, lo: nat, bytes: seq<int>)
    requires OnDisk(data, size, c) && lo + |bytes| <= size
    ensures ClusterAt(Rewrite(data, size, c, lo, bytes), size, c) == Splice(ClusterAt(data, size, c), lo, bytes)
  {
    SpliceOfSlice(data, Start(c, size), size, lo, bytes);
  }

  lemma SpliceOfSlice(data: seq<int>, at: nat, size: nat, lo: nat, bytes: seq<int>)
    requires at + size <= |data| && lo + |bytes| <= size
    ensures Splice(data, at + lo, bytes)[at..at + size] == Splice(data[at..at + size], lo, bytes)
  {
    var a, b := Splice(data, at + lo, bytes)[at..at + size], Splice(data[at..at + size], lo, bytes);
    forall i | 0 <= i < size
      ensures a[i] == b[i]
    {
      if lo <= i < lo + |bytes| {
        assert a[i] == Splice(data, at + lo, bytes)[at + lo..at + lo + |bytes|][i - lo];
        assert b[i] == b[lo..lo + |bytes|][i - lo];
      }
    }
  }

  lemma SameButAgain(a: seq<int>, b: seq<int>, c: seq<int>, size: nat, ch: seq<nat>)
    requires SameBut(a, b, size, ch) && SameBut(b, c, size, ch)
    ensures SameBut(a, c, size, ch)
  {
  }

  lemma SameButTwice(a: seq<int>, b: seq<int>, c: seq<int>, size: nat, ch: seq<nat>, d: nat)
    requires SameBut(a, b, size, ch) && SameBut(b, c, size, [d])
    ensures SameBut(a, c, size, ch + [d])
  {
  }

  /** `now` is `was` with the free clusters of `ch` taken. */
  predicate TakenBy(was: seq<nat>, now: seq<nat>, ch: seq<nat>) {
    && |now| == |was|
    && (forall i :: 0 <= i < |ch| ==> ch[i] < |was| && was[ch[i]] == FAT_FREE)
    && (forall x :: 0 <= x < |was| && x !in ch ==> now[x] == was[x])
  }

  /** Giving back what was taken leaves the table as it was. */
  lemma GivenBack(was: seq<nat>, now: seq<nat>, after: seq<nat>, ch: seq<nat>)
    requires TakenBy(was, now, ch) && Freed(now, after, ch)
    ensures after == was
  {
  }

  lemma TakenGrows(was: seq<nat>, now: seq<nat>, ch: seq<nat>, c: nat)
    requires TakenBy(was, now, ch) && IsChain(now, ch) && c < |now| && now[c] == FAT_FREE && GoesOn(c)
    ensures TakenBy(was, Grow(now, ch, c), ch + [c])
  {
    GrowIsChain(now, ch, c);
    assert forall x :: x !in ch + [c] ==> x !in ch;
  }

  /** Every file has a chain of its own, inside the part of the table that clusters are taken from. */
  ghost predicate Owned(fat: seq<nat>, hi: nat, files: map<nat, seq<nat>>) {
    && (forall f :: f in files ==> IsChain(fat, files[f]))
    && (forall f, x :: f in files && x in files[f] ==> x < hi)
    && (forall f, g, x :: f in files && g in files && f != g && x in files[f] ==> x !in files[g])
  }

  /** The files keep their chains when free clusters are taken. */
  lemma OwnedWhileTaken(was: seq<nat>, now: seq<nat>, hi: nat, files: map<nat, seq<nat>>, ch: seq<nat>)
    requires Owned(was, hi, files) && TakenBy(was, now, ch)
    ensures Owned(now, hi, files)
    ensures forall f, x :: f in files && x in files[f] ==> x !in ch
  {
    forall f | f in files
      ensures IsChain(now, files[f]) && forall x :: x in files[f] ==> x !in ch
    {
      ChainTaken(was, files[f]);
      ChainKept(was, now, files[f]);
    }
  }

  /** And when another file's chain is freed. */
  lemma OwnedWhileFreed(was: seq<nat>, now: seq<nat>, hi: nat, files: map<nat, seq<nat>>, f: nat)
    requires Owned(was, hi, files) && f in files && Freed(was, now, files[f])
    ensures Owned(now, hi, files - {f})
  {
    forall g | g in files - {f}
      ensures IsChain(now, files[g])
    {
      ChainKept(was, now, files[g]);
    }
  }

  /** A chain of clusters nobody had joins the others. */
  lemma OwnedAlso(fat: seq<nat>, hi: nat, files: map<nat, seq<nat>>, f: nat, ch: seq<nat>)
    requires Owned(fat, hi, files) && IsChain(fat, ch) && f !in files && (forall x :: x in ch ==> x < hi)
    requires forall g, x :: g in files && x in files[g] ==> x !in ch
    ensures Owned(fat, hi, files[f := ch])
  {
  }

  /** A file's new chain takes the place of the one that was freed. */
  lemma Replaced(was: seq<nat>, now: seq<nat>, hi: nat, files: map<nat, seq<nat>>, f: nat, ch: seq<nat>)
    requires Owned(was, hi, files) && f in files && Freed(was, now, files[f]) && Owned(now, hi, files - {f})
    requires IsChain(was, ch) && (forall x :: x in ch ==> x < hi)
    requires forall g, x :: g in files && x in files[g] ==> x !in ch
    ensures IsChain(now, ch) && Owned(now, hi, files[f := ch])
  {
    forall i | 0 <= i < |ch|
      ensures now[ch[i]] == was[ch[i]]
    {
      assert ch[i] in ch;
    }
    ChainKept(was, now, ch);
    OwnedAlso(now, hi, files - {f}, f, ch);
    assert (files - {f})[f := ch] == files[f := ch];
  }

  /** What is freed with a chain is as many clusters as it had. */
  lemma SpareFreed(was: seq<nat>, now: seq<nat>, hi: nat, ch: seq<nat>)
    requires IsChain(was, ch) && Freed(was, now, ch) && hi <= |was| && forall x :: x in ch ==> x < hi
    ensures Spare(now, hi) == Spare(was, hi) + |ch|
  {
    var last := SpareFreedSome(was, hi, ch, |ch|);
    assert ch[..|ch|] == ch;
    assert last == now;
  }

  lemma {:induction false} SpareFreedSome(was: seq<nat>, hi: nat, ch: seq<nat>, n: nat) returns (now: seq<nat>)
    requires IsChain(was, ch) && hi <= |was| && n <= |ch| && forall x :: x in ch ==> x < hi
    ensures Freed(was, now, ch[..n]) && Spare(now, hi) == Spare(was, hi) + n
  {
    if n == 0 {
      now := was;
    } else {
      var before := SpareFreedSome(was, hi, ch, n - 1);
      var c := ch[n - 1];
      ChainTaken(was, ch);
      forall i | 0 <= i < n - 1
        ensures ch[i] != c
      {
        EndsOnce(was, ch, i, n - 1);
      }
      assert c in ch && before[c] == was[c];
      SpareAfter(before, hi, c, FAT_FREE);
      now := before[c := FAT_FREE];
      assert ch[..n] == ch[..n - 1] + [c];
    }
  }

  /** What is held can be read to its last byte. */
  lemma HeldCanBeRead(fat: seq<nat>, data: seq<int>, size: nat, ch: seq<nat>, bytes: seq<int>, first: nat)
    requires IsChain(fat, ch) && size > 0 && |ch| == Ceil(|bytes|, size) && Holds(data, size, ch, bytes)
    requires ch != [] ==> first == ch[0]
    ensures RunReadable(fat, data, size, first, Ceil(|bytes|, size))
    ensures |bytes| <= Ceil(|bytes|, size) * size
    ensures Contents(fat, data, size, first, Ceil(|bytes|, size))[..|bytes|] == bytes
  {
    if ch != [] {
      assert ch[..|ch|] == ch;
      HeldIsRead(fat, data, size, ch, |ch|, bytes);
    }
  }
}
