/** The installer's undo log, kept over a write-back cache of one block. */
module InstallUndo {
  import opened Wrappers

  const UNDO_MAX: nat := 256
  const WORD_END: nat := 0x1_0000_0000_0000_0000

  /** What was at `loc` before a write. */
  datatype Saved = Saved(loc: nat, data: seq<int>)

  // --- Patches ---

  /** `d` with `data` at `loc`. */
  function Patch(d: seq<int>, loc: nat, data: seq<int>): (r: seq<int>)
    ensures |r| == |d|
    ensures forall x {:trigger r[x]} :: 0 <= x < |d| ==> r[x] == if loc <= x < loc + |data| then data[x - loc] else d[x]
  {
    seq(|d|, x requires 0 <= x < |d| => if loc <= x < loc + |data| then data[x - loc] else d[x])
  }

  function Restore(d: seq<int>, s: Saved): seq<int> { Patch(d, s.loc, s.data) }

  /** The log undone, newest entry first. */
  function Undone(d: seq<int>, log: seq<Saved>): seq<int>
    decreases |log|
  {
    if log == [] then d else Undone(Restore(d, log[|log| - 1]), log[..|log| - 1])
  }

  /** Entries restored in the order they are in. */
  function Replayed(d: seq<int>, log: seq<Saved>): seq<int> {
    if log == [] then d else Restore(Replayed(d, log[..|log| - 1]), log[|log| - 1])
  }

  function Backwards(log: seq<Saved>): (r: seq<Saved>)
    ensures |r| == |log| && forall i {:trigger r[i]} :: 0 <= i < |log| ==> r[i] == log[|log| - 1 - i]
  {
    if log == [] then [] else [log[|log| - 1]] + Backwards(log[..|log| - 1])
  }

  predicate Logged(log: seq<Saved>, x: nat) {
    exists i {:trigger log[i]} :: 0 <= i < |log| && log[i].loc <= x < log[i].loc + |log[i].data|
  }

  /** The two differ only in what the log covers. */
  ghost predicate SameButLogged(d: seq<int>, d': seq<int>, log: seq<Saved>) {
    |d'| == |d| && forall x: nat {:trigger Logged(log, x)} :: x < |d| && !Logged(log, x) ==> d'[x] == d[x]
  }

  /** Undoing depends only on what the log does not cover. */
  lemma {:induction false} UndoneSame(d: seq<int>, d': seq<int>, log: seq<Saved>)
    requires SameButLogged(d, d', log)
    ensures Undone(d, log) == Undone(d', log)
    decreases |log|
  {
    if log == [] {
      forall x: nat | x < |d| ensures d'[x] == d[x] {
        assert !Logged(log, x);
      }
      assert d == d';
    } else {
      var n := |log| - 1;
      var s, front := log[n], log[..n];
      forall x: nat | x < |d| && !Logged(front, x) ensures Restore(d, s)[x] == Restore(d', s)[x] {
        LoggedLast(log, x);
      }
      UndoneSame(Restore(d, s), Restore(d', s), front);
    }
  }

  lemma LoggedLast(log: seq<Saved>, x: nat)
    requires log != []
    ensures var n := |log| - 1; Logged(log, x) <==> Logged(log[..n], x) || log[n].loc <= x < log[n].loc + |log[n].data|
  {
    var n := |log| - 1;
    if Logged(log, x) {
      var i :| 0 <= i < |log| && log[i].loc <= x < log[i].loc + |log[i].data|;
      assert i < n ==> log[..n][i] == log[i];
    }
    if Logged(log[..n], x) {
      var i :| 0 <= i < n && log[..n][i].loc <= x < log[..n][i].loc + |log[..n][i].data|;
      assert log[i] == log[..n][i];
    }
  }

  lemma {:induction false} ReplayedConcat(d: seq<int>, a: seq<Saved>, b: seq<Saved>)
    ensures Replayed(d, a + b) == Replayed(Replayed(d, a), b)
  {
    if b == [] {
      assert a + b == a;
    } else {
      var n := |b| - 1;
      assert (a + b)[..|a + b| - 1] == a + b[..n];
      ReplayedConcat(d, a, b[..n]);
    }
  }

  /** Restoring the entries of the reversed log in order undoes it. */
  lemma {:induction false} ReplayUndoes(d: seq<int>, log: seq<Saved>)
    ensures Replayed(d, Backwards(log)) == Undone(d, log)
    decreases |log|
  {
    if log != [] {
      var n := |log| - 1;
      ReplayUndoes(Restore(d, log[n]), log[..n]);
      ReplayedConcat(d, [log[n]], Backwards(log[..n]));
      assert [log[n]][..0] == [];
      assert Replayed(d, [log[n]]) == Restore(d, log[n]);
    }
  }

  /** `was` is what `d` holds from `loc` on. */
  ghost predicate Held(d: seq<int>, loc: nat, was: seq<int>) {
    forall i {:trigger was[i]} :: 0 <= i < |was| ==> loc + i < |d| && was[i] == d[loc + i]
  }

  /** A write that is logged can be undone, and what came before it too. */
  lemma LoggedWrite(d: seq<int>, log: seq<Saved>, loc: nat, data: seq<int>, was: seq<int>)
    requires |was| == |data| && Held(d, loc, was)
    ensures Undone(Patch(d, loc, data), log + [Saved(loc, was)]) == Undone(d, log)
  {
    var s := Saved(loc, was);
    assert (log + [s])[..|log|] == log;
    assert Restore(Patch(d, loc, data), s) == d;
  }

  lemma LoggedAround(d: seq<int>, v: seq<int>, r: seq<int>, log: seq<Saved>, loc: nat, data: seq<int>, was: seq<int>)
    requires SameButLogged(v, d, log) && Around(d, v, r, loc, |data|) && |was| == |data|
    ensures SameButLogged(Patch(v, loc, data), r, log + [Saved(loc, was)])
  {
    var log' := log + [Saved(loc, was)];
    assert log'[..|log|] == log;
    forall x: nat | x < |v| && !Logged(log', x) ensures r[x] == Patch(v, loc, data)[x] {
      LoggedLast(log', x);
    }
  }

  lemma PatchMore(d: seq<int>, loc: nat, data: seq<int>, n: nat, m: nat)
    requires n + m <= |data|
    ensures Patch(Patch(d, loc, data[..n]), loc + n, data[n..n + m]) == Patch(d, loc, data[..n + m])
  {
  }

  /** Patching part of a patch. */
  lemma PatchWithin(d: seq<int>, lo: nat, cache: seq<int>, off: nat, chunk: seq<int>)
    requires off + |chunk| <= |cache|
    ensures Patch(d, lo, Patch(cache, off, chunk)) == Patch(Patch(d, lo, cache), lo + off, chunk)
  {
  }

  lemma PatchSame(d: seq<int>, loc: nat, data: seq<int>)
    requires forall x {:trigger d[x]} :: loc <= x < loc + |data| && x < |d| ==> d[x] == data[x - loc]
    ensures Patch(d, loc, data) == d
  {
  }

  /** Patched over, it does not matter what part of a patch was there before. */
  lemma PatchOver(d: seq<int>, loc: nat, data: seq<int>, n: nat)
    requires n <= |data|
    ensures Patch(Patch(d, loc, data[..n]), loc, data) == Patch(d, loc, data)
  {
  }

  /** A device of `total` bytes has the whole block byte `x` is in. */
  predicate HasBlock(total: nat, size: nat, x: nat)
    requires size > 0
  {
    x / size * size + size <= total
  }

  /** Every byte is as in one or as in the other. */
  ghost predicate Between(d: seq<int>, d': seq<int>, r: seq<int>) {
    |r| == |d| == |d'| && forall x {:trigger r[x]} :: 0 <= x < |r| ==> r[x] == d[x] || r[x] == d'[x]
  }

  /** Outside a range, every byte is as in one or as in the other. */
  ghost predicate Around(d: seq<int>, d': seq<int>, r: seq<int>, loc: nat, count: nat) {
    |r| == |d| == |d'| && forall x {:trigger r[x]} :: 0 <= x < |r| && !(loc <= x < loc + count) ==> r[x] == d[x] || r[x] == d'[x]
  }

  lemma AroundMore(d: seq<int>, v: seq<int>, d': seq<int>, v': seq<int>, r: seq<int>, loc: nat, data: seq<int>, n: nat)
    requires n <= |data| && Around(d, v, d', loc, |data|) && v' == Patch(v, loc, data[..n]) && Between(d', v', r)
    ensures Around(d, v, r, loc, |data|)
  {
  }

  lemma PatchTwice(d: seq<int>, loc: nat, data: seq<int>, data': seq<int>)
    requires |data'| == |data|
    ensures Patch(Patch(d, loc, data), loc, data') == Patch(d, loc, data')
  {
  }

  lemma PatchNone(d: seq<int>, loc: nat, data: seq<int>)
    ensures Patch(d, loc, data[..0]) == d
  {
  }

  lemma BlockOf(x: nat, size: nat)
    requires size > 0
    ensures x / size * size <= x < x / size * size + size && x == x / size * size + x % size
  {
  }

  // --- The installer ---

  class Installer {
    const blockSize: nat
    /** What is on the device. */
    var device: seq<int>
    var cache: seq<int>
    /** The block in the cache; none after a reset. */
    var cached: Option<nat>
    var dirty: bool
    var log: seq<Saved>
    /** What the device held to begin with. */
    ghost var orig: seq<int>
    var uninstalling: bool
    /** Whether the device may report errors just now. */
    var flaky: bool

    /** What reads return: the device, with the cached block over it if that has been changed. */
    ghost function View(): seq<int>
      reads this
    {
      if dirty && cached.Some? then Patch(device, cached.value * blockSize, cache) else device
    }

    ghost predicate Loose()
      reads this
    {
      && blockSize > 0 && |cache| == blockSize && (dirty ==> cached.Some?)
      && (cached.Some? ==> cached.value * blockSize + blockSize <= |device|)
    }

    /** The cache holds what it is said to. (A read that fails can leave rubbish in it.) */
    ghost predicate Valid()
      reads this
    {
      && Loose()
      && (cached.Some? ==>
            forall x {:trigger View()[x]} :: cached.value * blockSize <= x < cached.value * blockSize + blockSize ==>
              View()[x] == cache[x - cached.value * blockSize])
    }

    constructor (d: seq<int>, size: nat)
      requires 0 < size <= |d|
      ensures Valid() && device == View() == orig == d && blockSize == size && log == [] && !uninstalling
    {
      blockSize := size;
      device, orig := d, d;
      cache, cached, dirty := d[..size], Some(0), false;
      log, uninstalling := [], false;
      flaky := *;
      new;
      assert cached.value * blockSize == 0 && View() == d;
      assert forall x :: 0 <= x < blockSize ==> d[x] == cache[x];
    }

    /** Writes the cached block back, if it has been changed. A write that fails may have been done in
        part. */
    method Flush() returns (ok: bool)
      requires Loose()
      modifies this`device, this`dirty
      ensures Loose() && View() == old(View()) && Between(old(device), old(View()), device)
      ensures ok ==> !dirty && device == old(View())
      ensures !ok ==> flaky && dirty
      ensures old(Valid()) ==> Valid()
    {
      if !dirty {
        return true;
      }
      var trouble: bool := *;
      var lo := cached.value * blockSize;
      if flaky && trouble {
        var part: nat :| part <= blockSize;
        device := Patch(device, lo, cache[..part]);
        PatchOver(old(device), lo, cache, part);
        return false;
      }
      device := Patch(device, lo, cache);
      dirty := false;
      return true;
    }

    /** Gets a block into the cache. */
    method CacheBlock(block: nat) returns (ok: bool)
      requires Loose()
      modifies this`device, this`dirty, this`cache, this`cached
      ensures Loose() && View() == old(View()) && Between(old(device), old(View()), device)
      ensures ok ==> cached == Some(block) && (old(Valid()) ==> Valid())
      ensures !ok ==> flaky || block * blockSize + blockSize > |device|
    {
      if cached == Some(block) {
        return true;
      }
      if dirty {
        var flushed := Flush();
        if !flushed {
          return false;
        }
      }
      var lo := block * blockSize;
      var trouble: bool := *;
      if lo + blockSize > |device| || (flaky && trouble) {
        var rubbish: seq<int> :| |rubbish| == blockSize;
        cache := rubbish;
        return false;
      }
      cache := device[lo..lo + blockSize];
      cached := Some(block);
      return true;
    }

    /** The part of a range, from `at` on, that lies in one block: the block, the offset in it, and how
        much. */
    function ChunkOf(at: nat, left: nat): (c: (nat, nat, nat))
      requires blockSize > 0 && left > 0
      reads {}
      ensures c.0 * blockSize + c.1 == at && 0 < c.2 <= left && c.1 + c.2 <= blockSize
    {
      BlockOf(at, blockSize);
      var offset := at % blockSize;
      (at / blockSize, offset, if left > blockSize - offset then blockSize - offset else left)
    }

    /** What a read has given so far, of a device seen as `v` that was `d`. */
    ghost predicate ReadSoFar(v: seq<int>, d: seq<int>, good: bool, loc: nat, buffer: seq<int>)
      reads this
    {
      forall n: nat {:trigger Open(DeviceSeal, n)} :: Open(DeviceSeal, n) ==>
        && Loose() && View() == v && Between(d, v, device) && Fits(loc, |buffer|)
        && (|buffer| > 0 ==> loc + |buffer| <= |device|) && (good ==> Valid() && Held(v, loc, buffer))
    }

    /** Reads on, up to the end of a block. */
    method ReadMore(loc: nat, buffer: seq<int>, left: nat, ghost v: seq<int>, ghost d: seq<int>, ghost good: bool)
        returns (ok: bool, part: seq<int>)
      requires ReadSoFar(v, d, good, loc, buffer) && left > 0
      modifies this`device, this`dirty, this`cache, this`cached
      ensures ok ==> 0 < |part| <= left && ReadSoFar(v, d, good, loc, buffer + part)
      ensures !ok ==> Loose() && View() == v && Between(d, v, device)
      ensures !ok && !flaky ==> !Fits(loc + |buffer|, 1)
    {
      assert Open(DeviceSeal, 0);
      ok, part := ReadChunk(loc + |buffer|, left);
      if ok {
        FitsMore(loc, |buffer|, |part|);
      }
    }

    /** All the blocks of a range are on the device. */
    ghost predicate Fits(loc: nat, count: nat)
      requires blockSize > 0
      reads this`device
    {
      forall x: nat {:trigger HasBlock(|device|, blockSize, x)} :: loc <= x < loc + count ==> HasBlock(|device|, blockSize, x)
    }

    method DeviceRead(loc: nat, count: nat) returns (ok: bool, buffer: seq<int>)
      requires Loose()
      modifies this`device, this`dirty, this`cache, this`cached
      ensures Loose() && View() == old(View()) && Between(old(device), old(View()), device)
      ensures !ok && !flaky ==> !Fits(loc, count)
      ensures ok ==> Fits(loc, count) && |buffer| == count && (count > 0 ==> loc + count <= |View()|)
      ensures ok && old(Valid()) ==> Valid() && Held(View(), loc, buffer)
    {
      buffer := [];
      ghost var v, d, good := View(), device, Valid();
      assert ReadSoFar(v, d, good, loc, buffer);
      while |buffer| < count
        invariant |buffer| <= count && ReadSoFar(v, d, good, loc, buffer)
        decreases count - |buffer|
      {
        var got, part := ReadMore(loc, buffer, count - |buffer|, v, d, good);
        if !got {
          FitsPart(loc, count, loc + |buffer|);
          return false, buffer;
        }
        buffer := buffer + part;
      }
      assert Open(DeviceSeal, 0);
      return true, buffer;
    }

    /** As much of the next bytes as lies in one block. */
    method ReadChunk(at: nat, left: nat) returns (ok: bool, part: seq<int>)
      requires Loose() && left > 0
      modifies this`device, this`dirty, this`cache, this`cached
      ensures Loose() && View() == old(View()) && Between(old(device), old(View()), device)
      ensures !ok && !flaky ==> !Fits(at, 1)
      ensures ok ==> 0 < |part| <= left && at + |part| <= |device| && Fits(at, |part|)
      ensures ok && old(Valid()) ==> Valid() && Held(View(), at, part)
    {
      var (block, offset, chunk) := ChunkOf(at, left);
      ChunkBlock(at, block, offset, chunk);
      assert Fits(at, 1) ==> HasBlock(|device|, blockSize, at);
      ok := CacheBlock(block);
      part := if ok then cache[offset..offset + chunk] else [];
    }

    /** Puts bytes into the cached blocks of a range. */
    method PutBytes(buffer: seq<int>, loc: nat) returns (ok: bool)
      requires Loose()
      modifies this`device, this`dirty, this`cache, this`cached
      ensures Loose() && |device| == |old(device)|
      ensures !ok && !flaky ==> !Fits(loc, |buffer|)
      ensures ok && old(Valid()) ==> Valid() && View() == Patch(old(View()), loc, buffer)
      ensures old(Valid()) ==> Around(old(device), old(View()), device, loc, |buffer|)
      ensures old(Valid()) ==> exists n :: 0 <= n <= |buffer| && View() == Patch(old(View()), loc, buffer[..n])
    {
      var progress := 0;
      PatchNone(View(), loc, buffer);
      while progress < |buffer|
        invariant 0 <= progress <= |buffer| && Loose() && |device| == |old(device)|
        invariant old(Valid()) ==> Valid() && View() == Patch(old(View()), loc, buffer[..progress])
        invariant old(Valid()) ==> Around(old(device), old(View()), device, loc, |buffer|)
      {
        ghost var d, v := device, View();
        var put, n := PutChunk(buffer, loc, progress);
        if old(Valid()) {
          AroundMore(old(device), old(View()), d, v, device, loc, buffer, progress);
        }
        if !put {
          FitsPart(loc, |buffer|, loc + progress);
          return false;
        }
        PatchMore(old(View()), loc, buffer, progress, n);
        progress := progress + n;
      }
      assert buffer[..progress] == buffer;
      return true;
    }

    method PutChunk(buffer: seq<int>, loc: nat, progress: nat) returns (ok: bool, n: nat)
      requires Loose() && progress < |buffer|
      modifies this`device, this`dirty, this`cache, this`cached
      ensures Loose() && Between(old(device), old(View()), device)
      ensures !ok ==> View() == old(View()) && (flaky || !Fits(loc + progress, 1))
      ensures ok ==> 0 < n <= |buffer| - progress
      ensures ok && old(Valid()) ==> Valid()
      ensures ok && old(Valid()) ==> View() == Patch(old(View()), loc + progress, buffer[progress..progress + n])
    {
      var (block, offset, chunk) := ChunkOf(loc + progress, |buffer| - progress);
      ChunkBlock(loc + progress, block, offset, chunk);
      assert Fits(loc + progress, 1) ==> HasBlock(|device|, blockSize, loc + progress);
      n := chunk;
      ok := CacheBlock(block);
      if ok {
        var part := buffer[progress..progress + chunk];
        ChangeCache(block, offset, part);
      }
    }

    method ChangeCache(block: nat, offset: nat, part: seq<int>)
      requires Loose() && cached == Some(block) && offset + |part| <= blockSize
      modifies this`dirty, this`cache
      ensures Loose() && cached == Some(block)
      ensures old(Valid()) ==> Valid() && View() == Patch(old(View()), block * blockSize + offset, part)
    {
      if Valid() {
        PatchSame(View(), block * blockSize, cache);
        PatchWithin(View(), block * blockSize, cache, offset, part);
        PatchTwice(device, block * blockSize, cache, Patch(cache, offset, part));
      }
      cache := Patch(cache, offset, part);
      dirty := true;
    }

    lemma FitsPart(loc: nat, count: nat, at: nat)
      requires blockSize > 0 && loc <= at < loc + count
      ensures Fits(loc, count) ==> Fits(at, 1)
    {
    }

    lemma FitsMore(loc: nat, n: nat, m: nat)
      requires blockSize > 0 && Fits(loc, n) && Fits(loc + n, m)
      ensures Fits(loc, n + m)
    {
    }

    lemma ChunkBlock(at: nat, block: nat, offset: nat, chunk: nat)
      requires blockSize > 0 && block * blockSize + offset == at && offset + chunk <= blockSize
      ensures forall x: nat {:trigger HasBlock(|device|, blockSize, x)} :: at <= x < at + chunk ==>
                (HasBlock(|device|, blockSize, x) <==> block * blockSize + blockSize <= |device|)
    {
      forall x: nat | at <= x < at + chunk ensures HasBlock(|device|, blockSize, x) <==> block * blockSize + blockSize <= |device| {
        InBlock(x, block, x - block * blockSize, blockSize);
      }
    }

    // --- The log ---

    ghost predicate AllFit(log: seq<Saved>)
      requires blockSize > 0
      reads this`device
    {
      forall i {:trigger log[i]} :: 0 <= i < |log| ==> Fits(log[i].loc, |log[i].data|)
    }

    /** Undoing the log brings back what there was, whether or not the cached block is ever written. */
    ghost predicate Undoable()
      reads this
    {
      && Loose() && |orig| == |device| && AllFit(log)
      && Undone(View(), log) == orig && SameButLogged(View(), device, log)
    }

    /** Writes bytes, logging what they replace unless it is the log that is being undone. */
    method DeviceWrite(buffer: seq<int>, loc: nat) returns (ok: bool)
      requires Loose()
      modifies this`device, this`dirty, this`cache, this`cached, this`log
      ensures Loose() && |device| == |old(device)|
      ensures uninstalling ==> log == old(log) && (!ok && !flaky ==> !Fits(loc, |buffer|))
      ensures uninstalling && old(Valid()) ==> exists n :: 0 <= n <= |buffer| && View() == Patch(old(View()), loc, buffer[..n])
      ensures ok && old(Valid()) ==> Valid() && View() == Patch(old(View()), loc, buffer)
      ensures ok && !uninstalling ==> |old(log)| < UNDO_MAX
      ensures ok && !uninstalling && old(Valid()) && old(Undoable()) ==>
        Undoable() && |log| == |old(log)| + 1 && old(log) <= log && log[|old(log)|].loc == loc && |log[|old(log)|].data| == |buffer|
      ensures !ok && !uninstalling && !flaky && old(Valid()) && old(Undoable()) ==>
        Undoable() && View() == old(View()) && log == old(log) && (|log| >= UNDO_MAX || !Fits(loc, |buffer|))
    {
      if uninstalling {
        ok := PutBytes(buffer, loc);
        return;
      }
      if |log| >= UNDO_MAX {
        return false;
      }
      var read, was := DeviceRead(loc, |buffer|);
      if old(Undoable()) {
        SameBetween(old(View()), old(device), device, log);
      }
      if !read {
        return false;
      }
      ok := SavedWrite(buffer, loc, was, old(Valid()));
    }

    /** The write itself, once what it replaces is known. */
    method SavedWrite(buffer: seq<int>, loc: nat, was: seq<int>, ghost good: bool) returns (ok: bool)
      requires Loose() && |was| == |buffer| && Fits(loc, |buffer|)
      requires good ==> Valid() && Held(View(), loc, was)
      modifies this`device, this`dirty, this`cache, this`cached, this`log
      ensures Loose() && |device| == |old(device)| && (!ok ==> flaky)
      ensures ok && good ==> Valid() && View() == Patch(old(View()), loc, buffer)
      ensures ok ==> log == old(log) + [Saved(loc, was)]
      ensures ok && good && old(Undoable()) ==> Undoable()
    {
      ghost var v, d, fine := View(), device, good && Undoable();
      if good {
        LoggedWrite(v, log, loc, buffer, was);
      }
      assert fine ==> SameButLogged(v, d, log);
      ok := PutBytes(buffer, loc);
      if ok {
        if fine {
          LoggedAround(d, v, device, log, loc, buffer, was);
        }
        log := log + [Saved(loc, was)];
      }
    }

    lemma SameBetween(v: seq<int>, d: seq<int>, r: seq<int>, log: seq<Saved>)
      requires SameButLogged(v, d, log) && Between(d, v, r)
      ensures SameButLogged(v, r, log)
    {
    }

    /** Turns the log round, newest entry first. */
    method ReverseLog()
      modifies this`log
      ensures log == Backwards(old(log))
    {
      var reversed, i := log, 0;
      while i < |log|
        invariant 0 <= i <= |log| == |reversed|
        invariant forall j {:trigger reversed[j]} :: |log| - i <= j < |log| ==> reversed[j] == log[|log| - 1 - j]
      {
        reversed := reversed[|log| - 1 - i := log[i]];
        i := i + 1;
      }
      log := reversed;
    }

    /** Drops whatever is in the cache. */
    method ResetCache()
      requires Loose()
      modifies this`dirty, this`cached
      ensures Valid() && View() == device && !dirty
    {
      dirty := false;
      cached := None;
    }

    /** Puts back what one entry saved, trying a second time if need be. */
    method PutBack(s: Saved) returns (writeFailed: bool, flushFailed: bool)
      requires Loose() && uninstalling
      modifies this`device, this`dirty, this`cache, this`cached, this`log
      ensures Loose() && |device| == |old(device)| && log == old(log)
      ensures old(Valid()) && !writeFailed && !flushFailed ==> Valid() && View() == Restore(old(View()), s)
      ensures !flaky && Fits(s.loc, |s.data|) ==> !writeFailed && !flushFailed
    {
      writeFailed, flushFailed := false, false;
      var retry := false;
      var wrote := DeviceWrite(s.data, s.loc);
      while !wrote
        invariant Loose() && |device| == |old(device)| && log == old(log) && !writeFailed
        invariant wrote && old(Valid()) && !flushFailed ==> Valid() && View() == Restore(old(View()), s)
        invariant !wrote && !retry && old(Valid()) ==> exists n :: 0 <= n <= |s.data| && View() == Patch(old(View()), s.loc, s.data[..n])
        invariant !flaky && Fits(s.loc, |s.data|) ==> wrote && !flushFailed
        decreases !retry, !wrote
      {
        if retry {
          writeFailed := true;
          break;
        }
        ghost var n :| old(Valid()) ==> 0 <= n <= |s.data| && View() == Patch(old(View()), s.loc, s.data[..n]);
        var flushed := Flush();
        if !flushed {
          flushFailed := true;
        }
        ResetCache();
        retry := true;
        wrote := DeviceWrite(s.data, s.loc);
        if old(Valid()) && !flushFailed {
          PatchOver(old(View()), s.loc, s.data, n);
        }
      }
    }

    /** Undoes the (reversed) log from the device as it is, dropping the cached block first. Says whether
        that has worked; if the device reports no error, it has. */
    method Uninstall() returns (ok: bool)
      requires Loose()
      modifies this`device, this`dirty, this`cache, this`cached, this`log, this`uninstalling
      ensures Loose() && |device| == |old(device)| && log == old(log)
      ensures ok ==> device == Replayed(old(device), log)
      ensures !flaky && AllFit(log) ==> ok
    {
      var writeFailed, flushFailed := false, false;
      uninstalling := true;
      ResetCache();
      var i := 0;
      assert log[..0] == [];
      while i < |log|
        invariant 0 <= i <= |log| && Loose() && |device| == |old(device)| && log == old(log) && uninstalling
        invariant !writeFailed && !flushFailed ==> Valid() && View() == Replayed(old(device), log[..i])
        invariant !flaky && AllFit(log) ==> !writeFailed && !flushFailed
      {
        var w, f := PutBack(log[i]);
        writeFailed, flushFailed := writeFailed || w, flushFailed || f;
        assert log[..i + 1][..i] == log[..i];
        i := i + 1;
      }
      assert log[..i] == log;
      var flushed := Flush();
      return !writeFailed && !flushFailed && flushed;
    }

    /** Undoes an earlier installation from the file its log was stored in. */
    method UninstallFrom(file: seq<int>, ghost stored: seq<Saved>) returns (ok: bool)
      requires Loose() && forall i :: 0 <= i < |file| ==> 0 <= file[i]
      modifies this`device, this`dirty, this`cache, this`cached, this`log, this`uninstalling
      ensures Loose() && |device| == |old(device)|
      ensures var good := file == LogBytes(stored) && |stored| < WORD_END && forall i :: 0 <= i < |stored| ==> Storable(stored[i]);
              && (good && ok ==> device == Replayed(old(device), stored))
              && (good && !flaky && AllFit(stored) ==> ok)
    {
      ok, log := LoadLog(file, stored);
      if ok {
        ok := Uninstall();
      }
    }

    /** Makes any writes at all, in order, and undoes them if one cannot be made: all of them are on the
        device at the end, or none. What is logged then undoes them. */
    method Install(writes: seq<Saved>) returns (ok: bool)
      requires Valid() && log == [] && device == orig == View() && !uninstalling
      modifies this`device, this`dirty, this`cache, this`cached, this`log, this`uninstalling
      ensures Loose() && |device| == |orig|
      ensures ok ==> device == Replayed(orig, writes) && Replayed(device, log) == orig && AllFit(log)
      ensures !ok && !flaky ==> device == orig
      ensures !flaky ==> (ok <==> |writes| <= UNDO_MAX && AllFit(writes))
    {
      assert SameButLogged(View(), device, log);
      ok := WriteAll(writes);
      if ok {
        ok := Flush();
      }
      if Undoable() {
        UndoneSame(View(), device, log);
        ReplayUndoes(device, log);
      }
      ghost var fits := AllFit(log);
      ReverseLog();
      assert fits ==> AllFit(log);
      if !ok {
        var undone := Uninstall();
      }
    }

    /** Makes writes until one cannot be made. */
    method WriteAll(writes: seq<Saved>) returns (ok: bool)
      requires Valid() && Undoable() && log == [] && View() == orig && !uninstalling
      modifies this`device, this`dirty, this`cache, this`cached, this`log
      ensures Loose() && |device| == |orig|
      ensures ok ==> Valid() && Undoable() && View() == Replayed(orig, writes) && |log| == |writes| <= UNDO_MAX
      ensures ok ==> AllFit(writes)
      ensures !ok && !flaky ==> Undoable() && !(|writes| <= UNDO_MAX && AllFit(writes))
    {
      var i := 0;
      assert writes[..0] == [];
      while i < |writes|
        invariant 0 <= i <= |writes| && Valid() && Undoable() && |device| == |orig|
        invariant View() == Replayed(orig, writes[..i]) && |log| == i <= UNDO_MAX
        invariant forall j :: 0 <= j < i ==> Fits(writes[j].loc, |writes[j].data|)
      {
        ok := WriteNext(writes, i);
        if !ok {
          return;
        }
        i := i + 1;
      }
      assert writes[..i] == writes;
      return true;
    }

    method WriteNext(writes: seq<Saved>, i: nat) returns (ok: bool)
      requires Valid() && Undoable() && i < |writes| && View() == Replayed(orig, writes[..i])
      requires |log| == i <= UNDO_MAX && !uninstalling
      modifies this`device, this`dirty, this`cache, this`cached, this`log
      ensures Loose() && |device| == |old(device)|
      ensures ok ==> Valid() && Undoable() && View() == Replayed(orig, writes[..i + 1]) && |log| == i + 1 <= UNDO_MAX
      ensures ok ==> Fits(writes[i].loc, |writes[i].data|)
      ensures !ok && !flaky ==> Undoable() && (i >= UNDO_MAX || !Fits(writes[i].loc, |writes[i].data|))
    {
      var s := writes[i];
      ok := DeviceWrite(s.data, s.loc);
      assert writes[..i + 1][..i] == writes[..i];
      if ok {
        assert Fits(log[i].loc, |log[i].data|);
      }
    }
  }

  // --- The log in a file ---

  /** The low `k` bytes of a number, lowest first. */
  function Bytes(n: nat, k: nat): (b: seq<int>)
    ensures |b| == k
  {
    if k == 0 then [] else [n % 256] + Bytes(n / 256, k - 1)
  }

  function Number(b: seq<int>): int {
    if b == [] then 0 else b[0] + 256 * Number(b[1..])
  }

  function Power(k: nat): nat { if k == 0 then 1 else 256 * Power(k - 1) }

  lemma {:induction false} NumberBytes(n: nat, k: nat)
    requires n < Power(k)
    ensures Number(Bytes(n, k)) == n
  {
    if k > 0 {
      NumberBytes(n / 256, k - 1);
      assert Bytes(n, k)[1..] == Bytes(n / 256, k - 1);
    }
  }

  lemma NumberWord(n: nat)
    requires n < WORD_END
    ensures Number(Bytes(n, 8)) == n
  {
    assert Power(8) == WORD_END by {
      assert Power(4) == 0x1_0000_0000;
      assert Power(6) == 0x1_0000_0000_0000;
    }
    NumberBytes(n, 8);
  }

  function SavedBytes(s: Saved): seq<int> { Bytes(s.loc, 8) + Bytes(|s.data|, 8) + s.data }

  function EntryBytes(log: seq<Saved>): seq<int> {
    if log == [] then [] else EntryBytes(log[..|log| - 1]) + SavedBytes(log[|log| - 1])
  }

  function LogBytes(log: seq<Saved>): seq<int> { Bytes(|log|, 8) + EntryBytes(log) }

  /** An entry of no bytes cannot be written to a file, or read from one. */
  predicate Storable(s: Saved) { 0 < |s.data| < WORD_END && s.loc < WORD_END }

  /** The file the log is stored in. */
  method StoreLog(log: seq<Saved>) returns (ok: bool, file: seq<int>)
    ensures ok <==> forall i :: 0 <= i < |log| ==> log[i].data != []
    ensures ok ==> file == LogBytes(log)
  {
    file := Bytes(|log|, 8);
    var i := 0;
    assert log[..0] == [];
    while i < |log|
      invariant 0 <= i <= |log| && file == Bytes(|log|, 8) + EntryBytes(log[..i])
      invariant forall j :: 0 <= j < i ==> log[j].data != []
    {
      if log[i].data == [] {
        return false, file;
      }
      assert log[..i + 1][..i] == log[..i];
      OneMore(Bytes(|log|, 8), EntryBytes(log[..i]), SavedBytes(log[i]));
      file := file + SavedBytes(log[i]);
      i := i + 1;
    }
    assert log[..i] == log;
    return true, file;
  }

  lemma OneMore(a: seq<int>, b: seq<int>, c: seq<int>)
    ensures a + b + c == a + (b + c)
  {
  }

  /** Reads `n` bytes at `at`; reading none counts as an error. */
  method ReadBytes(file: seq<int>, at: nat, n: nat) returns (r: Option<seq<int>>)
    ensures r == if n > 0 && at + n <= |file| then Some(file[at..at + n]) else None
  {
    if n == 0 || at + n > |file| {
      return None;
    }
    return Some(file[at..at + n]);
  }

  /** The log in a file: what has been stored, if it was. */
  method LoadLog(file: seq<int>, ghost stored: seq<Saved>) returns (ok: bool, log: seq<Saved>)
    requires forall i :: 0 <= i < |file| ==> 0 <= file[i]
    ensures file == LogBytes(stored) && |stored| < WORD_END && (forall i :: 0 <= i < |stored| ==> Storable(stored[i])) ==> ok && log == stored
  {
    log := [];
    var head := ReadBytes(file, 0, 8);
    if head.None? {
      return false, log;
    }
    ghost var good := file == LogBytes(stored) && |stored| < WORD_END && forall i :: 0 <= i < |stored| ==> Storable(stored[i]);
    var count := Number(head.value);
    var at: nat := 8;
    if good {
      NumberWord(|stored|);
      assert head.value == Bytes(|stored|, 8);
    }
    while |log| < count
      invariant good ==> count == |stored| && |log| <= |stored| && log == stored[..|log|] && at == 8 + |EntryBytes(log)|
      decreases count - |log|
    {
      var s := LoadEntry(file, at, stored, |log|, good);
      if s.None? {
        return false, log;
      }
      assert good ==> stored[..|log| + 1] == stored[..|log|] + [stored[|log|]];
      assert (log + [s.value])[..|log|] == log;
      log, at := log + [s.value], at + 16 + |s.value.data|;
    }
    return true, log;
  }

  /** The entry at `at`. */
  method LoadEntry(file: seq<int>, at: nat, ghost stored: seq<Saved>, ghost i: nat, ghost good: bool)
      returns (r: Option<Saved>)
    requires forall i :: 0 <= i < |file| ==> 0 <= file[i]
    requires good ==> file == LogBytes(stored) && i < |stored| && Storable(stored[i])
    requires good ==> at == 8 + |EntryBytes(stored[..i])|
    ensures good ==> r == Some(stored[i])
  {
    if good {
      EntryIn(stored, i);
    }
    var loc := ReadWord(file, at, if good then stored[i].loc else 0);
    var count := ReadWord(file, at + 8, if good then |stored[i].data| else 0);
    if loc.None? || count.None? {
      return None;
    }
    var data := ReadBytes(file, at + 16, count.value);
    if data.None? {
      return None;
    }
    return Some(Saved(loc.value, data.value));
  }

  method ReadWord(file: seq<int>, at: nat, ghost n: nat) returns (r: Option<nat>)
    requires forall i :: 0 <= i < |file| ==> 0 <= file[i]
    ensures at + 8 <= |file| && n < WORD_END && file[at..at + 8] == Bytes(n, 8) ==> r == Some(n)
  {
    var b := ReadBytes(file, at, 8);
    if b.None? {
      return None;
    }
    if n < WORD_END {
      NumberWord(n);
    }
    NotNegative(b.value);
    return Some(Number(b.value));
  }

  lemma {:induction false} NotNegative(b: seq<int>)
    requires forall i :: 0 <= i < |b| ==> 0 <= b[i]
    ensures 0 <= Number(b)
  {
    if b != [] {
      NotNegative(b[1..]);
    }
  }

  lemma {:induction false} EntriesPrefix(log: seq<Saved>, i: nat)
    requires i <= |log|
    ensures EntryBytes(log[..i]) <= EntryBytes(log)
  {
    if i < |log| {
      EntriesPrefix(log[..|log| - 1], i);
      assert log[..|log| - 1][..i] == log[..i];
    } else {
      assert log[..i] == log;
    }
  }

  /** Where an entry's parts are. */
  lemma EntryIn(log: seq<Saved>, i: nat)
    requires i < |log|
    ensures var f, at, s := LogBytes(log), 8 + |EntryBytes(log[..i])|, log[i];
            && at + 16 + |s.data| <= |f| && f[at..at + 8] == Bytes(s.loc, 8)
            && f[at + 8..at + 16] == Bytes(|s.data|, 8) && f[at + 16..at + 16 + |s.data|] == s.data
  {
    var f, n, s := LogBytes(log), |EntryBytes(log[..i])|, log[i];
    EntriesPrefix(log, i + 1);
    assert log[..i + 1][..i] == log[..i];
    var e := SavedBytes(s);
    assert EntryBytes(log)[n..n + |e|] == e;
    assert f[8 + n..8 + n + |e|] == e;
    SavedParts(f, 8 + n, s);
  }

  lemma SavedParts(f: seq<int>, at: nat, s: Saved)
    requires at + |SavedBytes(s)| <= |f| && f[at..at + |SavedBytes(s)|] == SavedBytes(s)
    ensures |SavedBytes(s)| == 16 + |s.data| && f[at..at + 8] == Bytes(s.loc, 8)
    ensures f[at + 8..at + 16] == Bytes(|s.data|, 8) && f[at + 16..at + 16 + |s.data|] == s.data
  {
    var e := SavedBytes(s);
    assert e == Bytes(s.loc, 8) + Bytes(|s.data|, 8) + s.data;
    assert e[..8] == Bytes(s.loc, 8);
    assert e[8..16] == Bytes(|s.data|, 8);
    assert e[16..] == s.data;
    assert f[at..at + |e|][..8] == f[at..at + 8];
    assert f[at..at + |e|][8..16] == f[at + 8..at + 16];
    assert f[at..at + |e|][16..] == f[at + 16..at + |e|];
  }

  lemma InBlock(x: nat, block: nat, offset: nat, size: nat)
    requires size > 0 && x == block * size + offset && offset < size
    ensures x / size == block
  {
    var q := x / size;
    BlockOf(x, size);
    Multiples(q + 1, block, size);
    Multiples(block + 1, q, size);
  }

  lemma Multiples(a: nat, b: nat, size: nat)
    ensures a <= b ==> a * size <= b * size
  {
    if a <= b {
      assert b * size - a * size == (b - a) * size;
    }
  }
}

