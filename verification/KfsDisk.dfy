/** The disk under KonjacFS and its ring of superblocks. A write may stay in the disk's own cache
    until the next flush, and a crash keeps whatever part of the unflushed writes it likes.

    What a superblock's state consists of is a parameter here: all the protocol needs is that
    completeness on disk depends only on the blocks the state uses, and that no state uses the
    superblocks. */
module KfsDisk {
  import opened Wrappers
  import opened KfsTypes

  /** What it means for a superblock's state to be complete on a disk, and which blocks it uses. */
  datatype Spec = Spec(complete: (seq<Block>, Super) -> bool, uses: (Super, nat) -> bool)

  ghost predicate Framed(p: Spec) {
    forall d: seq<Block>, s: Super {:trigger p.complete(d, s)} :: p.complete(d, s) ==>
      && (forall b: nat {:trigger p.uses(s, b)} :: p.uses(s, b) ==> DATA_START <= b)
      && (forall d': seq<Block> {:trigger p.complete(d', s)} :: Alike(p, d, d', s) ==> p.complete(d', s))
  }

  /** The two disks agree on the blocks `s` uses. */
  ghost predicate Alike(p: Spec, d: seq<Block>, d': seq<Block>, s: Super) {
    |d'| == |d| && forall b: nat {:trigger p.uses(s, b)} :: p.uses(s, b) && b < |d| ==> d'[b] == d[b]
  }

  datatype Write = Wr(block: nat, data: Block)

  /** The superblock slot commit `txg` writes. */
  function RingSlot(txg: nat): nat { SB_FIRST + txg % SB_SLOTS }

  function Apply(disk: seq<Block>, ws: seq<Write>): (r: seq<Block>)
    ensures |r| == |disk|
  {
    if ws == [] then disk
    else
      var d, w := Apply(disk, ws[..|ws| - 1]), ws[|ws| - 1];
      if w.block < |d| then d[w.block := w.data] else d
  }

  ghost predicate Written(ws: seq<Write>, b: nat) {
    exists i :: 0 <= i < |ws| && ws[i].block == b
  }

  /** What a crash can leave. A block with unflushed writes may hold anything at all, except that
      a superblock slot cannot come to hold a valid superblock nobody wrote there: a torn write
      fails its checksum. */
  ghost predicate CrashImage(disk: seq<Block>, ws: seq<Write>, img: seq<Block>) {
    && |img| == |disk|
    && forall b: nat {:trigger img[b]} :: b < |disk| ==>
         && (!Written(ws, b) ==> img[b] == disk[b])
         && (b < DATA_START && img[b].SuperB? ==> img[b] == disk[b] || Wr(b, img[b]) in ws)
  }

  /** `sb` is the newest valid superblock in the ring, in its own slot. */
  ghost predicate Newest(disk: seq<Block>, sb: Super) {
    && DATA_START <= |disk|
    && disk[RingSlot(sb.txg)] == SuperB(sb)
    && forall s {:trigger disk[s]} :: SB_FIRST <= s < SB_FIRST + SB_SLOTS && disk[s].SuperB? ==>
         disk[s].sb.txg < sb.txg || disk[s].sb == sb
  }

  /** The disk between two requests: what is durable, what is not yet, and (for the proof) the
      newest commit that has landed and the one whose superblock has been written since. */
  datatype Moment = Moment(durable: seq<Block>, pending: seq<Write>, landed: Super, landing: Option<Super>)

  ghost predicate Recoverable(p: Spec, m: Moment) {
    && Newest(m.durable, m.landed)
    && p.complete(m.durable, m.landed)
    && match m.landing
       case None =>
         forall i {:trigger m.pending[i]} :: 0 <= i < |m.pending| ==>
           DATA_START <= m.pending[i].block && !p.uses(m.landed, m.pending[i].block)
       case Some(n) =>
         && n.txg == m.landed.txg + 1
         && p.complete(m.durable, n)
         && m.pending == [Wr(RingSlot(n.txg), SuperB(n))]
  }

  /** Crash safety: whatever a crash keeps, the newest valid superblock is the last commit that
      landed or the one landing, and the state it describes is complete. */
  lemma CrashSafe(p: Spec, m: Moment, img: seq<Block>)
    requires Framed(p) && Recoverable(p, m) && CrashImage(m.durable, m.pending, img)
    ensures Recoverable(p, Moment(img, [], m.landed, None))
            || (m.landing.Some? && Recoverable(p, Moment(img, [], m.landing.value, None)))
  {
    match m.landing
    case None => CrashBefore(p, m, img);
    case Some(n) =>
      CrashSlot(m, img, RingSlot(n.txg), SuperB(n));
      CrashLanding(p, m.durable, img, m.landed, n);
  }

  lemma CrashBefore(p: Spec, m: Moment, img: seq<Block>)
    requires Framed(p) && Recoverable(p, m) && CrashImage(m.durable, m.pending, img) && m.landing == None
    ensures Recoverable(p, Moment(img, [], m.landed, None))
  {
    forall b: nat | b < |img| && (b < DATA_START || p.uses(m.landed, b))
      ensures img[b] == m.durable[b]
    {
      assert !Written(m.pending, b);
    }
    CompleteFrame(p, m.durable, img, m.landed);
  }

  /** Between writing a superblock and knowing it is durable: the disk has the old one or the new
      one (or a torn one, which is none). */
  lemma CrashLanding(p: Spec, disk: seq<Block>, img: seq<Block>, sb: Super, n: Super)
    requires Framed(p) && p.complete(disk, sb) && p.complete(disk, n)
    requires Newest(disk, sb) && n.txg == sb.txg + 1 && |img| == |disk|
    requires forall b: nat :: b < |img| && b != RingSlot(n.txg) ==> img[b] == disk[b]
    requires var x := img[RingSlot(n.txg)]; x == disk[RingSlot(n.txg)] || x == SuperB(n) || !x.SuperB?
    ensures (Newest(img, sb) && p.complete(img, sb)) || (Newest(img, n) && p.complete(img, n))
  {
    if img[RingSlot(n.txg)] == SuperB(n) {
      CompleteSlot(p, disk, img, n, RingSlot(n.txg));
      NewestNext(disk, img, sb, n);
    } else {
      CompleteSlot(p, disk, img, sb, RingSlot(n.txg));
      NewestKept(disk, img, sb, RingSlot(n.txg));
    }
  }

  lemma CrashSlot(m: Moment, img: seq<Block>, s: nat, data: Block)
    requires CrashImage(m.durable, m.pending, img) && m.pending == [Wr(s, data)] && s < DATA_START <= |img|
    ensures forall b: nat :: b < |img| && b != s ==> img[b] == m.durable[b]
    ensures img[s] == m.durable[s] || img[s] == data || !img[s].SuperB?
  {
    forall b: nat | b < |img| && b != s ensures img[b] == m.durable[b] {
      assert !Written(m.pending, b);
    }
  }

  /** A change to one superblock slot harms no state. */
  lemma CompleteSlot(p: Spec, disk: seq<Block>, disk': seq<Block>, sb: Super, s: nat)
    requires Framed(p) && p.complete(disk, sb) && |disk'| == |disk| && s < DATA_START
    requires forall b: nat :: b < |disk| && b != s ==> disk'[b] == disk[b]
    ensures p.complete(disk', sb)
  {
    CompleteFrame(p, disk, disk', sb);
  }

  lemma CompleteFrame(p: Spec, disk: seq<Block>, disk': seq<Block>, sb: Super)
    requires Framed(p) && p.complete(disk, sb) && |disk'| == |disk|
    requires forall b: nat {:trigger p.uses(sb, b)} :: p.uses(sb, b) && DATA_START <= b < |disk| ==> disk'[b] == disk[b]
    ensures p.complete(disk', sb)
  {
    assert Alike(p, disk, disk', sb);
  }

  lemma NewestNext(disk: seq<Block>, disk': seq<Block>, sb: Super, n: Super)
    requires Newest(disk, sb) && n.txg == sb.txg + 1 && |disk'| == |disk|
    requires forall b: nat :: b < |disk| && b != RingSlot(n.txg) ==> disk'[b] == disk[b]
    requires disk'[RingSlot(n.txg)] == SuperB(n)
    ensures Newest(disk', n)
  {
  }

  lemma NewestKept(disk: seq<Block>, disk': seq<Block>, sb: Super, s: nat)
    requires Newest(disk, sb) && |disk'| == |disk| && s < |disk| && s != RingSlot(sb.txg)
    requires forall b: nat :: b < |disk| && b != s ==> disk'[b] == disk[b]
    requires disk'[s] == disk[s] || !disk'[s].SuperB?
    ensures Newest(disk', sb)
  {
  }

  lemma {:induction false} ApplyFrame(disk: seq<Block>, ws: seq<Write>, b: nat)
    requires b < |disk| && !Written(ws, b)
    ensures Apply(disk, ws)[b] == disk[b]
  {
    if ws != [] {
      var n := |ws| - 1;
      forall i | 0 <= i < n ensures ws[..n][i].block != b { assert ws[i].block != b; }
      ApplyFrame(disk, ws[..n], b);
      assert ws[n].block != b;
    }
  }

  /** What reads return still has the landed state complete. */
  lemma CurComplete(p: Spec, m: Moment)
    requires Framed(p) && Recoverable(p, m)
    ensures p.complete(Apply(m.durable, m.pending), m.landed)
    ensures m.landing.None? ==> Newest(Apply(m.durable, m.pending), m.landed)
  {
    var cur := Apply(m.durable, m.pending);
    forall b: nat | b < |cur| && ((p.uses(m.landed, b) && DATA_START <= b) || (m.landing.None? && b < DATA_START))
      ensures cur[b] == m.durable[b]
    {
      assert !Written(m.pending, b);
      ApplyFrame(m.durable, m.pending, b);
    }
    CompleteFrame(p, m.durable, cur, m.landed);
  }

  lemma RecoverablePut(p: Spec, m: Moment, b: nat, data: Block)
    requires Recoverable(p, m) && m.landing == None
    requires DATA_START <= b < |m.durable| && !p.uses(m.landed, b)
    ensures var ws := m.pending + [Wr(b, data)];
            && Recoverable(p, Moment(m.durable, ws, m.landed, None))
            && Apply(m.durable, ws) == Apply(m.durable, m.pending)[b := data]
  {
    assert (m.pending + [Wr(b, data)])[..|m.pending|] == m.pending;
  }

  lemma RecoverableLanded(p: Spec, disk: seq<Block>, sb: Super, n: Super)
    requires Framed(p) && Newest(disk, sb) && p.complete(disk, n) && n.txg == sb.txg + 1
    ensures Recoverable(p, Moment(disk[RingSlot(n.txg) := SuperB(n)], [], n, None))
  {
    var disk' := disk[RingSlot(n.txg) := SuperB(n)];
    CompleteFrame(p, disk, disk', n);
    NewestNext(disk, disk', sb, n);
  }

  /** The first `n` blocks of `data` have been written at `b`, and nothing else changed. */
  ghost predicate Overwritten(was: seq<Block>, now: seq<Block>, b: nat, n: nat, data: seq<Block>)
    requires n <= |data|
  {
    && |now| == |was|
    && forall i {:trigger now[i]} :: 0 <= i < |was| ==> now[i] == if b <= i < b + n then data[i - b] else was[i]
  }

  /** The states a disk has been in between two requests, newest last. */
  datatype History = Start | Then(before: History, last: Moment)

  ghost predicate AllRecoverable(p: Spec, h: History) {
    h.Then? ==> Recoverable(p, h.last) && AllRecoverable(p, h.before)
  }

  /** `h` has since become `h'`. */
  ghost predicate Since(h: History, h': History) {
    h == h' || (h'.Then? && Since(h, h'.before))
  }

  ghost predicate Happened(m: Moment, h: History) {
    h.Then? && (h.last == m || Happened(m, h.before))
  }

  lemma {:induction false} ItHappened(p: Spec, m: Moment, h: History)
    requires AllRecoverable(p, h) && Happened(m, h)
    ensures Recoverable(p, m)
  {
    if h.last != m {
      ItHappened(p, m, h.before);
    }
  }

  lemma {:induction false} SinceTrans(h: History, h': History, h'': History)
    requires Since(h, h') && Since(h', h'')
    ensures Since(h, h'')
  {
    if h' != h'' {
      SinceTrans(h, h', h''.before);
    }
  }

  /** The disk is and always has been recoverable, and reads return what was written. (Sealed: see `Open`.) */
  ghost predicate Sealed(p: Spec, m: Moment, cur: seq<Block>, h: History) {
    forall n: nat {:trigger Open(DiskSeal, n)} :: Open(DiskSeal, n) ==>
      cur == Apply(m.durable, m.pending) && Framed(p) && Recoverable(p, m) && AllRecoverable(p, h)
  }

  class Disk {
    ghost const spec: Spec
    /** Whether the disk may report errors just now. */
    var flaky: bool
    var durable: seq<Block>
    /** Written but not flushed, oldest first. */
    var pending: seq<Write>
    /** What reads return. */
    var cur: seq<Block>
    ghost var landed: Super
    ghost var landing: Option<Super>
    /** Every state the disk has been in between two requests. */
    ghost var history: History

    ghost function Now(): Moment
      reads this
    {
      Moment(durable, pending, landed, landing)
    }

    ghost predicate Valid()
      reads this
    {
      |cur| == |durable| && Sealed(spec, Now(), cur, history)
    }

    /** A disk image found at boot, `sb` being its newest superblock. */
    constructor (image: seq<Block>, ghost p: Spec, ghost sb: Super)
      requires Framed(p) && Recoverable(p, Moment(image, [], sb, None))
      ensures Valid() && spec == p && durable == cur == image && pending == [] && landed == sb && landing == None
      ensures history == Then(Start, Now())
    {
      spec := p;
      flaky := *;
      durable, pending, cur := image, [], image;
      landed, landing := sb, None;
      history := Then(Start, Moment(image, [], sb, None));
    }

    method Read(b: nat, count: nat) returns (r: Result<seq<Block>>)
      ensures r.Ok? ==> b + count <= |cur| && r.value == cur[b..b + count]
      ensures r.Err? ==> r.error == Io && (flaky || b + count > |cur|)
    {
      if b + count > |cur| {
        return Err(Io);
      }
      var trouble: bool := *;
      if flaky && trouble {
        return Err(Io);
      }
      return Ok(cur[b..b + count]);
    }

    /** Writes to blocks the landed state does not use, and never to the superblocks: that every
        caller meets this is what makes the file system copy-on-write. After an error, only part
        of the run may have been written. */
    method Write(b: nat, data: seq<Block>) returns (r: Result<()>)
      requires Valid() && landing == None
      requires DATA_START <= b && b + |data| <= |cur|
      requires forall i: nat {:trigger spec.uses(landed, i)} :: b <= i < b + |data| ==> !spec.uses(landed, i)
      modifies this`pending, this`cur, this`history
      ensures Valid() && Since(old(history), history)
      ensures r.Ok? ==> Overwritten(old(cur), cur, b, |data|, data)
      ensures r.Err? ==> r.error == Io && flaky
      ensures r.Err? ==> exists n :: 0 <= n <= |data| && Overwritten(old(cur), cur, b, n, data)
    {
      var n := 0;
      while n < |data|
        invariant 0 <= n <= |data|
        invariant Valid() && Since(old(history), history)
        invariant Overwritten(old(cur), cur, b, n, data)
      {
        var trouble: bool := *;
        if flaky && trouble {
          return Err(Io);
        }
        label before: Put(b + n, data[n]);
        SinceTrans(old(history), old@before(history), history);
        n := n + 1;
      }
      return Ok(());
    }

    method Put(b: nat, data: Block)
      requires Valid() && landing == None
      requires DATA_START <= b < |cur| && !spec.uses(landed, b)
      modifies this`pending, this`cur, this`history
      ensures Valid() && cur == old(cur)[b := data] && Since(old(history), history)
    {
      assert Open(DiskSeal, 0);
      RecoverablePut(spec, Now(), b, data);
      pending := pending + [Wr(b, data)];
      cur := cur[b := data];
      history := Then(history, Now());
    }

    /** Makes everything written so far durable. */
    method Flush() returns (r: Result<()>)
      requires Valid() && landing == None
      modifies this`durable, this`pending, this`history
      ensures Valid() && Since(old(history), history)
      ensures r.Ok? ==> durable == cur && pending == []
      ensures r.Err? ==> r.error == Io && flaky && durable == old(durable) && pending == old(pending)
    {
      var trouble: bool := *;
      if flaky && trouble {
        return Err(Io);
      }
      assert Open(DiskSeal, 0);
      CurComplete(spec, Now());
      durable := cur;
      pending := [];
      history := Then(history, Now());
      return Ok(());
    }

    /** Writes the next superblock and flushes it: the commit lands. (Errors from here on are not
        modelled.) */
    method Land(sb: Super)
      requires Valid() && landing == None && pending == [] && DATA_START <= |cur|
      requires sb.txg == landed.txg + 1 && spec.complete(durable, sb)
      modifies this`durable, this`pending, this`cur, this`landed, this`landing, this`history
      ensures Valid() && landed == sb && landing == None && pending == []
      ensures durable == old(durable)[RingSlot(sb.txg) := SuperB(sb)]
      ensures cur == durable && Since(old(history), history)
    {
      assert Open(DiskSeal, 0);
      RecoverableLanded(spec, durable, landed, sb);
      pending := [Wr(RingSlot(sb.txg), SuperB(sb))];
      cur := durable[RingSlot(sb.txg) := SuperB(sb)];
      landing := Some(sb);
      history := Then(history, Now());

      durable := durable[RingSlot(sb.txg) := SuperB(sb)];
      pending := [];
      landed, landing := sb, None;
      history := Then(history, Now());
    }
  }
}
