/**
 The buffer between the datagrams and a job's file, as the vendored library has it
 (vendor/github.com/pschou/go-memdiskbuf/writeatbuf.go), with the sizes ff-udp-to-http gives it.
 */
module WriteBuffer {
  import opened Words
  import opened Files
  import opened Fragments

  const WINDOW: nat := 33554432  // 32<<20
  const BLOCK: nat := 4096       // 4<<10

  /** `WriterAtBuf`; `cap` is the capacity of inbuf, `file` what fh holds, and `streamed` what StreamFunc
      has been called with. */
  datatype Buffer = Buffer(
    buf: seq<byte>,
    bufSt: nat,
    inbuf: seq<Run>,
    cap: nat,
    written: nat,
    file: seq<byte>,
    streamed: seq<seq<byte>>)

  function NewBuffer(): Buffer {
    Buffer(Zeros(WINDOW), 0, [FREE, FREE, FREE], 3, 0, [], [])
  }

  /** What the disk does with the blocks of one call: it takes them all, or fails after some blocks and
      part of the next. */
  datatype Disk = Healthy | Failing(blocks: nat, part: nat)

  /** Go's `copy(buf[at:], p)`. */
  function CopyInto(buf: seq<byte>, at: nat, p: seq<byte>): (b: seq<byte>)
    requires at <= |buf|
    ensures |b| == |buf|
  {
    var n := Min(|buf| - at, |p|);
    buf[..at] + p[..n] + buf[at + n..]
  }

  predicate BlockReady(w: Buffer) {
    |w.buf| >= BLOCK && w.inbuf != [] && w.inbuf[0].start == w.bufSt && w.inbuf[0].stop >= w.bufSt + BLOCK
  }

  function Streamed(w: Buffer): Buffer
    requires BlockReady(w)
  {
    w.(streamed := w.streamed + [w.buf[..BLOCK]])
  }

  /** A block has gone to the file: the window moves on, the cells move down. */
  function NextBlock(w: Buffer): Buffer
    requires BlockReady(w)
  {
    var end := w.bufSt + BLOCK;
    Streamed(w).(file := WriteAt(w.file, w.bufSt, w.buf[..BLOCK]),
                 bufSt := end,
                 inbuf := w.inbuf[0 := Run(end, w.inbuf[0].stop)],
                 written := end + BLOCK,
                 buf := w.buf[BLOCK..] + w.buf[|w.buf| - BLOCK..])
  }

  /** `shift`, and whether it failed. */
  function Shift(w: Buffer, d: Disk): (Buffer, bool)
    decreases if w.inbuf == [] then 0 else Max(0, w.inbuf[0].stop - w.bufSt)
  {
    if !BlockReady(w) then (w, false)
    else match d
      case Healthy => Shift(NextBlock(w), d)
      case Failing(blocks, part) =>
        if blocks > 0 then Shift(NextBlock(w), Failing(blocks - 1, part))
        else (Streamed(w).(file := WriteAt(w.file, w.bufSt, w.buf[..Min(part, BLOCK)])), true)
  }

  /** `WriteAt`, and whether it failed. A datagram is shorter than the window, so that the first copy
      starts inside the buffer. */
  function Write(w: Buffer, p: seq<byte>, off: int, d: Disk): (Buffer, bool) {
    var offEnd, bufEnd := off + |p|, w.bufSt + |w.buf|;
    if off < w.bufSt then
      if offEnd <= w.bufSt then (w, false)
      else Shift(Overlapped(w, p, w.bufSt - off), d)
    else if offEnd > bufEnd then (w, true)
    else Shift(Placed(w, p, off), d)
  }

  /** The write begins `behind` bytes before the window: as it is, they are skipped in the buffer and not
      in p. */
  function Overlapped(w: Buffer, p: seq<byte>, behind: nat): Buffer {
    var at := Min(behind, |w.buf|);
    var n := Min(|w.buf| - at, |p|);
    var runs := Add(w.inbuf, w.bufSt, w.bufSt + n, w.cap);
    w.(buf := CopyInto(w.buf, at, p), inbuf := runs, cap := Capacity(w.cap, |w.inbuf|, |runs|))
  }

  /** A hit: the bytes are in the buffer. */
  function Placed(w: Buffer, p: seq<byte>, off: int): Buffer
    requires w.bufSt <= off && off + |p| <= w.bufSt + |w.buf|
  {
    Updated(w, p, off, Add(w.inbuf, off, off + |p|, w.cap))
  }

  function Updated(w: Buffer, p: seq<byte>, off: int, runs: seq<Run>): Buffer
    requires w.bufSt <= off && off + |p| <= w.bufSt + |w.buf|
  {
    w.(inbuf := runs, cap := Capacity(w.cap, |w.inbuf|, |runs|), buf := CopyInto(w.buf, off - w.bufSt, p))
  }

  /** The file after `FlushAll` has seen the first k fragments. It writes the beginning of the buffer,
      whatever the fragment, and counts offsets from the window's start. */
  function FlushRuns(w: Buffer, k: nat): seq<byte>
    requires k <= |w.inbuf|
  {
    if k == 0 then w.file
    else
      var file, r := FlushRuns(w, k - 1), w.inbuf[k - 1];
      if r.start >= w.bufSt then WriteAt(file, r.start - w.bufSt, w.buf[..Max(0, Min(r.stop - r.start, |w.buf|))]) else file
  }

  function FlushAll(w: Buffer): Buffer {
    w.(file := FlushRuns(w, |w.inbuf|))
  }

  /** `Flush`, and whether it failed; ok is the disk's answer. */
  function Flush(w: Buffer, ok: bool): (Buffer, bool) {
    if w.inbuf == [] || w.inbuf[0].start != w.bufSt then (w, Missing(w))
    else
      var piece := w.buf[..Max(0, Min(w.inbuf[0].stop - w.bufSt, |w.buf|))];
      var s := w.(streamed := w.streamed + [piece]);
      if !ok then (s, true)
      else
        var t := s.(file := WriteAt(w.file, w.bufSt, piece), written := w.bufSt + |piece|);
        (t, Missing(t))
  }

  predicate Missing(w: Buffer) {
    exists r <- w.inbuf :: r.stop > w.written
  }

  /** What a write across the window's start does: its first bytes, which lie before the window, are put
      `behind` bytes into it, and what fits of the others follows them; the list takes as many bytes, from the
      window's start on, for written. */
  lemma OverlapIs(w: Buffer, p: seq<byte>, behind: nat, i: nat)
    requires behind < |w.buf| && i < |w.buf|
    ensures var t, n := Overlapped(w, p, behind), Min(|w.buf| - behind, |p|);
            && t.buf[i] == (if behind <= i < behind + n then p[i - behind] else w.buf[i])
            && t.inbuf == Add(w.inbuf, w.bufSt, w.bufSt + n, w.cap)
            && t.bufSt == w.bufSt && t.file == w.file && t.streamed == w.streamed && t.written == w.written
  {
  }

  /** The content has the same byte here as that much earlier. */
  ghost predicate Recurs(c: seq<byte>, x: int, distance: nat) {
    0 <= x - distance && x < |c| && c[x] == c[x - distance]
  }

  /** The bytes that the list takes for written are those of the content exactly if the cells before the
      misplaced bytes held them already, and the content repeats itself at twice the distance. */
  lemma OverlapRightIff(w: Buffer, c: seq<byte>, p: seq<byte>, behind: nat)
    requires behind < |w.buf| && behind <= w.bufSt && w.bufSt - behind + |p| <= |c|
    requires p == c[w.bufSt - behind..w.bufSt - behind + |p|]
    ensures var t, n := Overlapped(w, p, behind), Min(|w.buf| - behind, |p|);
            w.bufSt + n <= |c| ==>
              (t.buf[..n] == c[w.bufSt..w.bufSt + n]
               <==> && w.buf[..Min(behind, n)] == c[w.bufSt..w.bufSt + Min(behind, n)]
                    && forall x | w.bufSt + behind <= x < w.bufSt + n :: Recurs(c, x, 2 * behind))
  {
    var t, n := Overlapped(w, p, behind), Min(|w.buf| - behind, |p|);
    if w.bufSt + n <= |c| {
      forall i | 0 <= i < n
        ensures t.buf[i] == if i < behind then w.buf[i] else c[w.bufSt + i - 2 * behind]
      {
        OverlapIs(w, p, behind, i);
      }
      SliceIff(t.buf, c, w.bufSt, n);
      SliceIff(w.buf, c, w.bufSt, Min(behind, n));
      RecursIff(t.buf, c, w.bufSt, behind, n);
    }
  }

  lemma SliceIff(a: seq<byte>, c: seq<byte>, base: nat, n: nat)
    requires n <= |a| && base + n <= |c|
    ensures a[..n] == c[base..base + n] <==> forall i | 0 <= i < n :: a[i] == c[base + i]
  {
    if a[..n] == c[base..base + n] {
      assert forall i | 0 <= i < n :: a[i] == a[..n][i];
    }
  }

  lemma RecursIff(a: seq<byte>, c: seq<byte>, base: nat, behind: nat, n: nat)
    requires n <= |a| && behind <= base && base + n <= |c|
    requires forall i | behind <= i < n :: a[i] == c[base + i - 2 * behind]
    ensures (forall i | behind <= i < n :: a[i] == c[base + i])
       <==> forall x | base + behind <= x < base + n :: Recurs(c, x, 2 * behind)
  {
    if forall i | behind <= i < n :: a[i] == c[base + i] {
      forall x | base + behind <= x < base + n
        ensures Recurs(c, x, 2 * behind)
      {
        assert a[x - base] == c[x];
      }
    } else {
      var i :| behind <= i < n && a[i] != c[base + i];
      assert !Recurs(c, base + i, 2 * behind);
    }
  }

  // ---------------------------------------------------------------- what the buffer holds

  /** A byte nobody wrote, between two that somebody did. */
  ghost predicate Bridged(got: set<int>, x: int) {
    x !in got && x - 1 in got && x + 1 in got
  }

  ghost predicate Passed(got: set<int>, x: int) {
    x in got || Bridged(got, x)
  }

  ghost predicate PendingAt(w: Buffer, c: seq<byte>, got: set<int>, x: int) {
    && (In(w.inbuf, x) ==> w.bufSt <= x < |c| && x < w.bufSt + WINDOW && Passed(got, x))
    && (x in got && x >= w.bufSt ==> In(w.inbuf, x))
  }

  ghost predicate OnDisk(w: Buffer, c: seq<byte>, got: set<int>, x: int) {
    0 <= x < w.bufSt ==>
      && x < |w.file| && x < |c| && Passed(got, x)
      && (x in got ==> w.file[x] == c[x])
      && (x !in got && x < WINDOW ==> w.file[x] == 0)
  }

  ghost predicate CellAt(w: Buffer, c: seq<byte>, got: set<int>, x: int)
    requires |w.buf| == WINDOW
  {
    w.bufSt <= x < w.bufSt + WINDOW ==>
      && (x in got ==> x < |c| && w.buf[x - w.bufSt] == c[x])
      && (x !in got && x < WINDOW ==> w.buf[x - w.bufSt] == 0)
  }

  ghost predicate HoldsAt(w: Buffer, c: seq<byte>, got: set<int>, x: int)
    requires |w.buf| == WINDOW
  {
    PendingAt(w, c, got, x) && OnDisk(w, c, got, x) && CellAt(w, c, got, x)
  }

  ghost predicate Shape(w: Buffer, n: nat) {
    && |w.buf| == WINDOW
    && Tidy(w.inbuf)
    && Bounded(w.inbuf, w.bufSt, Min(n, w.bufSt + WINDOW))
    && (forall r <- w.inbuf :: Live(r) && r.start == r.stop ==> r.start == w.bufSt)
    && (w.bufSt > 0 ==> Live(w.inbuf[0]))
  }

  /** File and buffer hold the bytes `got` of the content c, and zeros instead of the others. */
  ghost predicate Holds(w: Buffer, c: seq<byte>, got: set<int>) {
    && Shape(w, |c|)
    && (forall x <- got :: 0 <= x < |c|)
    && (forall x :: HoldsAt(w, c, got, x))
  }

  /** No write has failed: the file is what has been streamed, block by block. */
  ghost predicate Clean(w: Buffer) {
    && |w.file| == w.bufSt
    && Concat(w.streamed) == w.file
    && (forall p <- w.streamed :: |p| == BLOCK)
  }

  lemma NewBufferHolds(c: seq<byte>)
    ensures Holds(NewBuffer(), c, {}) && Clean(NewBuffer())
  {
  }

  // ---------------------------------------------------------------- one block more

  lemma BlockIn(w: Buffer, n: nat, x: int)
    requires Shape(w, n) && BlockReady(w)
    ensures In(NextBlock(w).inbuf, x) <==> In(w.inbuf, x) && x >= w.bufSt + BLOCK
    ensures w.bufSt <= x < w.bufSt + BLOCK ==> In(w.inbuf, x)
  {
    var t := NextBlock(w).inbuf;
    assert t[0] in t && w.inbuf[0] in w.inbuf;
    if In(t, x) {
      var k :| 0 <= k < |t| && t[k].start <= x < t[k].stop;
      assert w.inbuf[k] in w.inbuf;
    }
    if In(w.inbuf, x) && x >= w.bufSt + BLOCK {
      var k :| 0 <= k < |t| && w.inbuf[k].start <= x < w.inbuf[k].stop;
      assert t[k] in t;
    }
  }

  lemma BlockShape(w: Buffer, n: nat)
    requires Shape(w, n) && BlockReady(w)
    ensures Shape(NextBlock(w), n)
  {
    var t := NextBlock(w).inbuf;
    assert w.inbuf[0] in w.inbuf;
    forall r <- t
      ensures r.start <= r.stop
      ensures Live(r) ==> w.bufSt + BLOCK <= r.start && r.stop <= Min(n, w.bufSt + WINDOW)
      ensures Live(r) && r.start == r.stop ==> r.start == w.bufSt + BLOCK
    {
      var k :| 0 <= k < |t| && t[k] == r;
      assert w.inbuf[k] in w.inbuf;
    }
  }

  lemma BlockHoldsAt(w: Buffer, c: seq<byte>, got: set<int>, x: int)
    requires Holds(w, c, got) && BlockReady(w)
    ensures |NextBlock(w).buf| == WINDOW
    ensures HoldsAt(NextBlock(w), c, got, x)
  {
    BlockIn(w, |c|, x);
    assert HoldsAt(w, c, got, x);
  }

  lemma BlockHolds(w: Buffer, c: seq<byte>, got: set<int>)
    requires Holds(w, c, got) && BlockReady(w)
    ensures Holds(NextBlock(w), c, got)
    ensures Clean(w) ==> Clean(NextBlock(w))
  {
    BlockShape(w, |c|);
    forall x
      ensures HoldsAt(NextBlock(w), c, got, x)
    {
      BlockHoldsAt(w, c, got, x);
    }
    if Clean(w) {
      BlockClean(w);
    }
  }

  lemma BlockClean(w: Buffer)
    requires |w.buf| == WINDOW && BlockReady(w) && Clean(w)
    ensures Clean(NextBlock(w))
  {
    var t := NextBlock(w);
    assert t.streamed[..|t.streamed| - 1] == w.streamed;
    assert t.file == w.file + w.buf[..BLOCK];
  }

  /** `shift` moves what the buffer holds to the file and loses nothing, also when the disk fails. */
  lemma {:induction false} ShiftHolds(w: Buffer, c: seq<byte>, got: set<int>, d: Disk)
    requires Holds(w, c, got)
    ensures var (t, failed) := Shift(w, d);
            && Holds(t, c, got) && w.bufSt <= t.bufSt
            && (!failed ==> !BlockReady(t) && (Clean(w) ==> Clean(t)))
            && (d.Healthy? ==> !failed)
            && (failed ==> BlockReady(t))
    decreases if w.inbuf == [] then 0 else Max(0, w.inbuf[0].stop - w.bufSt)
  {
    if BlockReady(w) {
      match d
      case Healthy =>
        BlockHolds(w, c, got);
        ShiftHolds(NextBlock(w), c, got, d);
      case Failing(blocks, part) =>
        if blocks > 0 {
          BlockHolds(w, c, got);
          ShiftHolds(NextBlock(w), c, got, Failing(blocks - 1, part));
        } else {
          var t := Shift(w, d).0;
          forall x
            ensures HoldsAt(t, c, got, x)
          {
            assert HoldsAt(w, c, got, x);
          }
        }
    }
  }

  // ---------------------------------------------------------------- one write

  function Range(off: int, len: nat): (s: set<int>)
    ensures forall x :: x in s <==> off <= x < off + len
  {
    Span(off, off + len - 1)
  }

  /** p is a piece of c that the window can take. */
  ghost predicate Fitting(w: Buffer, c: seq<byte>, p: seq<byte>, off: int) {
    && 0 <= w.bufSt <= off && p != [] && off + |p| <= |c| && p == c[off..off + |p|]
    && off + |p| <= w.bufSt + WINDOW
  }

  lemma PassedGrows(got: set<int>, more: set<int>, x: int)
    requires Passed(got, x)
    ensures Passed(got + more, x)
  {
  }

  lemma PassedBetween(got: set<int>, x: int)
    requires Passed(got, x - 1) && Passed(got, x + 1)
    ensures Passed(got, x)
  {
  }

  /** What a fragment of the list covers has been passed. */
  lemma InPassed(w: Buffer, c: seq<byte>, got: set<int>, x: int)
    requires Holds(w, c, got) && In(w.inbuf, x)
    ensures w.bufSt <= x < |c| && x < w.bufSt + WINDOW && Passed(got, x)
  {
    assert HoldsAt(w, c, got, x);
  }

  /** The byte before a fragment's end. */
  lemma BeforeStop(w: Buffer, c: seq<byte>, got: set<int>, x: nat)
    requires Holds(w, c, got) && Stops(w.inbuf, x)
    ensures w.bufSt <= x && Passed(got, x - 1)
  {
    var r :| r in w.inbuf && Live(r) && r.stop == x;
    if r.start < r.stop {
      assert In(w.inbuf, x - 1);
      InPassed(w, c, got, x - 1);
    } else {
      assert HoldsAt(w, c, got, x - 1);
    }
  }

  /** The byte at a fragment's start. */
  lemma AtStart(w: Buffer, c: seq<byte>, got: set<int>, x: nat)
    requires Holds(w, c, got) && Starts(w.inbuf, x)
    ensures x == w.bufSt || (w.bufSt < x < |c| && x < w.bufSt + WINDOW && Passed(got, x))
  {
    var r :| r in w.inbuf && Live(r) && r.start == x;
    if r.start < r.stop {
      assert In(w.inbuf, x);
      InPassed(w, c, got, x);
    }
  }

  lemma GapPassed(w: Buffer, c: seq<byte>, got: set<int>, p: seq<byte>, off: int, x: int)
    requires Holds(w, c, got) && Fitting(w, c, p, off) && AddGap(w.inbuf, off, off + |p|, x)
    ensures w.bufSt <= x < |c| && x < w.bufSt + WINDOW && Passed(got + Range(off, |p|), x)
  {
    var more := got + Range(off, |p|);
    if x != off + |p| {
      BeforeStop(w, c, got, x);
      PassedGrows(got, Range(off, |p|), x - 1);
    }
    if x + 1 != off {
      AtStart(w, c, got, x + 1);
      PassedGrows(got, Range(off, |p|), x + 1);
    }
    PassedBetween(more, x);
  }

  lemma PlacedShape(w: Buffer, n: nat, p: seq<byte>, off: int, runs: seq<Run>)
    requires Shape(w, n) && w.bufSt <= off && off + |p| <= w.bufSt + WINDOW
    requires Tidy(runs) && NoNewEmpty(w.inbuf, runs) && Live(runs[0])
    requires Bounded(runs, w.bufSt, Min(n, w.bufSt + WINDOW))
    ensures Shape(Updated(w, p, off, runs), n)
  {
  }

  lemma PlacedPending(w: Buffer, c: seq<byte>, got: set<int>, p: seq<byte>, off: int, x: int, runs: seq<Run>)
    requires Holds(w, c, got) && Fitting(w, c, p, off) && AddedAt(w.inbuf, off, off + |p|, runs, x)
    ensures PendingAt(w.(inbuf := runs), c, got + Range(off, |p|), x)
  {
    assert HoldsAt(w, c, got, x);
    if Passed(got, x) {
      PassedGrows(got, Range(off, |p|), x);
    }
    if AddGap(w.inbuf, off, off + |p|, x) {
      GapPassed(w, c, got, p, off, x);
    }
  }

  lemma PlacedBytes(w: Buffer, c: seq<byte>, got: set<int>, p: seq<byte>, off: int, x: int)
    requires |w.buf| == WINDOW && Fitting(w, c, p, off) && OnDisk(w, c, got, x) && CellAt(w, c, got, x)
    ensures var t, more := w.(buf := CopyInto(w.buf, off - w.bufSt, p)), got + Range(off, |p|);
            OnDisk(t, c, more, x) && CellAt(t, c, more, x)
  {
    if Passed(got, x) {
      PassedGrows(got, Range(off, |p|), x);
    }
  }

  lemma PlacedAt(w: Buffer, c: seq<byte>, got: set<int>, p: seq<byte>, off: int, runs: seq<Run>, x: int)
    requires Holds(w, c, got) && Fitting(w, c, p, off) && AddedAt(w.inbuf, off, off + |p|, runs, x)
    ensures var t, more := Updated(w, p, off, runs), got + Range(off, |p|);
            HoldsAt(t, c, more, x)
  {
    PlacedPending(w, c, got, p, off, x, runs);
    assert HoldsAt(w, c, got, x);
    PlacedBytes(w, c, got, p, off, x);
  }

  lemma AddedHolds(w: Buffer, c: seq<byte>, got: set<int>, p: seq<byte>, off: int, runs: seq<Run>)
    requires Holds(w, c, got) && Fitting(w, c, p, off) && Added(w.inbuf, off, off + |p|, runs)
    ensures Holds(Updated(w, p, off, runs), c, got + Range(off, |p|))
  {
    AddedHead(w.inbuf, off, off + |p|, runs);
    PlacedShape(w, |c|, p, off, runs);
    var t, more := Updated(w, p, off, runs), got + Range(off, |p|);
    forall x
      ensures HoldsAt(t, c, more, x)
    {
      PlacedAt(w, c, got, p, off, runs, x);
    }
  }

  lemma PlacedHolds(w: Buffer, c: seq<byte>, got: set<int>, p: seq<byte>, off: int)
    requires Holds(w, c, got) && Fitting(w, c, p, off)
    ensures Holds(Placed(w, p, off), c, got + Range(off, |p|))
  {
    var runs := Add(w.inbuf, off, off + |p|, w.cap);
    AddKeeps(w.inbuf, off, off + |p|, w.cap);
    AddedHolds(w, c, got, p, off, runs);
  }

  /** A write at or after the window's start: it fails exactly if it ends beyond the window or the disk
      fails, and without failure the buffer holds the bytes, too. */
  lemma WriteHolds(w: Buffer, c: seq<byte>, got: set<int>, p: seq<byte>, off: int, d: Disk)
    requires Holds(w, c, got) && p != [] && w.bufSt <= off && off + |p| <= |c| && p == c[off..off + |p|]
    ensures var (t, failed) := Write(w, p, off, d);
            && (off + |p| > w.bufSt + WINDOW ==> failed && t == w)
            && (off + |p| <= w.bufSt + WINDOW ==> Holds(t, c, got + Range(off, |p|)))
            && (!failed ==> (Clean(w) ==> Clean(t)) && !BlockReady(t))
            && (failed && d.Healthy? ==> off + |p| > w.bufSt + WINDOW)
  {
    if off + |p| <= w.bufSt + WINDOW {
      PlacedHolds(w, c, got, p, off);
      ShiftHolds(Placed(w, p, off), c, got + Range(off, |p|), d);
    }
  }

  // ---------------------------------------------------------------- any write

  lemma {:induction false} ShiftDone(w: Buffer, d: Disk)
    ensures var (t, failed) := Shift(w, d); !failed ==> !BlockReady(t)
    decreases if w.inbuf == [] then 0 else Max(0, w.inbuf[0].stop - w.bufSt)
  {
    if BlockReady(w) && (d.Healthy? || d.blocks > 0) {
      ShiftDone(NextBlock(w), if d.Healthy? then d else Failing(d.blocks - 1, d.part));
    }
  }

  /** Wherever a write begins: behind the window it does nothing and succeeds, beyond its end it does nothing
      and fails, and after any other that succeeds no whole block heads the list. */
  lemma WriteDone(w: Buffer, p: seq<byte>, off: int, d: Disk)
    ensures var (t, failed) := Write(w, p, off, d);
            if off < w.bufSt && off + |p| <= w.bufSt then t == w && !failed
            else if off >= w.bufSt && off + |p| > w.bufSt + |w.buf| then t == w && failed
            else !failed ==> !BlockReady(t)
  {
    if off < w.bufSt {
      ShiftDone(Overlapped(w, p, w.bufSt - off), d);
    } else if off + |p| <= w.bufSt + |w.buf| {
      ShiftDone(Placed(w, p, off), d);
    }
  }

  /** `written` runs a block ahead of the window, once that has moved. */
  ghost predicate Counted(w: Buffer) {
    w.written == if w.bufSt == 0 then 0 else w.bufSt + BLOCK
  }

  /** The list began with three slots and grew one by one. */
  ghost predicate Allocated(w: Buffer) {
    |w.inbuf| >= 3 && w.cap == CapacityAt(|w.inbuf|)
  }

  lemma {:induction false} ShiftCounts(w: Buffer, d: Disk)
    requires Counted(w)
    ensures var t := Shift(w, d).0; Counted(t) && |t.inbuf| == |w.inbuf| && t.cap == w.cap
    decreases if w.inbuf == [] then 0 else Max(0, w.inbuf[0].stop - w.bufSt)
  {
    if BlockReady(w) && (d.Healthy? || d.blocks > 0) {
      ShiftCounts(NextBlock(w), if d.Healthy? then d else Failing(d.blocks - 1, d.part));
    }
  }

  lemma AddAllocates(w: Buffer, start: nat, stop: nat)
    requires Allocated(w)
    ensures var runs := Add(w.inbuf, start, stop, w.cap);
            |runs| >= 3 && Capacity(w.cap, |w.inbuf|, |runs|) == CapacityAt(|runs|)
  {
    AddLength(w.inbuf, start, stop, w.cap, 0, |w.inbuf|);
  }

  /** Both counters stay right over every sequence of writes. */
  lemma WriteCounts(w: Buffer, p: seq<byte>, off: int, d: Disk)
    requires Counted(w) && Allocated(w)
    ensures Counted(Write(w, p, off, d).0) && Allocated(Write(w, p, off, d).0)
  {
    if off < w.bufSt {
      if off + |p| > w.bufSt {
        var n := Min(|w.buf| - Min(w.bufSt - off, |w.buf|), |p|);
        AddAllocates(w, w.bufSt, w.bufSt + n);
        ShiftCounts(Overlapped(w, p, w.bufSt - off), d);
      }
    } else if off + |p| <= w.bufSt + |w.buf| {
      AddAllocates(w, off, off + |p|);
      ShiftCounts(Placed(w, p, off), d);
    }
  }

  lemma NewBufferCounts()
    ensures Counted(NewBuffer()) && Allocated(NewBuffer()) && |NewBuffer().inbuf| == 3
    ensures forall r <- NewBuffer().inbuf :: !Live(r)
  {
  }

  /** Exactly when `Flush` says that bytes are missing, on a disk that takes them: if a fragment ends behind
      the first one, which is at the window's start; or, if none is there, if one ends more than a block
      behind it, once the window has moved. A gap at its start in front of less than that goes unnoticed. */
  lemma FlushErrsIff(w: Buffer, n: nat)
    requires Shape(w, n) && Counted(w)
    ensures var end := if w.inbuf[0].start == w.bufSt then w.inbuf[0].stop
                       else if w.bufSt == 0 then 0 else w.bufSt + 4096;
            Flush(w, true).1 <==> exists r <- w.inbuf :: r.stop > end
  {
    assert w.inbuf[0] in w.inbuf;
  }

  /** Moving the cells down leaves the last block of the buffer as it was. */
  lemma {:induction false} ShiftLeavesEnd(w: Buffer, d: Disk)
    requires |w.buf| == WINDOW
    ensures var t := Shift(w, d).0; |t.buf| == WINDOW && t.buf[WINDOW - BLOCK..] == w.buf[WINDOW - BLOCK..]
    decreases if w.inbuf == [] then 0 else Max(0, w.inbuf[0].stop - w.bufSt)
  {
    if BlockReady(w) && (d.Healthy? || d.blocks > 0) {
      ShiftLeavesEnd(NextBlock(w), if d.Healthy? then d else Failing(d.blocks - 1, d.part));
      assert NextBlock(w).buf[WINDOW - BLOCK..] == w.buf[WINDOW - BLOCK..];
    }
  }

  /** When the disk fails, the file holds what StreamFunc has heard, but for the part of the last block that
      the disk did not take. */
  lemma {:induction false} ShiftFails(w: Buffer, c: seq<byte>, got: set<int>, d: Disk)
    requires Holds(w, c, got) && Clean(w) && Shift(w, d).1
    ensures var t := Shift(w, d).0;
            && d.Failing? && |Concat(t.streamed)| == t.bufSt + BLOCK
            && t.file == Concat(t.streamed)[..t.bufSt + Min(d.part, BLOCK)]
    decreases if w.inbuf == [] then 0 else Max(0, w.inbuf[0].stop - w.bufSt)
  {
    assert BlockReady(w);
    if d.Healthy? {
      ShiftHolds(w, c, got, d);
    } else if d.blocks > 0 {
      BlockHolds(w, c, got);
      ShiftFails(NextBlock(w), c, got, Failing(d.blocks - 1, d.part));
    } else {
      BlockRefused(w, d.part);
    }
  }

  lemma BlockRefused(w: Buffer, part: nat)
    requires |w.buf| == WINDOW && Clean(w) && BlockReady(w)
    ensures var t := Shift(w, Failing(0, part)).0;
            && |Concat(t.streamed)| == t.bufSt + BLOCK
            && t.file == Concat(t.streamed)[..t.bufSt + Min(part, BLOCK)]
  {
    var t := Shift(w, Failing(0, part)).0;
    assert t.streamed[..|t.streamed| - 1] == w.streamed;
    assert Concat(t.streamed) == w.file + w.buf[..BLOCK];
    Appended(w.file, w.buf[..BLOCK], Min(part, BLOCK));
    assert w.buf[..BLOCK][..Min(part, BLOCK)] == w.buf[..Min(part, BLOCK)];
  }

  lemma Appended(file: seq<byte>, p: seq<byte>, k: nat)
    requires k <= |p|
    ensures WriteAt(file, |file|, p[..k]) == (file + p)[..|file| + k]
  {
  }

  // ---------------------------------------------------------------- which blocks are taken

  /** Slot i holds a whole block at the window's start. */
  predicate BlockAt(w: Buffer, i: nat)
    requires i < |w.inbuf|
  {
    w.inbuf[i].start == w.bufSt && w.inbuf[i].stop >= w.bufSt + BLOCK
  }

  /** Among the first m slots that are in use, slot 0 holds the first fragment. */
  ghost predicate Led(runs: seq<Run>, m: nat) {
    0 < m <= |runs| && forall i | 0 <= i < m && Live(runs[i]) :: Live(runs[0]) && runs[0].start <= runs[i].start
  }

  ghost predicate Ahead(w: Buffer) {
    |w.buf| == WINDOW && Sound(w.inbuf) && AllApart(w.inbuf) && forall r <- w.inbuf :: Live(r) ==> w.bufSt <= r.start
  }

  lemma BlockAhead(w: Buffer, m: nat)
    requires Ahead(w) && Led(w.inbuf, m) && BlockReady(w)
    ensures Ahead(NextBlock(w)) && Led(NextBlock(w).inbuf, m)
  {
    var t := NextBlock(w).inbuf;
    assert w.inbuf[0] in w.inbuf;
    forall k | 0 <= k < |t|
      ensures t[k].start <= t[k].stop && (Live(t[k]) ==> w.bufSt + BLOCK <= t[k].start)
    {
      assert w.inbuf[k] in w.inbuf;
      if k > 0 && Live(t[k]) {
        DistinctSlots(w.inbuf, 0, k);
      }
    }
  }

  /** `shift` finds every block that is in these slots. */
  lemma {:induction false} ShiftTakes(w: Buffer, m: nat, d: Disk)
    requires Ahead(w) && Led(w.inbuf, m)
    ensures var (t, failed) := Shift(w, d);
            |t.inbuf| == |w.inbuf| && (!failed ==> forall i | 0 <= i < m :: !BlockAt(t, i))
    decreases if w.inbuf == [] then 0 else Max(0, w.inbuf[0].stop - w.bufSt)
  {
    if BlockReady(w) {
      BlockAhead(w, m);
      if d.Healthy? || d.blocks > 0 {
        ShiftTakes(NextBlock(w), m, if d.Healthy? then d else Failing(d.blocks - 1, d.part));
      }
    } else {
      forall i | 0 <= i < m
        ensures !BlockAt(w, i)
      {
        assert w.inbuf[0] in w.inbuf;
        if i > 0 && BlockAt(w, i) {
          DistinctSlots(w.inbuf, 0, i);
        }
      }
    }
  }

  lemma OrderedLed(runs: seq<Run>, m: nat)
    requires 0 < m <= |runs| && Ordered(runs[..m])
    ensures Led(runs, m)
  {
    assert forall i | 0 <= i < m :: runs[i] == runs[..m][i] && runs[i] in runs[..m];
  }

  /** After a write that did not have to move the list no whole block at the window's start is left behind,
      but perhaps in the slot appended just now. */
  lemma BlocksTaken(w: Buffer, n: nat, p: seq<byte>, off: int, d: Disk)
    requires Shape(w, n) && p != [] && w.bufSt <= off && off + |p| <= Min(n, w.bufSt + WINDOW)
    requires Appends(w.inbuf, off, off + |p|) ==> |w.inbuf| < w.cap
    ensures var (t, failed) := Write(w, p, off, d);
            && |t.inbuf| == |w.inbuf| + (if Appends(w.inbuf, off, off + |p|) then 1 else 0)
            && (!failed ==> forall i | 0 <= i < |w.inbuf| :: !BlockAt(t, i))
  {
    var s := Placed(w, p, off);
    AddKeeps(w.inbuf, off, off + |p|, w.cap);
    AddOrders(w.inbuf, off, off + |p|, w.cap);
    assert s.inbuf[..|w.inbuf|] == s.inbuf || |s.inbuf| == |w.inbuf| + 1;
    OrderedLed(s.inbuf, |w.inbuf|);
    ShiftTakes(s, |w.inbuf|, d);
  }

  // ---------------------------------------------------------------- what StreamFunc has heard

  ghost predicate HeardAt(f: seq<byte>, c: seq<byte>, got: set<int>, x: int) {
    0 <= x < |f| ==> x < |c| && Passed(got, x) && (x in got ==> f[x] == c[x])
  }

  /** StreamFunc has been given the beginning of c, in blocks. */
  ghost predicate Heard(w: Buffer, c: seq<byte>, got: set<int>) {
    (forall p <- w.streamed :: |p| == BLOCK) && forall x :: HeardAt(Concat(w.streamed), c, got, x)
  }

  lemma CleanHeard(w: Buffer, c: seq<byte>, got: set<int>)
    requires Holds(w, c, got) && Clean(w)
    ensures Heard(w, c, got)
  {
    forall x
      ensures HeardAt(w.file, c, got, x)
    {
      assert HoldsAt(w, c, got, x);
    }
  }

  /** A block that the disk then refuses has been heard already. */
  lemma RefusedHeard(w: Buffer, c: seq<byte>, got: set<int>)
    requires Holds(w, c, got) && Clean(w) && BlockReady(w)
    ensures Heard(Streamed(w), c, got)
  {
    var t := Streamed(w);
    assert t.streamed[..|t.streamed| - 1] == w.streamed;
    var f := w.file + w.buf[..BLOCK];
    assert Concat(t.streamed) == f;
    forall x
      ensures HeardAt(f, c, got, x)
    {
      assert HoldsAt(w, c, got, x);
      if w.bufSt <= x < w.bufSt + BLOCK {
        BlockIn(w, |c|, x);
      }
    }
  }

  lemma {:induction false} ShiftHeard(w: Buffer, c: seq<byte>, got: set<int>, d: Disk)
    requires Holds(w, c, got) && Clean(w)
    ensures Heard(Shift(w, d).0, c, got)
    decreases if w.inbuf == [] then 0 else Max(0, w.inbuf[0].stop - w.bufSt)
  {
    if !BlockReady(w) {
      CleanHeard(w, c, got);
    } else if d.Healthy? || d.blocks > 0 {
      BlockHolds(w, c, got);
      ShiftHeard(NextBlock(w), c, got, if d.Healthy? then d else Failing(d.blocks - 1, d.part));
    } else {
      RefusedHeard(w, c, got);
    }
  }

  lemma HeardGrows(w: Buffer, c: seq<byte>, got: set<int>, more: set<int>)
    requires Heard(w, c, got)
    requires forall x <- more :: !Passed(got, x)
    ensures Heard(w, c, got + more)
  {
    forall x
      ensures HeardAt(Concat(w.streamed), c, got + more, x)
    {
      assert HeardAt(Concat(w.streamed), c, got, x);
      if Passed(got, x) {
        PassedGrows(got, more, x);
      }
    }
  }

  lemma WriteHeard(w: Buffer, c: seq<byte>, got: set<int>, p: seq<byte>, off: int, d: Disk)
    requires Holds(w, c, got) && Clean(w) && p != [] && w.bufSt <= off && off + |p| <= |c| && p == c[off..off + |p|]
    requires forall x | off <= x < off + |p| :: !Passed(got, x)
    ensures Heard(Write(w, p, off, d).0, c, got + Range(off, |p|))
  {
    if off + |p| <= w.bufSt + WINDOW {
      PlacedHolds(w, c, got, p, off);
      ShiftHeard(Placed(w, p, off), c, got + Range(off, |p|), d);
    } else {
      CleanHeard(w, c, got);
      HeardGrows(w, c, got, Range(off, |p|));
    }
  }

  // ---------------------------------------------------------------- giving up

  /** Nothing is pending but, perhaps, one fragment at the very beginning of the file. */
  predicate Harmless(w: Buffer) {
    forall r <- w.inbuf :: r.start < r.stop ==> w.bufSt == 0 && r.start == 0
  }

  ghost predicate Tells(file: seq<byte>, c: seq<byte>, got: set<int>) {
    forall x <- got :: 0 <= x < |file| && x < |c| && file[x] == c[x]
  }

  /** Lines 350-352 of ff-udp-to-http.go. */
  function GiveUp(w: Buffer, size: int): Buffer {
    var flushed := FlushAll(w.(file := Truncate(w.file, size)));
    flushed.(file := Truncate(flushed.file, size))
  }

  ghost predicate FlushedSoFar(w: Buffer, c: seq<byte>, got: set<int>, k: nat, x: int)
    requires k <= |w.inbuf|
  {
    x in got && (x < w.bufSt || exists j | 0 <= j < k :: w.inbuf[j].start <= x < w.inbuf[j].stop) ==>
      0 <= x < |FlushRuns(w, k)| && x < |c| && FlushRuns(w, k)[x] == c[x]
  }

  lemma {:induction false} HarmlessRuns(w: Buffer, c: seq<byte>, got: set<int>, k: nat, x: int)
    requires Holds(w, c, got) && Harmless(w) && k <= |w.inbuf|
    ensures |FlushRuns(w, k)| <= Max(|w.file|, |c|)
    ensures |w.file| <= |FlushRuns(w, k)|
    ensures FlushedSoFar(w, c, got, k, x)
  {
    if k == 0 {
      assert HoldsAt(w, c, got, x);
    } else {
      HarmlessRuns(w, c, got, k - 1, x);
      assert w.inbuf[k - 1] in w.inbuf;
      assert HoldsAt(w, c, got, x);
    }
  }

  lemma TruncatedHolds(w: Buffer, c: seq<byte>, got: set<int>)
    requires Holds(w, c, got)
    ensures Holds(w.(file := Truncate(w.file, |c|)), c, got)
  {
    var t := w.(file := Truncate(w.file, |c|));
    forall x
      ensures HoldsAt(t, c, got, x)
    {
      assert HoldsAt(w, c, got, x);
    }
  }

  lemma HarmlessGiveUp(w: Buffer, c: seq<byte>, got: set<int>)
    requires Holds(w, c, got) && Harmless(w)
    ensures Tells(GiveUp(w, |c|).file, c, got)
  {
    TruncatedHolds(w, c, got);
    var t := w.(file := Truncate(w.file, |c|));
    forall x <- got
      ensures 0 <= x < |GiveUp(w, |c|).file| && GiveUp(w, |c|).file[x] == c[x]
    {
      HarmlessRuns(t, c, got, |t.inbuf|, x);
      assert HoldsAt(w, c, got, x);
      if x >= w.bufSt {
        var r :| r in w.inbuf && r.start <= x < r.stop;
        var j :| 0 <= j < |w.inbuf| && w.inbuf[j] == r;
      }
    }
  }

  // ---------------------------------------------------------------- the worker's flush

  /** All of c is there: one fragment is left, and `Flush` writes it. */
  lemma LastFragment(w: Buffer, c: seq<byte>, got: set<int>)
    requires Holds(w, c, got) && c != [] && forall x | 0 <= x < |c| :: x in got
    ensures w.bufSt <= |c| && w.inbuf[0].start == w.bufSt && w.inbuf[0].stop == |c|
    ensures forall r <- w.inbuf :: Live(r) ==> r == w.inbuf[0]
  {
    if w.bufSt < |c| {
      assert HoldsAt(w, c, got, w.bufSt);
      var k :| 0 <= k < |w.inbuf| && w.inbuf[k].start <= w.bufSt < w.inbuf[k].stop;
      FragmentToEnd(w, c, got, k);
      OnlyFragment(w, |c|, k);
    } else {
      assert HoldsAt(w, c, got, |c|);
      OnlyFragment(w, |c|, 0);
    }
  }

  lemma FragmentToEnd(w: Buffer, c: seq<byte>, got: set<int>, k: nat)
    requires Holds(w, c, got) && forall x | 0 <= x < |c| :: x in got
    requires k < |w.inbuf| && w.inbuf[k].start <= w.bufSt < w.inbuf[k].stop
    ensures w.inbuf[k] == Run(w.bufSt, |c|)
  {
    var e := w.inbuf[k].stop;
    assert w.inbuf[k] in w.inbuf;
    if e < |c| {
      assert HoldsAt(w, c, got, e);
      var l :| 0 <= l < |w.inbuf| && w.inbuf[l].start <= e < w.inbuf[l].stop;
      DistinctSlots(w.inbuf, k, l);
    }
  }

  lemma OnlyFragment(w: Buffer, n: nat, k: nat)
    requires Shape(w, n) && k < |w.inbuf| && Live(w.inbuf[k]) && w.inbuf[k] == Run(w.bufSt, n)
    ensures Live(w.inbuf[0]) && w.inbuf[0] == w.inbuf[k]
    ensures forall r <- w.inbuf :: Live(r) ==> r == w.inbuf[k]
  {
    assert w.inbuf[k] in w.inbuf;
    forall l | 0 <= l < |w.inbuf| && Live(w.inbuf[l])
      ensures l == k
    {
      assert w.inbuf[l] in w.inbuf;
      if l != k {
        DistinctSlots(w.inbuf, k, l);
      }
    }
  }

  /** `Flush` of a complete buffer makes the file the content and streams what was left of it. */
  lemma FlushComplete(w: Buffer, c: seq<byte>, got: set<int>)
    requires Holds(w, c, got) && Clean(w) && c != [] && forall x | 0 <= x < |c| :: x in got
    ensures var (t, failed) := Flush(w, true);
            !failed && t.file == c && w.bufSt <= |c| && t.streamed == w.streamed + [c[w.bufSt..]]
  {
    LastFragment(w, c, got);
    var piece := w.buf[..|c| - w.bufSt];
    forall x | w.bufSt <= x < |c|
      ensures x - w.bufSt < |piece| && piece[x - w.bufSt] == c[x]
    {
      assert HoldsAt(w, c, got, x);
    }
    assert piece == c[w.bufSt..];
    assert w.file == c[..w.bufSt] by {
      forall x | 0 <= x < w.bufSt
        ensures w.file[x] == c[x]
      {
        assert HoldsAt(w, c, got, x);
      }
    }
    assert Flush(w, true).0.file == c;
  }

  /** Bytes that came in order leave less than a block in the buffer. */
  lemma InOrderLeavesLittle(w: Buffer, c: seq<byte>, got: set<int>, p: nat)
    requires Holds(w, c, got) && !BlockReady(w) && p <= |c| && forall x :: x in got <==> 0 <= x < p
    ensures p < w.bufSt + BLOCK
  {
    if p >= w.bufSt + BLOCK {
      PrefixHolds(w, c, got, p);
      LastFragment(w, c[..p], got);
    }
  }

  lemma PrefixHolds(w: Buffer, c: seq<byte>, got: set<int>, p: nat)
    requires Holds(w, c, got) && w.bufSt <= p <= |c| && forall x :: x in got <==> 0 <= x < p
    ensures Holds(w, c[..p], got)
  {
    forall r <- w.inbuf | Live(r)
      ensures w.bufSt <= r.start && r.stop <= Min(p, w.bufSt + WINDOW)
    {
      if r.start < r.stop {
        assert In(w.inbuf, r.stop - 1);
        InPassed(w, c, got, r.stop - 1);
      }
    }
    forall x
      ensures HoldsAt(w, c[..p], got, x)
    {
      assert HoldsAt(w, c, got, x);
    }
  }

  /** A byte that was not passed is missing from the flushed file, and so is everything behind it. */
  lemma FlushStopsShort(w: Buffer, c: seq<byte>, got: set<int>, ok: bool, x: nat)
    requires Holds(w, c, got) && Clean(w) && !Passed(got, x) && x < |c|
    ensures |Flush(w, ok).0.file| <= x
  {
    assert HoldsAt(w, c, got, x);
    assert w.inbuf[0] in w.inbuf;
  }

  /** A byte that was not written is a zero of the flushed file, if the file gets that far. */
  lemma FlushHasZero(w: Buffer, c: seq<byte>, got: set<int>, ok: bool, x: nat)
    requires Holds(w, c, got) && Clean(w) && x !in got && x < WINDOW
    ensures var file := Flush(w, ok).0.file; x < |file| ==> file[x] == 0
  {
    assert HoldsAt(w, c, got, x);
  }

  // ---------------------------------------------------------------- exactly when giving up is harmless

  /** Where `FlushAll` puts fragment r. */
  predicate Lands(w: Buffer, r: Run, x: int) {
    r.start >= w.bufSt && r.start - w.bufSt <= x < r.stop - w.bufSt
  }

  lemma {:induction false} FlushMisses(w: Buffer, n: nat, k: nat, x: nat)
    requires Shape(w, n) && k <= |w.inbuf| && x < |w.file|
    requires forall j | 0 <= j < k :: !Lands(w, w.inbuf[j], x)
    ensures x < |FlushRuns(w, k)| && FlushRuns(w, k)[x] == w.file[x]
  {
    if k > 0 {
      FlushMisses(w, n, k - 1, x);
    }
  }

  lemma {:induction false} FlushHits(w: Buffer, n: nat, k: nat, j: nat, x: nat)
    requires Shape(w, n) && j < k <= |w.inbuf| && x < |w.file| && Lands(w, w.inbuf[j], x)
    requires forall l | j < l < k :: !Lands(w, w.inbuf[l], x)
    ensures x < |FlushRuns(w, k)| && FlushRuns(w, k)[x] == w.buf[x - (w.inbuf[j].start - w.bufSt)]
    decreases k
  {
    FlushGrows(w, k - 1);
    assert w.inbuf[k - 1] in w.inbuf;
    if j < k - 1 {
      FlushHits(w, n, k - 1, j, x);
    }
  }

  lemma {:induction false} FlushGrows(w: Buffer, k: nat)
    requires k <= |w.inbuf|
    ensures |FlushRuns(w, k)| >= |w.file|
  {
    if k > 0 {
      FlushGrows(w, k - 1);
    }
  }

  /** A content whose first byte differs from the others. */
  function Marker(n: nat, first: byte, others: byte): (d: seq<byte>)
    ensures |d| == n
  {
    seq(n, i => if i == 0 then first else others)
  }

  /** The same buffer, had the content been d. */
  ghost function Instead(w: Buffer, d: seq<byte>, got: set<int>): Buffer {
    w.(buf := seq(WINDOW, i requires 0 <= i => if i + w.bufSt in got && i + w.bufSt < |d| then d[i + w.bufSt] else 0),
       file := seq(|w.file|, i requires 0 <= i => if i in got && i < |d| then d[i] else 0))
  }

  ghost predicate SameShape(w: Buffer, v: Buffer) {
    w.bufSt == v.bufSt && w.inbuf == v.inbuf && w.cap == v.cap && |w.file| == |v.file| && w.written == v.written
  }

  lemma InsteadHolds(w: Buffer, c: seq<byte>, got: set<int>, d: seq<byte>)
    requires Holds(w, c, got) && |d| == |c|
    ensures Holds(Instead(w, d, got), d, got)
  {
    forall x
      ensures HoldsAt(Instead(w, d, got), d, got, x)
    {
      assert HoldsAt(w, c, got, x);
    }
  }

  /** A fragment written before its place: nothing but its neighbours' bytes come to byte x. */
  lemma LandsOnce(w: Buffer, n: nat, j: nat, l: nat, x: int)
    requires Shape(w, n) && j < |w.inbuf| && l < |w.inbuf| && j != l
    requires Lands(w, w.inbuf[j], x)
    ensures !Lands(w, w.inbuf[l], x)
  {
    if Live(w.inbuf[j]) && Live(w.inbuf[l]) {
      DistinctSlots(w.inbuf, j, l);
    }
  }

  /** The first byte of a fragment that follows a gap was written. */
  lemma StartGot(w: Buffer, c: seq<byte>, got: set<int>, j: nat)
    requires Holds(w, c, got) && j < |w.inbuf| && w.bufSt < w.inbuf[j].start < w.inbuf[j].stop
    ensures w.inbuf[j].start in got
  {
    var a := w.inbuf[j].start;
    assert In(w.inbuf, a);
    InPassed(w, c, got, a);
    assert HoldsAt(w, c, got, a - 1);
    if In(w.inbuf, a - 1) {
      var l :| 0 <= l < |w.inbuf| && w.inbuf[l].start <= a - 1 < w.inbuf[l].stop;
      DistinctSlots(w.inbuf, j, l);
    }
  }

  lemma FlushLands(w: Buffer, n: nat, j: nat, x: nat)
    requires Shape(w, n) && j < |w.inbuf| && x < |w.file| && Lands(w, w.inbuf[j], x)
    ensures x < |FlushAll(w).file| && FlushAll(w).file[x] == w.buf[x - (w.inbuf[j].start - w.bufSt)]
  {
    forall l | j < l < |w.inbuf|
      ensures !Lands(w, w.inbuf[l], x)
    {
      LandsOnce(w, n, j, l, x);
    }
    FlushHits(w, n, |w.inbuf|, j, x);
  }

  /** Giving up puts the beginning of the buffer where fragment j lands. */
  lemma LandsBeginning(w: Buffer, n: nat, j: nat)
    requires Shape(w, n) && j < |w.inbuf| && w.inbuf[j].start < w.inbuf[j].stop
    ensures var x := w.inbuf[j].start - w.bufSt;
            0 <= x < n && |GiveUp(w, n).file| == n && GiveUp(w, n).file[x] == w.buf[0]
  {
    assert w.inbuf[j] in w.inbuf;
    FlushLands(w.(file := Truncate(w.file, n)), n, j, w.inbuf[j].start - w.bufSt);
  }

  /** Giving up puts a wrong byte at x, which somebody had written. */
  ghost predicate Wrong(w: Buffer, d: seq<byte>, got: set<int>, x: int) {
    x in got && 0 <= x < |d| && x < |GiveUp(w, |d|).file| && GiveUp(w, |d|).file[x] != d[x]
  }

  /** A fragment behind a gap at the beginning gets the file's first bytes for its own. */
  lemma LandsWrong(w: Buffer, n: nat, got: set<int>, j: nat)
    requires Holds(w, Marker(n, 0, 1), got) && j < |w.inbuf| && w.bufSt == 0 < w.inbuf[j].start < w.inbuf[j].stop
    ensures Wrong(w, Marker(n, 0, 1), got, w.inbuf[j].start)
  {
    LandsBeginning(w, n, j);
    StartGot(w, Marker(n, 0, 1), got, j);
    assert HoldsAt(w, Marker(n, 0, 1), got, 0);
  }

  /** The cell for a byte that was passed over at the window's start is zero. */
  ghost predicate SteadyStart(w: Buffer, got: set<int>)
    requires |w.buf| == WINDOW
  {
    In(w.inbuf, w.bufSt) && w.bufSt !in got ==> w.buf[0] == 0
  }

  /** A fragment at the start of a window that has moved on overwrites the beginning of the file. */
  lemma Overwrites(w: Buffer, n: nat, got: set<int>, j: nat)
    requires Holds(w, Marker(n, 1, 0), got) && j < |w.inbuf| && 0 < w.bufSt == w.inbuf[j].start < w.inbuf[j].stop
    requires SteadyStart(w, got)
    ensures Wrong(w, Marker(n, 1, 0), got, 0)
  {
    LandsBeginning(w, n, j);
    assert w.inbuf[j] in w.inbuf && In(w.inbuf, w.bufSt);
    assert HoldsAt(w, Marker(n, 1, 0), got, 0) && HoldsAt(w, Marker(n, 1, 0), got, w.bufSt);
  }

  /** The last byte of the last fragment was written. */
  lemma EndGot(w: Buffer, c: seq<byte>, got: set<int>, j: nat)
    requires Holds(w, c, got) && j < |w.inbuf| && w.inbuf[j].start < w.inbuf[j].stop
    requires forall r <- w.inbuf :: r.stop <= w.inbuf[j].stop
    ensures w.inbuf[j].stop - 1 in got
  {
    var e := w.inbuf[j].stop;
    assert In(w.inbuf, e - 1);
    InPassed(w, c, got, e - 1);
    assert HoldsAt(w, c, got, e);
  }

  lemma {:induction false} LastRun(runs: seq<Run>, k: nat) returns (j: nat)
    requires 0 < k <= |runs|
    ensures j < k && forall l | 0 <= l < k :: runs[l].stop <= runs[j].stop
  {
    if k == 1 {
      j := 0;
    } else {
      j := LastRun(runs, k - 1);
      if runs[k - 1].stop > runs[j].stop {
        j := k - 1;
      }
    }
  }

  /** With the window moved on, the end of the last fragment is written nowhere. */
  lemma EndForgotten(w: Buffer, n: nat, got: set<int>, j: nat)
    requires Holds(w, Marker(n, 0, 1), got) && w.bufSt > 0 && |w.file| == w.bufSt
    requires j < |w.inbuf| && w.inbuf[j].start < w.inbuf[j].stop
    requires forall l | 0 <= l < |w.inbuf| :: w.inbuf[l].stop <= w.inbuf[j].stop
    ensures Wrong(w, Marker(n, 0, 1), got, w.inbuf[j].stop - 1)
  {
    assert w.inbuf[j] in w.inbuf;
    EndGot(w, Marker(n, 0, 1), got, j);
    var t := w.(file := Truncate(w.file, n));
    var x := w.inbuf[j].stop - 1;
    FlushMisses(t, n, |t.inbuf|, x);
  }

  /** A content and a byte of it that any buffer of this shape gets wrong; where a single byte was
      passed over, the cell for it must be zero. */
  lemma HarmfulGiveUp(w: Buffer, c: seq<byte>, got: set<int>) returns (d: seq<byte>, x: int)
    requires Holds(w, c, got) && (|w.file| == w.bufSt || BlockReady(w)) && !Harmless(w)
    ensures |d| == |c|
    ensures forall v | SameShape(w, v) && Holds(v, d, got) && SteadyStart(v, got) :: Wrong(v, d, got, x)
  {
    var r :| r in w.inbuf && r.start < r.stop && !(w.bufSt == 0 && r.start == 0);
    var j :| 0 <= j < |w.inbuf| && w.inbuf[j] == r;
    if w.bufSt == 0 {
      d, x := Marker(|c|, 0, 1), r.start;
      forall v | SameShape(w, v) && Holds(v, d, got)
        ensures Wrong(v, d, got, x)
      {
        LandsWrong(v, |c|, got, j);
      }
    } else if r.start == w.bufSt || BlockReady(w) {
      var k := if r.start == w.bufSt then j else 0;
      d, x := Marker(|c|, 1, 0), 0;
      forall v | SameShape(w, v) && Holds(v, d, got) && SteadyStart(v, got)
        ensures Wrong(v, d, got, x)
      {
        Overwrites(v, |c|, got, k);
      }
    } else {
      var last := LastRun(w.inbuf, |w.inbuf|);
      d, x := Marker(|c|, 0, 1), w.inbuf[last].stop - 1;
      forall v | SameShape(w, v) && Holds(v, d, got)
        ensures Wrong(v, d, got, x)
      {
        EndForgotten(v, |c|, got, last);
      }
    }
  }

  /** Giving up on the buffer keeps the bytes it was given, whatever they are, exactly when nothing is
      pending, or just one fragment at the beginning of the file. */
  lemma GiveUpKeepsIff(w: Buffer, c: seq<byte>, got: set<int>)
    requires Holds(w, c, got) && (|w.file| == w.bufSt || BlockReady(w))
    ensures (forall v, d | SameShape(w, v) && |d| == |c| && Holds(v, d, got) :: Tells(GiveUp(v, |d|).file, d, got))
       <==> Harmless(w)
  {
    if Harmless(w) {
      forall v, d | SameShape(w, v) && |d| == |c| && Holds(v, d, got)
        ensures Tells(GiveUp(v, |d|).file, d, got)
      {
        HarmlessGiveUp(v, d, got);
      }
    } else {
      var d, x := HarmfulGiveUp(w, c, got);
      InsteadHolds(w, c, got, d);
      assert Wrong(Instead(w, d, got), d, got, x);
    }
  }
}
