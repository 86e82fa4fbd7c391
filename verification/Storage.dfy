/**
 A job's temporary file behind its buffer, and the switch to direct writes when the buffer fails
 (ff-udp-to-http.go:345-361).
 */
module Storage {
  import opened Words
  import opened Files
  import opened Fragments
  import opened WriteBuffer

  /** `spoiled` is no variable of the program: it remembers that the switch found bytes pending that
      `FlushAll` puts in the wrong place. */
  datatype Store = Store(wab: Buffer, noBuf: bool, spoiled: bool)

  function NewStore(): Store {
    Store(NewBuffer(), false, false)
  }

  /** Line 360. */
  function WriteDirect(s: Store, off: int, p: seq<byte>): Store {
    s.(wab := s.wab.(file := WriteAt(s.wab.file, off, p)))
  }

  /** One accepted chunk: the buffered write, or on its failure the switch to direct writes. The errors of
      the switch and of the direct writes, which nobody looks at, are taken not to happen. */
  function Accept(s: Store, size: int, off: int, p: seq<byte>, d: Disk): Store {
    if s.noBuf then WriteDirect(s, off, p)
    else
      var (w, failed) := Write(s.wab, p, off, d);
      if !failed then s.(wab := w) else WriteDirect(Store(GiveUp(w, size), true, !Harmless(w)), off, p)
  }

  /** What the file will be: the worker's flush comes on top of what is there already. */
  function Content(s: Store): seq<byte> {
    if s.noBuf then s.wab.file else Flush(s.wab, true).0.file
  }

  // ---------------------------------------------------------------- what a store keeps

  /** Pending bytes are right where they are pending, so that a late flush does no harm. */
  ghost predicate PendingRight(w: Buffer, c: seq<byte>, got: set<int>) {
    && |w.buf| == WINDOW
    && forall x | In(w.inbuf, x) ::
         w.bufSt <= x < |c| && x < w.bufSt + WINDOW && Passed(got, x) && (x in got ==> w.buf[x - w.bufSt] == c[x])
  }

  /** The store holds the bytes `got` of c, unless it is spoiled; StreamFunc has heard right in any case. */
  ghost predicate Faithful(s: Store, c: seq<byte>, got: set<int>) {
    && (forall x <- got :: 0 <= x < |c|)
    && Heard(s.wab, c, got)
    && (!s.noBuf ==> Holds(s.wab, c, got) && Clean(s.wab) && !BlockReady(s.wab) && !s.spoiled)
    && (s.noBuf && !s.spoiled ==> |s.wab.file| == |c| && Tells(s.wab.file, c, got) && PendingRight(s.wab, c, got))
  }

  lemma NewStoreFaithful(c: seq<byte>)
    ensures Faithful(NewStore(), c, {})
  {
    NewBufferHolds(c);
  }

  /** Nobody has written the range, nor passed over it. */
  ghost predicate Fresh(got: set<int>, off: int, len: nat) {
    forall x | off <= x < off + len :: !Passed(got, x)
  }

  ghost predicate Piece(c: seq<byte>, off: int, p: seq<byte>) {
    0 <= off && p != [] && off + |p| <= |c| && p == c[off..off + |p|]
  }

  lemma FreshBehindWindow(w: Buffer, c: seq<byte>, got: set<int>, off: int, len: nat)
    requires Holds(w, c, got) && 0 <= off && 0 < len && Fresh(got, off, len)
    ensures w.bufSt <= off
  {
    assert HoldsAt(w, c, got, off);
  }

  lemma HoldsPendingRight(w: Buffer, c: seq<byte>, got: set<int>)
    requires Holds(w, c, got)
    ensures PendingRight(w, c, got)
  {
    forall x | In(w.inbuf, x)
      ensures w.bufSt <= x < |c| && x < w.bufSt + WINDOW && Passed(got, x) && (x in got ==> w.buf[x - w.bufSt] == c[x])
    {
      assert HoldsAt(w, c, got, x);
    }
  }

  lemma PendingStaysRight(w: Buffer, c: seq<byte>, got: set<int>, off: int, len: nat)
    requires PendingRight(w, c, got) && Fresh(got, off, len)
    ensures PendingRight(w, c, got + Range(off, len))
  {
    forall x | In(w.inbuf, x)
      ensures Passed(got + Range(off, len), x)
      ensures x in got + Range(off, len) ==> w.buf[x - w.bufSt] == c[x]
    {
      PassedGrows(got, Range(off, len), x);
    }
  }

  lemma DirectTells(file: seq<byte>, c: seq<byte>, got: set<int>, off: int, p: seq<byte>)
    requires Tells(file, c, got) && Piece(c, off, p) && |file| == |c|
    ensures var f := WriteAt(file, off, p); Tells(f, c, got + Range(off, |p|)) && |f| == |c|
  {
  }

  /** The switch: harmless buffers leave a file that tells everything, the new piece included. */
  lemma SwitchFaithful(w: Buffer, c: seq<byte>, got: set<int>, off: int, p: seq<byte>)
    requires Holds(w, c, got) && Harmless(w) && Piece(c, off, p)
    requires PendingRight(w, c, got + Range(off, |p|)) && Heard(w, c, got + Range(off, |p|))
    ensures Faithful(WriteDirect(Store(GiveUp(w, |c|), true, false), off, p), c, got + Range(off, |p|))
  {
    HarmlessGiveUp(w, c, got);
    DirectTells(GiveUp(w, |c|).file, c, got, off, p);
  }

  /** Whether one more piece makes the store give up on the buffer. */
  ghost predicate Fails(s: Store, off: int, len: nat, d: Disk) {
    d.Failing? || off + len > s.wab.bufSt + WINDOW
  }

  lemma BufferedKeeps(s: Store, c: seq<byte>, got: set<int>, off: int, p: seq<byte>, d: Disk)
    requires Faithful(s, c, got) && Piece(c, off, p) && Fresh(got, off, |p|) && !s.noBuf
    ensures var t := Accept(s, |c|, off, p, d);
            Faithful(t, c, got + Range(off, |p|)) && (t.noBuf ==> Fails(s, off, |p|, d))
  {
    FreshBehindWindow(s.wab, c, got, off, |p|);
    WriteHolds(s.wab, c, got, p, off, d);
    WriteHeard(s.wab, c, got, p, off, d);
    var (w, failed) := Write(s.wab, p, off, d);
    var more := got + Range(off, |p|);
    if failed && Harmless(w) {
      if off + |p| > s.wab.bufSt + WINDOW {
        HoldsPendingRight(w, c, got);
        PendingStaysRight(w, c, got, off, |p|);
        SwitchFaithful(w, c, got, off, p);
      } else {
        HoldsPendingRight(w, c, more);
        assert more + Range(off, |p|) == more;
        SwitchFaithful(w, c, more, off, p);
      }
    }
  }

  /** One chunk more: what was there stays, the chunk is there, and the buffer is given up only when the
      chunk ends beyond the window or the disk fails. */
  lemma AcceptKeeps(s: Store, c: seq<byte>, got: set<int>, off: int, p: seq<byte>, d: Disk)
    requires Faithful(s, c, got) && Piece(c, off, p) && Fresh(got, off, |p|)
    ensures var t := Accept(s, |c|, off, p, d);
            && Faithful(t, c, got + Range(off, |p|))
            && (s.noBuf ==> t.noBuf && t.spoiled == s.spoiled)
            && (t.noBuf ==> s.noBuf || Fails(s, off, |p|, d))
  {
    if !s.noBuf {
      BufferedKeeps(s, c, got, off, p, d);
      return;
    }
    HeardGrows(s.wab, c, got, Range(off, |p|));
    if !s.spoiled {
      DirectTells(s.wab.file, c, got, off, p);
      PendingStaysRight(s.wab, c, got, off, |p|);
    }
  }

  ghost predicate Complete(c: seq<byte>, got: set<int>) {
    c != [] && forall x | 0 <= x < |c| :: x in got
  }

  /** A complete store that is not spoiled has the content. */
  lemma CompleteContent(s: Store, c: seq<byte>, got: set<int>)
    requires Faithful(s, c, got) && Complete(c, got) && !s.spoiled
    ensures Content(s) == c
  {
    if s.noBuf {
      assert forall x | 0 <= x < |c| :: s.wab.file[x] == c[x];
    } else {
      FlushComplete(s.wab, c, got);
    }
  }
}
