/**
 The write buffer as it runs, statement by statement, on its array and its list of fragments. Its calls
 are the functions of modules WriteBuffer and Fragments.
 */
module BufferedFile {
  import opened Words
  import opened Files
  import opened Fragments
  import WB = WriteBuffer

  /** `condense`, after the sort. */
  method CondenseList(runs: seq<Run>) returns (seen: seq<Run>)
    ensures seen == Condense(runs)
  {
    seen := Sorted(runs);
    var i := 0;
    while i < |seen|
      invariant i <= |seen| && MergeFrom(seen, i) == Condense(runs)
      decreases LiveCount(seen), |seen| - i
    {
      if seen[i].stop == 0 {
        i := i + 1;
        continue;
      }
      ghost var before := seen;
      SweepCount(seen, i, i + 1);
      var workDone := false;
      for j := i + 1 to |seen|
        invariant |seen| == |before| && Sweep(seen, i, j) == Sweep(before, i, i + 1)
        invariant Live(seen[i])
        invariant if workDone then LiveCount(seen) < LiveCount(before) else seen == before
      {
        if seen[j].stop == 0 {
          continue;
        }
        if seen[i].stop + 1 >= seen[j].start && seen[j].stop + 1 >= seen[i].start {
          LiveCountSet(seen, i, Joined(seen[i], seen[j]));
          LiveCountSet(seen[i := Joined(seen[i], seen[j])], j, FREE);
          seen := seen[i := Joined(seen[i], seen[j])][j := FREE];
          workDone := true;
        }
      }
      if !workDone {
        i := i + 1;
      }
    }
  }

  /** `add` on a slice of this capacity; the deferred `condense` works on the slice there was before an
      append, which is no longer part of the list if the append had to move it. */
  method AddTo(inbuf: seq<Run>, start: nat, stop: nat, cap: nat) returns (s: seq<Run>, room: nat)
    ensures s == Add(inbuf, start, stop, cap) && room == Capacity(cap, |inbuf|, |s|)
  {
    var recPos: nat := |inbuf|;
    room := cap;
    for i := 0 to |inbuf|
      invariant recPos <= |inbuf| && Add(inbuf, start, stop, cap, i, recPos) == Add(inbuf, start, stop, cap)
    {
      if Touches(inbuf[i], start, stop) {
        s := CondenseList(inbuf[i := Joined(inbuf[i], Run(start, stop))]);
        return;
      }
      if inbuf[i].stop == 0 && recPos == |inbuf| {
        recPos := i;
      }
    }
    if recPos == |inbuf| {
      var seen := inbuf + [Run(start, stop)];
      if |seen| <= cap {
        s := CondenseList(inbuf);
        s := s + [Run(start, stop)];
      } else {
        s, room := seen, Capacity(cap, |inbuf|, |seen|);
      }
    } else {
      s := CondenseList(inbuf[recPos := Run(start, stop)]);
    }
  }

  class WriterAtBuf {
    const buf: array<byte>
    var bufSt: nat
    var inbuf: seq<Run>
    var cap: nat                  // of inbuf
    var written: nat
    var file: seq<byte>           // what fh holds
    var streamed: seq<seq<byte>>  // what StreamFunc has been called with

    ghost function Value(): WB.Buffer
      reads this, buf
    {
      WB.Buffer(buf[..], bufSt, inbuf, cap, written, file, streamed)
    }

    constructor ()
      ensures fresh(buf) && Value() == WB.NewBuffer()
    {
      buf := new byte[WB.WINDOW](_ => 0);
      bufSt, inbuf, cap, written, file, streamed := 0, [FREE, FREE, FREE], 3, 0, [], [];
      new;
      assert buf[..] == Zeros(WB.WINDOW);
    }

    /** The cells move down by a block; the last block stays as it was. */
    method MoveDown()
      requires buf.Length >= WB.BLOCK
      modifies buf
      ensures buf[..] == old(buf[WB.BLOCK..]) + old(buf[buf.Length - WB.BLOCK..])
    {
      var i, j := 0, WB.BLOCK;
      while j < buf.Length
        invariant j == i + WB.BLOCK && j <= buf.Length
        invariant forall k | 0 <= k < i :: buf[k] == old(buf[k + WB.BLOCK])
        invariant forall k | i <= k < buf.Length :: buf[k] == old(buf[k])
      {
        buf[i] := buf[j];
        i, j := i + 1, j + 1;
      }
    }

    /** Go's `copy(w.buf[at:], p)`. */
    method Copy(at: nat, p: seq<byte>)
      requires at <= buf.Length
      modifies buf
      ensures buf[..] == WB.CopyInto(old(buf[..]), at, p)
    {
      var n := Min(buf.Length - at, |p|);
      forall i | 0 <= i < n {
        buf[at + i] := p[i];
      }
    }

    method Shift(d: WB.Disk) returns (failed: bool)
      modifies this, buf
      ensures (Value(), failed) == WB.Shift(old(Value()), d)
    {
      var disk := d;
      while buf.Length >= WB.BLOCK && inbuf != [] && inbuf[0].start == bufSt && inbuf[0].stop >= bufSt + WB.BLOCK
        invariant WB.Shift(Value(), disk) == WB.Shift(old(Value()), d)
        decreases if inbuf == [] then 0 else Max(0, inbuf[0].stop - bufSt)
      {
        ghost var w := Value();
        streamed := streamed + [buf[..WB.BLOCK]];
        if disk.Failing? && disk.blocks == 0 {
          file := WriteAt(file, bufSt, buf[..Min(disk.part, WB.BLOCK)]);
          return true;
        }
        file := WriteAt(file, bufSt, buf[..WB.BLOCK]);
        var chunkEnd := bufSt + WB.BLOCK;
        bufSt, inbuf, written := chunkEnd, inbuf[0 := Run(chunkEnd, inbuf[0].stop)], chunkEnd + WB.BLOCK;
        MoveDown();
        assert Value() == WB.NextBlock(w);
        if disk.Failing? {
          disk := WB.Failing(disk.blocks - 1, disk.part);
        }
      }
      return false;
    }

    /** The branch for a write that begins before the window and reaches into it. */
    method PickUp(p: seq<byte>, behind: nat)
      modifies this, buf
      ensures Value() == WB.Overlapped(old(Value()), p, behind)
    {
      var at := Min(behind, buf.Length);
      var n := Min(buf.Length - at, |p|);
      Copy(at, p);
      inbuf, cap := AddTo(inbuf, bufSt, bufSt + n, cap);
    }

    /** The branch for a hit. */
    method Put(p: seq<byte>, off: nat)
      requires bufSt <= off && off + |p| <= bufSt + buf.Length
      modifies this, buf
      ensures Value() == WB.Placed(old(Value()), p, off)
    {
      inbuf, cap := AddTo(inbuf, off, off + |p|, cap);
      Copy(off - bufSt, p);
    }

    method Write(p: seq<byte>, off: int, d: WB.Disk) returns (failed: bool)
      modifies this, buf
      ensures (Value(), failed) == WB.Write(old(Value()), p, off, d)
    {
      var offEnd, bufEnd := off + |p|, bufSt + buf.Length;
      if off < bufSt {
        if offEnd <= bufSt {
          return false;
        }
        PickUp(p, bufSt - off);
      } else {
        if offEnd > bufEnd {
          return true;
        }
        Put(p, off);
      }
      failed := Shift(d);
    }

    method FlushAll()
      modifies this`file
      ensures Value() == WB.FlushAll(old(Value()))
    {
      for k := 0 to |inbuf|
        invariant inbuf == old(inbuf) && file == WB.FlushRuns(old(Value()), k)
      {
        var r := inbuf[k];
        if r.start >= bufSt {
          file := WriteAt(file, r.start - bufSt, buf[..Max(0, Min(r.stop - r.start, buf.Length))]);
        }
      }
    }

    method Flush(ok: bool) returns (failed: bool)
      modifies this
      ensures (Value(), failed) == WB.Flush(old(Value()), ok)
    {
      if inbuf != [] && inbuf[0].start == bufSt {
        var piece := buf[..Max(0, Min(inbuf[0].stop - bufSt, buf.Length))];
        streamed := streamed + [piece];
        if !ok {
          return true;
        }
        file := WriteAt(file, bufSt, piece);
        written := bufSt + |piece|;
      }
      for k := 0 to |inbuf|
        invariant forall l | 0 <= l < k :: inbuf[l].stop <= written
      {
        if inbuf[k].stop > written {
          assert inbuf[k] in inbuf;
          return true;
        }
      }
      return false;
    }
  }
}
