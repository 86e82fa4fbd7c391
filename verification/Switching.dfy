/** When the switch to direct writes keeps a file, over whole sequences of chunks. */
module Switching {
  import opened Words
  import opened Files
  import opened WriteBuffer
  import opened Storage

  /** Where the next chunk goes. */
  datatype Cut = Cut(off: nat, len: nat)

  function GotOf(cuts: seq<Cut>): set<int> {
    if cuts == [] then {} else GotOf(cuts[..|cuts| - 1]) + Range(cuts[|cuts| - 1].off, cuts[|cuts| - 1].len)
  }

  /** No chunk repeats or overlaps another, and no chunk but the last is a single byte: nothing is ever
      passed over. */
  ghost predicate Tiling(n: nat, cuts: seq<Cut>) {
    cuts == [] ||
    var init, k := cuts[..|cuts| - 1], cuts[|cuts| - 1];
    && Tiling(n, init)
    && 0 < k.len && k.off + k.len <= n && Fresh(GotOf(init), k.off, k.len)
    && forall x :: !Bridged(GotOf(cuts), x)
  }

  /** The store after these chunks of the content c, on a disk without errors. */
  ghost function Play(c: seq<byte>, cuts: seq<Cut>): Store
    requires Tiling(|c|, cuts)
  {
    if cuts == [] then NewStore()
    else
      var k := cuts[|cuts| - 1];
      Accept(Play(c, cuts[..|cuts| - 1]), |c|, k.off, Bytes(c, k), Healthy)
  }

  function Bytes(c: seq<byte>, k: Cut): (p: seq<byte>)
    requires 0 < k.len && k.off + k.len <= |c|
    ensures |p| == k.len && Piece(c, k.off, p)
  {
    c[k.off..k.off + k.len]
  }

  /** The reference: every chunk written straight to the file. */
  ghost function Direct(c: seq<byte>, cuts: seq<Cut>): seq<byte>
    requires Tiling(|c|, cuts)
  {
    if cuts == [] then []
    else
      var k := cuts[|cuts| - 1];
      WriteAt(Direct(c, cuts[..|cuts| - 1]), k.off, Bytes(c, k))
  }

  lemma {:induction false} PlayFaithful(c: seq<byte>, cuts: seq<Cut>)
    requires Tiling(|c|, cuts)
    ensures Faithful(Play(c, cuts), c, GotOf(cuts))
  {
    if cuts == [] {
      NewStoreFaithful(c);
    } else {
      var init, k := cuts[..|cuts| - 1], cuts[|cuts| - 1];
      PlayFaithful(c, init);
      AcceptKeeps(Play(c, init), c, GotOf(init), k.off, Bytes(c, k), Healthy);
    }
  }

  lemma {:induction false} DirectTellsAll(c: seq<byte>, cuts: seq<Cut>)
    requires Tiling(|c|, cuts)
    ensures Tells(Direct(c, cuts), c, GotOf(cuts)) && |Direct(c, cuts)| <= |c|
  {
    if cuts != [] {
      DirectTellsAll(c, cuts[..|cuts| - 1]);
    }
  }

  // ---------------------------------------------------------------- the bytes decide nothing

  ghost predicate SameStore(s: Store, t: Store) {
    s.noBuf == t.noBuf && s.spoiled == t.spoiled && |s.wab.buf| == |t.wab.buf| && SameShape(s.wab, t.wab)
  }

  lemma {:induction false} ShiftSameShape(w: Buffer, v: Buffer)
    requires SameShape(w, v) && |w.buf| == |v.buf|
    ensures var (w', f) := Shift(w, Healthy);
            var (v', g) := Shift(v, Healthy);
            f == g && SameShape(w', v') && |w'.buf| == |v'.buf|
    decreases if w.inbuf == [] then 0 else Max(0, w.inbuf[0].stop - w.bufSt)
  {
    if BlockReady(w) {
      ShiftSameShape(NextBlock(w), NextBlock(v));
    }
  }

  lemma OverlapSameShape(w: Buffer, v: Buffer, p: seq<byte>, q: seq<byte>, off: int)
    requires SameShape(w, v) && |w.buf| == |v.buf| && |p| == |q| && off < w.bufSt
    ensures var (w', f) := Write(w, p, off, Healthy);
            var (v', g) := Write(v, q, off, Healthy);
            f == g && SameShape(w', v') && |w'.buf| == |v'.buf|
  {
    if off + |p| > w.bufSt {
      ShiftSameShape(Overlapped(w, p, w.bufSt - off), Overlapped(v, q, w.bufSt - off));
    }
  }

  lemma WriteSameShape(w: Buffer, v: Buffer, p: seq<byte>, q: seq<byte>, off: int)
    requires SameShape(w, v) && |w.buf| == |v.buf| && |p| == |q|
    ensures var (w', f) := Write(w, p, off, Healthy);
            var (v', g) := Write(v, q, off, Healthy);
            f == g && SameShape(w', v') && |w'.buf| == |v'.buf|
  {
    if off < w.bufSt {
      OverlapSameShape(w, v, p, q, off);
    } else if off + |p| <= w.bufSt + |w.buf| {
      ShiftSameShape(Placed(w, p, off), Placed(v, q, off));
    }
  }

  lemma AcceptSameStore(s: Store, t: Store, size: nat, off: nat, p: seq<byte>, q: seq<byte>)
    requires SameStore(s, t) && |p| == |q|
    ensures SameStore(Accept(s, size, off, p, Healthy), Accept(t, size, off, q, Healthy))
  {
    if !s.noBuf {
      WriteSameShape(s.wab, t.wab, p, q, off);
    }
  }

  lemma {:induction false} PlaySameStore(c: seq<byte>, d: seq<byte>, cuts: seq<Cut>)
    requires |c| == |d| && Tiling(|c|, cuts)
    ensures SameStore(Play(c, cuts), Play(d, cuts))
  {
    if cuts != [] {
      var init, k := cuts[..|cuts| - 1], cuts[|cuts| - 1];
      PlaySameStore(c, d, init);
      AcceptSameStore(Play(c, init), Play(d, init), |c|, k.off, Bytes(c, k), Bytes(d, k));
    }
  }

  // ---------------------------------------------------------------- a spoiled file is wrong

  ghost predicate WrongByte(file: seq<byte>, d: seq<byte>, got: set<int>, x: int) {
    x in got && 0 <= x < |d| && |file| == |d| && file[x] != d[x]
  }

  /** The store that gives up with this piece. */
  lemma GivesUp(s: Store, c: seq<byte>, got: set<int>, off: nat, p: seq<byte>)
    requires Faithful(s, c, got) && Piece(c, off, p) && Fresh(got, off, |p|)
    requires !s.spoiled && Accept(s, |c|, off, p, Healthy).spoiled
    ensures !s.noBuf && !Harmless(s.wab) && Holds(s.wab, c, got) && |s.wab.file| == s.wab.bufSt
  {
    if !s.noBuf {
      FreshBehindWindow(s.wab, c, got, off, |p|);
      WriteHolds(s.wab, c, got, p, off, Healthy);
    }
  }

  lemma WrongAfter(t: Store, d: seq<byte>, got: set<int>, off: nat, p: seq<byte>, x: int)
    requires Holds(t.wab, d, got) && Piece(d, off, p) && Fresh(got, off, |p|)
    requires !t.noBuf && Accept(t, |d|, off, p, Healthy).spoiled && !t.spoiled && Wrong(t.wab, d, got, x)
    ensures WrongByte(Accept(t, |d|, off, p, Healthy).wab.file, d, got, x)
  {
    FreshBehindWindow(t.wab, d, got, off, |p|);
    WriteHolds(t.wab, d, got, p, off, Healthy);
    assert Passed(got, x);
    DirectKeeps(GiveUp(t.wab, |d|).file, d, got, off, p, x);
  }

  /** A piece written directly leaves the other bytes alone. */
  lemma DirectKeeps(file: seq<byte>, d: seq<byte>, got: set<int>, off: nat, p: seq<byte>, x: int)
    requires Piece(d, off, p) && Fresh(got, off, |p|) && Passed(got, x) && WrongByte(file, d, got, x)
    ensures WrongByte(WriteAt(file, off, p), d, got, x)
  {
  }

  /** The switch happens here, with bytes pending in the wrong place. */
  lemma SpoiledHere(c: seq<byte>, cuts: seq<Cut>) returns (d: seq<byte>, x: int)
    requires Tiling(|c|, cuts) && cuts != []
    requires Play(c, cuts).spoiled && !Play(c, cuts[..|cuts| - 1]).spoiled
    ensures |d| == |c| && WrongByte(Play(d, cuts).wab.file, d, GotOf(cuts), x)
  {
    var init, k := cuts[..|cuts| - 1], cuts[|cuts| - 1];
    var s, got := Play(c, init), GotOf(init);
    PlayFaithful(c, init);
    GivesUp(s, c, got, k.off, Bytes(c, k));
    d, x := HarmfulGiveUp(s.wab, c, got);
    var t := Play(d, init);
    PlaySameStore(c, d, init);
    PlaySameStore(c, d, cuts);
    PlayFaithful(d, init);
    SteadyWithoutBridges(t.wab, d, got, init);
    WrongAfter(t, d, got, k.off, Bytes(d, k), x);
  }

  lemma SteadyWithoutBridges(w: Buffer, d: seq<byte>, got: set<int>, cuts: seq<Cut>)
    requires Holds(w, d, got) && Tiling(|d|, cuts) && got == GotOf(cuts)
    ensures SteadyStart(w, got)
  {
    if Fragments.In(w.inbuf, w.bufSt) {
      InPassed(w, d, got, w.bufSt);
      assert cuts != [] ==> !Bridged(got, w.bufSt);
    }
  }

  lemma {:induction false} SpoiledIsWrong(c: seq<byte>, cuts: seq<Cut>) returns (d: seq<byte>, x: int)
    requires Tiling(|c|, cuts) && Play(c, cuts).spoiled
    ensures |d| == |c| && WrongByte(Play(d, cuts).wab.file, d, GotOf(cuts), x)
  {
    var init, k := cuts[..|cuts| - 1], cuts[|cuts| - 1];
    if Play(c, init).spoiled {
      d, x := SpoiledIsWrong(c, init);
      PlayFaithful(c, init);
      PlaySameStore(c, d, init);
      assert Passed(GotOf(init), x);
    } else {
      d, x := SpoiledHere(c, cuts);
    }
  }

  /** Chunks that make up the whole file leave it as direct writes would, whatever its bytes, if and only
      if the buffer was never given up with bytes pending elsewhere than at the beginning of the file. */
  lemma SwitchKeepsIff(c: seq<byte>, cuts: seq<Cut>)
    requires Tiling(|c|, cuts) && Complete(c, GotOf(cuts))
    ensures (forall d: seq<byte> | |d| == |c| :: Content(Play(d, cuts)) == Direct(d, cuts)) <==> !Play(c, cuts).spoiled
  {
    forall d: seq<byte> | |d| == |c|
      ensures Direct(d, cuts) == d
    {
      DirectTellsAll(d, cuts);
      assert |c| - 1 in GotOf(cuts);
    }
    if Play(c, cuts).spoiled {
      var d, x := SpoiledIsWrong(c, cuts);
      PlaySameStore(c, d, cuts);
      PlayFaithful(d, cuts);
    } else {
      forall d: seq<byte> | |d| == |c|
        ensures Content(Play(d, cuts)) == d
      {
        PlaySameStore(c, d, cuts);
        PlayFaithful(d, cuts);
        CompleteContent(Play(d, cuts), d, GotOf(cuts));
      }
    }
  }
}
