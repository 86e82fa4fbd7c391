/** Exactly which losses a transfer survives, and exactly when the stated assumptions are needed. */
module LossTolerance {
  import opened Words
  import opened Wire
  import opened WriteBuffer
  import opened Storage
  import opened Sender
  import opened Reassembly
  import opened Delivery

  ghost predicate IsDataChunk(t: Transfer, k: nat)
    requires Sendable(t)
  {
    k < Chunks(t) && k < Packets(t)
  }

  ghost predicate Covered(t: Transfer, es: seq<Event>, k: nat)
    requires Sendable(t) && k < Packets(t)
  {
    exists e <- es :: e.dat == Packet(t, k)
  }

  ghost predicate AllCovered(t: Transfer, es: seq<Event>)
    requires Sendable(t)
  {
    forall k: nat | IsDataChunk(t, k) :: Covered(t, es, k)
  }

  ghost predicate AllFrom(t: Transfer, es: seq<Event>)
    requires Sendable(t)
  {
    forall e <- es :: e.dat in Emission(t)
  }

  /** Nothing can make the buffer fail. */
  ghost predicate Calm(t: Transfer, es: seq<Event>) {
    |t.stream| <= WINDOW && AllHealthy(es)
  }

  /** A job of t after these datagrams. */
  ghost predicate JobOf(t: Transfer, cap: nat, es: seq<Event>, job: Job) {
    JobFaithful(t, cap, job) && (Calm(t, es) ==> !job.store.noBuf)
  }

  /** The receiver after some datagrams of t, having worked on something else before. */
  ghost predicate Progressed(t: Transfer, cap: nat, before: State, es: seq<Event>, s: State) {
    && Receivable(t)
    && !s.crashed && s.uuid == t.uuid
    && if AllCovered(t, es) then
         && s.done && s.job.None?
         && |s.queue| == |before.queue| + 1 && s.queue[..|before.queue|] == before.queue
         && JobOf(t, cap, es, s.queue[|before.queue|]) && AllSeen(s.queue[|before.queue|].seen)
       else
         && !s.done && s.queue == before.queue
         && s.job.Some? && JobOf(t, cap, es, s.job.value)
         && forall k: nat | IsDataChunk(t, k) :: s.job.value.seen[k] == 1 <==> Covered(t, es, k)
  }

  lemma CalmPrefix(t: Transfer, es: seq<Event>, e: Event)
    ensures Calm(t, es + [e]) <==> Calm(t, es) && e.disk.Healthy?
  {
    assert e in es + [e];
    assert forall x <- es :: x in es + [e];
  }

  lemma WrittenJobOf(t: Transfer, cap: nat, es: seq<Event>, job: Job, e: Event, k: nat)
    requires JobOf(t, cap, es, job) && HEADER_SIZE < cap && IsDataChunk(t, k) && job.seen[k] == 0
    ensures JobOf(t, cap, es + [e], Written(t, cap, job, k, e.disk))
  {
    CalmPrefix(t, es, e);
    WrittenFaithful(t, cap, job, k, e.disk);
    if Calm(t, es + [e]) {
      WrittenBuffered(t, cap, job, k);
    }
  }

  lemma CoveredExtends(t: Transfer, es: seq<Event>, e: Event, k: nat)
    requires Sendable(t) && k < Packets(t)
    ensures Covered(t, es + [e], k) <==> Covered(t, es, k) || e.dat == Packet(t, k)
  {
    if Covered(t, es, k) {
      var x :| x in es && x.dat == Packet(t, k);
      assert x in es + [e];
    }
    if e.dat == Packet(t, k) {
      assert e in es + [e];
    }
  }

  lemma ChunksWithinPackets(t: Transfer)
    requires Receivable(t)
    ensures 0 < Chunks(t) <= Packets(t)
  {
    CeilingForms(|t.stream|, t.chunk);
    QuotientLocates(|t.stream| - 1, t.chunk);
  }

  lemma EmptyProgress(t: Transfer, cap: nat, before: State, es: seq<Event>, s: State, e: Event)
    requires Receivable(t) && e.dat in Emission(t) && |e.dat| == HEADER_SIZE < cap
    requires if es == [] then s == before && s.uuid != t.uuid && !s.crashed
             else Progressed(t, cap, before, es, s)
    ensures Progressed(t, cap, before, es + [e], Step(cap, s, e))
  {
    EmptyStep(t, cap, s, e);
    ChunksWithinPackets(t);
    CalmPrefix(t, es, e);
    forall k: nat | IsDataChunk(t, k)
      ensures Covered(t, es + [e], k) <==> Covered(t, es, k)
    {
      CoveredExtends(t, es, e, k);
      PacketFields(t, k);
      DataChunkIff(t, k);
    }
    if es == [] {
      assert IsDataChunk(t, 0) && !Covered(t, es, 0);
      FreshJobFaithful(t, cap, HeaderOf(e.dat)) by {
        var k := PacketShape(t, e.dat);
      }
    } else {
      assert AllCovered(t, es) <==> AllCovered(t, es + [e]);
    }
  }

  lemma CoveredOnce(t: Transfer, es: seq<Event>, e: Event, k: nat)
    requires Receivable(t) && IsDataChunk(t, k) && e.dat == Packet(t, k)
    ensures forall j: nat | IsDataChunk(t, j) :: Covered(t, es + [e], j) <==> Covered(t, es, j) || j == k
  {
    forall j: nat | IsDataChunk(t, j)
      ensures Covered(t, es + [e], j) <==> Covered(t, es, j) || j == k
    {
      CoveredExtends(t, es, e, j);
      if e.dat == Packet(t, j) {
        PacketsDiffer(t, j, k);
      }
    }
  }

  /** The receiver on t, before it has all of it. */
  ghost predicate Working(t: Transfer, cap: nat, before: State, es: seq<Event>, s: State) {
    && Receivable(t)
    && !s.crashed && s.uuid == t.uuid && !s.done && s.queue == before.queue
    && s.job.Some? && JobOf(t, cap, es, s.job.value)
    && forall k: nat | IsDataChunk(t, k) :: s.job.value.seen[k] == 1 <==> Covered(t, es, k)
  }

  lemma NewChunkProgress(t: Transfer, cap: nat, before: State, es: seq<Event>, s: State, e: Event, k: nat)
    requires Working(t, cap, before, es, s) && HEADER_SIZE < cap
    requires IsDataChunk(t, k) && e.dat == Packet(t, k) && s.job.value.seen[k] == 0
    ensures Progressed(t, cap, before, es + [e], Finished(s, Written(t, cap, s.job.value, k, e.disk)))
  {
    var job := s.job.value;
    WrittenJobOf(t, cap, es, job, e, k);
    CoveredOnce(t, es, e, k);
    ChunksWithinPackets(t);
    var seen := Written(t, cap, job, k, e.disk).seen;
    assert forall j: nat | IsDataChunk(t, j) :: seen[j] == 1 <==> Covered(t, es + [e], j);
    assert AllSeen(seen) <==> AllCovered(t, es + [e]) by {
      assert forall j: nat | j < |seen| :: IsDataChunk(t, j);
    }
  }

  lemma OldChunkProgress(t: Transfer, cap: nat, before: State, es: seq<Event>, s: State, e: Event, k: nat)
    requires Progressed(t, cap, before, es, s) && IsDataChunk(t, k) && e.dat == Packet(t, k)
    requires s.done || s.job.value.seen[k] == 1
    ensures Progressed(t, cap, before, es + [e], s)
  {
    CalmPrefix(t, es, e);
    CoveredOnce(t, es, e, k);
    assert AllCovered(t, es + [e]) <==> AllCovered(t, es);
  }

  lemma OpenedWorking(t: Transfer, cap: nat, before: State, h: Header)
    requires Receivable(t) && before.uuid != t.uuid && !before.crashed
    requires h.uuid == t.uuid && h.size == |t.stream| && h.mtu == t.chunk
    ensures Working(t, cap, before, [], Opened(t, before, h))
  {
    FreshJobFaithful(t, cap, h);
    ChunksWithinPackets(t);
  }

  lemma ChunkProgress(t: Transfer, cap: nat, before: State, es: seq<Event>, s: State, e: Event, k: nat)
    requires Receivable(t) && IsDataChunk(t, k) && e.dat == Packet(t, k) && HEADER_SIZE < cap
    requires if es == [] then s == before && s.uuid != t.uuid && !s.crashed
             else Progressed(t, cap, before, es, s)
    ensures Progressed(t, cap, before, es + [e], Step(cap, s, e))
  {
    ChunkStep(t, cap, s, e, k);
    PacketFields(t, k);
    var s1 := Opened(t, s, HeaderOf(e.dat));
    if es == [] {
      OpenedWorking(t, cap, before, HeaderOf(e.dat));
      NewChunkProgress(t, cap, before, es, s1, e, k);
    } else if s.done || s.job.value.seen[k] == 1 {
      OldChunkProgress(t, cap, before, es, s, e, k);
    } else {
      NewChunkProgress(t, cap, before, es, s, e, k);
    }
  }

  /** Whatever arrives of one transfer, in whatever order and how often: the bitmap is the set of
      chunks that arrived, and the job leaves when it is full, once. */
  lemma {:induction false} TransferProgress(t: Transfer, cap: nat, before: State, es: seq<Event>)
    requires Receivable(t) && HEADER_SIZE < cap && es != [] && AllFrom(t, es)
    requires before.uuid != t.uuid && !before.crashed
    ensures Progressed(t, cap, before, es, Run(cap, before, es))
  {
    var init, e := es[..|es| - 1], es[|es| - 1];
    assert es == init + [e];
    assert forall x <- init :: x in es;
    if init != [] {
      TransferProgress(t, cap, before, init);
    }
    var k := PacketShape(t, e.dat);
    match k
    case None => EmptyProgress(t, cap, before, init, Run(cap, before, init), e);
    case Some(j) => ChunkProgress(t, cap, before, init, Run(cap, before, init), e, j);
  }

  /** Which datagram of the emission arrived, and what the disk did. */
  datatype Arrival = Arrival(index: nat, disk: Disk)

  ghost function Arrived(t: Transfer, picks: seq<Arrival>): (es: seq<Event>)
    requires Sendable(t) && forall p <- picks :: p.index < |Emission(t)|
    ensures |es| == |picks|
  {
    seq(|picks|, i requires 0 <= i < |picks| => assert picks[i] in picks;
      Event(Emission(t)[picks[i].index], picks[i].disk))
  }

  /** Chunk k got through in the first or in the second pass. */
  ghost predicate GotThrough(t: Transfer, picks: seq<Arrival>, k: nat)
    requires Sendable(t)
  {
    exists p <- picks :: p.index == 1 + k || p.index == 1 + Packets(t) + k
  }

  lemma EmissionAt(t: Transfer, n: nat)
    requires Sendable(t) && n < |Emission(t)|
    ensures |Emission(t)| == 1 + 2 * Packets(t)
    ensures n == 0 ==> Emission(t)[n] == Wakeup(t)
    ensures 0 < n <= Packets(t) ==> Emission(t)[n] == Packet(t, n - 1)
    ensures n > Packets(t) ==> Emission(t)[n] == Packet(t, n - 1 - Packets(t))
  {
  }

  lemma CoveredByEmission(t: Transfer, n: nat, k: nat)
    requires Receivable(t) && IsDataChunk(t, k) && n < |Emission(t)|
    ensures Emission(t)[n] == Packet(t, k) <==> n == 1 + k || n == 1 + Packets(t) + k
  {
    EmissionAt(t, n);
    if n == 0 {
      WakeupIsNoChunk(t, k);
    } else {
      var j := if n <= Packets(t) then n - 1 else n - 1 - Packets(t);
      if Packet(t, j) == Packet(t, k) {
        PacketsDiffer(t, j, k);
      }
    }
  }

  lemma WakeupIsNoChunk(t: Transfer, k: nat)
    requires Receivable(t) && IsDataChunk(t, k)
    ensures Wakeup(t) != Packet(t, k)
  {
    PacketFields(t, k);
    DataChunkIff(t, k);
  }

  lemma CoveredIsGotThrough(t: Transfer, picks: seq<Arrival>, k: nat)
    requires Receivable(t) && IsDataChunk(t, k) && forall p <- picks :: p.index < |Emission(t)|
    ensures Covered(t, Arrived(t, picks), k) <==> GotThrough(t, picks, k)
  {
    var es := Arrived(t, picks);
    forall i | 0 <= i < |picks|
      ensures picks[i] in picks && es[i] in es
      ensures es[i].dat == Packet(t, k) <==> picks[i].index == 1 + k || picks[i].index == 1 + Packets(t) + k
    {
      assert picks[i] in picks && es[i] in es;
      CoveredByEmission(t, picks[i].index, k);
    }
    if Covered(t, es, k) {
      var i :| 0 <= i < |es| && es[i].dat == Packet(t, k);
      assert picks[i] in picks;
    }
    if GotThrough(t, picks, k) {
      var i :| 0 <= i < |picks| && (picks[i].index == 1 + k || picks[i].index == 1 + Packets(t) + k);
      assert es[i] in es;
    }
  }

  /** No write can fail: the stream fits into the window and the disk makes no errors. */
  ghost predicate Undisturbed(t: Transfer, picks: seq<Arrival>) {
    |t.stream| <= WINDOW && forall p <- picks :: p.disk.Healthy?
  }

  ghost predicate AllThrough(t: Transfer, picks: seq<Arrival>)
    requires Sendable(t)
  {
    forall k: nat | k < Chunks(t) :: GotThrough(t, picks, k)
  }

  /** Exact loss tolerance: from any state in which the receiver is on another transfer, any choice
      of what arrives of this one queues a job if and only if every chunk got through in at least one
      of the two passes. It is queued once, and the queue is otherwise left alone; until the UUID
      changes nothing more of the transfer has an effect. The job holds the exact stream unless it was
      spoilt, which takes a stream of more than 32 MiB or a disk error. */
  lemma ExactLossTolerance(t: Transfer, cap: nat, before: State, picks: seq<Arrival>)
    requires Receivable(t) && Fits(t, cap) && picks != [] && forall p <- picks :: p.index < |Emission(t)|
    requires before.uuid != t.uuid && !before.crashed
    ensures var s := Run(cap, before, Arrived(t, picks));
            && !s.crashed && s.uuid == t.uuid
            && (s.queue != before.queue <==> AllThrough(t, picks))
            && (s.queue != before.queue ==>
                  && s.done && s.job.None?
                  && |s.queue| == |before.queue| + 1 && s.queue[..|before.queue|] == before.queue
                  && var q := s.queue[|before.queue|];
                     && q.hdr.uuid == t.uuid
                     && (!q.store.spoiled ==> Content(q.store) == t.stream)
                     && (Undisturbed(t, picks) ==> !q.store.spoiled))
  {
    var es := Arrived(t, picks);
    assert forall i | 0 <= i < |es| :: picks[i] in picks && es[i].dat in Emission(t);
    TransferProgress(t, cap, before, es);
    CoveredAllIff(t, picks);
    if AllCovered(t, es) {
      var q := Run(cap, before, es).queue[|before.queue|];
      if !q.store.spoiled {
        CompleteJobHoldsStream(t, cap, q);
      }
      UndisturbedIsCalm(t, picks);
    }
  }

  lemma UndisturbedIsCalm(t: Transfer, picks: seq<Arrival>)
    requires Sendable(t) && forall p <- picks :: p.index < |Emission(t)|
    ensures Undisturbed(t, picks) ==> Calm(t, Arrived(t, picks))
  {
    var es := Arrived(t, picks);
    if Undisturbed(t, picks) {
      forall e <- es
        ensures e.disk.Healthy?
      {
        var i :| 0 <= i < |es| && es[i] == e;
        assert picks[i] in picks;
      }
    }
  }

  lemma CoveredAllIff(t: Transfer, picks: seq<Arrival>)
    requires Receivable(t) && forall p <- picks :: p.index < |Emission(t)|
    ensures AllCovered(t, Arrived(t, picks)) <==> AllThrough(t, picks)
  {
    ChunksWithinPackets(t);
    forall k: nat | IsDataChunk(t, k)
      ensures Covered(t, Arrived(t, picks), k) <==> GotThrough(t, picks, k)
    {
      CoveredIsGotThrough(t, picks, k);
    }
    assert forall k: nat | k < Chunks(t) :: IsDataChunk(t, k);
  }

  // ---------------------------------------------------------------- one transfer after the other

  /** A transfer and what arrives of it. */
  datatype Passage = Passage(t: Transfer, picks: seq<Arrival>)

  ghost predicate Passable(p: Passage, cap: nat) {
    Receivable(p.t) && Fits(p.t, cap) && p.picks != [] && forall a <- p.picks :: a.index < |Emission(p.t)|
  }

  ghost predicate AllPassable(ps: seq<Passage>, cap: nat) {
    (forall p <- ps :: Passable(p, cap)) && forall i | 0 < i < |ps| :: ps[i].t.uuid != ps[i - 1].t.uuid
  }

  ghost function After(cap: nat, before: State, p: Passage): State
    requires Passable(p, cap)
  {
    Run(cap, before, Arrived(p.t, p.picks))
  }

  ghost function RunPassages(cap: nat, ps: seq<Passage>): State
    requires forall p <- ps :: Passable(p, cap)
  {
    if ps == [] then INITIAL else After(cap, RunPassages(cap, ps[..|ps| - 1]), ps[|ps| - 1])
  }

  /** The transfers all of whose chunks got through. */
  ghost function Survivors(ps: seq<Passage>): seq<Passage>
    requires forall p <- ps :: Sendable(p.t)
  {
    if ps == [] then []
    else
      var p := ps[|ps| - 1];
      Survivors(ps[..|ps| - 1]) + (assert p in ps; if AllThrough(p.t, p.picks) then [p] else [])
  }

  /** Job q is what became of passage p. */
  ghost predicate JobFor(p: Passage, q: Job) {
    && q.hdr.uuid == p.t.uuid
    && (!q.store.spoiled ==> Content(q.store) == p.t.stream)
    && (Undisturbed(p.t, p.picks) ==> !q.store.spoiled)
  }

  /** The queue holds the jobs of these passages, and the receiver was last on this transfer. */
  ghost predicate Queued(alive: seq<Passage>, last: Uuid, s: State) {
    !s.crashed && s.uuid == last && |s.queue| == |alive| && forall i | 0 <= i < |alive| :: JobFor(alive[i], s.queue[i])
  }

  lemma PassageQueued(cap: nat, alive: seq<Passage>, before: State, p: Passage)
    requires Passable(p, cap) && p.t.uuid != before.uuid && Queued(alive, before.uuid, before)
    ensures Queued(if AllThrough(p.t, p.picks) then alive + [p] else alive, p.t.uuid, After(cap, before, p))
  {
    ExactLossTolerance(p.t, cap, before, p.picks);
    var s := After(cap, before, p);
    if AllThrough(p.t, p.picks) {
      QueueExtends(alive, before, p, s);
    }
  }

  lemma QueueExtends(alive: seq<Passage>, before: State, p: Passage, s: State)
    requires Queued(alive, before.uuid, before) && !s.crashed && s.uuid == p.t.uuid
    requires |s.queue| == |before.queue| + 1 && s.queue[..|before.queue|] == before.queue
    requires JobFor(p, s.queue[|before.queue|])
    ensures Queued(alive + [p], p.t.uuid, s)
  {
    assert forall i | 0 <= i < |before.queue| :: s.queue[..|before.queue|][i] == s.queue[i];
  }

  ghost function LastUuid(ps: seq<Passage>): Uuid {
    if ps == [] then NIL_UUID else ps[|ps| - 1].t.uuid
  }

  /** On a lossy port whose transfers follow each other, the jobs queued are exactly the transfers all of
      whose chunks got through, each once and in order. */
  lemma {:induction false} SurvivorsAreQueued(cap: nat, ps: seq<Passage>)
    requires AllPassable(ps, cap)
    ensures Queued(Survivors(ps), LastUuid(ps), RunPassages(cap, ps))
  {
    if ps != [] {
      var init, p := ps[..|ps| - 1], ps[|ps| - 1];
      assert p in ps && Passable(p, cap);
      assert init != [] ==> ps[|ps| - 2] == init[|init| - 1];
      SurvivorsAreQueued(cap, init);
      PassageQueued(cap, Survivors(init), RunPassages(cap, init), p);
    }
  }

  // ---------------------------------------------------------------- a faithful channel

  ghost function Traffic(ts: seq<Transfer>): seq<seq<byte>>
    requires forall i | 0 <= i < |ts| :: Receivable(ts[i])
  {
    if ts == [] then []
    else Traffic(ts[..|ts| - 1]) + (assert Receivable(ts[|ts| - 1]); Emission(ts[|ts| - 1]))
  }

  ghost predicate Carries(es: seq<Event>, dats: seq<seq<byte>>) {
    |es| == |dats| && forall i | 0 <= i < |es| :: es[i].dat == dats[i]
  }

  lemma {:induction false} RunSplits(cap: nat, s: State, a: seq<Event>, b: seq<Event>)
    ensures Run(cap, s, a + b) == Run(cap, Run(cap, s, a), b)
  {
    if b == [] {
      assert a + b == a;
    } else {
      RunSplits(cap, s, a, b[..|b| - 1]);
      assert (a + b)[..|a + b| - 1] == a + b[..|b| - 1];
    }
  }

  lemma EmissionCoversAll(t: Transfer, es: seq<Event>)
    requires Receivable(t) && Carries(es, Emission(t))
    ensures AllFrom(t, es) && AllCovered(t, es)
  {
    forall k: nat | IsDataChunk(t, k)
      ensures Covered(t, es, k)
    {
      assert Emission(t)[1 + k] == Packet(t, k);
      assert es[1 + k] in es;
    }
  }

  ghost predicate DeliveredAll(ts: seq<Transfer>, s: State) {
    && !s.crashed
    && s.uuid == (if ts == [] then NIL_UUID else ts[|ts| - 1].uuid)
    && |s.queue| == |ts|
    && forall i | 0 <= i < |ts| :: HasStream(s.queue[i], ts[i])
  }

  predicate HasStream(job: Job, t: Transfer) {
    Content(job.store) == t.stream
  }

  lemma SplitTraffic(ts: seq<Transfer>, es: seq<Event>) returns (a: seq<Event>, b: seq<Event>)
    requires ts != [] && forall i | 0 <= i < |ts| :: Receivable(ts[i])
    requires Carries(es, Traffic(ts)) && AllHealthy(es)
    ensures es == a + b && AllHealthy(a) && AllHealthy(b)
    ensures Carries(a, Traffic(ts[..|ts| - 1])) && Carries(b, Emission(ts[|ts| - 1]))
  {
    var n := |Traffic(ts[..|ts| - 1])|;
    a, b := es[..n], es[n..];
    assert Emission(ts[|ts| - 1]) == Traffic(ts)[n..];
  }

  /** A job that has everything up to chunk k in order, and little of it in the buffer. */
  ghost predicate Streaming(t: Transfer, cap: nat, job: Job, k: nat) {
    && JobFaithful(t, cap, job) && Fits(t, cap) && !job.store.noBuf
    && forall j: nat | j < Chunks(t) :: job.seen[j] == if j < k then 1 else 0
  }

  lemma StreamingGot(t: Transfer, cap: nat, seen: seq<byte>, k: nat, x: int)
    requires Receivable(t) && Fits(t, cap) && |seen| == Chunks(t) && k < Chunks(t) && k < Packets(t)
    requires forall j: nat | j < Chunks(t) :: seen[j] == if j < k then 1 else 0
    ensures x in GotSet(t, cap, seen) <==> 0 <= x < Start(t, k)
  {
    if 0 <= x < |t.stream| {
      var o := Owner(t, x);
      if o < k {
        StartsGrow(t, o, k);
      } else {
        StartsGrow(t, k, o);
      }
    }
  }

  lemma StartsGrow(t: Transfer, j: nat, k: nat)
    requires Receivable(t) && j <= k && k < Packets(t)
    ensures Start(t, j) <= Start(t, k) && (j < k ==> Finish(t, j) <= Start(t, k))
  {
    MulMonotone(j, k, t.chunk);
    if j < k {
      MulMonotone(j + 1, k, t.chunk);
      assert (j + 1) * t.chunk == j * t.chunk + t.chunk;
    }
  }

  /** The next chunk in order never misses the window. */
  lemma StreamingStep(t: Transfer, cap: nat, job: Job, k: nat)
    requires Streaming(t, cap, job, k) && k < Chunks(t) && k < Packets(t)
    ensures Streaming(t, cap, Written(t, cap, job, k, Healthy), k + 1)
  {
    var w, got := job.store.wab, GotSet(t, cap, job.seen);
    forall x
      ensures x in got <==> 0 <= x < Start(t, k)
    {
      StreamingGot(t, cap, job.seen, k, x);
    }
    InOrderLeavesLittle(w, t.stream, got, Start(t, k));
    WrittenFaithful(t, cap, job, k, Healthy);
  }

  lemma InOrderStart(t: Transfer, cap: nat, before: State, e: Event)
    requires Receivable(t) && Fits(t, cap) && before.uuid != t.uuid && !before.crashed && e.dat == Wakeup(t)
    ensures InOrderState(t, cap, before, 0, Step(cap, before, e))
  {
    ChunksWithinPackets(t);
    assert Emission(t)[0] == Wakeup(t);
    EmptyStep(t, cap, before, e);
    PacketShapeOfWakeup(t);
    FreshJobFaithful(t, cap, HeaderOf(e.dat));
  }

  lemma PacketShapeOfWakeup(t: Transfer)
    requires Receivable(t)
    ensures |Wakeup(t)| == HEADER_SIZE && HeaderOf(Wakeup(t)) == HeaderAt(t, 0)
  {
    DatagramRoundTrip(HeaderAt(t, 0), []);
    assert Wakeup(t) == Encode(HeaderAt(t, 0)) + [];
  }

  /** The receiver after the wake-up and the first k chunks, in order. */
  ghost predicate InOrderState(t: Transfer, cap: nat, before: State, k: nat, s: State) {
    && Receivable(t) && k <= Chunks(t) && !s.crashed && s.uuid == t.uuid
    && if k < Chunks(t) then
         !s.done && s.queue == before.queue && s.job.Some? && Streaming(t, cap, s.job.value, k)
       else
         && s.done && |s.queue| == |before.queue| + 1 && s.queue[..|before.queue|] == before.queue
         && var q := s.queue[|before.queue|]; JobFaithful(t, cap, q) && AllSeen(q.seen) && !q.store.noBuf
  }

  lemma StreamingFinished(t: Transfer, cap: nat, before: State, k: nat, s: State, job: Job)
    requires !s.crashed && s.uuid == t.uuid && s.queue == before.queue
    requires Receivable(t) && k <= Chunks(t) && Streaming(t, cap, job, k)
    ensures InOrderState(t, cap, before, k, Finished(s, job))
  {
    assert k < Chunks(t) ==> job.seen[k] == 0;
  }

  lemma InOrderNext(t: Transfer, cap: nat, before: State, k: nat, s: State, e: Event)
    requires InOrderState(t, cap, before, k, s) && k < Chunks(t) && k < Packets(t)
    requires e.dat == Packet(t, k) && e.disk.Healthy?
    ensures InOrderState(t, cap, before, k + 1, Step(cap, s, e))
  {
    var job := s.job.value;
    assert Step(cap, s, e) == Finished(s, Written(t, cap, job, k, Healthy)) by {
      ChunkStep(t, cap, s, e, k);
    }
    StreamingStep(t, cap, job, k);
    StreamingFinished(t, cap, before, k + 1, s, Written(t, cap, job, k, Healthy));
  }

  lemma {:induction false} InOrderRun(t: Transfer, cap: nat, before: State, es: seq<Event>, k: nat)
    requires Receivable(t) && Fits(t, cap) && before.uuid != t.uuid && !before.crashed
    requires k <= Chunks(t) && AllHealthy(es) && |es| == k + 1 <= |Emission(t)|
    requires forall i | 0 <= i < |es| :: es[i].dat == Emission(t)[i]
    ensures InOrderState(t, cap, before, k, Run(cap, before, es))
  {
    var init, e := es[..k], es[k];
    assert e in es && forall x <- init :: x in es;
    if k == 0 {
      assert Run(cap, before, init) == before;
      InOrderStart(t, cap, before, e);
    } else {
      InOrderRun(t, cap, before, init, k - 1);
      InOrderMore(t, cap, before, k, Run(cap, before, init), e);
    }
  }

  lemma InOrderMore(t: Transfer, cap: nat, before: State, k: nat, s: State, e: Event)
    requires Receivable(t) && Fits(t, cap) && before.uuid != t.uuid && !before.crashed
    requires 0 < k <= Chunks(t) && k < |Emission(t)| && e == Event(Emission(t)[k], Healthy)
    requires InOrderState(t, cap, before, k - 1, s)
    ensures InOrderState(t, cap, before, k, Step(cap, s, e))
  {
    ChunksWithinPackets(t);
    EmissionAt(t, k);
    InOrderNext(t, cap, before, k - 1, s, e);
  }

  /** A transfer that is done is ignored. */
  lemma {:induction false} DoneIgnores(t: Transfer, cap: nat, s: State, es: seq<Event>)
    requires Receivable(t) && HEADER_SIZE < cap && AllFrom(t, es) && s.done && s.uuid == t.uuid && !s.crashed
    ensures Run(cap, s, es) == s
  {
    if es != [] {
      var init, e := es[..|es| - 1], es[|es| - 1];
      assert e in es && forall x <- init :: x in es;
      DoneIgnores(t, cap, s, init);
      var k := PacketShape(t, e.dat);
      match k
      case None => EmptyStep(t, cap, s, e);
      case Some(j) => ChunkStep(t, cap, s, e, j);
    }
  }

  lemma WholeTransfer(t: Transfer, cap: nat, before: State, es: seq<Event>)
    requires before.uuid != t.uuid && !before.crashed && AllHealthy(es)
    requires Receivable(t) && Fits(t, cap) && Carries(es, Emission(t))
    ensures InOrderState(t, cap, before, Chunks(t), Run(cap, before, es))
  {
    ChunksWithinPackets(t);
    var n := Chunks(t) + 1;
    var a, b := es[..n], es[n..];
    assert es == a + b;
    assert forall e <- a :: e in es;
    InOrderRun(t, cap, before, a, Chunks(t));
    assert forall e <- b :: e.dat in Emission(t);
    DoneIgnores(t, cap, Run(cap, before, a), b);
    RunSplits(cap, before, a, b);
  }

  lemma QueueGrows(ts: seq<Transfer>, t: Transfer, queue: seq<Job>, all: seq<Job>)
    requires |queue| == |ts| && |all| == |queue| + 1 && all[..|queue|] == queue && HasStream(all[|queue|], t)
    requires forall i | 0 <= i < |ts| :: HasStream(queue[i], ts[i])
    ensures forall i | 0 <= i < |all| :: HasStream(all[i], (ts + [t])[i])
  {
    forall i | 0 <= i < |all|
      ensures HasStream(all[i], (ts + [t])[i])
    {
      if i < |queue| {
        assert all[i] == queue[i] && (ts + [t])[i] == ts[i];
      }
    }
  }

  lemma LastHasStream(t: Transfer, cap: nat, before: State, s: State)
    requires Receivable(t) && Fits(t, cap) && InOrderState(t, cap, before, Chunks(t), s)
    ensures HasStream(s.queue[|before.queue|], t)
  {
    CompleteJobHoldsStream(t, cap, s.queue[|before.queue|]);
  }

  /** A transfer that arrives whole and in order is queued with its stream, however long it is. */
  lemma NextTransferDelivered(ts: seq<Transfer>, t: Transfer, cap: nat, before: State, s: State)
    requires Receivable(t) && Fits(t, cap) && DeliveredAll(ts, before) && InOrderState(t, cap, before, Chunks(t), s)
    ensures DeliveredAll(ts + [t], s)
  {
    LastHasStream(t, cap, before, s);
    QueueGrows(ts, t, before.queue, s.queue);
  }

  /** On a port whose transfers follow each other, a channel that loses and reorders nothing delivers
      every stream, of whatever length, each once and in order, unless a disk fails. */
  lemma {:induction false} FaithfulChannelDeliversAll(ts: seq<Transfer>, cap: nat, es: seq<Event>)
    requires forall i | 0 <= i < |ts| :: Receivable(ts[i])
    requires forall i | 0 <= i < |ts| :: Fits(ts[i], cap)
    requires forall i | 0 < i < |ts| :: ts[i].uuid != ts[i - 1].uuid
    requires Carries(es, Traffic(ts)) && AllHealthy(es)
    ensures DeliveredAll(ts, Run(cap, INITIAL, es))
  {
    if ts == [] {
      assert es == [];
    } else {
      var init, t := ts[..|ts| - 1], ts[|ts| - 1];
      var a, b := SplitTraffic(ts, es);
      FaithfulChannelDeliversAll(init, cap, a);
      assert init != [] ==> ts[|ts| - 2] == init[|init| - 1];
      assert init + [t] == ts;
      LastDelivered(init, t, cap, a, b);
    }
  }

  lemma LastDelivered(ts: seq<Transfer>, t: Transfer, cap: nat, a: seq<Event>, b: seq<Event>)
    requires Receivable(t) && Fits(t, cap) && DeliveredAll(ts, Run(cap, INITIAL, a))
    requires t.uuid != if ts == [] then NIL_UUID else ts[|ts| - 1].uuid
    requires Carries(b, Emission(t)) && AllHealthy(b)
    ensures DeliveredAll(ts + [t], Run(cap, INITIAL, a + b))
  {
    var before := Run(cap, INITIAL, a);
    RunSplits(cap, INITIAL, a, b);
    WholeTransfer(t, cap, before, b);
    NextTransferDelivered(ts, t, cap, before, Run(cap, before, b));
  }
}
