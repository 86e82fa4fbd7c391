/** What the sender and the receiver achieve together, over every run of the network. */
module Delivery {
  import opened Words
  import opened Wire
  import opened WriteBuffer
  import opened Storage
  import opened Sender
  import opened Reassembly

  /** What `handle` can rebuild: its smallest chunk size, and at least one byte. */
  ghost predicate Receivable(t: Transfer) {
    Sendable(t) && 100 <= t.chunk && t.stream != [] && t.uuid != NIL_UUID
  }

  ghost predicate Network(ts: map<Uuid, Transfer>) {
    forall u <- ts :: Receivable(ts[u]) && ts[u].uuid == u
  }

  ghost predicate Emitted(ts: map<Uuid, Transfer>, dat: seq<byte>)
    requires Network(ts)
  {
    exists u :: u in ts && dat in Emission(ts[u])
  }

  /** Any loss, duplication, reordering and mixing of what the transfers emit. */
  ghost predicate Drawn(ts: map<Uuid, Transfer>, es: seq<Event>)
    requires Network(ts)
  {
    forall e <- es :: Emitted(ts, e.dat)
  }

  // ---------------------------------------------------------------- datagrams of one transfer

  /** The chunk a datagram of t carries; None for the empty ones. */
  lemma PacketShape(t: Transfer, dat: seq<byte>) returns (k: Option<nat>)
    requires Receivable(t) && dat in Emission(t)
    ensures |dat| >= HEADER_SIZE
    ensures var h := Decode(dat[..HEADER_SIZE]);
            h.uuid == t.uuid && h.size == |t.stream| && h.mtu == t.chunk
    ensures k.None? ==> |dat| == HEADER_SIZE
    ensures k.Some? ==> k.value < Chunks(t) && k.value < Packets(t) && dat == Packet(t, k.value)
    ensures k.None? ==> forall j | 0 <= j < Chunks(t) && j < Packets(t) :: dat != Packet(t, j)
  {
    ChunkCounts(t);
    if dat == Wakeup(t) {
      DatagramRoundTrip(HeaderAt(t, 0), []);
      assert Wakeup(t) == Encode(HeaderAt(t, 0)) + [];
      k := None;
    } else {
      assert dat in Pass(t);
      var j: nat :| j < Packets(t) && dat == Packet(t, j);
      DatagramRoundTrip(HeaderAt(t, Start(t, j)), Chunk(t, j));
      k := if j < Chunks(t) then Some(j) else None;
    }
  }

  lemma PacketFields(t: Transfer, k: nat)
    requires Sendable(t) && k < Packets(t)
    ensures var dat := Packet(t, k);
            && |dat| == HEADER_SIZE + |Chunk(t, k)|
            && Decode(dat[..HEADER_SIZE]) == HeaderAt(t, Start(t, k))
            && dat[HEADER_SIZE..] == Chunk(t, k)
  {
    DatagramRoundTrip(HeaderAt(t, Start(t, k)), Chunk(t, k));
  }

  lemma WakeupFields(t: Transfer)
    requires Sendable(t)
    ensures var dat := Wakeup(t);
            |dat| == HEADER_SIZE && Decode(dat[..HEADER_SIZE]) == Header(t.uuid, |t.stream|, 0, t.chunk)
  {
    DatagramRoundTrip(HeaderAt(t, 0), []);
    assert Wakeup(t) + [] == Wakeup(t);
  }

  /** Everything a transfer puts on the wire, datagram by datagram: the announcement, and twice the stream
      in pieces, each behind its place in it. */
  lemma EmissionIs(t: Transfer, i: nat)
    requires Sendable(t) && i < |Emission(t)|
    ensures |Emission(t)| == 1 + 2 * (|t.stream| / t.chunk + 1)
    ensures var off := OffsetOf(t, i); off <= |t.stream| && Brings(t, Emission(t)[i], off, i == 0)
  {
    if i == 0 {
      WakeupFields(t);
    } else {
      var k := if i <= Packets(t) then i - 1 else i - 1 - Packets(t);
      EmissionAt(t, i, k);
      PacketFields(t, k);
      assert Start(t, k) == k * t.chunk;
    }
  }

  function OffsetOf(t: Transfer, i: nat): nat
    requires Sendable(t)
  {
    var count := |t.stream| / t.chunk + 1;
    if i == 0 then 0 else if i <= count then (i - 1) * t.chunk else Max(0, i - 1 - count) * t.chunk
  }

  /** The header says whose stream this is, how long it is, and where this piece of it begins. */
  ghost predicate Brings(t: Transfer, dat: seq<byte>, off: nat, empty: bool)
    requires Sendable(t) && off <= |t.stream|
  {
    && |dat| >= HEADER_SIZE
    && Decode(dat[..HEADER_SIZE]) == Header(t.uuid, |t.stream|, off, t.chunk)
    && dat[HEADER_SIZE..] == if empty then [] else t.stream[off..Min(off + t.chunk, |t.stream|)]
  }

  lemma EmissionAt(t: Transfer, i: nat, k: nat)
    requires Sendable(t) && 0 < i < |Emission(t)| && k == if i <= Packets(t) then i - 1 else i - 1 - Packets(t)
    ensures k < Packets(t) && Emission(t)[i] == Packet(t, k)
  {
    var twice := Pass(t) + Pass(t);
    assert Emission(t)[i] == twice[i - 1];
  }

  lemma PacketsDiffer(t: Transfer, j: nat, k: nat)
    requires Receivable(t) && j < Packets(t) && k < Packets(t) && Packet(t, j) == Packet(t, k)
    ensures j == k
  {
    PacketFields(t, j);
    PacketFields(t, k);
    QuotientIs(Start(t, j), j, t.chunk);
    QuotientIs(Start(t, k), k, t.chunk);
  }

  lemma NoWrap(x: nat)
    ensures 0 < x < TWO_63 ==> Int64(Add64(x, -1)) == x - 1
    ensures x < TWO_63 - 1 ==> Int64(Add64(x, 1)) == x + 1
  {
  }

  /** The receiver's two divisions on the header of chunk k. */
  lemma HeaderArithmetic(t: Transfer, k: nat)
    requires Receivable(t) && k < Chunks(t) && k < Packets(t)
    ensures IndexOf(HeaderAt(t, Start(t, k))) == k
  {
    DataChunkIff(t, k);
    var start := Start(t, k);
    NoWrap(start);
    ChunkIndexRecoveredIff(k, t.chunk);
    assert Int64(Add64(start, 1)) == start + 1;
    assert Quot(start + 1, t.chunk) == k;
  }

  lemma TotalArithmetic(t: Transfer, h: Header)
    requires Receivable(t) && h.size == |t.stream| && h.mtu == t.chunk
    ensures TotalOf(h) == Chunks(t)
  {
    ChunkCounts(t);
    NoWrap(|t.stream|);
  }

  // ---------------------------------------------------------------- what a job's file holds

  /** The chunk that position i of the stream belongs to. */
  function Owner(t: Transfer, i: nat): (k: nat)
    requires Receivable(t) && i < |t.stream|
    ensures k < Chunks(t) && k < Packets(t) && Start(t, k) <= i < Finish(t, k)
  {
    OwnerExists(t, i);
    i / t.chunk
  }

  lemma OwnerExists(t: Transfer, i: nat)
    requires Receivable(t) && i < |t.stream|
    ensures var k := i / t.chunk;
            0 <= k < Chunks(t) && k < Packets(t) && Start(t, k) <= i < Finish(t, k)
  {
    var k := i / t.chunk;
    OwnerIsPacket(i, |t.stream|, t.chunk);
    DataChunkIff(t, k);
  }

  lemma OwnerIsPacket(i: nat, n: nat, m: nat)
    requires i < n && 0 < m
    ensures 0 <= i / m <= n / m
    ensures (i / m) * m <= i < (i / m) * m + m
  {
    QuotientLocates(i, m);
    QuotientLocates(n, m);
    assert (n / m + 1) * m == (n / m) * m + m;
    MulCancels(i / m, n / m + 1, m);
  }

  lemma OwnerIff(t: Transfer, i: nat, k: nat)
    requires Receivable(t) && i < |t.stream| && k < Packets(t)
    ensures Start(t, k) <= i < Finish(t, k) <==> Owner(t, i) == k
  {
    if Start(t, k) <= i < Finish(t, k) {
      QuotientIs(i, k, t.chunk);
    }
  }

  /** Byte i got through: its chunk was seen and the receive buffer was long enough for it. */
  ghost predicate Got(t: Transfer, cap: nat, seen: seq<byte>, i: nat)
    requires Receivable(t) && i < |t.stream| && |seen| == Chunks(t)
  {
    seen[Owner(t, i)] != 0 && HEADER_SIZE + (i - Start(t, Owner(t, i))) < cap
  }

  ghost function GotSet(t: Transfer, cap: nat, seen: seq<byte>): (got: set<int>)
    requires Receivable(t) && |seen| == Chunks(t)
    ensures forall x :: x in got <==> 0 <= x < |t.stream| && Got(t, cap, seen, x)
  {
    set x: int | 0 <= x < |t.stream| && Got(t, cap, seen, x)
  }

  /** The bitmap tells what the job holds: the bytes of the seen chunks, as far as the receive buffer
      was long enough for them. */
  ghost predicate JobFaithful(t: Transfer, cap: nat, job: Job) {
    && Receivable(t)
    && job.hdr.uuid == t.uuid && job.hdr.size == |t.stream| && job.hdr.mtu == t.chunk
    && |job.seen| == Chunks(t)
    && (forall k | 0 <= k < |job.seen| :: job.seen[k] == 0 || job.seen[k] == 1)
    && Faithful(job.store, t.stream, GotSet(t, cap, job.seen))
  }

  lemma FreshJobFaithful(t: Transfer, cap: nat, h: Header)
    requires Receivable(t) && h.uuid == t.uuid && h.size == |t.stream| && h.mtu == t.chunk
    ensures JobFaithful(t, cap, Job(h, Zeros(Chunks(t)), NewStore()))
  {
    NewStoreFaithful(t.stream);
    assert GotSet(t, cap, Zeros(Chunks(t))) == {};
  }

  /** The part of chunk k that fits into the receive buffer. */
  function Received(t: Transfer, cap: nat, k: nat): (p: seq<byte>)
    requires Sendable(t) && k < Packets(t)
    ensures |p| == Min(|Chunk(t, k)|, Max(0, cap - HEADER_SIZE))
  {
    Chunk(t, k)[..Min(|Chunk(t, k)|, Max(0, cap - HEADER_SIZE))]
  }

  /** What `Place` makes of a job that receives chunk k for the first time. */
  function Written(t: Transfer, cap: nat, job: Job, k: nat, d: Disk): Job
    requires Receivable(t) && k < Chunks(t) && k < Packets(t) && |job.seen| == Chunks(t)
  {
    job.(seen := job.seen[k := 1], store := Accept(job.store, |t.stream|, Start(t, k), Received(t, cap, k), d))
  }

  lemma WrittenGotAt(t: Transfer, cap: nat, seen: seq<byte>, k: nat, x: nat)
    requires Receivable(t) && |seen| == Chunks(t) && k < Chunks(t) && k < Packets(t) && seen[k] == 0 && x < |t.stream|
    ensures Got(t, cap, seen[k := 1], x) <==>
              Got(t, cap, seen, x) || Start(t, k) <= x < Start(t, k) + |Received(t, cap, k)|
  {
    OwnerIff(t, x, k);
    var o := Owner(t, x);
    if o == k {
      assert Start(t, k) <= x < Finish(t, k);
    }
  }

  lemma WrittenGot(t: Transfer, cap: nat, seen: seq<byte>, k: nat)
    requires Receivable(t) && |seen| == Chunks(t) && k < Chunks(t) && k < Packets(t) && seen[k] == 0
    ensures GotSet(t, cap, seen[k := 1]) == GotSet(t, cap, seen) + Range(Start(t, k), |Received(t, cap, k)|)
  {
    var got, more := GotSet(t, cap, seen), GotSet(t, cap, seen[k := 1]);
    forall x
      ensures x in more <==> x in got || x in Range(Start(t, k), |Received(t, cap, k)|)
    {
      if 0 <= x < |t.stream| {
        WrittenGotAt(t, cap, seen, k, x);
      }
    }
  }

  /** The bytes of a chunk that was not seen were neither written nor passed over. */
  lemma UnseenFresh(t: Transfer, cap: nat, seen: seq<byte>, k: nat)
    requires Receivable(t) && |seen| == Chunks(t) && k < Chunks(t) && k < Packets(t) && seen[k] == 0
    ensures Fresh(GotSet(t, cap, seen), Start(t, k), |Received(t, cap, k)|)
  {
    var got := GotSet(t, cap, seen);
    PassEndsShort(t, k);
    forall x | Start(t, k) <= x < Finish(t, k)
      ensures x !in got
    {
      OwnerIff(t, x, k);
    }
    forall x | Start(t, k) <= x < Finish(t, k)
      ensures !Passed(got, x)
    {
    }
  }

  lemma ReceivedIsPiece(t: Transfer, cap: nat, k: nat)
    requires Receivable(t) && HEADER_SIZE < cap && k < Chunks(t) && k < Packets(t)
    ensures Piece(t.stream, Start(t, k), Received(t, cap, k))
  {
    DataChunkIff(t, k);
  }

  /** A new chunk, stored and marked: the bitmap still tells what the job holds. */
  lemma WrittenFaithful(t: Transfer, cap: nat, job: Job, k: nat, d: Disk)
    requires JobFaithful(t, cap, job) && HEADER_SIZE < cap
    requires k < Chunks(t) && k < Packets(t) && job.seen[k] == 0
    ensures var after := Written(t, cap, job, k, d);
            && JobFaithful(t, cap, after)
            && (after.store.noBuf ==> job.store.noBuf || Fails(job.store, Start(t, k), |Received(t, cap, k)|, d))
  {
    ReceivedIsPiece(t, cap, k);
    UnseenFresh(t, cap, job.seen, k);
    AcceptKeeps(job.store, t.stream, GotSet(t, cap, job.seen), Start(t, k), Received(t, cap, k), d);
    WrittenGot(t, cap, job.seen, k);
  }

  // ---------------------------------------------------------------- one step

  /** A receiver that is not on t, is done with t, or holds a faithful job for t. */
  ghost predicate Ready(t: Transfer, cap: nat, s: State) {
    && Receivable(t)
    && !s.crashed
    && (s.uuid == t.uuid ==> s.done || (s.job.Some? && JobFaithful(t, cap, s.job.value)))
  }

  /** The receiver once it has looked at the UUID of a datagram of t. */
  function Opened(t: Transfer, s: State, h: Header): State
    requires Sendable(t)
  {
    if t.uuid == s.uuid then s
    else s.(uuid := t.uuid, done := false, job := Some(Job(h, Zeros(Chunks(t)), NewStore())))
  }

  function HeaderOf(dat: seq<byte>): Header
    requires |dat| >= HEADER_SIZE
  {
    Decode(dat[..HEADER_SIZE])
  }

  lemma OpenedReady(t: Transfer, cap: nat, s: State, h: Header)
    requires Ready(t, cap, s) && h.uuid == t.uuid && h.size == |t.stream| && h.mtu == t.chunk
    ensures Ready(t, cap, Opened(t, s, h)) && !Opened(t, s, h).crashed
    ensures Opened(t, s, h) == if h.uuid != s.uuid then Open(s, h) else s
  {
    TotalArithmetic(t, h);
    FreshJobFaithful(t, cap, h);
  }

  /** Datagrams that reach the receiver without data only announce their transfer. */
  lemma EmptyStep(t: Transfer, cap: nat, s: State, e: Event)
    requires Ready(t, cap, s) && e.dat in Emission(t)
    requires HEADER_SIZE == cap || (|e.dat| == HEADER_SIZE && HEADER_SIZE <= cap)
    ensures |e.dat| >= HEADER_SIZE && Step(cap, s, e) == Opened(t, s, HeaderOf(e.dat))
    ensures Ready(t, cap, Step(cap, s, e))
  {
    var k := PacketShape(t, e.dat);
    OpenedReady(t, cap, s, HeaderOf(e.dat));
    assert e.dat[..HEADER_SIZE][..HEADER_SIZE] == e.dat[..HEADER_SIZE];
  }

  /** What the receive buffer leaves of a chunk's datagram. */
  lemma PacketArrives(t: Transfer, cap: nat, k: nat)
    requires Receivable(t) && HEADER_SIZE < cap && k < Chunks(t) && k < Packets(t)
    ensures var dat := Packet(t, k)[..Min(cap, |Packet(t, k)|)];
            && |dat| > HEADER_SIZE && |Packet(t, k)| >= HEADER_SIZE
            && dat[..HEADER_SIZE] == Packet(t, k)[..HEADER_SIZE] && dat[HEADER_SIZE..] == Received(t, cap, k)
            && HeaderOf(Packet(t, k)) == HeaderAt(t, Start(t, k))
  {
    PacketFields(t, k);
    DataChunkIff(t, k);
    var dat := Packet(t, k)[..Min(cap, |Packet(t, k)|)];
    assert dat[HEADER_SIZE..] == Chunk(t, k)[..Min(|Chunk(t, k)|, cap - HEADER_SIZE)];
  }

  lemma ChunkPlaced(t: Transfer, cap: nat, s: State, k: nat, d: Disk)
    requires Receivable(t) && k < Chunks(t) && k < Packets(t) && s.job.Some? && JobFaithful(t, cap, s.job.value)
    ensures var job := s.job.value;
            Place(s, HeaderAt(t, Start(t, k)), Received(t, cap, k), d) ==
              if job.seen[k] == 1 then s else Finished(s, Written(t, cap, job, k, d))
  {
    HeaderArithmetic(t, k);
    NoWrap(|t.stream|);
    NoWrap(Start(t, k));
  }

  /** Chunk k is written once, and ignored when it is a duplicate or the transfer is done. */
  lemma ChunkStep(t: Transfer, cap: nat, s: State, e: Event, k: nat)
    requires Ready(t, cap, s) && HEADER_SIZE < cap
    requires k < Chunks(t) && k < Packets(t) && e.dat == Packet(t, k)
    ensures |e.dat| >= HEADER_SIZE
    ensures var s1 := Opened(t, s, HeaderOf(e.dat));
            && Ready(t, cap, s1)
            && Step(cap, s, e) == if s1.done || s1.job.value.seen[k] == 1 then s1
                                  else Finished(s1, Written(t, cap, s1.job.value, k, e.disk))
  {
    PacketArrives(t, cap, k);
    var h := HeaderOf(e.dat);
    OpenedReady(t, cap, s, h);
    var s1 := Opened(t, s, h);
    if !s1.done {
      ChunkPlaced(t, cap, s1, k, e.disk);
    }
  }

  // ---------------------------------------------------------------- safety over whole runs

  ghost predicate Good(ts: map<Uuid, Transfer>, cap: nat, s: State)
    requires Network(ts)
  {
    && !s.crashed
    && (s.job.None? ==> s.done || s.uuid == NIL_UUID)
    && (s.job.Some? ==> !s.done && s.uuid in ts && JobFaithful(ts[s.uuid], cap, s.job.value))
    && forall q <- s.queue ::
         q.hdr.uuid in ts && JobFaithful(ts[q.hdr.uuid], cap, q) && AllSeen(q.seen)
  }

  lemma OpenedKeepsGood(ts: map<Uuid, Transfer>, cap: nat, s: State, u: Uuid, h: Header)
    requires Network(ts) && Good(ts, cap, s) && u in ts
    requires h.uuid == u && h.size == |ts[u].stream| && h.mtu == ts[u].chunk
    ensures Good(ts, cap, Opened(ts[u], s, h))
  {
    FreshJobFaithful(ts[u], cap, h);
  }

  lemma FinishedKeepsGood(ts: map<Uuid, Transfer>, cap: nat, s: State, job: Job)
    requires Network(ts) && Good(ts, cap, s) && s.uuid in ts && JobFaithful(ts[s.uuid], cap, job)
    ensures Good(ts, cap, Finished(s, job))
  {
  }

  /** A chunk of t that the job has not seen. */
  ghost predicate Awaits(t: Transfer, cap: nat, s: State, k: nat) {
    && Receivable(t) && k < Chunks(t) && k < Packets(t) && HEADER_SIZE < cap
    && !s.done && s.uuid == t.uuid && s.job.Some? && JobFaithful(t, cap, s.job.value) && s.job.value.seen[k] == 0
  }

  /** A datagram opens a new job, or none, and then writes one chunk, or none. */
  lemma StepIs(ts: map<Uuid, Transfer>, cap: nat, s: State, e: Event) returns (u: Uuid, s1: State, k: Option<nat>)
    requires Network(ts) && Good(ts, cap, s) && Emitted(ts, e.dat)
    ensures u in ts && Good(ts, cap, s1)
    ensures s1 == s || (|e.dat| >= HEADER_SIZE && s1 == Opened(ts[u], s, HeaderOf(e.dat)))
    ensures k.None? ==> Step(cap, s, e) == s1
    ensures k.Some? ==> Awaits(ts[u], cap, s1, k.value)
    ensures k.Some? ==> Step(cap, s, e) == Finished(s1, Written(ts[u], cap, s1.job.value, k.value, e.disk))
  {
    u :| u in ts && e.dat in Emission(ts[u]);
    k := PacketShape(ts[u], e.dat);
    if cap < HEADER_SIZE {
      s1, k := s, None;
    } else {
      s1 := Opened(ts[u], s, HeaderOf(e.dat));
      OpenedKeepsGood(ts, cap, s, u, HeaderOf(e.dat));
      if cap == HEADER_SIZE || k.None? {
        EmptyStep(ts[u], cap, s, e);
        k := None;
      } else {
        ChunkStep(ts[u], cap, s, e, k.value);
        if s1.done || s1.job.value.seen[k.value] == 1 {
          k := None;
        }
      }
    }
  }

  lemma StepKeepsGood(ts: map<Uuid, Transfer>, cap: nat, s: State, e: Event)
    requires Network(ts) && Good(ts, cap, s) && Emitted(ts, e.dat)
    ensures Good(ts, cap, Step(cap, s, e))
  {
    var u, s1, k := StepIs(ts, cap, s, e);
    if k.Some? {
      WrittenFaithful(ts[u], cap, s1.job.value, k.value, e.disk);
      FinishedKeepsGood(ts, cap, s1, Written(ts[u], cap, s1.job.value, k.value, e.disk));
    }
  }

  lemma {:induction false} RunKeepsGood(ts: map<Uuid, Transfer>, cap: nat, s: State, es: seq<Event>)
    requires Network(ts) && Good(ts, cap, s) && Drawn(ts, es)
    ensures Good(ts, cap, Run(cap, s, es))
  {
    if es != [] {
      var init := es[..|es| - 1];
      assert forall e <- init :: e in es;
      RunKeepsGood(ts, cap, s, init);
      StepKeepsGood(ts, cap, Run(cap, s, init), es[|es| - 1]);
    }
  }

  /** The receive buffer holds every datagram of t whole. */
  ghost predicate Fits(t: Transfer, cap: nat) {
    HEADER_SIZE + Min(t.chunk, |t.stream|) <= cap
  }

  lemma GotWhenFits(t: Transfer, cap: nat, seen: seq<byte>, i: nat)
    requires Receivable(t) && i < |t.stream| && |seen| == Chunks(t) && AllSeen(seen) && Fits(t, cap)
    ensures Got(t, cap, seen, i)
  {
    var k := Owner(t, i);
    assert i < Finish(t, k);
  }

  lemma JobComplete(t: Transfer, cap: nat, job: Job)
    requires JobFaithful(t, cap, job) && AllSeen(job.seen) && Fits(t, cap)
    ensures Faithful(job.store, t.stream, GotSet(t, cap, job.seen)) && Complete(t.stream, GotSet(t, cap, job.seen))
  {
    forall x | 0 <= x < |t.stream|
      ensures x in GotSet(t, cap, job.seen)
    {
      GotWhenFits(t, cap, job.seen, x);
    }
  }

  lemma CompleteJobHoldsStream(t: Transfer, cap: nat, job: Job)
    requires JobFaithful(t, cap, job) && AllSeen(job.seen) && Fits(t, cap) && !job.store.spoiled
    ensures Content(job.store) == t.stream
  {
    JobComplete(t, cap, job);
    CompleteContent(job.store, t.stream, GotSet(t, cap, job.seen));
  }

  /** Reassembly safety: whatever the network does with the datagrams of any set of transfers, and
      whatever the disks do, `handle` never panics, and every job it queues without having spoilt it by
      giving up on the buffer holds exactly the stream sent under the job's UUID. */
  lemma ReassemblySafety(ts: map<Uuid, Transfer>, cap: nat, es: seq<Event>)
    requires Network(ts) && Drawn(ts, es) && forall u <- ts :: Fits(ts[u], cap)
    ensures var s := Run(cap, INITIAL, es);
            && !s.crashed
            && forall q <- s.queue :: q.hdr.uuid in ts && (!q.store.spoiled ==> Content(q.store) == ts[q.hdr.uuid].stream)
  {
    RunKeepsGood(ts, cap, INITIAL, es);
    var s := Run(cap, INITIAL, es);
    forall q <- s.queue | !q.store.spoiled
      ensures Content(q.store) == ts[q.hdr.uuid].stream
    {
      CompleteJobHoldsStream(ts[q.hdr.uuid], cap, q);
    }
  }

  // ---------------------------------------------------------------- streams within the window

  ghost predicate AllHealthy(es: seq<Event>) {
    forall e <- es :: e.disk.Healthy?
  }

  /** No job has given up on its buffer. */
  ghost predicate Buffered(s: State) {
    (s.job.Some? ==> !s.job.value.store.noBuf) && forall q <- s.queue :: !q.store.noBuf
  }

  lemma SmallNeverFails(t: Transfer, cap: nat, s: Store, k: nat)
    requires Receivable(t) && |t.stream| <= WINDOW && k < Chunks(t) && k < Packets(t)
    ensures !Fails(s, Start(t, k), |Received(t, cap, k)|, Healthy)
  {
  }

  lemma WrittenBuffered(t: Transfer, cap: nat, job: Job, k: nat)
    requires JobFaithful(t, cap, job) && HEADER_SIZE < cap && |t.stream| <= WINDOW && !job.store.noBuf
    requires k < Chunks(t) && k < Packets(t) && job.seen[k] == 0
    ensures !Written(t, cap, job, k, Healthy).store.noBuf
  {
    WrittenFaithful(t, cap, job, k, Healthy);
    SmallNeverFails(t, cap, job.store, k);
  }

  lemma StepKeepsBuffered(ts: map<Uuid, Transfer>, cap: nat, s: State, e: Event)
    requires Network(ts) && Good(ts, cap, s) && Emitted(ts, e.dat) && Buffered(s) && e.disk.Healthy?
    requires forall u <- ts :: |ts[u].stream| <= WINDOW
    ensures Buffered(Step(cap, s, e))
  {
    var u, s1, k := StepIs(ts, cap, s, e);
    if k.Some? {
      WrittenBuffered(ts[u], cap, s1.job.value, k.value);
    }
  }

  lemma {:induction false} RunKeepsBuffered(ts: map<Uuid, Transfer>, cap: nat, es: seq<Event>)
    requires Network(ts) && Drawn(ts, es) && AllHealthy(es)
    requires forall u <- ts :: |ts[u].stream| <= WINDOW
    ensures Buffered(Run(cap, INITIAL, es))
  {
    if es != [] {
      var init := es[..|es| - 1];
      assert forall e <- init :: e in es;
      RunKeepsBuffered(ts, cap, init);
      RunKeepsGood(ts, cap, INITIAL, init);
      StepKeepsBuffered(ts, cap, Run(cap, INITIAL, init), es[|es| - 1]);
    }
  }

  /** Streams of at most 32 MiB, and disks without errors: every queued job holds exactly its stream. */
  lemma SafeWithinWindow(ts: map<Uuid, Transfer>, cap: nat, es: seq<Event>)
    requires Network(ts) && Drawn(ts, es) && AllHealthy(es)
    requires forall u <- ts :: Fits(ts[u], cap) && |ts[u].stream| <= WINDOW
    ensures var s := Run(cap, INITIAL, es);
            !s.crashed && forall q <- s.queue :: q.hdr.uuid in ts && Content(q.store) == ts[q.hdr.uuid].stream
  {
    ReassemblySafety(ts, cap, es);
    RunKeepsBuffered(ts, cap, es);
    RunKeepsGood(ts, cap, INITIAL, es);
  }
}
