/** Where the assumptions of the UDP transfer bite, and that they are exact. */
module Limits {
  import opened Words
  import opened Wire
  import opened WriteBuffer
  import opened Storage
  import opened Sender
  import opened Reassembly
  import opened Delivery
  import opened LossTolerance
  import opened FlowFile
  import opened Verification
  import Fragments
  import StreamChecksum
  import Files

  // ---------------------------------------------------------------- the window

  /** Which FlowFiles `post` sends under which id. It looks at the uuid and the checksum, and adds a link
      to the custody chain. */
  type Sent = (Uuid, File) -> bool

  ghost predicate IsSent(sent: Sent, t: Transfer, f: File) {
    Writable(f.attrs) && t.stream == BytesOf(f) && sent(t.uuid, f)
  }

  /** One of the transfers of n bytes in chunks of m bytes. */
  ghost predicate Probe(sent: Sent, t: Transfer, n: nat, m: nat) {
    Receivable(t) && |t.stream| == n && t.chunk == m && exists f :: IsSent(sent, t, f)
  }

  /** What the workers take for the FlowFile is the stream. They scan that file afterwards, and may find
      further FlowFiles in its payload (`Verification.ForwardedOnceIff`). */
  ghost predicate AllRight(t: Transfer, s: State) {
    forall q <- s.queue, wanted: StreamChecksum.Wanted :: DoWork(wanted, q.store, true).1 == t.stream
  }

  /** Whatever arrives of a FlowFile of this size: what is forwarded is right. */
  ghost predicate SafeSize(sent: Sent, n: nat, m: nat, cap: nat) {
    forall t, es | Probe(sent, t, n, m) && AllFrom(t, es) && AllHealthy(es) :: AllRight(t, Run(cap, INITIAL, es))
  }

  lemma SmallIsSafe(t: Transfer, f: File, cap: nat, es: seq<Event>)
    requires Receivable(t) && Fits(t, cap) && |t.stream| <= WINDOW && AllFrom(t, es) && AllHealthy(es)
    requires Writable(f.attrs) && t.stream == BytesOf(f)
    ensures AllRight(t, Run(cap, INITIAL, es))
  {
    var ts := map[t.uuid := t];
    assert forall e <- es :: e.dat in Emission(ts[t.uuid]);
    RunKeepsBuffered(ts, cap, es);
    RunKeepsGood(ts, cap, INITIAL, es);
    var s := Run(cap, INITIAL, es);
    forall q <- s.queue, wanted: StreamChecksum.Wanted
      ensures DoWork(wanted, q.store, true).1 == t.stream
    {
      JobComplete(t, cap, q);
      WorkerVerdict(wanted, q.store, f.attrs, f.payload, GotSet(t, cap, q.seen));
    }
  }

  /** Byte x is not zero, and lies behind the first chunk in one that ends within the window. */
  ghost predicate Telling(t: Transfer, x: nat) {
    Receivable(t) && t.chunk <= x < |t.stream| && t.stream[x] != 0 && Finish(t, Owner(t, x)) <= WINDOW
  }

  /** Nothing can be streamed or flushed: the beginning is missing. */
  ghost predicate Stalled(w: Buffer) {
    w.bufSt == 0 && w.streamed == [] && w.inbuf != [] && (w.inbuf[0].start == 0 ==> w.inbuf[0].stop == 0)
  }

  /** A buffer that still waits for the first byte. */
  lemma WaitingStalls(w: Buffer, c: seq<byte>, got: set<int>)
    requires Holds(w, c, got) && Clean(w) && !Passed(got, 0)
    ensures Stalled(w)
  {
    assert HoldsAt(w, c, got, 0);
    assert w.inbuf[0] in w.inbuf;
    StreamChecksum.BlocksLength(w.streamed);
  }

  /** Only the chunk with byte x has arrived, and it is in the buffer. */
  ghost predicate Alone(t: Transfer, cap: nat, job: Job, x: nat) {
    && JobFaithful(t, cap, job) && Telling(t, x) && Fits(t, cap) && !job.store.noBuf
    && forall k: nat | k < Chunks(t) :: job.seen[k] == if k == Owner(t, x) then 1 else 0
  }

  /** The bytes that are there are those of one chunk, and this is not the first. */
  lemma AloneGot(t: Transfer, cap: nat, job: Job, x: nat)
    requires Alone(t, cap, job, x)
    ensures var got, k := GotSet(t, cap, job.seen), Owner(t, x);
            && t.chunk <= Start(t, k) && x in got
            && forall y :: y in got <==> Start(t, k) <= y < Finish(t, k)
  {
    var got, k := GotSet(t, cap, job.seen), Owner(t, x);
    MulMonotone(1, k, t.chunk);
    forall y
      ensures y in got <==> Start(t, k) <= y < Finish(t, k)
    {
      if 0 <= y < |t.stream| {
        OwnerIff(t, y, k);
      }
    }
  }

  lemma AloneStalls(t: Transfer, cap: nat, job: Job, x: nat)
    requires Alone(t, cap, job, x)
    ensures Stalled(job.store.wab)
  {
    AloneGot(t, cap, job, x);
    WaitingStalls(job.store.wab, t.stream, GotSet(t, cap, job.seen));
  }

  /** The fragment with byte x begins with that chunk. */
  lemma AloneFragment(t: Transfer, cap: nat, job: Job, x: nat) returns (i: nat)
    requires Alone(t, cap, job, x)
    ensures i < |job.store.wab.inbuf| && Stalled(job.store.wab)
    ensures var r := job.store.wab.inbuf[i]; Start(t, Owner(t, x)) <= r.start <= x < r.stop
  {
    AloneGot(t, cap, job, x);
    AloneStalls(t, cap, job, x);
    var k := Owner(t, x);
    i := OnlyFragment(job.store.wab, t.stream, GotSet(t, cap, job.seen), Start(t, k), Finish(t, k), x);
  }

  lemma OnlyFragment(w: Buffer, c: seq<byte>, got: set<int>, lo: nat, hi: nat, x: nat) returns (i: nat)
    requires Holds(w, c, got) && w.bufSt == 0 && x in got && forall y :: y in got <==> lo <= y < hi
    ensures i < |w.inbuf| && lo <= w.inbuf[i].start <= x < w.inbuf[i].stop
  {
    assert HoldsAt(w, c, got, x);
    i :| 0 <= i < |w.inbuf| && w.inbuf[i].start <= x < w.inbuf[i].stop;
    assert Fragments.In(w.inbuf, w.inbuf[i].start);
    InPassed(w, c, got, w.inbuf[i].start);
  }

  /** The bytes that are missing at the beginning are zeros in the buffer. */
  lemma AloneCell(t: Transfer, cap: nat, job: Job, x: nat, y: nat)
    requires Alone(t, cap, job, x) && y < t.chunk
    ensures job.store.wab.bufSt == 0 && y < |job.store.wab.buf| && job.store.wab.buf[y] == 0
  {
    AloneGot(t, cap, job, x);
    AloneStalls(t, cap, job, x);
    assert HoldsAt(job.store.wab, t.stream, GotSet(t, cap, job.seen), y);
  }

  /** Giving up now puts the file's beginning, which is missing, in the place of that chunk. */
  lemma GiveUpZeroes(t: Transfer, cap: nat, job: Job, x: nat)
    requires Alone(t, cap, job, x)
    ensures var file := GiveUp(job.store.wab, |t.stream|).file; x < |file| && file[x] == 0
  {
    var i := AloneFragment(t, cap, job, x);
    AloneCell(t, cap, job, x, x - job.store.wab.inbuf[i].start);
    GiveUpLands(job.store.wab, |t.stream|, i, x);
  }

  lemma GiveUpLands(w: Buffer, n: nat, i: nat, x: nat)
    requires Shape(w, n) && w.bufSt == 0 && i < |w.inbuf| && w.inbuf[i].start <= x < w.inbuf[i].stop && x < n
    ensures var file := GiveUp(w, n).file;
            x < |file| && file[x] == w.buf[x - w.inbuf[i].start]
  {
    FlushLands(w.(file := Files.Truncate(w.file, n)), n, i, x);
  }

  /** Byte x is wrong, and nothing that is still to come changes that. */
  ghost predicate WrongAt(t: Transfer, cap: nat, job: Job, x: nat) {
    && JobFaithful(t, cap, job) && Telling(t, x) && Fits(t, cap) && job.store.noBuf && Stalled(job.store.wab)
    && job.seen[Owner(t, x)] == 1 && x < |job.store.wab.file| && job.store.wab.file[x] == 0
  }

  /** A chunk that is written directly leaves the others alone. */
  lemma OthersStay(t: Transfer, cap: nat, seen: seq<byte>, file: seq<byte>, k: nat, x: nat)
    requires Receivable(t) && |seen| == Chunks(t) && k < Chunks(t) && k < Packets(t) && seen[k] == 0
    requires Fits(t, cap) && x < |t.stream| && seen[Owner(t, x)] == 1 && x < |file|
    ensures var after := Files.WriteAt(file, Start(t, k), Received(t, cap, k)); x < |after| && after[x] == file[x]
  {
    UnseenFresh(t, cap, seen, k);
    assert x in GotSet(t, cap, seen);
    assert Passed(GotSet(t, cap, seen), x);
  }

  lemma WrongStays(t: Transfer, cap: nat, job: Job, k: nat, x: nat, d: Disk)
    requires WrongAt(t, cap, job, x) && k < Chunks(t) && k < Packets(t) && job.seen[k] == 0
    ensures WrongAt(t, cap, Written(t, cap, job, k, d), x)
  {
    WrittenFaithful(t, cap, job, k, d);
    OthersStay(t, cap, job.seen, job.store.wab.file, k, x);
  }

  /** A chunk that ends beyond the window makes the receiver give up on its buffer. */
  lemma BeyondIsWrong(t: Transfer, cap: nat, job: Job, k: nat, x: nat)
    requires Alone(t, cap, job, x) && k < Chunks(t) && k < Packets(t) && Finish(t, k) > WINDOW
    ensures job.seen[k] == 0 && WrongAt(t, cap, Written(t, cap, job, k, Healthy), x)
  {
    AloneStalls(t, cap, job, x);
    GiveUpZeroes(t, cap, job, x);
    WrittenFaithful(t, cap, job, k, Healthy);
    OthersStay(t, cap, job.seen, GiveUp(job.store.wab, |t.stream|).file, k, x);
    StalledStays(job.store, |t.stream|, Start(t, k), Received(t, cap, k));
  }

  /** After the switch nothing can be streamed any more. */
  lemma StalledStays(s: Store, size: nat, off: nat, p: seq<byte>)
    requires Stalled(s.wab) && !s.noBuf && off + |p| > |s.wab.buf|
    ensures var after := Accept(s, size, off, p, Healthy);
            Stalled(after.wab) && after.noBuf && after.wab.file == Files.WriteAt(GiveUp(s.wab, size).file, off, p)
  {
  }

  // ---------------------------------------------------------------- a run that goes wrong

  /** The receiver on t, or done with it, with byte x wrong. */
  ghost predicate WrongState(t: Transfer, cap: nat, x: nat, s: State) {
    && !s.crashed && s.uuid == t.uuid && (s.done || s.job.Some?)
    && (s.job.Some? ==> WrongAt(t, cap, s.job.value, x))
    && forall q <- s.queue :: WrongAt(t, cap, q, x)
  }

  lemma FinishedIsWrong(t: Transfer, cap: nat, x: nat, s: State, job: Job)
    requires !s.crashed && s.uuid == t.uuid && WrongAt(t, cap, job, x) && forall q <- s.queue :: WrongAt(t, cap, q, x)
    ensures WrongState(t, cap, x, Finished(s, job))
  {
  }

  lemma StepStaysWrong(t: Transfer, cap: nat, x: nat, s: State, e: Event)
    requires Receivable(t) && HEADER_SIZE < cap && WrongState(t, cap, x, s) && e.dat in Emission(t)
    ensures WrongState(t, cap, x, Step(cap, s, e))
  {
    var k := PacketShape(t, e.dat);
    if k.None? {
      EmptyStep(t, cap, s, e);
    } else {
      ChunkStep(t, cap, s, e, k.value);
      if !s.done && s.job.value.seen[k.value] == 0 {
        WrongStays(t, cap, s.job.value, k.value, x, e.disk);
        FinishedIsWrong(t, cap, x, s, Written(t, cap, s.job.value, k.value, e.disk));
      }
    }
  }

  lemma {:induction false} RunStaysWrong(t: Transfer, cap: nat, x: nat, s: State, es: seq<Event>)
    requires Receivable(t) && HEADER_SIZE < cap && WrongState(t, cap, x, s) && AllFrom(t, es)
    ensures WrongState(t, cap, x, Run(cap, s, es))
  {
    if es != [] {
      var init := es[..|es| - 1];
      assert forall e <- init :: e in es;
      RunStaysWrong(t, cap, x, s, init);
      StepStaysWrong(t, cap, x, Run(cap, s, init), es[|es| - 1]);
    }
  }

  ghost predicate AloneState(t: Transfer, cap: nat, x: nat, s: State) {
    !s.crashed && s.uuid == t.uuid && !s.done && s.queue == [] && s.job.Some? && Alone(t, cap, s.job.value, x)
  }

  /** First the chunk with byte x. */
  lemma ArrivesAlone(t: Transfer, cap: nat, x: nat)
    requires Telling(t, x) && Fits(t, cap) && HEADER_SIZE < cap && 1 < Chunks(t)
    ensures AloneState(t, cap, x, Step(cap, INITIAL, Event(Packet(t, Owner(t, x)), Healthy)))
  {
    var k, e := Owner(t, x), Event(Packet(t, Owner(t, x)), Healthy);
    ChunkStep(t, cap, INITIAL, e, k);
    PacketFields(t, k);
    var blank := Opened(t, INITIAL, HeaderOf(e.dat)).job.value;
    FreshJobFaithful(t, cap, HeaderOf(e.dat));
    WrittenFaithful(t, cap, blank, k, Healthy);
    var other := if k == 0 then 1 else 0;
    assert Written(t, cap, blank, k, Healthy).seen[other] == 0;
  }

  /** Then one that ends beyond the window. */
  lemma ArrivesBeyond(t: Transfer, cap: nat, x: nat, s: State, k: nat)
    requires AloneState(t, cap, x, s) && HEADER_SIZE < cap
    requires k < Chunks(t) && k < Packets(t) && Finish(t, k) > WINDOW
    ensures WrongState(t, cap, x, Step(cap, s, Event(Packet(t, k), Healthy)))
  {
    var e := Event(Packet(t, k), Healthy);
    ChunkStep(t, cap, s, e, k);
    PacketFields(t, k);
    BeyondIsWrong(t, cap, s.job.value, k, x);
    FinishedIsWrong(t, cap, x, s, Written(t, cap, s.job.value, k, Healthy));
  }

  ghost function WholeEmission(t: Transfer): (es: seq<Event>)
    requires Sendable(t)
    ensures Carries(es, Emission(t)) && AllHealthy(es)
  {
    seq(|Emission(t)|, i requires 0 <= i < |Emission(t)| => Event(Emission(t)[i], Healthy))
  }

  lemma WindowNeedsManyChunks(t: Transfer)
    requires Receivable(t) && |t.stream| > WINDOW
    ensures 2 < Chunks(t) && Chunks(t) - 1 < Packets(t) && Finish(t, Chunks(t) - 1) > WINDOW
  {
    ChunksWithinPackets(t);
    var k := Owner(t, |t.stream| - 1);
    OwnerIsPacket(|t.stream| - 1, |t.stream|, t.chunk);
    CeilingForms(|t.stream|, t.chunk);
    assert k == Chunks(t) - 1;
    if k <= 1 {
      MulMonotone(k, 1, t.chunk);
    }
  }

  /** A file that is not the stream is forwarded, and no checksum is looked at. */
  ghost predicate ForwardsWrong(t: Transfer, q: Job) {
    forall wanted: StreamChecksum.Wanted ::
      DoWork(wanted, q.store, true).0 == Unchecked && DoWork(wanted, q.store, true).1 != t.stream
  }

  lemma WrongIsForwarded(t: Transfer, cap: nat, q: Job, x: nat)
    requires WrongAt(t, cap, q, x)
    ensures ForwardsWrong(t, q)
  {
    forall wanted: StreamChecksum.Wanted
      ensures DoWork(wanted, q.store, true) == (Unchecked, q.store.wab.file)
    {
      NothingStreamed(wanted, q.store, true);
    }
  }

  lemma PacketEmitted(t: Transfer, k: nat)
    requires Sendable(t) && k < Packets(t)
    ensures Packet(t, k) in Emission(t)
  {
    assert Emission(t)[1 + k] == Packet(t, k);
  }

  lemma TwoPackets(t: Transfer, j: nat, k: nat) returns (es: seq<Event>)
    requires Sendable(t) && j < Packets(t) && k < Packets(t)
    ensures es == [Event(Packet(t, j), Healthy), Event(Packet(t, k), Healthy)] && AllFrom(t, es) && AllHealthy(es)
  {
    es := [Event(Packet(t, j), Healthy), Event(Packet(t, k), Healthy)];
    PacketEmitted(t, j);
    PacketEmitted(t, k);
  }

  lemma TwoSteps(cap: nat, s: State, a: Event, b: Event)
    ensures Run(cap, s, [a, b]) == Step(cap, Step(cap, s, a), b)
  {
    assert [a, b][..1] == [a] && [a][..0] == [];
    assert Run(cap, s, [a]) == Step(cap, Run(cap, s, []), a);
  }

  /** A stream longer than the window, with a byte that is not zero behind its first chunk in the window: if
      the chunk of that byte comes first and one beyond the window second, then whatever else comes and when,
      a wrong file is forwarded, and no checksum is looked at. */
  lemma LargeIsUnsafe(t: Transfer, cap: nat, x: nat, rest: seq<Event>) returns (es: seq<Event>)
    requires Telling(t, x) && Fits(t, cap) && |t.stream| > WINDOW && AllFrom(t, rest)
    ensures |es| == 2 && AllFrom(t, es) && AllHealthy(es)
    ensures forall q <- Run(cap, INITIAL, es + rest).queue :: ForwardsWrong(t, q)
  {
    WindowNeedsManyChunks(t);
    var j, k := Owner(t, x), Chunks(t) - 1;
    es := TwoPackets(t, j, k);
    ArrivesAlone(t, cap, x);
    ArrivesBeyond(t, cap, x, Step(cap, INITIAL, es[0]), k);
    TwoSteps(cap, INITIAL, es[0], es[1]);
    RunSplits(cap, INITIAL, es, rest);
    RunStaysWrong(t, cap, x, Run(cap, INITIAL, es), rest);
    WrongStateForwards(t, cap, x, Run(cap, Run(cap, INITIAL, es), rest));
  }

  lemma WrongStateForwards(t: Transfer, cap: nat, x: nat, s: State)
    requires WrongState(t, cap, x, s)
    ensures forall q <- s.queue :: ForwardsWrong(t, q)
  {
    forall q <- s.queue
      ensures ForwardsWrong(t, q)
    {
      WrongIsForwarded(t, cap, q, x);
    }
  }

  /** Such a run of all datagrams ends with one job, which is wrong. */
  lemma LargeRun(t: Transfer, cap: nat, x: nat) returns (es: seq<Event>)
    requires Telling(t, x) && Fits(t, cap) && |t.stream| > WINDOW
    ensures AllFrom(t, es) && AllHealthy(es)
    ensures var q := Run(cap, INITIAL, es).queue; |q| == 1 && ForwardsWrong(t, q[0])
  {
    var rest := WholeEmission(t);
    EmissionCoversAll(t, rest);
    var early := LargeIsUnsafe(t, cap, x, rest);
    es := early + rest;
    forall k: nat | IsDataChunk(t, k)
      ensures Covered(t, es, k)
    {
      assert Covered(t, rest, k);
      var e :| e in rest && e.dat == Packet(t, k);
      assert e in es;
    }
    TransferProgress(t, cap, INITIAL, es);
  }

  lemma WrongIsNotRight(t: Transfer, s: State)
    requires s.queue != [] && ForwardsWrong(t, s.queue[0])
    ensures !AllRight(t, s)
  {
    var any: StreamChecksum.Wanted := _ => true;
    assert s.queue[0] in s.queue && DoWork(any, s.queue[0].store, true).1 != t.stream;
  }

  /** One of these transfers is Telling. */
  ghost predicate SomeTelling(sent: Sent, n: nat, m: nat) {
    exists t, x :: Probe(sent, t, n, m) && Telling(t, x)
  }

  /** On disks without errors, whatever is lost, duplicated or reordered, what is forwarded for FlowFiles
      of a given size is right if and only if the size is at most 32 MiB; whichever FlowFiles are sent, as
      long as one of the larger ones has a byte that is not zero behind its first chunk in the window. */
  lemma SafeSizeIff(sent: Sent, n: nat, m: nat, cap: nat)
    requires HEADER_SIZE + Min(m, n) <= cap && (n > 32 * 1024 * 1024 ==> SomeTelling(sent, n, m))
    ensures SafeSize(sent, n, m, cap) <==> n <= 32 * 1024 * 1024
  {
    if n <= WINDOW {
      forall t, es | Probe(sent, t, n, m) && AllFrom(t, es) && AllHealthy(es)
        ensures AllRight(t, Run(cap, INITIAL, es))
      {
        var f :| IsSent(sent, t, f);
        SmallIsSafe(t, f, cap, es);
      }
    } else {
      var t, x :| Probe(sent, t, n, m) && Telling(t, x);
      var es := LargeRun(t, cap, x);
      WrongIsNotRight(t, Run(cap, INITIAL, es));
      assert AllFrom(t, es) && AllHealthy(es);
    }
  }

  // ---------------------------------------------------------------- the receive buffer

  lemma {:induction false} ShortBufferQueuesNothing(cap: nat, s: State, es: seq<Event>)
    requires cap <= HEADER_SIZE
    ensures Run(cap, s, es).queue == s.queue
  {
    if es != [] {
      ShortBufferQueuesNothing(cap, s, es[..|es| - 1]);
    }
  }

  /** A byte no datagram brings: the receive buffer ends before it. */
  ghost predicate CutOff(t: Transfer, cap: nat, i: nat) {
    Receivable(t) && i < |t.stream| && HEADER_SIZE + (i - Start(t, Owner(t, i))) >= cap
  }

  /** All datagrams but a shorter last one are one byte too long, and that byte is zero in each. */
  ghost predicate OneZeroShort(t: Transfer, cap: nat)
    requires Sendable(t)
  {
    && cap > HEADER_SIZE && HEADER_SIZE + t.chunk == cap + 1
    && |t.stream| > t.chunk && |t.stream| % t.chunk != 0
    && forall i: nat | CutOff(t, cap, i) :: t.stream[i] == 0
  }

  lemma CutOffNotGot(t: Transfer, cap: nat, seen: seq<byte>, i: nat)
    requires Receivable(t) && |seen| == Chunks(t) && CutOff(t, cap, i)
    ensures i !in GotSet(t, cap, seen)
    ensures i + 1 == |t.stream| || CutOff(t, cap, i + 1) ==> !Passed(GotSet(t, cap, seen), i)
  {
  }

  lemma FirstCutOff(t: Transfer, cap: nat) returns (i: nat)
    requires Receivable(t) && HEADER_SIZE < cap && !Fits(t, cap)
    ensures i == cap - HEADER_SIZE && CutOff(t, cap, i)
    ensures i + 1 < Min(t.chunk, |t.stream|) ==> CutOff(t, cap, i + 1)
  {
    i := cap - HEADER_SIZE;
    QuotientIs(i, 0, t.chunk);
    if i + 1 < Min(t.chunk, |t.stream|) {
      QuotientIs(i + 1, 0, t.chunk);
    }
  }

  /** With chunks of equal length the last byte of the stream is cut off. */
  lemma LastCutOff(t: Transfer, cap: nat)
    requires Receivable(t) && HEADER_SIZE < cap && HEADER_SIZE + t.chunk == cap + 1 && |t.stream| % t.chunk == 0
    ensures CutOff(t, cap, |t.stream| - 1)
  {
    var m, k := t.chunk, |t.stream| / t.chunk;
    assert |t.stream| == k * m;
    assert (k - 1) * m == k * m - m;
    QuotientIs(|t.stream| - 1, k - 1, m);
  }

  /** Some byte that is cut off spoils the stream. */
  lemma SpoilingByte(t: Transfer, cap: nat) returns (i: nat)
    requires Receivable(t) && HEADER_SIZE < cap && !Fits(t, cap) && !OneZeroShort(t, cap)
    ensures CutOff(t, cap, i)
    ensures i + 1 == |t.stream| || CutOff(t, cap, i + 1) || t.stream[i] != 0
  {
    i := FirstCutOff(t, cap);
    if i + 1 == t.chunk < |t.stream| {
      if |t.stream| % t.chunk == 0 {
        LastCutOff(t, cap);
        i := |t.stream| - 1;
      } else {
        i :| CutOff(t, cap, i) && t.stream[i] != 0;
      }
    }
  }

  lemma TruncatedJobIsWrong(t: Transfer, cap: nat, job: Job)
    requires JobFaithful(t, cap, job) && HEADER_SIZE < cap && !Fits(t, cap) && !OneZeroShort(t, cap)
    requires |t.stream| <= WINDOW && !job.store.noBuf
    ensures Content(job.store) != t.stream
  {
    var w, got := job.store.wab, GotSet(t, cap, job.seen);
    var i := SpoilingByte(t, cap);
    CutOffNotGot(t, cap, job.seen, i);
    if t.stream[i] != 0 {
      FlushHasZero(w, t.stream, got, true, i);
    } else {
      FlushStopsShort(w, t.stream, got, true, i);
    }
  }

  ghost predicate Delivers(t: Transfer, s: State) {
    exists q <- s.queue :: Content(q.store) == t.stream
  }

  /** The receive buffer must hold the largest datagram: if every chunk arrives, the stream is delivered
      exactly when nothing was cut off. The one exception is a buffer a single byte short and a zero in
      every place where it cuts: `condense` takes such bytes for written, if the order of arrival is right. */
  lemma DeliveredIffBufferFits(t: Transfer, cap: nat, es: seq<Event>)
    requires Receivable(t) && |t.stream| <= WINDOW && !OneZeroShort(t, cap)
    requires es != [] && AllFrom(t, es) && AllCovered(t, es) && AllHealthy(es)
    ensures Delivers(t, Run(cap, INITIAL, es)) <==> Fits(t, cap)
  {
    if cap <= HEADER_SIZE {
      ShortBufferQueuesNothing(cap, INITIAL, es);
    } else {
      TransferProgress(t, cap, INITIAL, es);
      var s := Run(cap, INITIAL, es);
      assert s.queue == [s.queue[0]];
      if Fits(t, cap) {
        CompleteJobHoldsStream(t, cap, s.queue[0]);
        assert s.queue[0] in s.queue;
      } else {
        TruncatedJobIsWrong(t, cap, s.queue[0]);
      }
    }
  }

  /** Every FlowFile of this size is delivered by every arrival of all its chunks. */
  ghost predicate AlwaysDelivers(sent: Sent, n: nat, m: nat, cap: nat) {
    forall t, es | Probe(sent, t, n, m) && es != [] && AllFrom(t, es) && AllCovered(t, es) && AllHealthy(es) ::
      Delivers(t, Run(cap, INITIAL, es))
  }

  /** One of these transfers has more cut off than single zeros. */
  ghost predicate SomeCut(sent: Sent, n: nat, m: nat, cap: nat) {
    exists t :: Probe(sent, t, n, m) && !OneZeroShort(t, cap)
  }

  /** FlowFiles of a size are always delivered if and only if the receive buffer holds their datagrams;
      whichever are sent, as long as a buffer that is too short cuts more off one of them than zeros. */
  lemma BufferMustFitIff(sent: Sent, n: nat, m: nat, cap: nat)
    requires n <= WINDOW && (34 + Min(m, n) > cap ==> SomeCut(sent, n, m, cap))
    ensures AlwaysDelivers(sent, n, m, cap) <==> 34 + Min(m, n) <= cap
  {
    if HEADER_SIZE + Min(m, n) <= cap {
      forall t, es | Probe(sent, t, n, m) && es != [] && AllFrom(t, es) && AllCovered(t, es) && AllHealthy(es)
        ensures Delivers(t, Run(cap, INITIAL, es))
      {
        DeliveredIffBufferFits(t, cap, es);
      }
    } else {
      var t :| Probe(sent, t, n, m) && !OneZeroShort(t, cap);
      var es := WholeEmission(t);
      EmissionCoversAll(t, es);
      DeliveredIffBufferFits(t, cap, es);
    }
  }

  // ---------------------------------------------------------------- what post sends

  const UUID_NAME: seq<byte> := Text("uuid")
  const TYPE_NAME: seq<byte> := Text("checksumType")
  const SUM_NAME: seq<byte> := Text("checksum")

  /** The libraries' part: which id a text stands for, and whether checksum type and checksum suit a payload. */
  datatype Checks = Checks(uuidOf: seq<byte> -> Uuid, verify: (seq<byte>, seq<byte>, seq<byte>) -> bool)

  /** `post`: the custody chain has got its new link, the id is that of the uuid attribute, and a FlowFile
      with a payload is sent only if its checksum is there and right. */
  function PostSends(c: Checks, link: seq<Attribute>): Sent {
    (id: Uuid, f: File) =>
      && |link| <= |f.attrs| && f.attrs[|f.attrs| - |link|..] == link
      && id == c.uuidOf(Get(f.attrs, UUID_NAME))
      && (f.payload == [] || c.verify(Get(f.attrs, TYPE_NAME), Get(f.attrs, SUM_NAME), f.payload))
  }

  function Named(id: seq<byte>, kind: seq<byte>, sum: seq<byte>): seq<Attribute> {
    [Attribute(UUID_NAME, id), Attribute(TYPE_NAME, kind), Attribute(SUM_NAME, sum)]
  }

  function Ones(n: nat): (s: seq<byte>)
    ensures |s| == n && forall i | 0 <= i < n :: s[i] == 1
  {
    seq(n, _ => 1)
  }

  lemma NamedGet(id: seq<byte>, kind: seq<byte>, sum: seq<byte>, link: seq<Attribute>)
    ensures var attrs := Named(id, kind, sum) + link;
            Get(attrs, UUID_NAME) == id && Get(attrs, TYPE_NAME) == kind && Get(attrs, SUM_NAME) == sum
  {
    var attrs := Named(id, kind, sum) + link;
    assert |UUID_NAME| == 4 && |TYPE_NAME| == 12 && |SUM_NAME| == 8;
    assert attrs[1..][1..] == attrs[2..];
    assert Get(attrs, SUM_NAME) == Get(attrs[1..], SUM_NAME) == Get(attrs[2..], SUM_NAME);
  }

  /** With a text for the id and a checksum for the payload there is a FlowFile of every size from its
      header on, whose bytes behind the header are not zero. */
  lemma PostCanSend(c: Checks, link: seq<Attribute>, id: seq<byte>, kind: seq<byte>, sum: seq<byte>, n: nat, m: nat)
    returns (t: Transfer)
    requires 100 <= m < TWO_16 && n < TWO_63 && Writable(Named(id, kind, sum) + link)
    requires var h := HeaderSize(Named(id, kind, sum) + link);
             h <= n && c.uuidOf(id) != NIL_UUID && c.verify(kind, sum, Ones(n - h))
    ensures Probe(PostSends(c, link), t, n, m)
    ensures forall i | HeaderSize(Named(id, kind, sum) + link) <= i < n :: t.stream[i] == 1
  {
    var attrs := Named(id, kind, sum) + link;
    var h := HeaderSize(attrs);
    var f := File(attrs, Ones(n - h));
    t := Transfer(c.uuidOf(id), BytesOf(f), m);
    EncodedParts(attrs, f.payload);
    NamedGet(id, kind, sum, link);
    assert attrs[|attrs| - |link|..] == link;
    assert IsSent(PostSends(c, link), t, f);
    forall i | h <= i < n
      ensures t.stream[i] == 1
    {
      assert t.stream[h..][i - h] == 1;
    }
  }

  lemma OnesTell(sent: Sent, t: Transfer, n: nat, m: nat, h: nat)
    requires Probe(sent, t, n, m) && WINDOW < n && h + 2 * TWO_16 <= WINDOW
    requires forall i | h <= i < n :: t.stream[i] == 1
    ensures SomeTelling(sent, n, m)
  {
    var x := Max(h, m);
    assert Finish(t, Owner(t, x)) <= x + m;
    assert Telling(t, x);
  }

  lemma OnesAreCut(sent: Sent, t: Transfer, n: nat, m: nat, h: nat, cap: nat)
    requires Probe(sent, t, n, m) && (h < m || h + m <= n)
    requires forall i | h <= i < n :: t.stream[i] == 1
    ensures SomeCut(sent, n, m, cap)
  {
    if OneZeroShort(t, cap) {
      var k := if h < m then 0 else h / m;
      var i := k * m + m - 1;
      QuotientLocates(h, m);
      QuotientIs(i, k, m);
      assert CutOff(t, cap, i);
    }
  }

  // ---------------------------------------------------------------- the nil UUID

  /** A fresh receiver panics on the first data chunk exactly when it carries the all-zero id, which
      it takes for the transfer it is already on; `post` sends that id when the attribute is missing. */
  lemma FirstChunkPanicsIff(t: Transfer, cap: nat, k: nat, d: Disk)
    requires Sendable(t) && 100 <= t.chunk && t.stream != [] && HEADER_SIZE < cap && IsDataChunk(t, k)
    ensures Step(cap, INITIAL, Event(Packet(t, k), d)).crashed <==> t.uuid == NIL_UUID
  {
    var e := Event(Packet(t, k), d);
    PacketFields(t, k);
    DataChunkIff(t, k);
    if t.uuid == NIL_UUID {
      var dat := e.dat[..Min(cap, |e.dat|)];
      assert dat[..HEADER_SIZE] == e.dat[..HEADER_SIZE];
    } else {
      ChunkStep(t, cap, INITIAL, e, k);
    }
  }
}
