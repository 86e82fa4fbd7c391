/** Rebuilding streams from datagrams (ff-udp-to-http.go:100-118, 211-380). */
module Reassembly {
  import opened Words
  import opened Wire
  import opened Files
  import opened WriteBuffer
  import opened BufferedFile
  import opened Storage
  import opened Sender

  datatype Job = Job(hdr: Header, seen: seq<byte>, store: Store)

  /** What `handle` remembers between packets, and the jobs it has put on `workChan`. */
  datatype State = State(uuid: Uuid, job: Option<Job>, done: bool, crashed: bool, queue: seq<Job>)

  const INITIAL := State(NIL_UUID, None, false, false, [])

  /** A datagram off the network and what the disk does should it be written. */
  datatype Event = Event(dat: seq<byte>, disk: Disk)

  predicate AllSeen(seen: seq<byte>) {
    forall k | 0 <= k < |seen| :: seen[k] != 0
  }

  /** `int(hdr.Size-1)/int(hdr.MTU) + 1` */
  function TotalOf(h: Header): int
    requires h.mtu > 0
  {
    Quot(Int64(Add64(h.size, -1)), h.mtu) + 1
  }

  /** `int(hdr.Offset+1) / int(hdr.MTU)` */
  function IndexOf(h: Header): int
    requires h.mtu > 0
  {
    Quot(Int64(Add64(h.offset, 1)), h.mtu)
  }

  /** A new UUID: forget the current job, open the next one. A negative chunk count panics. */
  function Open(s: State, h: Header): State
    requires h.mtu > 0
  {
    var total := TotalOf(h);
    if total < 0 then s.(crashed := true)
    else s.(uuid := h.uuid, done := false, job := Some(Job(h, Zeros(total), NewStore())))
  }

  /** Queue the job when its last chunk is in. */
  function Finished(s: State, job: Job): State {
    if AllSeen(job.seen) then s.(job := None, done := true, queue := s.queue + [job])
    else s.(job := Some(job), done := false)
  }

  /** A packet with data for the current job. Without a job, or below index 0, Go panics. */
  function Place(s: State, h: Header, p: seq<byte>, d: Disk): State
    requires h.mtu > 0
  {
    match s.job
    case None => s.(crashed := true)
    case Some(job) =>
      var idx := IndexOf(h);
      if idx >= |job.seen| then s
      else if idx < 0 then s.(crashed := true)
      else if job.seen[idx] == 1 then s
      else
        var written := job.(seen := job.seen[idx := 1],
                            store := Accept(job.store, Int64(h.size), Int64(h.offset), p, d));
        Finished(s, written)
  }

  /** One turn of the loop in `handle`, with a receive buffer of `cap` bytes. */
  function Step(cap: nat, s: State, e: Event): State {
    var dat := e.dat[..Min(cap, |e.dat|)];
    if s.crashed || |dat| < HEADER_SIZE then s
    else
      var h := Decode(dat[..HEADER_SIZE]);
      if h.mtu < 100 then s
      else
        var s1 := if h.uuid != s.uuid then Open(s, h) else s;
        if s1.crashed || s1.done || |dat| == HEADER_SIZE then s1
        else Place(s1, h, dat[HEADER_SIZE..], e.disk)
  }

  function Run(cap: nat, s: State, es: seq<Event>): State {
    if es == [] then s else Step(cap, Run(cap, s, es[..|es| - 1]), es[|es| - 1])
  }

  // ---------------------------------------------------------------- the loop, in place

  /** A job: written in place until it is complete, then handed over. */
  class WorkUnit {
    const hdr: Header
    const seenChunks: array<byte>
    const wab: WriterAtBuf
    var noBuf: bool
    ghost var spoiled: bool

    /** Everything the job writes to. */
    ghost function Repr(): set<object> {
      {this, seenChunks, wab, wab.buf}
    }

    ghost predicate Valid() {
      seenChunks != wab.buf
    }

    ghost function Value(): Job
      reads Repr()
    {
      Job(hdr, seenChunks[..], Store(wab.Value(), noBuf, spoiled))
    }

    constructor (hdr: Header, total: nat)
      ensures fresh(Repr()) && Valid()
      ensures Value() == Job(hdr, Zeros(total), NewStore())
    {
      this.hdr := hdr;
      seenChunks := new byte[total](_ => 0);
      wab := new WriterAtBuf();
      noBuf, spoiled := false, false;
      new;
      assert seenChunks[..] == Zeros(total);
    }

    /** The buffered write and its fallback, statement by statement. */
    method Write(size: int, off: int, p: seq<byte>, d: Disk)
      requires Valid()
      modifies this, wab, wab.buf
      ensures Value() == old(Value()).(store := Accept(old(Value()).store, size, off, p, d))
    {
      if !noBuf {
        var failed := wab.Write(p, off, d);
        if failed {
          spoiled := !Harmless(wab.Value());
          wab.file := Truncate(wab.file, size);
          wab.FlushAll();
          wab.file := Truncate(wab.file, size);
          noBuf := true;
        }
      }
      if noBuf {
        wab.file := WriteAt(wab.file, off, p);
      }
    }

    /** A chunk that was not seen yet. */
    method Receive(idx: nat, size: int, off: int, p: seq<byte>, d: Disk)
      requires Valid() && idx < seenChunks.Length
      modifies this, seenChunks, wab, wab.buf
      ensures Value() == old(Value()).(seen := old(Value()).seen[idx := 1],
                                       store := Accept(old(Value()).store, size, off, p, d))
    {
      seenChunks[idx] := 1;
      Write(size, off, p, d);
    }

    method Complete() returns (done: bool)
      ensures done == AllSeen(seenChunks[..])
    {
      done := true;
      for i := 0 to seenChunks.Length
        invariant done
        invariant forall k | 0 <= k < i :: seenChunks[k] != 0
      {
        if seenChunks[i] == 0 {
          assert seenChunks[..][i] == 0;
          done := false;
          break;
        }
      }
    }
  }

  class Receiver {
    const cap: nat  // len(dat)
    var uuid: Uuid
    var job: WorkUnit?
    var done: bool
    var crashed: bool
    var workChan: seq<WorkUnit>

    /** The current job shares no memory with the jobs already handed over. */
    ghost predicate Valid()
      reads this
    {
      job != null ==> job.Valid() && forall w <- workChan :: w.Repr() !! job.Repr()
    }

    ghost function Owned(): set<object>
      reads this
    {
      set w <- workChan, o <- w.Repr() :: o
    }

    ghost function JobRepr(): set<object>
      reads this
    {
      if job == null then {} else job.Repr()
    }

    ghost function Queue(): (q: seq<Job>)
      reads this, Owned()
      ensures |q| == |workChan|
    {
      seq(|workChan|, i requires 0 <= i < |workChan| reads this, Owned() =>
        assert workChan[i] in workChan; workChan[i].Value())
    }

    ghost function Value(): State
      reads this, Owned(), JobRepr()
    {
      State(uuid, if job == null then None else Some(job.Value()), done, crashed, Queue())
    }

    constructor (cap: nat)
      ensures Valid() && Value() == INITIAL && this.cap == cap && workChan == []
    {
      this.cap := cap;
      uuid, job, done, crashed, workChan := NIL_UUID, null, false, false, [];
    }

    /** The packet opens another transfer. */
    method OpenJob(h: Header)
      requires Valid() && h.mtu > 0
      modifies this
      ensures Valid() && workChan == old(workChan)
      ensures Value() == Open(old(Value()), h)
      ensures job == old(job) || (job != null && fresh(job.Repr()))
    {
      var total := TotalOf(h);
      if total < 0 {
        crashed := true;
      } else {
        done := false;
        var unit := new WorkUnit(h, total);
        job := unit;
        uuid := h.uuid;
      }
      assert Queue() == old(Queue());
    }

    /** The packet carries data. */
    method PlaceChunk(h: Header, p: seq<byte>, d: Disk)
      requires Valid() && h.mtu > 0
      modifies this, JobRepr()
      ensures Valid()
      ensures Value() == Place(old(Value()), h, p, d)
      ensures job == old(job) || job == null
      ensures workChan == old(workChan) || (job == null && workChan == old(workChan) + [old(job)])
    {
      if job == null {
        crashed := true;
        return;
      }
      var idx := IndexOf(h);
      if idx >= job.seenChunks.Length {
        return;
      }
      if idx < 0 {
        crashed := true;
        return;
      }
      if job.seenChunks[idx] == 1 {
        return;
      }
      job.Receive(idx, Int64(h.size), Int64(h.offset), p, d);
      assert Queue() == old(Queue());
      done := job.Complete();
      if done {
        workChan := workChan + [job];
        job := null;
        assert Queue() == old(Queue()) + [workChan[|workChan| - 1].Value()];
      }
    }

    /** One packet. Only the current job is written: a job once queued never changes again. */
    method Handle(e: Event)
      requires Valid()
      modifies this, JobRepr()
      ensures Valid()
      ensures Value() == Step(cap, old(Value()), e)
      ensures old(workChan) <= workChan
      ensures job == old(job) || job == null || fresh(job.Repr())
    {
      if crashed {
        return;
      }
      var dat := e.dat[..Min(cap, |e.dat|)];  // ReadFromUDP cuts the datagram to the buffer
      if |dat| < HEADER_SIZE {
        return;
      }
      var hdr := Decode(dat[..HEADER_SIZE]);
      if hdr.mtu < 100 {
        return;
      }
      if hdr.uuid != uuid {
        OpenJob(hdr);
      }
      if crashed || done || |dat| == HEADER_SIZE {
        return;
      }
      PlaceChunk(hdr, dat[HEADER_SIZE..], e.disk);
    }

    /** The receive loop over everything the socket yields. */
    method HandleAll(es: seq<Event>)
      requires Valid()
      modifies this, JobRepr()
      ensures Valid()
      ensures Value() == Run(cap, old(Value()), es)
      ensures old(workChan) <= workChan
    {
      for i := 0 to |es|
        invariant Valid()
        invariant Value() == Run(cap, old(Value()), es[..i])
        invariant old(workChan) <= workChan
        invariant job == old(job) || job == null || fresh(job.Repr())
      {
        assert es[..i + 1][..i] == es[..i];
        Handle(es[i]);
      }
      assert es[..|es|] == es;
    }
  }
}
