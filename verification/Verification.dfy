/** What the worker checks before it forwards a job, and what it finds to forward (`doWork`,
    ff-udp-to-http.go:135-199). */
module Verification {
  import opened Words
  import opened Wire
  import opened FlowFile
  import opened StreamChecksum
  import opened Files
  import opened WriteBuffer
  import opened Storage
  import opened Sender
  import opened Reassembly
  import opened Delivery
  import Fragments
  import Scanner

  /** `Checked`: forwarded exactly if these attributes carry the checksum of this input. */
  datatype Verdict = Unchecked | Refused | Checked(attrs: seq<Attribute>, input: seq<byte>)

  /** Without a hash from the stream: the file is hashed, from its first byte on. */
  function HashFile(wanted: Wanted, attrs: seq<Attribute>, file: seq<byte>): Verdict {
    var r := ReadFrom(file);
    var known := if attrs == [] && r.Parsed? then r.attrs else attrs;
    if wanted(known) then Checked(known, file) else Refused
  }

  /** The verdict on a job, and the file that is forwarded if it is good; ok is the disk's answer to the
      last flush. The size is looked at before that flush, so only the full blocks count for it. */
  function DoWork(wanted: Wanted, s: Store, ok: bool): (Verdict, seq<byte>) {
    var scan := FeedAll(wanted, s.wab.streamed);
    if scan.size > 0 && s.noBuf then (HashFile(wanted, scan.attrs, s.wab.file), s.wab.file)
    else
      var (w, failed) := Flush(s.wab, ok);
      var last := FeedAll(wanted, w.streamed);
      if scan.size == 0 then (Unchecked, w.file)
      else if !failed && last.hash.Some? then (Checked(last.attrs, last.hash.value), w.file)
      else (HashFile(wanted, last.attrs, w.file), w.file)
  }

  lemma FeedsOne(wanted: Wanted, ps: seq<seq<byte>>, p: seq<byte>)
    ensures FeedAll(wanted, ps + [p]) == Feed(wanted, FeedAll(wanted, ps), p)
  {
    assert (ps + [p])[..|ps|] == ps;
  }

  /** Lines 147-161: the hash of the file, with the attributes read from it if there are none yet. */
  method CheckFile(job: WorkUnit, wanted: Wanted, known: seq<Attribute>) returns (v: Verdict)
    ensures v == HashFile(wanted, known, job.wab.file)
  {
    var attrs := known;
    if attrs == [] {
      match ReadFrom(job.wab.file) {
        case Parsed(a) => attrs := a;
        case _ =>
      }
    }
    if wanted(attrs) {
      return Checked(attrs, job.wab.file);
    }
    return Refused;
  }

  /** The worker on its job, statement by statement, up to the scan of the file it forwards. The closure
      has seen by now what the buffer has streamed. */
  method Check(job: WorkUnit, wanted: Wanted, ok: bool) returns (v: Verdict)
    requires job.Valid()
    modifies job, job.wab
    ensures (v, job.wab.file) == DoWork(wanted, old(job.Value()).store, ok)
  {
    var scan := new StreamFunc(wanted);
    var seen := job.wab.streamed;
    scan.CallAll(seen);
    if scan.size == 0 {
      var _ := job.wab.Flush(ok);
      return Unchecked;
    }
    if !job.noBuf {
      var failed := job.wab.Flush(ok);
      if |job.wab.streamed| > |seen| {
        FeedsOne(wanted, seen, job.wab.streamed[|seen|]);
        scan.Call(job.wab.streamed[|seen|]);
      }
      assert scan.Value() == FeedAll(wanted, job.wab.streamed);
      if !failed && scan.hash.Some? {
        return Checked(scan.attrs, scan.hash.value);
      }
      job.noBuf := true;
    }
    v := CheckFile(job, wanted, scan.attrs);
  }

  // ---------------------------------------------------------------- complete jobs

  /** k blocks show the scan the attributes in time, and eight bytes of payload that are not all zero. */
  ghost predicate SizeShows(attrs: seq<Attribute>, payload: seq<byte>, k: nat) {
    && |payload| >= 8 && FromBigEndian(payload[..8]) > 0
    && HeaderSize(attrs) + 8 <= k * BLOCK && (k >= 17 ==> EarlyHeader(attrs))
  }

  ghost predicate AllBlocks(ps: seq<seq<byte>>) {
    forall p <- ps :: |p| == BLOCK
  }

  lemma BlocksScan(wanted: Wanted, attrs: seq<Attribute>, payload: seq<byte>, ps: seq<seq<byte>>)
    requires Writable(attrs) && AllBlocks(ps) && Concat(ps) <= Encoded(attrs, payload)
    ensures var scan := FeedAll(wanted, ps);
            && (scan.size > 0 <==> SizeShows(attrs, payload, |ps|))
            && (scan.size > 0 ==> scan.attrs == attrs)
  {
    CutDecides(wanted, attrs, payload, ps);
    BlocksLength(ps);
    BlocksSurviveIff(attrs, ps);
  }

  /** The buffer of a complete job has streamed full blocks of the content; all of them, if it is in use. */
  lemma CompleteStreamed(s: Store, c: seq<byte>, got: set<int>)
    requires Faithful(s, c, got) && Complete(c, got)
    ensures AllBlocks(s.wab.streamed) && Concat(s.wab.streamed) <= c
    ensures !s.noBuf ==> s.wab.bufSt == |s.wab.streamed| * BLOCK && |c| - BLOCK < s.wab.bufSt <= |c|
  {
    var f := Concat(s.wab.streamed);
    forall x | 0 <= x < |f|
      ensures x < |c| && f[x] == c[x]
    {
      assert HeardAt(f, c, got, x);
      assert x in got;
    }
    assert |f| > |c| ==> HeardAt(f, c, got, |c|);
    if !s.noBuf {
      BlocksLength(s.wab.streamed);
      LastFragment(s.wab, c, got);
    }
  }

  lemma WritesNothingNew(c: seq<byte>, off: nat, p: seq<byte>)
    requires forall i | 0 <= i < |p| :: off + i < |c| && p[i] == c[off + i]
    ensures WriteAt(c, off, p) == c
  {
    if p != [] {
      assert p[|p| - 1] == c[off + (|p| - 1)];
    }
  }

  /** A late flush writes what is there already. */
  lemma LateFlush(s: Store, c: seq<byte>, got: set<int>)
    requires Faithful(s, c, got) && Complete(c, got) && !s.spoiled && s.noBuf
    ensures s.wab.file == c && Flush(s.wab, true).0.file == c
  {
    assert forall x | 0 <= x < |c| :: s.wab.file[x] == c[x];
    var w := s.wab;
    if w.inbuf != [] && w.inbuf[0].start == w.bufSt {
      var piece := w.buf[..Max(0, Min(w.inbuf[0].stop - w.bufSt, |w.buf|))];
      forall i | 0 <= i < |piece|
        ensures w.bufSt + i < |c| && piece[i] == c[w.bufSt + i]
      {
        assert Fragments.In(w.inbuf, w.bufSt + i);
      }
      WritesNothingNew(c, w.bufSt, piece);
    }
  }

  /** The worker's verdict on a complete job that was not spoilt: which it is, from the stream alone. */
  function Verdicts(wanted: Wanted, attrs: seq<Attribute>, payload: seq<byte>, direct: bool): Verdict {
    if !wanted(attrs) then Refused else Checked(attrs, if direct then Encoded(attrs, payload) else payload)
  }

  lemma HashFileOf(wanted: Wanted, attrs: seq<Attribute>, payload: seq<byte>)
    requires Writable(attrs)
    ensures HashFile(wanted, attrs, Encoded(attrs, payload)) == Verdicts(wanted, attrs, payload, true)
  {
    var s := Encoded(attrs, payload);
    EncodedParts(attrs, payload);
    assert s[..|s|] == s;
    EncodedRead(attrs, payload, |s|);
  }

  /** The flush of a complete buffer streams the last piece of the content. */
  lemma FlushedPiece(s: Store, c: seq<byte>, got: set<int>) returns (last: seq<byte>)
    requires Faithful(s, c, got) && Complete(c, got) && !s.noBuf
    ensures Flush(s.wab, true).0.streamed == s.wab.streamed + [last] && !Flush(s.wab, true).1
    ensures |last| < BLOCK && Concat(s.wab.streamed) + last == c
  {
    CompleteStreamed(s, c, got);
    FlushComplete(s.wab, c, got);
    last := c[s.wab.bufSt..];
  }

  /** The flush gives the hash the rest of the payload. */
  lemma LastPieceScan(wanted: Wanted, attrs: seq<Attribute>, payload: seq<byte>, ps: seq<seq<byte>>, last: seq<byte>)
    requires Writable(attrs) && AllBlocks(ps) && |last| < BLOCK && Concat(ps) + last == Encoded(attrs, payload)
    requires SizeShows(attrs, payload, |ps|)
    ensures var scan := FeedAll(wanted, ps + [last]);
            scan.attrs == attrs && scan.hash == if wanted(attrs) then Some(payload) else None
  {
    LastPieceSurvivesIff(attrs, payload, ps, last);
    EarlyIfShort(attrs, payload, |ps|);
    WholeScan(wanted, attrs, payload, ps + [last]);
  }

  lemma EarlyIfShort(attrs: seq<Attribute>, payload: seq<byte>, k: nat)
    requires SizeShows(attrs, payload, k)
    ensures EarlyHeader(attrs)
  {
    SlackBelow(Strings(attrs));
  }

  /** The verdict on any complete job that was not spoilt, and the file that is forwarded with it: the
      stream. The job escapes the check exactly if the blocks streamed before the last flush do not show
      its size; otherwise the checksum is computed over the payload, or, after the switch to direct
      writes, over the payload and the header. */
  lemma WorkerVerdict(wanted: Wanted, s: Store, attrs: seq<Attribute>, payload: seq<byte>, got: set<int>)
    requires Writable(attrs) && !s.spoiled
    requires Faithful(s, Encoded(attrs, payload), got) && Complete(Encoded(attrs, payload), got)
    ensures var (v, file) := DoWork(wanted, s, true);
            && file == Encoded(attrs, payload)
            && v == if SizeShows(attrs, payload, |s.wab.streamed|) then Verdicts(wanted, attrs, payload, s.noBuf)
                    else Unchecked
  {
    var c := Encoded(attrs, payload);
    CompleteStreamed(s, c, got);
    BlocksScan(wanted, attrs, payload, s.wab.streamed);
    HashFileOf(wanted, attrs, payload);
    if s.noBuf {
      LateFlush(s, c, got);
    } else {
      FlushComplete(s.wab, c, got);
      var last := FlushedPiece(s, c, got);
      if SizeShows(attrs, payload, |s.wab.streamed|) {
        LastPieceScan(wanted, attrs, payload, s.wab.streamed, last);
      }
    }
  }

  /** The disk refuses the last flush of a complete job: the file ends with the last full block. The hash has
      had the whole payload by then, but the file is checked instead, without its end; and a job that is not
      checked at all is forwarded without its end. */
  lemma FailedFlush(wanted: Wanted, s: Store, attrs: seq<Attribute>, payload: seq<byte>, got: set<int>)
    requires Writable(attrs) && !s.noBuf
    requires Faithful(s, Encoded(attrs, payload), got) && Complete(Encoded(attrs, payload), got)
    ensures |s.wab.streamed| * BLOCK <= |Encoded(attrs, payload)| < (|s.wab.streamed| + 1) * BLOCK
    ensures var (v, file) := DoWork(wanted, s, false);
            && file == Encoded(attrs, payload)[..|s.wab.streamed| * BLOCK]
            && v == if !SizeShows(attrs, payload, |s.wab.streamed|) then Unchecked
                    else if wanted(attrs) then Checked(attrs, file) else Refused
  {
    var c := Encoded(attrs, payload);
    CompleteStreamed(s, c, got);
    BlocksScan(wanted, attrs, payload, s.wab.streamed);
    assert c != [] by {
      EncodedParts(attrs, payload);
    }
    var last := RefusedFlush(s, c, got);
    if SizeShows(attrs, payload, |s.wab.streamed|) {
      CutFileChecked(wanted, s, attrs, payload, last);
    }
    RefusedWork(wanted, s, last, attrs);
  }

  lemma CutFileChecked(wanted: Wanted, s: Store, attrs: seq<Attribute>, payload: seq<byte>, last: seq<byte>)
    requires Writable(attrs) && SizeShows(attrs, payload, |s.wab.streamed|) && AllBlocks(s.wab.streamed)
    requires |last| < BLOCK && Concat(s.wab.streamed) + last == Encoded(attrs, payload)
    requires |s.wab.streamed| * BLOCK <= |Encoded(attrs, payload)|
    requires s.wab.file == Encoded(attrs, payload)[..|s.wab.streamed| * BLOCK]
    ensures FeedAll(wanted, s.wab.streamed + [last]).attrs == attrs
    ensures HashFile(wanted, attrs, s.wab.file) == if wanted(attrs) then Checked(attrs, s.wab.file) else Refused
  {
    LastPieceScan(wanted, attrs, payload, s.wab.streamed, last);
    HashCutFile(wanted, attrs, payload, |s.wab.streamed| * BLOCK);
  }

  /** Without the flush the file is hashed as it is. */
  lemma RefusedWork(wanted: Wanted, s: Store, last: seq<byte>, attrs: seq<Attribute>)
    requires !s.noBuf && Flush(s.wab, false) == (s.wab.(streamed := s.wab.streamed + [last]), true)
    requires FeedAll(wanted, s.wab.streamed).size > 0 ==>
               && FeedAll(wanted, s.wab.streamed + [last]).attrs == attrs
               && HashFile(wanted, attrs, s.wab.file) == if wanted(attrs) then Checked(attrs, s.wab.file) else Refused
    ensures var (v, file) := DoWork(wanted, s, false);
            && file == s.wab.file
            && v == if FeedAll(wanted, s.wab.streamed).size == 0 then Unchecked
                    else if wanted(attrs) then Checked(attrs, file) else Refused
  {
  }

  lemma RefusedFlush(s: Store, c: seq<byte>, got: set<int>) returns (last: seq<byte>)
    requires Faithful(s, c, got) && Complete(c, got) && !s.noBuf && c != []
    ensures Flush(s.wab, false) == (s.wab.(streamed := s.wab.streamed + [last]), true)
    ensures |last| < BLOCK && Concat(s.wab.streamed) + last == c
    ensures |s.wab.streamed| * BLOCK <= |c| && s.wab.file == c[..|s.wab.streamed| * BLOCK]
  {
    CompleteStreamed(s, c, got);
    LastFragment(s.wab, c, got);
    FlushComplete(s.wab, c, got);
    last := FlushedPiece(s, c, got);
  }

  /** A file that is cut off behind the header still tells the attributes. */
  lemma HashCutFile(wanted: Wanted, attrs: seq<Attribute>, payload: seq<byte>, k: nat)
    requires Writable(attrs) && HeaderSize(attrs) <= k <= |Encoded(attrs, payload)|
    ensures var file := Encoded(attrs, payload)[..k];
            HashFile(wanted, attrs, file) == if wanted(attrs) then Checked(attrs, file) else Refused
  {
    EncodedRead(attrs, payload, k);
  }

  /** A spoilt file, too, is checked against the attributes that came with the stream, whatever the file says. */
  lemma SpoiltVerdict(wanted: Wanted, s: Store, attrs: seq<Attribute>, payload: seq<byte>, got: set<int>, ok: bool)
    requires Writable(attrs) && attrs != [] && s.noBuf && SizeShows(attrs, payload, |s.wab.streamed|)
    requires Faithful(s, Encoded(attrs, payload), got) && Complete(Encoded(attrs, payload), got)
    ensures DoWork(wanted, s, ok) == (if wanted(attrs) then Checked(attrs, s.wab.file) else Refused, s.wab.file)
  {
    CompleteStreamed(s, Encoded(attrs, payload), got);
    BlocksScan(wanted, attrs, payload, s.wab.streamed);
  }

  /** After the switch to direct writes the last flush makes no difference. */
  lemma FailedLateFlush(wanted: Wanted, s: Store, c: seq<byte>, got: set<int>)
    requires Faithful(s, c, got) && Complete(c, got) && !s.spoiled && s.noBuf
    ensures DoWork(wanted, s, false) == DoWork(wanted, s, true) && DoWork(wanted, s, false).1 == c
  {
    LateFlush(s, c, got);
  }

  ghost predicate AllZero(s: seq<byte>) {
    forall i | 0 <= i < |s| :: s[i] == 0
  }

  lemma {:induction false} ZeroIff(s: seq<byte>)
    ensures FromBigEndian(s) == 0 <==> AllZero(s)
  {
    if s != [] {
      var init := s[..|s| - 1];
      ZeroIff(init);
      assert AllZero(s) <==> AllZero(init) && s[|s| - 1] == 0;
    }
  }

  /** A job that arrived whole through its buffer is forwarded unchecked if and only if its payload has
      fewer than eight bytes, or begins with eight zeros, or its ninth byte is not in a full block of the
      stream, or the attributes do not end within 17 blocks of a stream that has them. */
  lemma UncheckedIff(wanted: Wanted, s: Store, attrs: seq<Attribute>, payload: seq<byte>, got: set<int>)
    requires Writable(attrs) && !s.noBuf
    requires Faithful(s, Encoded(attrs, payload), got) && Complete(Encoded(attrs, payload), got)
    ensures var n, full := |Encoded(attrs, payload)|, |Encoded(attrs, payload)| / 4096;
            DoWork(wanted, s, true).0.Unchecked? <==>
              || |payload| < 8
              || AllZero(payload[..8])
              || full * 4096 < HeaderSize(attrs) + 8
              || (full >= 17 && ParseAt(attrs) > 17 * 4096)
  {
    var c := Encoded(attrs, payload);
    WorkerVerdict(wanted, s, attrs, payload, got);
    CompleteStreamed(s, c, got);
    assert |s.wab.streamed| == |c| / BLOCK;
    if |payload| >= 8 {
      ZeroIff(payload[..8]);
    }
  }

  /** The two ways of checking a stream never read the same bytes. */
  lemma ChecksDiffer(wanted: Wanted, attrs: seq<Attribute>, payload: seq<byte>)
    requires Writable(attrs) && wanted(attrs)
    ensures Verdicts(wanted, attrs, payload, false) != Verdicts(wanted, attrs, payload, true)
  {
    EncodedParts(attrs, payload);
  }

  /** A buffer that has streamed no block leaves its job unchecked, whatever is in the file. */
  lemma NothingStreamed(wanted: Wanted, s: Store, ok: bool)
    requires s.wab.streamed == []
    ensures DoWork(wanted, s, ok).0 == Unchecked
  {
  }

  // ---------------------------------------------------------------- from the socket to the worker

  /** The FlowFiles the worker sends on, if the verdict on its file is good. */
  function Forwarded(file: seq<byte>): seq<Scanner.Found> {
    Scanner.Scan(file)
  }

  /** A FlowFile is forwarded, and then whatever its payload reads as. */
  lemma ForwardedOnceIff(file: seq<byte>, attrs: seq<Attribute>, payload: seq<byte>)
    requires Writable(attrs) && file == Encoded(attrs, payload) && |file| < TWO_63
    ensures Forwarded(file) == [Scanner.Found(attrs, |payload|, payload)] + Forwarded(payload)
    ensures Forwarded(file) == [Scanner.Found(attrs, |payload|, payload)] <==> !Scanner.Begins(payload)
  {
    EncodedParts(attrs, payload);
    Scanner.FoundOnceIff(File(attrs, payload));
  }

  /** Whatever the network and the disks do: for every queued job that was not spoilt, the worker's file is
      the FlowFile that was sent under the job's UUID, and its verdict is the one that FlowFile deserves.
      It is forwarded alone exactly if its payload does not begin like a FlowFile. */
  lemma ForwardedCorrect(wanted: Wanted, ts: map<Uuid, Transfer>, cap: nat, es: seq<Event>, q: Job,
                         attrs: seq<Attribute>, payload: seq<byte>)
    requires Network(ts) && Drawn(ts, es) && forall u <- ts :: Fits(ts[u], cap)
    requires q in Run(cap, INITIAL, es).queue && !q.store.spoiled
    requires Writable(attrs) && (q.hdr.uuid in ts ==> ts[q.hdr.uuid].stream == Encoded(attrs, payload))
    ensures q.hdr.uuid in ts
    ensures var (v, file) := DoWork(wanted, q.store, true);
            && file == ts[q.hdr.uuid].stream
            && v == if SizeShows(attrs, payload, |q.store.wab.streamed|) then Verdicts(wanted, attrs, payload, q.store.noBuf)
                    else Unchecked
    ensures var (v, file) := DoWork(wanted, q.store, true);
            && Forwarded(file) == [Scanner.Found(attrs, |payload|, payload)] + Forwarded(payload)
            && (Forwarded(file) == [Scanner.Found(attrs, |payload|, payload)] <==> !Scanner.Begins(payload))
  {
    RunKeepsGood(ts, cap, INITIAL, es);
    var t := ts[q.hdr.uuid];
    JobComplete(t, cap, q);
    WorkerVerdict(wanted, q.store, attrs, payload, GotSet(t, cap, q.seen));
    ForwardedOnceIff(t.stream, attrs, payload);
  }
}
