/** What `handle` makes of datagrams from anywhere, whatever is in them (ff-udp-to-http.go:223-379). */
module Datagrams {
  import opened Words
  import opened Wire
  import opened Storage
  import opened Sender
  import opened Reassembly

  /** What the receive buffer has of a datagram. */
  function Read(cap: nat, dat: seq<byte>): seq<byte> {
    dat[..Min(cap, |dat|)]
  }

  /** Too short for a header, or a header that asks for chunks of fewer than 100 bytes. */
  predicate Unusable(dat: seq<byte>) {
    |dat| < HEADER_SIZE || FromBigEndian(dat[32..34]) < 100
  }

  /** An unusable datagram changes nothing, whatever the receiver is on. */
  lemma UnusableIsIgnored(cap: nat, s: State, e: Event)
    requires Unusable(Read(cap, e.dat))
    ensures Step(cap, s, e) == s
  {
    var dat := Read(cap, e.dat);
    if |dat| >= HEADER_SIZE {
      assert dat[..HEADER_SIZE][32..34] == dat[32..34];
    }
  }

  /** The sizes for which the signed chunk count comes out negative. */
  predicate NegativeCount(size: uint64, mtu: uint16) {
    TWO_63 < size <= TWO_64 - 2 * mtu + 1
  }

  /** The offsets for which the signed chunk index comes out negative. */
  predicate NegativeIndex(offset: uint64, mtu: uint16) {
    TWO_63 - 1 <= offset && offset < TWO_64 - mtu
  }

  lemma CountNegativeIff(h: Header)
    requires h.mtu > 0
    ensures TotalOf(h) < 0 <==> NegativeCount(h.size, h.mtu)
  {
    var x := Int64(Add64(h.size, -1));
    NegativeQuotient(x, h.mtu);
  }

  lemma NextOffset(offset: uint64)
    ensures Int64(Add64(offset, 1)) ==
              if offset == TWO_64 - 1 then 0 else if offset < TWO_63 - 1 then offset + 1 else offset + 1 - TWO_64
  {
    if offset < TWO_64 - 1 {
      assert Add64(offset, 1) == offset + 1;
    }
  }

  lemma IndexNegativeIff(h: Header)
    requires h.mtu > 0
    ensures IndexOf(h) < 0 <==> NegativeIndex(h.offset, h.mtu)
  {
    var x := Int64(Add64(h.offset, 1));
    NextOffset(h.offset);
    NegativeQuotient(x, h.mtu);
  }

  /** Truncated division is negative only from the negative divisor on. */
  lemma NegativeQuotient(x: int, m: nat)
    requires m > 0
    ensures Quot(x, m) <= -1 <==> x + m <= 0
    ensures Quot(x, m) <= -2 <==> x + 2 * m <= 0
  {
    if x >= 0 {
      QuotientLocates(x, m);
    } else if -x < m {
      QuotientIs(-x, 0, m);
    } else if -x < 2 * m {
      QuotientIs(-x, 1, m);
    } else {
      AtLeastTwo(-x, m);
    }
  }

  lemma AtLeastTwo(y: nat, m: nat)
    requires 0 < m && 2 * m <= y
    ensures y / m >= 2
  {
    QuotientLocates(y, m);
    MulCancels(1, y / m, m);
  }

  /** The datagram brings data to a receiver that, once it has looked at its id, has no job to put it in. */
  ghost predicate NoJob(s: State, h: Header) {
    h.uuid == s.uuid && s.job.None? && !s.done
  }

  /** Exactly which usable datagrams make `handle` panic: one of another id whose size makes the chunk count
      negative; and one with data that finds no job under its own id, which is how a receiver starts for the
      all-zero id, or whose offset makes the chunk index negative while the transfer is not done. */
  lemma PanicsIff(cap: nat, s: State, e: Event)
    requires !s.crashed && !Unusable(Read(cap, e.dat))
    ensures var dat := Read(cap, e.dat);
            var h := Decode(dat[..HEADER_SIZE]);
            Step(cap, s, e).crashed <==>
              || (h.uuid != s.uuid && NegativeCount(h.size, h.mtu))
              || (|dat| > HEADER_SIZE &&
                   (NoJob(s, h) || (NegativeIndex(h.offset, h.mtu) && (h.uuid != s.uuid || !s.done))))
  {
    var dat := Read(cap, e.dat);
    var h := Decode(dat[..HEADER_SIZE]);
    assert dat[..HEADER_SIZE][32..34] == dat[32..34];
    CountNegativeIff(h);
    IndexNegativeIff(h);
  }

  /** A panic is the end: nothing is received after it. */
  lemma {:induction false} PanicIsTheEnd(cap: nat, s: State, es: seq<Event>)
    requires s.crashed
    ensures Run(cap, s, es) == s
  {
    if es != [] {
      PanicIsTheEnd(cap, s, es[..|es| - 1]);
    }
  }

  /** A datagram of the current id whose index is beyond the job, or that comes after the job is done,
      changes nothing. */
  lemma BeyondIsIgnored(cap: nat, s: State, e: Event)
    requires !s.crashed && !Unusable(Read(cap, e.dat))
    requires var h := Decode(Read(cap, e.dat)[..HEADER_SIZE]);
             h.uuid == s.uuid && (s.done || (s.job.Some? && h.mtu > 0 && IndexOf(h) >= |s.job.value.seen|))
    ensures Step(cap, s, e) == s
  {
  }
}
