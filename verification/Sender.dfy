/** Cutting an encoded FlowFile stream into datagrams (ff-http-to-udp.go:174-192, 269-354). */
module Sender {
  import opened Words
  import opened Wire

  /** One stream on its way: `chunk` is the number of payload bytes a datagram carries. */
  datatype Transfer = Transfer(uuid: Uuid, stream: seq<byte>, chunk: nat)

  /** Sizes for which the sender's and the receiver's integers hold the true values. */
  ghost predicate Sendable(t: Transfer) {
    0 < t.chunk < TWO_16 && |t.stream| < TWO_63
  }

  function HeaderAt(t: Transfer, offset: uint64): Header
    requires Sendable(t)
  {
    Header(t.uuid, |t.stream|, offset, t.chunk)
  }

  /** Number of datagrams of one pass: the last one is short, possibly empty. */
  function Packets(t: Transfer): nat
    requires Sendable(t)
  {
    |t.stream| / t.chunk + 1
  }

  /** Number of chunks that hold data. */
  function Chunks(t: Transfer): nat
    requires Sendable(t)
  {
    (|t.stream| + t.chunk - 1) / t.chunk
  }

  function Start(t: Transfer, k: nat): (p: nat)
    requires Sendable(t) && k < Packets(t)
    ensures p <= |t.stream|
  {
    StartInStream(t.stream, t.chunk, k);
    k * t.chunk
  }

  function Finish(t: Transfer, k: nat): (p: nat)
    requires Sendable(t) && k < Packets(t)
    ensures Start(t, k) <= p <= |t.stream|
  {
    Min(Start(t, k) + t.chunk, |t.stream|)
  }

  function Chunk(t: Transfer, k: nat): seq<byte>
    requires Sendable(t) && k < Packets(t)
  {
    t.stream[Start(t, k)..Finish(t, k)]
  }

  function Packet(t: Transfer, k: nat): seq<byte>
    requires Sendable(t) && k < Packets(t)
  {
    Encode(HeaderAt(t, Start(t, k))) + Chunk(t, k)
  }

  /** The empty datagram that wakes the receiver up. */
  function Wakeup(t: Transfer): seq<byte>
    requires Sendable(t)
  {
    Encode(HeaderAt(t, 0))
  }

  function Pass(t: Transfer): (ps: seq<seq<byte>>)
    requires Sendable(t)
    ensures |ps| == Packets(t)
  {
    seq(Packets(t), k requires 0 <= k < Packets(t) => Packet(t, k))
  }

  /** Everything `post` puts on the wire when nothing stops it. */
  function Emission(t: Transfer): seq<seq<byte>>
    requires Sendable(t)
  {
    [Wakeup(t)] + (Pass(t) + Pass(t))
  }

  lemma StartInStream(stream: seq<byte>, chunk: nat, k: nat)
    requires 0 < chunk && k <= |stream| / chunk
    ensures 0 <= k * chunk <= |stream|
  {
    MulMonotone(k, |stream| / chunk, chunk);
    assert |stream| == chunk * (|stream| / chunk) + |stream| % chunk;
  }

  lemma MulMonotone(a: nat, b: nat, c: nat)
    requires a <= b
    ensures a * c <= b * c
  {
  }

  lemma MulCancels(a: nat, b: nat, c: nat)
    requires a * c < b * c
    ensures a < b
  {
    if b <= a {
      MulMonotone(b, a, c);
      assert false;
    }
  }

  /** Euclid: the quotient is the only k with x in [k*m, (k+1)*m). */
  lemma QuotientIs(x: nat, k: nat, m: nat)
    requires 0 < m && k * m <= x < k * m + m
    ensures x / m == k
  {
    QuotientLocates(x, m);
    assert (x / m + 1) * m == (x / m) * m + m && (k + 1) * m == k * m + m;
    MulCancels(k, x / m + 1, m);
    MulCancels(x / m, k + 1, m);
  }

  /** The receiver's division recovers the index of every chunk exactly when a chunk has at least
      two bytes; with one-byte chunks it is always one too high. */
  lemma ChunkIndexRecoveredIff(k: nat, m: nat)
    requires 0 < m
    ensures (k * m + 1) / m == k <==> 2 <= m
  {
    if 2 <= m {
      QuotientIs(k * m + 1, k, m);
    } else {
      assert k * m == k;
    }
  }

  lemma QuotientLocates(x: nat, m: nat)
    requires 0 < m
    ensures (x / m) * m <= x < (x / m) * m + m
  {
    assert x == m * (x / m) + x % m;
  }

  /** Three ways of counting the chunks of n bytes. */
  lemma CeilingForms(n: nat, m: nat)
    requires 0 < n && 0 < m
    ensures (n - 1) / m + 1 == (n + m - 1) / m
    ensures n / m + 1 == (n + m - 1) / m + if n % m == 0 then 1 else 0
  {
    var q := (n - 1) / m;
    QuotientLocates(n - 1, m);
    assert (q + 1) * m == q * m + m;
    QuotientIs(n + m - 1, q + 1, m);
    QuotientLocates(n, m);
    assert n == m * (n / m) + n % m;
    assert m * (n / m) == (n / m) * m;
    if n == q * m + m {
      QuotientIs(n, q + 1, m);
    } else {
      QuotientIs(n, q, m);
    }
  }

  /** The receiver's chunk count is the number of chunks with data; the sender's pass has one more
      datagram, an empty one, exactly when the chunk size divides the stream. */
  lemma ChunkCounts(t: Transfer)
    requires Sendable(t) && t.stream != []
    ensures (|t.stream| - 1) / t.chunk + 1 == Chunks(t)
    ensures forall k: nat | k < Packets(t) :: Chunk(t, k) != [] <==> k < Chunks(t)
    ensures Packets(t) == Chunks(t) + if |t.stream| % t.chunk == 0 then 1 else 0
  {
    CeilingForms(|t.stream|, t.chunk);
    forall k: nat | k < Packets(t)
      ensures Chunk(t, k) != [] <==> k < Chunks(t)
    {
      DataChunkIff(t, k);
    }
  }

  lemma DataChunkIff(t: Transfer, k: nat)
    requires Sendable(t) && t.stream != [] && k < Packets(t)
    ensures Chunk(t, k) != [] <==> k < Chunks(t)
  {
    var n, m := |t.stream|, t.chunk;
    CeilingForms(n, m);
    QuotientLocates(n - 1, m);
    var q := (n - 1) / m;
    if k <= q {
      MulMonotone(k, q, m);
    } else {
      MulMonotone(q + 1, k, m);
      assert (q + 1) * m == q * m + m;
    }
  }

  function DataChunks(t: Transfer, n: nat): seq<seq<byte>>
    requires Sendable(t) && n <= Packets(t)
  {
    seq(n, k requires 0 <= k < n => Chunk(t, k))
  }

  /** The chunks of one pass, in index order, are the stream: nothing lost, nothing repeated. */
  lemma PassPartitionsStream(t: Transfer)
    requires Sendable(t)
    ensures Concat(DataChunks(t, Packets(t))) == t.stream
  {
    var n := Packets(t) - 1;
    PrefixPartitions(t, n);
    QuotientLocates(|t.stream|, t.chunk);
    assert DataChunks(t, n + 1)[..n] == DataChunks(t, n);
    assert t.stream[..Start(t, n)] + t.stream[Start(t, n)..] == t.stream;
  }

  lemma {:induction false} PrefixPartitions(t: Transfer, n: nat)
    requires Sendable(t) && n < Packets(t)
    ensures Concat(DataChunks(t, n)) == t.stream[..Start(t, n)]
  {
    if n > 0 {
      PrefixPartitions(t, n - 1);
      assert DataChunks(t, n)[..n - 1] == DataChunks(t, n - 1);
      assert (n - 1) * t.chunk + t.chunk == n * t.chunk;
      StartInStream(t.stream, t.chunk, n);
      assert Finish(t, n - 1) == Start(t, n);
      assert t.stream[..Start(t, n - 1)] + t.stream[Start(t, n - 1)..Start(t, n)] == t.stream[..Start(t, n)];
    }
  }

  /** `uint16(maxPayloadSize) - uint16(ffHeaderSize)`, in wrapping 16-bit arithmetic. */
  function MtuField(maxPayloadSize: int): uint16 {
    (maxPayloadSize % TWO_16 - HEADER_SIZE) % TWO_16
  }

  /** The announced chunk size is the copied one exactly when the latter is a 16-bit value. */
  lemma MtuFieldIsChunkIff(maxPayloadSize: int)
    ensures MtuField(maxPayloadSize) == maxPayloadSize - HEADER_SIZE
       <==> 0 <= maxPayloadSize - HEADER_SIZE < TWO_16
  {
    var q := maxPayloadSize / TWO_16;
    assert maxPayloadSize == q * TWO_16 + maxPayloadSize % TWO_16;
  }

  /** Datagrams that leave before `isOpen` turns false, the wake-up datagram aside. */
  function Budgeted(t: Transfer, budget: nat): seq<seq<byte>>
    requires Sendable(t)
  {
    (Pass(t) + Pass(t))[..Min(budget, 2 * Packets(t))]
  }

  /** One turn of the send loop: its datagram is packet k, and it leaves the loop ready for k + 1. */
  lemma PacketPieces(t: Transfer, k: nat, hdr: Header)
    requires Sendable(t) && k < Packets(t) && hdr == HeaderAt(t, Start(t, k))
    ensures var p := Start(t, k);
            var a := Min(t.chunk, |t.stream| - p);
            && Encode(hdr) + t.stream[p..p + a] == Packet(t, k)
            && (a < t.chunk <==> k + 1 == Packets(t))
            && (k + 1 < Packets(t) ==> Start(t, k + 1) == p + a)
            && Add64(p, t.chunk) == p + t.chunk
  {
    PassEndsShort(t, k);
    OffsetFits(Start(t, k), t.chunk);
  }

  lemma OffsetFits(p: nat, m: nat)
    requires p < TWO_63 && m < TWO_16
    ensures Add64(p, m) == p + m
  {
  }

  lemma PassBegins(t: Transfer)
    requires Sendable(t)
    ensures Packets(t) > 0 && Start(t, 0) == 0 && Pass(t)[..0] == []
  {
  }

  lemma PassExtends(t: Transfer, k: nat)
    requires Sendable(t) && k < Packets(t)
    ensures Pass(t)[..k + 1] == Pass(t)[..k] + [Packet(t, k)]
  {
  }

  lemma BudgetSplits(t: Transfer, budget: nat)
    requires Sendable(t)
    ensures budget <= Packets(t) ==> Budgeted(t, budget) == Pass(t)[..budget]
    ensures budget > Packets(t) ==>
      Budgeted(t, budget) == Pass(t) + Pass(t)[..Min(budget - Packets(t), Packets(t))]
  {
  }

  lemma FirstHeader(id: Uuid, stream: seq<byte>, maxPayloadSize: int)
    requires 0 < maxPayloadSize - HEADER_SIZE < TWO_16 && |stream| < TWO_63
    ensures var t := Transfer(id, stream, maxPayloadSize - HEADER_SIZE);
            Header(id, |stream|, 0, MtuField(maxPayloadSize)) == HeaderAt(t, 0)
  {
    MtuFieldIsChunkIff(maxPayloadSize);
  }

  lemma Regroup(a: seq<seq<byte>>, b: seq<seq<byte>>, c: seq<seq<byte>>)
    ensures (a + b) + c == a + (b + c)
  {
  }

  /** The connection of a worker. */
  class UdpSocket {
    var wire: seq<seq<byte>>  // what was written to wk.conn, oldest first

    /** One send loop: header, up to toCopy bytes from the reader, write, advance the offset. */
    method SendPass(hdr: Header, stream: seq<byte>, toCopy: nat, budget: nat) returns (sent: nat, eof: bool)
      requires 0 < toCopy < TWO_16 && |stream| < TWO_63
      requires hdr.size == |stream| && hdr.mtu == toCopy
      modifies this
      ensures var t := Transfer(hdr.uuid, stream, toCopy);
              && sent == Min(budget, Packets(t))
              && eof == (budget >= Packets(t))
              && wire == old(wire) + Pass(t)[..sent]
    {
      ghost var t := Transfer(hdr.uuid, stream, toCopy);
      var hdr1 := hdr.(offset := 0);
      var pos := 0;
      sent, eof := 0, false;
      PassBegins(t);
      while !eof && sent < budget
        invariant sent <= budget && sent <= Packets(t) && pos <= |stream|
        invariant eof ==> sent == Packets(t)
        invariant !eof ==> sent < Packets(t) && pos == Start(t, sent) && hdr1 == HeaderAt(t, pos)
        invariant wire == old(wire) + Pass(t)[..sent]
        decreases budget - sent
      {
        PassExtends(t, sent);
        PacketPieces(t, sent, hdr1);
        var writeBuf := Encode(hdr1);
        var a := Min(toCopy, |stream| - pos);  // io.CopyN
        writeBuf := writeBuf + stream[pos..pos + a];
        eof := a < toCopy;
        wire := wire + [writeBuf];
        hdr1 := hdr1.(offset := Add64(hdr1.offset, toCopy));
        pos := pos + a;
        sent := sent + 1;
      }
    }

    /** The sending half of `post`: wake-up, first pass, and unless the client left, the second. */
    method Post(id: Uuid, stream: seq<byte>, maxPayloadSize: int, budget: nat)
      requires 0 < maxPayloadSize - HEADER_SIZE < TWO_16 && |stream| < TWO_63
      modifies this
      ensures var t := Transfer(id, stream, maxPayloadSize - HEADER_SIZE);
              wire == old(wire) + [Wakeup(t)] + Budgeted(t, budget)
    {
      ghost var t := Transfer(id, stream, maxPayloadSize - HEADER_SIZE);
      FirstHeader(id, stream, maxPayloadSize);
      BudgetSplits(t, budget);
      var hdr := Header(id, |stream|, 0, MtuField(maxPayloadSize));
      wire := wire + [Encode(hdr)];
      var toCopy := maxPayloadSize - HEADER_SIZE;
      var sent, eof := SendPass(hdr, stream, toCopy, budget);
      if !eof || sent == budget {
        return;
      }
      assert Pass(t)[..sent] == Pass(t);
      assert wire == old(wire) + [Wakeup(t)] + Pass(t);
      var again, _ := SendPass(hdr, stream, toCopy, budget - sent);
      Regroup(old(wire) + [Wakeup(t)], Pass(t), Pass(t)[..again]);
    }
  }

  /** CopyN meets the end of the stream in the last datagram of a pass and in no earlier one. */
  lemma PassEndsShort(t: Transfer, k: nat)
    requires Sendable(t) && k < Packets(t)
    ensures |t.stream| - Start(t, k) < t.chunk <==> k + 1 == Packets(t)
    ensures k + 1 < Packets(t) ==> Start(t, k + 1) == Start(t, k) + t.chunk
    ensures var p := Start(t, k); Chunk(t, k) == t.stream[p..p + Min(t.chunk, |t.stream| - p)]
  {
    var n, m := |t.stream|, t.chunk;
    QuotientLocates(n, m);
    assert (k + 1) * m == k * m + m;
    if k + 1 < Packets(t) {
      MulMonotone(k + 1, n / m, m);
    }
  }

  /** Cutting a transfer short only ever removes datagrams from the end. */
  lemma EarlyCloseIsPrefix(t: Transfer, budget: nat)
    requires Sendable(t)
    ensures [Wakeup(t)] + Budgeted(t, budget) <= Emission(t)
    ensures |Budgeted(t, budget)| == Min(budget, 2 * Packets(t))
    ensures budget >= 2 * Packets(t) ==> [Wakeup(t)] + Budgeted(t, budget) == Emission(t)
  {
    if budget >= 2 * Packets(t) {
      assert Budgeted(t, budget) == Pass(t) + Pass(t);
    }
  }
}
