/** Carrying a TCP stream over numbered packets and putting it back in order (ff-socket.go). */
module Resequencer {
  import opened Words

  datatype Packet = Packet(data: seq<byte>, eof: bool)

  // ---------------------------------------------------------------- the numbering side

  /** One `Read`: bytes, and an error that ends the connection. */
  datatype Read = Read(data: seq<byte>, err: bool)

  /** The reads up to and including the first that fails. */
  function UntilError(rs: seq<Read>): seq<Read> {
    if rs == [] then [] else if rs[0].err then [rs[0]] else [rs[0]] + UntilError(rs[1..])
  }

  function ReadData(rs: seq<Read>): seq<byte> {
    if rs == [] then [] else ReadData(rs[..|rs| - 1]) + rs[|rs| - 1].data
  }

  function Data(ps: seq<Packet>): seq<byte> {
    if ps == [] then [] else Data(ps[..|ps| - 1]) + ps[|ps| - 1].data
  }

  /** Only the last packet may close the stream. */
  ghost predicate EofLast(ps: seq<Packet>) {
    forall i | 0 <= i < |ps| - 1 :: !ps[i].eof
  }

  /** What becomes a packet: everything but empty reads without an error. */
  function Packetize(rs: seq<Read>): seq<Packet> {
    if rs == [] then []
    else
      var r := rs[|rs| - 1];
      Packetize(rs[..|rs| - 1]) + if r.data == [] && !r.err then [] else [Packet(r.data, r.err)]
  }

  datatype Numbered = Numbered(n: nat, pkt: Packet)

  function Number(ps: seq<Packet>): seq<Numbered> {
    seq(|ps|, k requires 0 <= k < |ps| => Numbered((k + 1) % TWO_63, ps[k]))
  }

  lemma {:induction false} UntilErrorStep(rs: seq<Read>, i: nat)
    requires i < |rs| && rs[i].err && forall k | 0 <= k < i :: !rs[k].err
    ensures UntilError(rs) == rs[..i + 1]
    decreases i
  {
    if i > 0 {
      UntilErrorStep(rs[1..], i - 1);
      assert rs[..i + 1] == [rs[0]] + rs[1..][..i];
    } else {
      assert rs[..1] == [rs[0]];
    }
  }

  lemma {:induction false} UntilErrorAll(rs: seq<Read>)
    requires forall k | 0 <= k < |rs| :: !rs[k].err
    ensures UntilError(rs) == rs
  {
    if rs != [] {
      UntilErrorAll(rs[1..]);
    }
  }

  lemma NumberExtends(ps: seq<Packet>, p: Packet)
    ensures Number(ps + [p]) == Number(ps) + [Numbered((|ps| + 1) % TWO_63, p)]
  {
  }

  lemma NumberWraps(n: nat)
    ensures (n % TWO_63 + 1) % TWO_63 == (n + 1) % TWO_63
  {
  }

  /** The read loop: number what is read until a read fails. */
  method NumberReads(rs: seq<Read>) returns (sent: seq<Numbered>)
    ensures sent == Number(Packetize(UntilError(rs)))
  {
    sent := [];
    var tn, err, i := 0, false, 0;
    while i < |rs| && !err
      invariant i <= |rs|
      invariant sent == Number(Packetize(rs[..i]))
      invariant tn == |sent| % TWO_63
      invariant forall k | 0 <= k < i - 1 :: !rs[k].err
      invariant if i == 0 then !err else err == rs[i - 1].err
      decreases |rs| - i
    {
      var r := rs[i];
      assert rs[..i + 1][..i] == rs[..i];
      i := i + 1;
      err := r.err;
      if r.data == [] && !err {
        continue;
      }
      NumberWraps(|sent|);
      NumberExtends(Packetize(rs[..i - 1]), Packet(r.data, err));
      tn := (tn + 1) % TWO_63;
      sent := sent + [Numbered(tn, Packet(r.data, err))];
    }
    if err {
      UntilErrorStep(rs, i - 1);
    } else {
      UntilErrorAll(rs);
      assert rs[..i] == rs;
    }
  }

  lemma DataSplits(a: seq<Packet>, p: Packet)
    ensures Data(a + [p]) == Data(a) + p.data
  {
    assert (a + [p])[..|a|] == a;
  }

  lemma {:induction false} PacketizeKeepsData(rs: seq<Read>)
    ensures Data(Packetize(rs)) == ReadData(rs)
  {
    if rs != [] {
      var r := rs[|rs| - 1];
      var init := Packetize(rs[..|rs| - 1]);
      PacketizeKeepsData(rs[..|rs| - 1]);
      if r.data == [] && !r.err {
        assert Packetize(rs) == init;
        assert ReadData(rs) == ReadData(rs[..|rs| - 1]);
      } else {
        DataSplits(init, Packet(r.data, r.err));
      }
    }
  }

  lemma {:induction false} NoErrorNoEof(rs: seq<Read>)
    requires forall k | 0 <= k < |rs| :: !rs[k].err
    ensures forall k | 0 <= k < |Packetize(rs)| :: !Packetize(rs)[k].eof
  {
    if rs != [] {
      NoErrorNoEof(rs[..|rs| - 1]);
    }
  }

  lemma {:induction false} UntilErrorShape(rs: seq<Read>)
    ensures var u := UntilError(rs);
            && (forall k | 0 <= k < |u| - 1 :: !u[k].err)
            && ((exists r <- rs :: r.err) <==> u != [] && u[|u| - 1].err)
  {
    if rs != [] && !rs[0].err {
      UntilErrorShape(rs[1..]);
      assert forall r :: r in rs <==> r == rs[0] || r in rs[1..];
    }
  }

  /** However the bytes are split into reads, the packets carry all of them in order, only the last
      packet can be EOF, and it is exactly if some read failed. */
  lemma PacketsCarryStream(rs: seq<Read>)
    ensures var ps := Packetize(UntilError(rs));
            && Data(ps) == ReadData(UntilError(rs))
            && EofLast(ps)
            && ((exists r <- rs :: r.err) <==> ps != [] && ps[|ps| - 1].eof)
  {
    var u := UntilError(rs);
    UntilErrorShape(rs);
    PacketizeKeepsData(u);
    if u != [] {
      NoErrorNoEof(u[..|u| - 1]);
    }
  }

  // ---------------------------------------------------------------- the ordering side

  datatype Session = Session(rn: nat, buf: map<nat, Packet>, out: seq<byte>, open: bool)

  const FRESH := Session(0, map[], [], true)

  function NextOf(s: Session): nat {
    (s.rn + 1) % TWO_63
  }

  /** Write to the socket; writes after Close go nowhere. */
  function Play(s: Session, n: nat, pkt: Packet): Session {
    s.(rn := n, out := if s.open then s.out + pkt.data else s.out, open := s.open && !pkt.eof)
  }

  /** Play out what the buffer holds; an EOF met here also takes the session out of the map. */
  function Drain(s: Session): (Session, bool)
    decreases s.buf
  {
    var n := NextOf(s);
    if n !in s.buf then (s, false)
    else
      var played := Play(s.(buf := s.buf - {n}), n, s.buf[n]);
      if s.buf[n].eof then (played, true) else Drain(played)
  }

  /** `post` on a session: the new session, and whether it left the map. */
  function Post(s: Session, n: nat, pkt: Packet): (Session, bool) {
    if NextOf(s) != n then (s.(buf := s.buf[n := pkt]), false)
    else
      var played := Play(s, n, pkt);
      if pkt.eof then (played, false) else Drain(played)
  }

  /** All that becomes of one socketId: the session in `socketMap`, and the sessions that left it.
      `forward` is the side with a target, which dials for ids it does not know. */
  datatype Endpoint = Endpoint(forward: bool, live: Option<Session>, past: seq<Session>)

  function Receive(e: Endpoint, n: nat, pkt: Packet): Endpoint {
    if e.live.None? && !e.forward then e
    else
      var (s, removed) := Post(if e.live.None? then FRESH else e.live.value, n, pkt);
      if removed then e.(live := None, past := e.past + [s]) else e.(live := Some(s))
  }

  class LiveSession {
    var rn: nat
    var buf: map<nat, Packet>
    var out: seq<byte>
    var open: bool

    ghost function Value(): Session
      reads this
    {
      Session(rn, buf, out, open)
    }

    constructor ()
      ensures Value() == FRESH
    {
      rn, buf, out, open := 0, map[], [], true;
    }

    method WriteOut(data: seq<byte>)
      modifies this`out
      ensures out == if open then old(out) + data else old(out)
    {
      if open {
        out := out + data;
      }
    }

    /** One packet: stash it, or write it and everything it was holding up. The drain loop ends
        because each turn takes a packet out of the buffer. */
    method Accept(n: nat, pkt: Packet) returns (removed: bool)
      modifies this
      ensures (Value(), removed) == Post(old(Value()), n, pkt)
    {
      removed := false;
      var next := (rn + 1) % TWO_63;
      if next != n {
        buf := buf[n := pkt];
        return;
      }
      rn, next := next, (next + 1) % TWO_63;
      WriteOut(pkt.data);
      if pkt.eof {
        open := false;
        return;
      }
      ghost var played := Value();
      while next in buf
        invariant next == (rn + 1) % TWO_63
        invariant Drain(Value()) == Drain(played)
        decreases buf
      {
        var waiting := buf[next];
        WriteOut(waiting.data);
        buf := buf - {next};
        rn, next := next, (next + 1) % TWO_63;
        if waiting.eof {
          open := false;
          removed := true;
          return;
        }
      }
    }
  }

  class SocketEntry {
    const forward: bool
    var live: LiveSession?
    ghost var past: seq<Session>

    ghost function Value(): Endpoint
      reads this, live
    {
      Endpoint(forward, if live == null then None else Some(live.Value()), past)
    }

    constructor (forward: bool, ses: LiveSession)
      ensures Value() == Endpoint(forward, Some(ses.Value()), [])
    {
      this.forward := forward;
      live, past := ses, [];
    }

    /** An id that is not in the map. */
    constructor Unknown(forward: bool)
      ensures Value() == Endpoint(forward, None, [])
    {
      this.forward := forward;
      live, past := null, [];
    }

    method Handle(n: nat, pkt: Packet) returns (known: bool)
      modifies this, live
      ensures known == (old(live) != null || forward)
      ensures Value() == Receive(old(Value()), n, pkt)
      ensures live == old(live) || live == null || fresh(live)
    {
      if live == null {
        if !forward {
          return false;
        }
        live := new LiveSession();
      }
      var removed := live.Accept(n, pkt);
      if removed {
        past := past + [live.Value()];
        live := null;
      }
      return true;
    }
  }

  // ---------------------------------------------------------------- whole runs

  /** The order names packets of the stream. */
  predicate OfStream(order: seq<nat>, ps: seq<Packet>) {
    forall k | 0 <= k < |order| :: order[k] < |ps|
  }

  /** Packet i (from 0) reaches the endpoint under its number. */
  function ReceiveAll(e: Endpoint, ps: seq<Packet>, order: seq<nat>): Endpoint
    requires OfStream(order, ps)
  {
    if order == [] then e
    else
      var i := order[|order| - 1];
      Receive(ReceiveAll(e, ps, order[..|order| - 1]), (i + 1) % TWO_63, ps[i])
  }

  /** The stream the other side can send: fewer than 2^63 packets, EOF at most on the last. */
  ghost predicate Stream(ps: seq<Packet>) {
    |ps| < TWO_63 && EofLast(ps)
  }

  ghost predicate Finished(ps: seq<Packet>, rn: nat) {
    rn == |ps| && ps != [] && ps[|ps| - 1].eof
  }

  /** Only packets that arrived are in the buffer, each under its own number. */
  ghost predicate BufferHolds(ps: seq<Packet>, got: set<nat>, buf: map<nat, Packet>) {
    && (forall n <- buf :: 1 <= n <= |ps|)
    && (forall i: nat | i < |ps| && i + 1 in buf :: i in got && buf[i + 1] == ps[i])
  }

  /** What a session is after exactly the packets in `got` have arrived. */
  ghost predicate InSequence(ps: seq<Packet>, got: set<nat>, s: Session) {
    && s.rn <= |ps|
    && s.out == Data(ps[..s.rn])
    && (forall i: nat | i < s.rn :: i in got)
    && BufferHolds(ps, got, s.buf)
    && (forall i <- got :: i < |ps| && (i < s.rn || i + 1 in s.buf))
    && (s.open <==> !Finished(ps, s.rn))
  }

  /** Nothing that could be written is waiting: rn is the longest unbroken run of arrivals. */
  ghost predicate Exhausted(s: Session, got: set<nat>) {
    s.rn + 1 !in s.buf && s.rn !in got
  }

  lemma DataExtends(ps: seq<Packet>, k: nat)
    requires k < |ps|
    ensures Data(ps[..k + 1]) == Data(ps[..k]) + ps[k].data
  {
    assert ps[..k + 1][..k] == ps[..k];
  }

  lemma PlayNext(ps: seq<Packet>, got: set<nat>, s: Session)
    requires Stream(ps) && s.rn < |ps| && s.rn in got
    requires s.rn <= |ps| && s.out == Data(ps[..s.rn]) && s.open
    requires forall i: nat | i < s.rn :: i in got
    requires BufferHolds(ps, got, s.buf)
    requires forall i <- got :: i < |ps| && (i <= s.rn || i + 1 in s.buf)
    ensures InSequence(ps, got, Play(s, s.rn + 1, ps[s.rn]))
  {
    DataExtends(ps, s.rn);
  }

  lemma {:induction false} DrainSequence(ps: seq<Packet>, got: set<nat>, s: Session)
    requires Stream(ps) && InSequence(ps, got, s) && s.open
    ensures var (t, removed) := Drain(s);
            && InSequence(ps, got, t)
            && removed == !t.open
            && Exhausted(t, got)
    decreases s.buf
  {
    var n := NextOf(s);
    if n in s.buf {
      assert n == s.rn + 1;
      var shorter := s.(buf := s.buf - {n});
      assert s.rn in got;
      PlayNext(ps, got, shorter);
      var played := Play(shorter, n, s.buf[n]);
      if s.buf[n].eof {
        assert ps[s.rn].eof;
        assert s.rn == |ps| - 1;
      } else {
        assert played.open;
        DrainSequence(ps, got, played);
      }
    } else {
      assert s.rn + 1 !in s.buf;
    }
  }

  /** Below 2^63 packets the numbers do not wrap into each other. */
  lemma SmallNumbers(rn: nat, i: nat, count: nat)
    requires i < count < TWO_63 && rn <= count
    ensures (i + 1) % TWO_63 == i + 1
    ensures (rn + 1) % TWO_63 == i + 1 <==> rn == i
  {
  }

  lemma StashSequence(ps: seq<Packet>, got: set<nat>, s: Session, i: nat)
    requires Stream(ps) && i < |ps| && InSequence(ps, got, s) && Exhausted(s, got) && i != s.rn
    ensures var t := s.(buf := s.buf[i + 1 := ps[i]]);
            InSequence(ps, got + {i}, t) && Exhausted(t, got + {i})
  {
  }

  lemma NextSequence(ps: seq<Packet>, got: set<nat>, s: Session)
    requires Stream(ps) && s.rn < |ps| && InSequence(ps, got, s)
    ensures InSequence(ps, got + {s.rn}, Play(s, s.rn + 1, ps[s.rn]))
  {
    PlayNext(ps, got + {s.rn}, s);
  }

  /** EOF in its turn: nothing can be waiting behind it, and the session stays in the map. */
  lemma EofSequence(ps: seq<Packet>, got: set<nat>, s: Session)
    requires Stream(ps) && s.rn < |ps| && InSequence(ps, got, s) && ps[s.rn].eof
    ensures s.rn + 1 == |ps|
    ensures var t := Play(s, s.rn + 1, ps[s.rn]);
            InSequence(ps, got + {s.rn}, t) && Exhausted(t, got + {s.rn})
  {
    NextSequence(ps, got, s);
    assert s.rn == |ps| - 1;
    assert s.rn + 2 !in s.buf;
  }

  /** Data in its turn, and everything it was holding up. */
  lemma DataSequence(ps: seq<Packet>, got: set<nat>, s: Session)
    requires Stream(ps) && s.rn < |ps| && InSequence(ps, got, s) && !ps[s.rn].eof
    ensures s.open
    ensures var (t, removed) := Drain(Play(s, s.rn + 1, ps[s.rn]));
            && InSequence(ps, got + {s.rn}, t) && Exhausted(t, got + {s.rn})
            && removed == !t.open
            && (removed ==> s.rn + 1 != |ps|)
  {
    NextSequence(ps, got, s);
    var played := Play(s, s.rn + 1, ps[s.rn]);
    DrainSequence(ps, got + {s.rn}, played);
    if s.rn + 1 == |ps| {
      NothingBehind(ps, got + {s.rn}, played);
    }
  }

  lemma NothingBehind(ps: seq<Packet>, got: set<nat>, s: Session)
    requires InSequence(ps, got, s) && s.rn == |ps| < TWO_63
    ensures Drain(s) == (s, false)
  {
    assert NextOf(s) !in s.buf;
  }

  lemma ExpectedSequence(ps: seq<Packet>, got: set<nat>, s: Session)
    requires Stream(ps) && s.rn < |ps| && InSequence(ps, got, s)
    ensures var (t, removed) := Post(s, s.rn + 1, ps[s.rn]);
            && InSequence(ps, got + {s.rn}, t) && Exhausted(t, got + {s.rn})
            && (removed ==> !t.open && s.open && s.rn + 1 != |ps|)
            && (!removed && s.open && !t.open ==> s.rn + 1 == |ps|)
  {
    var played := Play(s, s.rn + 1, ps[s.rn]);
    assert NextOf(s) == s.rn + 1;
    if ps[s.rn].eof {
      EofSequence(ps, got, s);
      assert Post(s, s.rn + 1, ps[s.rn]) == (played, false);
    } else {
      DataSequence(ps, got, s);
      assert Post(s, s.rn + 1, ps[s.rn]) == Drain(played);
    }
  }

  /** One arrival, new or duplicate, in order or not. */
  lemma PostSequence(ps: seq<Packet>, got: set<nat>, s: Session, i: nat)
    requires Stream(ps) && i < |ps| && InSequence(ps, got, s) && Exhausted(s, got)
    ensures var (t, removed) := Post(s, (i + 1) % TWO_63, ps[i]);
            && InSequence(ps, got + {i}, t) && Exhausted(t, got + {i})
            && (removed ==> !t.open && s.open && i + 1 != |ps|)
            && (!removed && s.open && !t.open ==> i + 1 == |ps|)
  {
    SmallNumbers(s.rn, i, |ps|);
    if s.rn == i {
      ExpectedSequence(ps, got, s);
    } else {
      StashSequence(ps, got, s, i);
      assert Post(s, i + 1, ps[i]) == (s.(buf := s.buf[i + 1 := ps[i]]), false);
    }
  }

  ghost function Arrivals(order: seq<nat>): set<nat> {
    if order == [] then {} else Arrivals(order[..|order| - 1]) + {order[|order| - 1]}
  }

  lemma {:induction false} ArrivalsAreElements(order: seq<nat>)
    ensures forall i: nat :: i in Arrivals(order) <==> i in order
  {
    if order != [] {
      ArrivalsAreElements(order[..|order| - 1]);
      assert forall i: nat :: i in order <==> i in order[..|order| - 1] || i == order[|order| - 1];
    }
  }

  /** The first connection of the id, wherever it is now. */
  ghost function Connection(e: Endpoint): Session {
    if e.past != [] then e.past[0] else if e.live.Some? then e.live.value else FRESH
  }

  /** The side that accepted the connection, or any side once it is there. */
  function Begin(forward: bool): Endpoint {
    Endpoint(forward, Some(FRESH), [])
  }

  /** The side with a target, which has yet to dial. */
  const UNKNOWN := Endpoint(true, None, [])

  ghost predicate Start(e: Endpoint) {
    e == Begin(e.forward) || e == UNKNOWN
  }

  /** The first packet opens the connection and is its first arrival. */
  lemma {:induction false} FirstDials(ps: seq<Packet>, order: seq<nat>)
    requires OfStream(order, ps) && order != []
    ensures ReceiveAll(UNKNOWN, ps, order) == ReceiveAll(Begin(true), ps, order)
  {
    var init := order[..|order| - 1];
    if init != [] {
      FirstDials(ps, init);
    }
  }

  ghost predicate Covers(ps: seq<Packet>, got: set<nat>) {
    forall i: nat | i < |ps| :: i in got
  }

  /** A session that has written everything and is closed. */
  ghost predicate Delivered(ps: seq<Packet>, got: set<nat>, s: Session) {
    Finished(ps, s.rn) && s.out == Data(ps) && !s.open && Covers(ps, got)
  }

  ghost predicate EndpointInvariant(ps: seq<Packet>, got: set<nat>, e: Endpoint) {
    && (forall i <- got :: i < |ps|)
    && if e.past == [] then
         e.live.Some? && InSequence(ps, got, e.live.value) && Exhausted(e.live.value, got)
       else
         Delivered(ps, got, e.past[0])
  }

  lemma RemovedIsDelivered(ps: seq<Packet>, got: set<nat>, s: Session)
    requires Stream(ps) && InSequence(ps, got, s) && !s.open
    ensures Delivered(ps, got, s)
  {
    assert ps[..|ps|] == ps;
  }

  lemma ReceiveKeepsInvariant(ps: seq<Packet>, got: set<nat>, e: Endpoint, i: nat)
    requires Stream(ps) && i < |ps| && EndpointInvariant(ps, got, e)
    ensures EndpointInvariant(ps, got + {i}, Receive(e, (i + 1) % TWO_63, ps[i]))
  {
    if e.past == [] {
      PostSequence(ps, got, e.live.value, i);
      var (t, removed) := Post(e.live.value, (i + 1) % TWO_63, ps[i]);
      if removed {
        RemovedIsDelivered(ps, got + {i}, t);
      }
    }
  }

  lemma BeginInvariant(ps: seq<Packet>, forward: bool)
    ensures EndpointInvariant(ps, {}, Begin(forward))
  {
    assert ps[..0] == [];
  }

  lemma {:induction false} RunInvariant(ps: seq<Packet>, start: Endpoint, order: seq<nat>)
    requires Stream(ps) && OfStream(order, ps) && EndpointInvariant(ps, {}, start)
    ensures EndpointInvariant(ps, Arrivals(order), ReceiveAll(start, ps, order))
  {
    if order != [] {
      var init, i := order[..|order| - 1], order[|order| - 1];
      RunInvariant(ps, start, init);
      ReceiveKeepsInvariant(ps, Arrivals(init), ReceiveAll(start, ps, init), i);
    }
  }

  /** The longest k such that packets 0..k-1 have all arrived. */
  ghost predicate LongestPrefix(got: set<nat>, k: nat) {
    (forall i: nat | i < k :: i in got) && k !in got
  }

  /** What the connection must look like once the packets in `got` have arrived. */
  ghost predicate Correct(ps: seq<Packet>, got: set<nat>, s: Session) {
    && s.rn <= |ps|
    && s.out == Data(ps[..s.rn])
    && LongestPrefix(got, s.rn)
    && (!s.open <==> Covers(ps, got) && ps != [] && ps[|ps| - 1].eof)
    && (Covers(ps, got) ==> s.out == Data(ps))
  }

  /** For every reordering and duplication of the packets, at every moment: what the connection has
      been given is the data of packets 1..rn, rn is the longest unbroken run of arrivals, and the
      socket is closed exactly when everything has arrived and the last packet was EOF. The side with a
      target starts without a connection, and the packet that makes it dial counts like any other. */
  lemma ResequencerCorrect(ps: seq<Packet>, start: Endpoint, order: seq<nat>)
    requires Stream(ps) && OfStream(order, ps) && Start(start)
    ensures Correct(ps, Arrivals(order), Connection(ReceiveAll(start, ps, order)))
    ensures order != [] ==> Connections(ReceiveAll(start, ps, order)) > 0
  {
    var begin := Begin(start.forward);
    BeginInvariant(ps, start.forward);
    RunInvariant(ps, begin, order);
    ConnectionCorrect(ps, Arrivals(order), ReceiveAll(begin, ps, order));
    if start == UNKNOWN && order != [] {
      FirstDials(ps, order);
    }
  }

  lemma ConnectionCorrect(ps: seq<Packet>, got: set<nat>, e: Endpoint)
    requires Stream(ps) && EndpointInvariant(ps, got, e)
    ensures Correct(ps, got, Connection(e))
  {
    var s := Connection(e);
    assert ps[..|ps|] == ps;
    if s.rn < |ps| {
      assert !Covers(ps, got);
    }
  }

  // ---------------------------------------------------------------- from reads to writes

  /** Numbered packets as they reach the endpoint. */
  function ReceiveNumbered(e: Endpoint, arrivals: seq<Numbered>): Endpoint {
    if arrivals == [] then e
    else
      var m := arrivals[|arrivals| - 1];
      Receive(ReceiveNumbered(e, arrivals[..|arrivals| - 1]), m.n, m.pkt)
  }

  /** Each arrival is one of the numbered packets; which one, its place in the stream tells. */
  lemma {:induction false} Places(ps: seq<Packet>, e: Endpoint, arrivals: seq<Numbered>) returns (order: seq<nat>)
    requires forall m <- arrivals :: m in Number(ps)
    ensures OfStream(order, ps) && |order| == |arrivals|
    ensures forall j | 0 <= j < |order| :: arrivals[j] == Number(ps)[order[j]]
    ensures ReceiveNumbered(e, arrivals) == ReceiveAll(e, ps, order)
  {
    if arrivals == [] {
      order := [];
    } else {
      var init, m := arrivals[..|arrivals| - 1], arrivals[|arrivals| - 1];
      assert m in arrivals;
      var rest := Places(ps, e, init);
      var i: nat :| i < |Number(ps)| && Number(ps)[i] == m;
      order := rest + [i];
      assert order[..|order| - 1] == rest;
    }
  }

  lemma NumbersDiffer(ps: seq<Packet>, i: nat, j: nat)
    requires |ps| < TWO_63 && i < |ps| && j < |ps| && Number(ps)[i] == Number(ps)[j]
    ensures i == j
  {
    SmallNumbers(i, j, |ps|);
  }

  lemma PlaceTaken(ps: seq<Packet>, arrivals: seq<Numbered>, order: seq<nat>, i: nat)
    requires |ps| < TWO_63 && OfStream(order, ps) && |order| == |arrivals| && i < |ps|
    requires forall j | 0 <= j < |order| :: arrivals[j] == Number(ps)[order[j]]
    ensures i in order <==> Number(ps)[i] in arrivals
  {
    if i in order {
      var j :| 0 <= j < |order| && order[j] == i;
      assert arrivals[j] in arrivals;
    }
    if Number(ps)[i] in arrivals {
      var j :| 0 <= j < |arrivals| && arrivals[j] == Number(ps)[i];
      NumbersDiffer(ps, order[j], i);
      assert order[j] in order;
    }
  }

  /** All packets have arrived exactly when all places of the stream are taken. */
  lemma PlacesCover(ps: seq<Packet>, arrivals: seq<Numbered>, order: seq<nat>)
    requires |ps| < TWO_63 && OfStream(order, ps) && |order| == |arrivals|
    requires forall j | 0 <= j < |order| :: arrivals[j] == Number(ps)[order[j]]
    ensures Covers(ps, Arrivals(order)) <==> forall m <- Number(ps) :: m in arrivals
  {
    ArrivalsAreElements(order);
    forall i: nat | i < |ps|
      ensures i in order <==> Number(ps)[i] in arrivals
    {
      PlaceTaken(ps, arrivals, order, i);
    }
    var sent := Number(ps);
    if forall m <- sent :: m in arrivals {
      assert forall i: nat | i < |ps| :: sent[i] in sent;
    }
  }

  lemma {:induction false} DataPrefix(ps: seq<Packet>, k: nat)
    requires k <= |ps|
    ensures Data(ps[..k]) <= Data(ps)
  {
    if k < |ps| {
      var init := ps[..|ps| - 1];
      DataPrefix(init, k);
      assert init[..k] == ps[..k];
    } else {
      assert ps[..k] == ps;
    }
  }

  /** From end to end: what one side reads, however it is cut into reads, the other side writes. In any
      order and with any repetitions it has written a beginning of those bytes at every moment, all of
      them once every packet has arrived, and it has closed the socket exactly if every packet has
      arrived and a read failed. */
  lemma ReadsBecomeWrites(rs: seq<Read>, start: Endpoint, arrivals: seq<Numbered>)
    requires Start(start)
    requires |Packetize(UntilError(rs))| < TWO_63
    requires forall m <- arrivals :: m in Number(Packetize(UntilError(rs)))
    ensures var s := Connection(ReceiveNumbered(start, arrivals));
            var bytes := ReadData(UntilError(rs));
            var all := forall m <- Number(Packetize(UntilError(rs))) :: m in arrivals;
            && s.out <= bytes
            && (all ==> s.out == bytes)
            && (!s.open <==> all && exists r <- rs :: r.err)
  {
    var ps := Packetize(UntilError(rs));
    PacketsCarryStream(rs);
    var order := Places(ps, start, arrivals);
    PlacesCover(ps, arrivals, order);
    ResequencerCorrect(ps, start, order);
    DataPrefix(ps, Connection(ReceiveAll(start, ps, order)).rn);
  }

  // ---------------------------------------------------------------- after the end

  function Connections(e: Endpoint): nat {
    |e.past| + if e.live.Some? then 1 else 0
  }

  lemma {:induction false} RunSplits(e: Endpoint, ps: seq<Packet>, a: seq<nat>, b: seq<nat>)
    requires OfStream(a, ps)
    requires OfStream(b, ps)
    ensures ReceiveAll(e, ps, a + b) == ReceiveAll(ReceiveAll(e, ps, a), ps, b)
  {
    if b == [] {
      assert a + b == a;
    } else {
      RunSplits(e, ps, a, b[..|b| - 1]);
      assert (a + b)[..|a + b| - 1] == a + b[..|b| - 1];
    }
  }

  lemma ReceiveKeepsConnections(e: Endpoint, n: nat, pkt: Packet)
    ensures Connections(e) <= Connections(Receive(e, n, pkt))
    ensures e.live.None? ==> Connections(Receive(e, n, pkt)) == Connections(e) + if e.forward then 1 else 0
  {
  }

  lemma {:induction false} ConnectionsGrow(e: Endpoint, ps: seq<Packet>, order: seq<nat>)
    requires OfStream(order, ps)
    ensures Connections(e) <= Connections(ReceiveAll(e, ps, order))
    ensures ReceiveAll(e, ps, order).forward == e.forward
  {
    if order != [] {
      ConnectionsGrow(e, ps, order[..|order| - 1]);
    }
  }

  /** A session that has it all, or an id that is no longer known and is not dialled. */
  ghost predicate AtRest(ps: seq<Packet>, e: Endpoint) {
    if e.live.Some? then e.live.value.rn == |ps| else !e.forward
  }

  lemma QuietStep(ps: seq<Packet>, e: Endpoint, i: nat)
    requires Stream(ps) && i < |ps| && AtRest(ps, e)
    ensures var t := Receive(e, (i + 1) % TWO_63, ps[i]);
            AtRest(ps, t) && Connections(t) == Connections(e)
  {
  }

  lemma {:induction false} QuietAfterEnd(ps: seq<Packet>, e: Endpoint, order: seq<nat>)
    requires Stream(ps) && AtRest(ps, e) && OfStream(order, ps)
    ensures var t := ReceiveAll(e, ps, order);
            AtRest(ps, t) && Connections(t) == Connections(e)
  {
    if order != [] {
      QuietAfterEnd(ps, e, order[..|order| - 1]);
      QuietStep(ps, ReceiveAll(e, ps, order[..|order| - 1]), order[|order| - 1]);
    }
  }

  lemma CompleteIff(ps: seq<Packet>, got: set<nat>, s: Session)
    requires InSequence(ps, got, s) && Exhausted(s, got)
    ensures Covers(ps, got) <==> s.rn == |ps|
  {
    if s.rn < |ps| {
      assert !Covers(ps, got);
    }
  }

  /** The endpoint once exactly the stream is in: one connection, kept or forgotten. */
  ghost predicate Settled(ps: seq<Packet>, forward: bool, last: nat, e: Endpoint) {
    && e.forward == forward
    && if last + 1 == |ps| then e.past == [] && e.live.Some? && e.live.value.rn == |ps|
       else e.live.None? && |e.past| == 1
  }

  lemma CompletedStep(ps: seq<Packet>, got: set<nat>, e: Endpoint, last: nat)
    requires Stream(ps) && ps != [] && ps[|ps| - 1].eof && last < |ps|
    requires e.past == [] && e.live.Some? && InSequence(ps, got, e.live.value) && Exhausted(e.live.value, got)
    requires !Covers(ps, got) && Covers(ps, got + {last})
    ensures Settled(ps, e.forward, last, Receive(e, (last + 1) % TWO_63, ps[last]))
  {
    PostSequence(ps, got, e.live.value, last);
    var (t, removed) := Post(e.live.value, (last + 1) % TWO_63, ps[last]);
    CompleteIff(ps, got, e.live.value);
    CompleteIff(ps, got + {last}, t);
  }

  lemma StillFirst(ps: seq<Packet>, got: set<nat>, e: Endpoint)
    requires EndpointInvariant(ps, got, e) && !Covers(ps, got)
    ensures e.past == [] && e.live.Some? && InSequence(ps, got, e.live.value) && Exhausted(e.live.value, got)
  {
  }

  /** How the packet that completes the stream leaves the endpoint. */
  lemma CompletedBy(ps: seq<Packet>, start: Endpoint, before: seq<nat>, last: nat)
    requires Stream(ps) && ps != [] && ps[|ps| - 1].eof && OfStream(before, ps) && last < |ps|
    requires !Covers(ps, Arrivals(before)) && Covers(ps, Arrivals(before) + {last})
    requires EndpointInvariant(ps, {}, start)
    ensures Settled(ps, start.forward, last, Receive(ReceiveAll(start, ps, before), (last + 1) % TWO_63, ps[last]))
  {
    RunInvariant(ps, start, before);
    ConnectionsGrow(start, ps, before);
    StillFirst(ps, Arrivals(before), ReceiveAll(start, ps, before));
    CompletedStep(ps, Arrivals(before), ReceiveAll(start, ps, before), last);
  }

  lemma LateArrivals(ps: seq<Packet>, e: Endpoint, late: seq<nat>)
    requires Stream(ps) && OfStream(late, ps)
    requires e.live.None? && e.forward && late != []
    ensures Connections(ReceiveAll(e, ps, late)) > Connections(e)
  {
    var first, rest := late[..1], late[1..];
    assert late == first + rest && first[..0] == [];
    RunSplits(e, ps, first, rest);
    assert ReceiveAll(e, ps, first) == Receive(e, (late[0] + 1) % TWO_63, ps[late[0]]);
    ReceiveKeepsConnections(e, (late[0] + 1) % TWO_63, ps[late[0]]);
    ConnectionsGrow(ReceiveAll(e, ps, first), ps, rest);
  }

  lemma AfterCompletion(ps: seq<Packet>, e: Endpoint, late: seq<nat>)
    requires Stream(ps) && OfStream(late, ps)
    requires Connections(e) == 1 && (e.live.Some? ==> e.live.value.rn == |ps|)
    ensures Connections(ReceiveAll(e, ps, late)) > 1 <==> e.forward && e.live.None? && late != []
  {
    if AtRest(ps, e) {
      QuietAfterEnd(ps, e, late);
    } else if late != [] {
      LateArrivals(ps, e, late);
    }
  }

  lemma SettledThen(ps: seq<Packet>, forward: bool, last: nat, e: Endpoint, late: seq<nat>)
    requires Stream(ps) && Settled(ps, forward, last, e) && OfStream(late, ps)
    ensures Connections(ReceiveAll(e, ps, late)) > 1 <==> forward && last + 1 != |ps| && late != []
  {
    AfterCompletion(ps, e, late);
  }

  /** Sessions that have left the map change nothing. */
  lemma {:induction false} PastStays(e: Endpoint, past: seq<Session>, ps: seq<Packet>, order: seq<nat>)
    requires OfStream(order, ps)
    ensures var t := ReceiveAll(e, ps, order);
            ReceiveAll(e.(past := past + e.past), ps, order) == t.(past := past + t.past)
  {
    if order != [] {
      PastStays(e, past, ps, order[..|order| - 1]);
      var t := ReceiveAll(e, ps, order[..|order| - 1]);
      assert forall s: Session :: past + t.past + [s] == past + (t.past + [s]);
    }
  }

  /** The connection after the first. */
  ghost function Second(e: Endpoint): Session
    requires |e.past| >= 1
  {
    Connection(e.(past := e.past[1..]))
  }

  /** Once the first session has left the map, the next connection is a stream of its own: it is given
      what arrives from then on. */
  lemma SecondIsCorrect(ps: seq<Packet>, e: Endpoint, late: seq<nat>)
    requires Stream(ps) && OfStream(late, ps) && e.forward && e.live.None? && |e.past| == 1
    ensures var t := ReceiveAll(e, ps, late); |t.past| >= 1 && Correct(ps, Arrivals(late), Second(t))
  {
    PastStays(UNKNOWN, e.past, ps, late);
    assert e == UNKNOWN.(past := e.past + UNKNOWN.past);
    ResequencerCorrect(ps, UNKNOWN, late);
    var u := ReceiveAll(UNKNOWN, ps, late);
    assert (e.past + u.past)[1..] == u.past;
  }

  /** The endpoint when `last` has just made the stream whole. */
  ghost function Completed(ps: seq<Packet>, start: Endpoint, before: seq<nat>, last: nat): Endpoint
    requires OfStream(before, ps) && last < |ps|
  {
    Receive(ReceiveAll(start, ps, before), (last + 1) % TWO_63, ps[last])
  }

  lemma CompletedFromStart(ps: seq<Packet>, start: Endpoint, before: seq<nat>, last: nat)
    requires OfStream(before, ps) && last < |ps| && Start(start)
    ensures Completed(ps, start, before, last) == Completed(ps, Begin(start.forward), before, last)
  {
    if start == UNKNOWN && before != [] {
      FirstDials(ps, before);
    }
  }

  /** Late duplicates: once `last` has made the stream whole, more packets of it open a second
      connection to the target exactly if `last` was not EOF, because then EOF was met in the buffer
      and the session forgotten. What this second connection is given are the late packets, as if they
      were a stream of their own. */
  lemma SecondConnectionIff(ps: seq<Packet>, start: Endpoint, before: seq<nat>, last: nat, late: seq<nat>)
    requires Start(start)
    requires Stream(ps) && ps != [] && ps[|ps| - 1].eof && OfStream(before, ps) && last < |ps| && OfStream(late, ps)
    requires !Covers(ps, Arrivals(before)) && Covers(ps, Arrivals(before) + {last})
    ensures var e := Completed(ps, start, before, last);
            && Connections(e) == 1
            && (Connections(ReceiveAll(e, ps, late)) > 1 <==> start.forward && last + 1 != |ps| && late != [])
    ensures var t := ReceiveAll(Completed(ps, start, before, last), ps, late);
            Connections(t) > 1 ==> |t.past| >= 1 && Correct(ps, Arrivals(late), Second(t))
  {
    var begin := Begin(start.forward);
    var e := Completed(ps, start, before, last);
    CompletedFromStart(ps, start, before, last);
    BeginInvariant(ps, start.forward);
    CompletedBy(ps, begin, before, last);
    SettledThen(ps, start.forward, last, e, late);
    if start.forward && last + 1 != |ps| && late != [] {
      SecondIsCorrect(ps, e, late);
    }
  }

  // ---------------------------------------------------------------- any packets at all

  lemma {:induction false} DrainStaysClosed(s: Session)
    requires !s.open
    ensures Drain(s).0.out == s.out && !Drain(s).0.open
    decreases s.buf
  {
    var n := NextOf(s);
    if n in s.buf && !s.buf[n].eof {
      DrainStaysClosed(Play(s.(buf := s.buf - {n}), n, s.buf[n]));
    }
  }

  /** Whatever still comes under whatever number, a closed connection is given nothing more. */
  lemma ClosedStaysClosed(s: Session, n: nat, pkt: Packet)
    requires !s.open
    ensures var t := Post(s, n, pkt).0; t.out == s.out && !t.open
  {
    if NextOf(s) == n && !pkt.eof {
      DrainStaysClosed(Play(s, n, pkt));
    }
  }

  /** An id that is not known and not dialled for stays so. */
  lemma RefusedIsUnchanged(e: Endpoint, n: nat, pkt: Packet)
    requires e.live.None?
    ensures Receive(e, n, pkt) == e <==> !e.forward
  {
  }
}
