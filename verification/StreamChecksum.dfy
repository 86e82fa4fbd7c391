/**
 Starting the checksum in the middle of the stream (ff-udp-to-http.go:279-324), for FlowFiles as the
 vendored library writes and reads them. Which attributes ask for a checksum it can compute is a parameter.
 */
module StreamChecksum {
  import opened Words
  import opened Wire
  import opened FlowFile
  import opened WriteBuffer

  const HEADER_LIMIT := 65536  // 64<<10

  /** `NewChecksumHash` gives a hash for these attributes. */
  type Wanted = seq<Attribute> -> bool

  /** What the closure captures; the job's attributes are what the last `UnmarshalBinary` left of them. */
  datatype Scan = Scan(hdrBuf: seq<byte>, parsed: bool, attrs: seq<Attribute>, size: nat, hash: Option<seq<byte>>)

  function Begin(): Scan {
    Scan([], false, [], 0, None)
  }

  /** The attributes of b parse. */
  function Recognise(wanted: Wanted, st: Scan, b: seq<byte>, a: seq<Attribute>): Scan {
    var n := HeaderSize(a);
    if |b| >= n + 8 then
      Scan([], true, a, FromBigEndian(b[n..n + 8]), if wanted(a) then Some(b[n..]) else None)
    else
      st.(hdrBuf := b, attrs := a)
  }

  function Feed(wanted: Wanted, st: Scan, p: seq<byte>): Scan {
    if st.hash.Some? then st.(hash := Some(st.hash.value + p))
    else if st.parsed then st
    else
      var b := st.hdrBuf + p;
      match ReadFrom(b)
      case Parsed(a) => Recognise(wanted, st, b, a)
      case NoHeader => st.(hdrBuf := b, attrs := [], parsed := true)
      case Incomplete => st.(hdrBuf := b, attrs := [], parsed := |b| > HEADER_LIMIT)
  }

  function FeedAll(wanted: Wanted, ps: seq<seq<byte>>): Scan {
    if ps == [] then Begin() else Feed(wanted, FeedAll(wanted, ps[..|ps| - 1]), ps[|ps| - 1])
  }

  /** The variables the StreamFunc closure captures, updated in place. */
  class StreamFunc {
    const wanted: Wanted
    var hdrBuf: seq<byte>
    var parsed: bool
    var attrs: seq<Attribute>
    var size: nat
    var hash: Option<seq<byte>>  // the bytes given to the hash so far, if there is one

    ghost function Value(): Scan
      reads this
    {
      Scan(hdrBuf, parsed, attrs, size, hash)
    }

    constructor (wanted: Wanted)
      ensures this.wanted == wanted && Value() == Begin()
    {
      this.wanted := wanted;
      hdrBuf, parsed, attrs, size, hash := [], false, [], 0, None;
    }

    /** The attributes parse: start the hash once there are eight bytes behind the header, too. */
    method Start()
      requires hash.None? && !parsed
      modifies this
      ensures Value() == Recognise(wanted, old(Value()), old(hdrBuf), old(attrs))
    {
      var hdrSize := HeaderSize(attrs);
      if |hdrBuf| >= hdrSize + 8 {
        parsed := true;
        size := FromBigEndian(hdrBuf[hdrSize..hdrSize + 8]);
        if wanted(attrs) {
          hash := Some(hdrBuf[hdrSize..]);  // the first hdrSize bytes go to io.Discard
        }
        hdrBuf := [];
      }
    }

    method Call(p: seq<byte>)
      modifies this
      ensures Value() == Feed(wanted, old(Value()), p)
    {
      if hash.Some? {
        hash := Some(hash.value + p);
      } else if !parsed {
        hdrBuf := hdrBuf + p;
        attrs := [];
        match ReadFrom(hdrBuf) {
          case Parsed(a) =>
            attrs := a;
            Start();
          case NoHeader =>
            parsed := true;
          case Incomplete =>
            if |hdrBuf| > HEADER_LIMIT {
              parsed := true;
            }
        }
      }
    }

    method CallAll(ps: seq<seq<byte>>)
      requires Value() == Begin()
      modifies this
      ensures Value() == FeedAll(wanted, ps)
    {
      for i := 0 to |ps|
        invariant Value() == FeedAll(wanted, ps[..i])
      {
        assert ps[..i + 1][..i] == ps[..i];
        Call(ps[i]);
      }
      assert ps[..|ps|] == ps;
    }
  }

  // ---------------------------------------------------------------- any cut of a FlowFile

  /** The scan gives up when it has seen this many bytes: too few for the magic, or too many without
      the attributes. */
  ghost predicate Lost(attrs: seq<Attribute>, c: nat) {
    0 < c < 7 || 65536 < c < ParseAt(attrs)
  }

  ghost predicate Survives(attrs: seq<Attribute>, ps: seq<seq<byte>>) {
    forall i | 0 <= i <= |ps| :: !Lost(attrs, |Concat(ps[..i])|)
  }

  /** The job's attributes after c bytes: none until the parser is satisfied, and zeros for what is missing
      of the last value then. */
  ghost predicate SoFar(attrs: seq<Attribute>, c: nat, a: seq<Attribute>) {
    if c < ParseAt(attrs) then a == []
    else Strings(a) == Blanked(Strings(attrs), Max(0, HeaderSize(attrs) - 8 - c))
  }

  /** The scan after the first c bytes of a FlowFile, whatever the pieces they came in. */
  ghost predicate ScanAt(wanted: Wanted, attrs: seq<Attribute>, payload: seq<byte>, c: nat, alive: bool, st: Scan) {
    var s, n := Encoded(attrs, payload), HeaderSize(attrs);
    && c <= |s| == n + |payload|
    && if !alive then st == Scan(st.hdrBuf, true, [], 0, None)
       else if c < n + 8 then st == Scan(s[..c], false, st.attrs, 0, None) && SoFar(attrs, c, st.attrs)
       else st == Scan([], true, attrs, FromBigEndian(payload[..8]), if wanted(attrs) then Some(payload[..c - n]) else None)
  }

  lemma EncodedRead(attrs: seq<Attribute>, payload: seq<byte>, c: nat)
    requires Writable(attrs) && c <= |Encoded(attrs, payload)|
    ensures Reads(attrs, c, ReadFrom(Encoded(attrs, payload)[..c]))
  {
    var tail := BigEndian(|payload|, 8) + payload;
    assert Encoded(attrs, payload) == WriteTo(attrs) + tail;
    PrefixRead(attrs, tail, c);
  }

  lemma PayloadBehind(s: seq<byte>, n: nat, payload: seq<byte>, c: nat)
    requires n <= |s| && s[n..] == payload && n + 8 <= c <= |s|
    ensures s[..c][n..] == payload[..c - n] && s[..c][n..n + 8] == payload[..8]
  {
  }

  /** p follows the first c bytes of s. */
  ghost predicate Follows(s: seq<byte>, c: nat, p: seq<byte>) {
    c + |p| <= |s| && s[..c] + p == s[..c + |p|]
  }

  lemma PieceFollows(s: seq<byte>, before: seq<byte>, p: seq<byte>)
    requires before + p <= s
    ensures before <= s && Follows(s, |before|, p)
  {
    assert s[..|before|] == (before + p)[..|before|] == before;
  }

  lemma RecogniseAt(wanted: Wanted, attrs: seq<Attribute>, payload: seq<byte>, d: nat, st: Scan, a: seq<Attribute>)
    requires Writable(attrs) && d <= |Encoded(attrs, payload)| && st == Scan(st.hdrBuf, false, st.attrs, 0, None)
    requires HeaderSize(a) == HeaderSize(attrs) && (d >= HeaderSize(attrs) + 8 ==> a == attrs)
    requires SoFar(attrs, d, a)
    ensures ScanAt(wanted, attrs, payload, d, true, Recognise(wanted, st, Encoded(attrs, payload)[..d], a))
  {
    EncodedParts(attrs, payload);
    if d >= HeaderSize(attrs) + 8 {
      PayloadBehind(Encoded(attrs, payload), HeaderSize(attrs), payload, d);
    }
  }

  /** Another piece, with the attributes still to be found. */
  lemma FeedHeader(wanted: Wanted, attrs: seq<Attribute>, payload: seq<byte>, c: nat, st: Scan, p: seq<byte>)
    requires Writable(attrs) && ScanAt(wanted, attrs, payload, c, true, st) && c < HeaderSize(attrs) + 8
    requires Follows(Encoded(attrs, payload), c, p)
    ensures ScanAt(wanted, attrs, payload, c + |p|, !Lost(attrs, c + |p|), Feed(wanted, st, p))
  {
    var s, n, d := Encoded(attrs, payload), HeaderSize(attrs), c + |p|;
    EncodedParts(attrs, payload);
    EncodedRead(attrs, payload, d);
    SlackBelow(Strings(attrs));
    assert st.hdrBuf + p == s[..d];
    var r := ReadFrom(s[..d]);
    if r.Parsed? {
      RecogniseAt(wanted, attrs, payload, d, st, r.attrs);
    }
  }

  lemma FeedPayload(wanted: Wanted, attrs: seq<Attribute>, payload: seq<byte>, c: nat, st: Scan, p: seq<byte>)
    requires ScanAt(wanted, attrs, payload, c, true, st) && c >= HeaderSize(attrs) + 8 && Writable(attrs)
    requires Follows(Encoded(attrs, payload), c, p)
    ensures ScanAt(wanted, attrs, payload, c + |p|, true, Feed(wanted, st, p)) && !Lost(attrs, c + |p|)
  {
    var s, n := Encoded(attrs, payload), HeaderSize(attrs);
    EncodedParts(attrs, payload);
    SlackBelow(Strings(attrs));
    var d := c + |p|;
    assert s[..c][n..] + p == (s[..c] + p)[n..];
    PayloadBehind(s, n, payload, c);
    PayloadBehind(s, n, payload, d);
  }

  lemma FeedScan(wanted: Wanted, attrs: seq<Attribute>, payload: seq<byte>, c: nat, alive: bool, st: Scan, p: seq<byte>)
    requires Writable(attrs) && ScanAt(wanted, attrs, payload, c, alive, st) && Follows(Encoded(attrs, payload), c, p)
    ensures ScanAt(wanted, attrs, payload, c + |p|, alive && !Lost(attrs, c + |p|), Feed(wanted, st, p))
  {
    if alive && c < HeaderSize(attrs) + 8 {
      FeedHeader(wanted, attrs, payload, c, st, p);
    } else if alive {
      FeedPayload(wanted, attrs, payload, c, st, p);
    }
  }

  lemma NothingYet(wanted: Wanted, attrs: seq<Attribute>, payload: seq<byte>)
    requires Writable(attrs)
    ensures ScanAt(wanted, attrs, payload, 0, true, Begin())
  {
    EncodedParts(attrs, payload);
    SlackBelow(Strings(attrs));
  }

  /** Whatever the pieces a FlowFile comes in, the scan depends on how much has come, and on whether
      one of the pieces ended where it gives up. */
  lemma {:induction false} CutDecides(wanted: Wanted, attrs: seq<Attribute>, payload: seq<byte>, ps: seq<seq<byte>>)
    requires Writable(attrs) && Concat(ps) <= Encoded(attrs, payload)
    ensures ScanAt(wanted, attrs, payload, |Concat(ps)|, Survives(attrs, ps), FeedAll(wanted, ps))
  {
    if ps == [] {
      assert Survives(attrs, ps);
      NothingYet(wanted, attrs, payload);
    } else {
      var init, p := ps[..|ps| - 1], ps[|ps| - 1];
      PieceFollows(Encoded(attrs, payload), Concat(init), p);
      CutDecides(wanted, attrs, payload, init);
      SurvivesMore(attrs, init, p);
      assert init + [p] == ps;
      FeedScan(wanted, attrs, payload, |Concat(init)|, Survives(attrs, init), FeedAll(wanted, init), p);
    }
  }

  lemma SurvivesMore(attrs: seq<Attribute>, ps: seq<seq<byte>>, p: seq<byte>)
    ensures Survives(attrs, ps + [p]) <==> Survives(attrs, ps) && !Lost(attrs, |Concat(ps + [p])|)
  {
    var more := ps + [p];
    assert more[..|more|] == more;
    assert forall i | 0 <= i <= |ps| :: more[..i] == ps[..i];
  }

  /** A hash, once started, has been given the payload from its first byte on, with nothing dropped or
      repeated at the switch. */
  lemma HashInputIsPayload(wanted: Wanted, attrs: seq<Attribute>, payload: seq<byte>, ps: seq<seq<byte>>)
    requires Writable(attrs) && Concat(ps) <= Encoded(attrs, payload)
    ensures var hash := FeedAll(wanted, ps).hash;
            hash.Some? ==> |Concat(ps)| >= HeaderSize(attrs) && hash.value == Concat(ps)[HeaderSize(attrs)..]
  {
    CutDecides(wanted, attrs, payload, ps);
    EncodedParts(attrs, payload);
    var s, n, c := Encoded(attrs, payload), HeaderSize(attrs), |Concat(ps)|;
    assert s[..c] == Concat(ps);
    if c >= n + 8 {
      PayloadBehind(s, n, payload, c);
    }
  }

  lemma WholeScan(wanted: Wanted, attrs: seq<Attribute>, payload: seq<byte>, ps: seq<seq<byte>>)
    requires Writable(attrs) && Concat(ps) == Encoded(attrs, payload) && Survives(attrs, ps) && |payload| >= 8
    ensures var scan := FeedAll(wanted, ps);
            scan.attrs == attrs && scan.hash == if wanted(attrs) then Some(payload) else None
  {
    CutDecides(wanted, attrs, payload, ps);
    ScanAtEnd(wanted, attrs, payload, |Concat(ps)|, FeedAll(wanted, ps));
  }

  lemma ScanAtEnd(wanted: Wanted, attrs: seq<Attribute>, payload: seq<byte>, c: nat, st: Scan)
    requires ScanAt(wanted, attrs, payload, c, true, st) && c == |Encoded(attrs, payload)| && |payload| >= 8
    ensures st.attrs == attrs && st.hash == if wanted(attrs) then Some(payload) else None
  {
    assert payload[..|payload|] == payload;
  }

  /** A whole FlowFile is hashed as it comes if and only if its attributes ask for it, the payload has
      eight bytes, and no piece ends where the scan gives up. */
  lemma HashedIff(wanted: Wanted, attrs: seq<Attribute>, payload: seq<byte>, ps: seq<seq<byte>>)
    requires Writable(attrs) && Concat(ps) == Encoded(attrs, payload)
    ensures FeedAll(wanted, ps).hash == Some(payload) <==> wanted(attrs) && |payload| >= 8 && Survives(attrs, ps)
    ensures FeedAll(wanted, ps).hash.Some? ==> FeedAll(wanted, ps).hash == Some(payload)
  {
    CutDecides(wanted, attrs, payload, ps);
    assert payload[..|payload|] == payload;
  }

  /** No FlowFile is hashed for every cut: a first piece of three bytes is taken for something else. */
  lemma NoCutIndependence(wanted: Wanted, attrs: seq<Attribute>, payload: seq<byte>) returns (ps: seq<seq<byte>>)
    requires Writable(attrs)
    ensures Concat(ps) == Encoded(attrs, payload) && FeedAll(wanted, ps).hash.None?
  {
    var s := Encoded(attrs, payload);
    EncodedParts(attrs, payload);
    ps := [s[..3], s[3..]];
    assert ps[..1] == [s[..3]] && ps[..1][..0] == [];
    assert Concat(ps[..1]) == Concat(ps[..1][..0]) + s[..3] == s[..3];
    assert Concat(ps) == Concat(ps[..1]) + s[3..];
    assert Lost(attrs, |Concat(ps[..1])|);
    CutDecides(wanted, attrs, payload, ps);
  }

  // ---------------------------------------------------------------- the buffer's blocks

  lemma {:induction false} BlocksLength(ps: seq<seq<byte>>)
    requires forall p <- ps :: |p| == BLOCK
    ensures |Concat(ps)| == |ps| * BLOCK
  {
    if ps != [] {
      assert ps[|ps| - 1] in ps;
      assert forall p <- ps[..|ps| - 1] :: p in ps;
      BlocksLength(ps[..|ps| - 1]);
    }
  }

  /** With blocks of 4 KiB the scan gives up exactly if the attributes do not end in the first 17. */
  ghost predicate EarlyHeader(attrs: seq<Attribute>) {
    ParseAt(attrs) <= 17 * BLOCK
  }

  lemma BlocksSurviveIff(attrs: seq<Attribute>, ps: seq<seq<byte>>)
    requires forall p <- ps :: |p| == BLOCK
    ensures Survives(attrs, ps) <==> |ps| < 17 || EarlyHeader(attrs)
  {
    forall i | 0 <= i <= |ps|
      ensures |Concat(ps[..i])| == i * BLOCK
    {
      assert forall p <- ps[..i] :: p in ps;
      BlocksLength(ps[..i]);
    }
    if |ps| >= 17 && !EarlyHeader(attrs) {
      assert Lost(attrs, |Concat(ps[..17])|);
    }
  }

  /** The same with a last piece that completes the FlowFile. */
  lemma LastPieceSurvivesIff(attrs: seq<Attribute>, payload: seq<byte>, ps: seq<seq<byte>>, last: seq<byte>)
    requires Writable(attrs) && Concat(ps) + last == Encoded(attrs, payload)
    requires (forall p <- ps :: |p| == BLOCK) && |last| < BLOCK
    ensures Concat(ps + [last]) == Encoded(attrs, payload)
    ensures Survives(attrs, ps + [last]) <==> EarlyHeader(attrs)
  {
    var more := ps + [last];
    assert more[..|ps|] == ps;
    assert Concat(more) == Concat(ps) + last;
    EncodedParts(attrs, payload);
    SlackBelow(Strings(attrs));
    BlocksLength(ps);
    BlocksSurviveIff(attrs, ps);
    SurvivesMore(attrs, ps, last);
  }
}
