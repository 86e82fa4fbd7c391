/**
 Reading FlowFiles one after the other from a file on disk (vendor/github.com/pschou/go-flowfile:
 scanner.go:86-127, marshal.go:51-75, file.go:160-235).
 */
module Scanner {
  import opened Words
  import opened Wire
  import opened FlowFile

  /** A FlowFile as it is found: the size it announces, and what the file has of its payload. */
  datatype Found = Found(attrs: seq<Attribute>, size: int, payload: seq<byte>)

  function AsFound(f: File): Found {
    Found(f.attrs, |f.payload|, f.payload)
  }

  function AllFound(fs: seq<File>): (found: seq<Found>)
    ensures |found| == |fs| && forall i | 0 <= i < |fs| :: found[i] == AsFound(fs[i])
  {
    if fs == [] then [] else AllFound(fs[..|fs| - 1]) + [AsFound(fs[|fs| - 1])]
  }

  /** `int64(N)` for the eight bytes of a length. */
  function SizeOf(b: seq<byte>): int
    requires |b| == 8
  {
    FromBigEndianRoundTrip(b);
    PowersOf256();
    Int64(FromBigEndian(b))
  }

  lemma SizeOfLength(n: nat)
    requires n < TWO_63
    ensures SizeOf(BigEndian(n, 8)) == n
  {
    PowersOf256();
    BigEndianRoundTrip(n, 8);
  }

  /** `parseOne`: attributes and length are read, the payload is left to `ReadAt`. */
  function ParseOne(s: seq<byte>): (r: Option<Found>)
    ensures r.Some? ==> HeaderSize(r.value.attrs) <= |s|
  {
    match ReadFrom(s)
    case Parsed(a) =>
      var n := HeaderSize(a);
      if |s| < n then None
      else
        var size := SizeOf(s[n - 8..n]);
        Some(Found(a, size, s[n..Min(|s|, n + Max(0, size))]))
    case _ => None
  }

  /** The scan loop. `ReadAt` does not move the file's offset, and `Close` leaves it where it is, so that
      the next FlowFile is looked for in the payload of the last. Any error ends the scan. */
  function Scan(s: seq<byte>): seq<Found>
    decreases |s|
  {
    match ParseOne(s)
    case None => []
    case Some(f) => [f] + Scan(s[HeaderSize(f.attrs)..])
  }

  /** The loop over the file, with its offset. */
  method ScanFile(s: seq<byte>) returns (found: seq<Found>)
    ensures found == Scan(s)
  {
    found := [];
    var offset := 0;
    var next := ParseOne(s);
    while next.Some?
      invariant offset <= |s| && next == ParseOne(s[offset..])
      invariant found + Scan(s[offset..]) == Scan(s)
      decreases |s| - offset
    {
      var f := next.value;
      found := found + [f];
      assert s[offset..][HeaderSize(f.attrs)..] == s[offset + HeaderSize(f.attrs)..];
      offset := offset + HeaderSize(f.attrs);
      next := ParseOne(s[offset..]);
    }
  }

  // ---------------------------------------------------------------- one FlowFile

  /** The bytes begin like a FlowFile. */
  predicate Begins(s: seq<byte>) {
    ParseOne(s).Some?
  }

  /** What the library writes and reads back. */
  ghost predicate Storable(f: File) {
    Writable(f.attrs) && |f.payload| < TWO_63
  }

  lemma ParsedIs(s: seq<byte>, f: File, rest: seq<byte>, n: nat, size: seq<byte>)
    requires ReadFrom(s) == Parsed(f.attrs) && HeaderSize(f.attrs) == n && 8 <= n <= |s|
    requires s[n - 8..n] == size && |size| == 8 && SizeOf(size) == |f.payload| && s[n..] == f.payload + rest
    ensures ParseOne(s) == Some(AsFound(f))
  {
    PayloadSlice(s, n, f.payload, rest);
  }

  lemma PayloadSlice(s: seq<byte>, n: nat, payload: seq<byte>, rest: seq<byte>)
    requires n <= |s| && s[n..] == payload + rest
    ensures n + |payload| <= |s| && s[n..n + |payload|] == payload
  {
    assert s[n..n + |payload|] == s[n..][..|payload|];
  }

  lemma FollowedBy(e: seq<byte>, n: nat, size: seq<byte>, payload: seq<byte>, rest: seq<byte>)
    requires 8 <= n <= |e| && e[n - 8..n] == size && e[n..] == payload
    ensures (e + rest)[n - 8..n] == size && (e + rest)[n..] == payload + rest
  {
  }

  lemma Associate(a: seq<byte>, b: seq<byte>, c: seq<byte>, d: seq<byte>)
    ensures a + b + c + d == a + (b + c + d)
  {
  }

  lemma ReadEncoded(f: File, rest: seq<byte>)
    requires Storable(f)
    ensures ReadFrom(BytesOf(f) + rest) == Parsed(f.attrs)
  {
    var size := BigEndian(|f.payload|, 8);
    var tail := size + f.payload + rest;
    Associate(WriteTo(f.attrs), size, f.payload, rest);
    EncodedParts(f.attrs, f.payload);
    var s := WriteTo(f.attrs) + tail;
    PrefixRead(f.attrs, tail, |s|);
    assert s[..|s|] == s;
  }

  lemma ParseEncoded(f: File, rest: seq<byte>)
    requires Storable(f)
    ensures ParseOne(BytesOf(f) + rest) == Some(AsFound(f))
    ensures HeaderSize(f.attrs) <= |BytesOf(f)|
    ensures (BytesOf(f) + rest)[HeaderSize(f.attrs)..] == f.payload + rest
  {
    var n := HeaderSize(f.attrs);
    EncodedParts(f.attrs, f.payload);
    FollowedBy(BytesOf(f), n, BigEndian(|f.payload|, 8), f.payload, rest);
    ReadEncoded(f, rest);
    SizeOfLength(|f.payload|);
    ParsedIs(BytesOf(f) + rest, f, rest, n, BigEndian(|f.payload|, 8));
  }

  lemma HeaderOnly(h: seq<byte>, size: seq<byte>, rest: seq<byte>, n: nat)
    requires |h| + 8 == n && |size| == 8
    ensures var s := h + size + rest; s == h + (size + rest) && s[n - 8..n] == size && s[n..] == rest
  {
  }

  lemma ReadHeader(attrs: seq<Attribute>, tail: seq<byte>, s: seq<byte>)
    requires Writable(attrs) && s == WriteTo(attrs) + tail && |tail| >= 8
    ensures ReadFrom(s) == Parsed(attrs) && |WriteTo(attrs)| + 8 == HeaderSize(attrs)
  {
    EncodedParts(attrs, []);
    PrefixRead(attrs, tail, |s|);
    assert s[..|s|] == s;
  }

  lemma ParseFound(s: seq<byte>, attrs: seq<Attribute>, n: nat, size: int, rest: seq<byte>)
    requires ReadFrom(s) == Parsed(attrs) && HeaderSize(attrs) == n && 8 <= n <= |s|
    requires SizeOf(s[n - 8..n]) == size && s[n..] == rest
    ensures ParseOne(s) == Some(Found(attrs, size, rest[..Min(|rest|, Max(0, size))]))
  {
    var k := Min(|rest|, Max(0, size));
    assert s[n..n + k] == s[n..][..k];
  }

  lemma SizeOfAny(n: nat)
    requires n < TWO_64
    ensures SizeOf(BigEndian(n, 8)) == if n < TWO_63 then n else n - TWO_64
  {
    PowersOf256();
    BigEndianRoundTrip(n, 8);
  }

  /** Whatever length stands behind the attributes: with fewer bytes there, the FlowFile has those, and a
      length of 2^63 or more is negative, and stands for none. */
  lemma ParseAny(attrs: seq<Attribute>, n: nat, rest: seq<byte>)
    requires Writable(attrs) && n < TWO_64
    ensures var size := if n < TWO_63 then n else n - TWO_64;
            ParseOne(WriteTo(attrs) + BigEndian(n, 8) + rest)
              == Some(Found(attrs, size, if n < TWO_63 then rest[..Min(|rest|, n)] else []))
  {
    var h, s := HeaderSize(attrs), WriteTo(attrs) + BigEndian(n, 8) + rest;
    EncodedParts(attrs, []);
    HeaderOnly(WriteTo(attrs), BigEndian(n, 8), rest, h);
    ReadHeader(attrs, BigEndian(n, 8) + rest, s);
    SizeOfAny(n);
    ParseFound(s, attrs, h, SizeOf(BigEndian(n, 8)), rest);
  }

  /** A FlowFile is found, and then whatever its payload and the bytes behind it look like. */
  lemma ScanEncoded(f: File, rest: seq<byte>)
    requires Storable(f)
    ensures Scan(BytesOf(f) + rest) == [AsFound(f)] + Scan(f.payload + rest)
  {
    ParseEncoded(f, rest);
  }

  /** A FlowFile in a file of its own is found once exactly if its payload does not begin like one. */
  lemma FoundOnceIff(f: File)
    requires Storable(f)
    ensures Scan(BytesOf(f)) == [AsFound(f)] + Scan(f.payload)
    ensures Scan(BytesOf(f)) == [AsFound(f)] <==> !Begins(f.payload)
  {
    ScanEncoded(f, []);
    assert BytesOf(f) + [] == BytesOf(f) && f.payload + [] == f.payload;
  }

  lemma BeginsWithMagic(s: seq<byte>)
    requires Begins(s)
    ensures |s| >= 17 && s[..7] == MAGIC
  {
  }

  // ---------------------------------------------------------------- a batch

  function Codes(fs: seq<File>): (ws: seq<seq<byte>>)
    ensures |ws| == |fs|
  {
    seq(|fs|, i requires 0 <= i < |fs| => BytesOf(fs[i]))
  }

  function EncodeAll(fs: seq<File>): seq<byte> {
    Join(Codes(fs))
  }

  lemma FirstCode(fs: seq<File>)
    requires fs != []
    ensures EncodeAll(fs) == BytesOf(fs[0]) + EncodeAll(fs[1..])
  {
    assert Codes(fs)[1..] == Codes(fs[1..]);
  }

  /** What is found of a batch that has been written to one file. */
  function Scanned(fs: seq<File>): seq<Found> {
    Scan(EncodeAll(fs))
  }

  /** The batch is found as it was written. */
  predicate Whole(fs: seq<File>) {
    Scanned(fs) == AllFound(fs)
  }

  ghost predicate AllStorable(fs: seq<File>) {
    forall f <- fs :: Storable(f)
  }

  /** How many FlowFiles there are before the first with a payload. */
  function FirstFull(fs: seq<File>): (k: nat)
    ensures k <= |fs| && (k < |fs| ==> fs[k].payload != []) && forall i | 0 <= i < k :: fs[i].payload == []
  {
    if fs == [] || fs[0].payload != [] then 0 else 1 + FirstFull(fs[1..])
  }

  /** What is found from the payload of FlowFile k on. */
  function Behind(fs: seq<File>, k: nat): seq<Found>
    requires k < |fs|
  {
    Scan(fs[k].payload + EncodeAll(fs[k + 1..]))
  }

  lemma StepAt(fs: seq<File>, i: nat)
    requires i < |fs| && Storable(fs[i])
    ensures Scanned(fs[i..]) == [AsFound(fs[i])] + Behind(fs, i)
    ensures fs[i].payload == [] ==> Behind(fs, i) == Scanned(fs[i + 1..])
  {
    var rest := EncodeAll(fs[i + 1..]);
    FirstCode(fs[i..]);
    assert fs[i..][1..] == fs[i + 1..];
    ScanEncoded(fs[i], rest);
    assert [] + rest == rest;
  }

  /** One more FlowFile is found: all of it is `more` behind the others. */
  lemma FoundOne(fs: seq<File>, k: nat, all: seq<Found>, from: seq<Found>, more: seq<Found>)
    requires k < |fs| && all == AllFound(fs[..k]) + from && from == [AsFound(fs[k])] + more
    ensures all == AllFound(fs[..k + 1]) + more
  {
    assert fs[..k + 1][..k] == fs[..k];
    var head := AllFound(fs[..k]);
    assert head + ([AsFound(fs[k])] + more) == head + [AsFound(fs[k])] + more;
  }

  lemma {:induction false} EmptyOnes(fs: seq<File>, j: nat)
    requires AllStorable(fs) && j <= FirstFull(fs)
    ensures Scanned(fs) == AllFound(fs[..j]) + Scanned(fs[j..])
  {
    if j == 0 {
      assert fs[..0] == [] && fs[0..] == fs;
    } else {
      EmptyOnes(fs, j - 1);
      assert fs[j - 1] in fs;
      StepAt(fs, j - 1);
      FoundOne(fs, j - 1, Scanned(fs), Scanned(fs[j - 1..]), Scanned(fs[j..]));
    }
  }

  /** FlowFiles without payload are all found. */
  lemma NoneFull(fs: seq<File>)
    requires AllStorable(fs) && FirstFull(fs) == |fs|
    ensures Scanned(fs) == AllFound(fs)
  {
    EmptyOnes(fs, |fs|);
    assert fs[..|fs|] == fs && fs[|fs|..] == [];
    NothingFound();
  }

  lemma NothingFound()
    ensures Scanned([]) == []
  {
  }

  /** The scan finds everything up to the first FlowFile with a payload, and goes on inside that payload. */
  lemma OneFull(fs: seq<File>, k: nat)
    requires AllStorable(fs) && k == FirstFull(fs) < |fs|
    ensures Scanned(fs) == AllFound(fs[..k + 1]) + Behind(fs, k)
  {
    EmptyOnes(fs, k);
    assert fs[k] in fs;
    StepAt(fs, k);
    FoundOne(fs, k, Scanned(fs), Scanned(fs[k..]), Behind(fs, k));
  }

  /** Only the last FlowFile may have a payload, and it must not begin like a FlowFile. */
  predicate Plain(fs: seq<File>) {
    (forall i | 0 <= i < |fs| - 1 :: fs[i].payload == []) && (fs != [] ==> !Begins(fs[|fs| - 1].payload))
  }

  /** The first payload, followed by other FlowFiles, and these read together as just these FlowFiles. */
  predicate Mimics(fs: seq<File>) {
    var k := FirstFull(fs);
    k + 1 < |fs| && Behind(fs, k) == AllFound(fs[k + 1..])
  }

  lemma {:induction false} FoundSplits(fs: seq<File>, k: nat)
    requires k <= |fs|
    ensures AllFound(fs) == AllFound(fs[..k]) + AllFound(fs[k..])
  {
    var n := |fs| - 1;
    if k == |fs| {
      assert fs[..k] == fs;
    } else {
      FoundSplits(fs[..n], k);
      LastApart(fs, k);
      Regroup(AllFound(fs[..k]), AllFound(fs[..n][k..]), [AsFound(fs[n])]);
    }
  }

  lemma LastApart(fs: seq<File>, k: nat)
    requires k < |fs|
    ensures fs[..|fs| - 1][..k] == fs[..k]
    ensures AllFound(fs[k..]) == AllFound(fs[..|fs| - 1][k..]) + [AsFound(fs[|fs| - 1])]
  {
    assert fs[k..][..|fs| - 1 - k] == fs[..|fs| - 1][k..];
  }

  lemma Regroup(a: seq<Found>, b: seq<Found>, c: seq<Found>)
    ensures (a + b) + c == a + (b + c)
  {
  }

  lemma FoundRest(fs: seq<File>, k: nat, more: seq<Found>)
    requires k <= |fs|
    ensures AllFound(fs[..k]) + more == AllFound(fs) <==> more == AllFound(fs[k..])
  {
    FoundSplits(fs, k);
    Cancel(AllFound(fs[..k]), more, AllFound(fs[k..]));
  }

  lemma Cancel(head: seq<Found>, a: seq<Found>, b: seq<Found>)
    ensures head + a == head + b <==> a == b
  {
    assert (head + a)[|head|..] == a && (head + b)[|head|..] == b;
  }

  /** Exactly which batches are found as they were written. */
  lemma WholeIff(fs: seq<File>)
    requires AllStorable(fs)
    ensures Whole(fs) <==> Plain(fs) || Mimics(fs)
  {
    var k := FirstFull(fs);
    if k == |fs| {
      NoneFull(fs);
    } else {
      OneFull(fs, k);
      FoundRest(fs, k + 1, Behind(fs, k));
    }
    if k + 1 == |fs| {
      LastBehind(fs);
    }
  }

  lemma LastBehind(fs: seq<File>)
    requires fs != []
    ensures Behind(fs, |fs| - 1) == Scan(fs[|fs| - 1].payload)
    ensures Behind(fs, |fs| - 1) == [] <==> !Begins(fs[|fs| - 1].payload)
  {
    assert fs[|fs| - 1].payload + [] == fs[|fs| - 1].payload;
  }

  // ---------------------------------------------------------------- payloads that pass for what follows

  /** A payload passes for what follows only if it begins with the magic, as far as it goes. */
  lemma MimicsBegins(fs: seq<File>)
    requires Mimics(fs)
    ensures var k := FirstFull(fs);
            forall i | 0 <= i < 7 && i < |fs[k].payload| :: fs[k].payload[i] == MAGIC[i]
  {
    var k := FirstFull(fs);
    var s := fs[k].payload + EncodeAll(fs[k + 1..]);
    assert AllFound(fs[k + 1..]) != [];
    BeginsWithMagic(s);
    forall i | 0 <= i < 7 && i < |fs[k].payload|
      ensures fs[k].payload[i] == MAGIC[i]
    {
      assert s[..7][i] == s[i];
    }
  }

  /** Without payloads that begin with an N, a batch is found whole exactly if it is plain. */
  lemma TameWholeIff(fs: seq<File>)
    requires AllStorable(fs)
    requires forall f <- fs :: f.payload != [] ==> f.payload[0] != MAGIC[0]
    ensures Whole(fs) <==> forall i | 0 <= i < |fs| - 1 :: fs[i].payload == []
  {
    WholeIff(fs);
    forall f <- fs, rest: seq<byte>
      ensures f.payload != [] ==> !Begins(f.payload + rest)
    {
      if f.payload != [] {
        TameNeverBegins(f.payload, rest);
      }
    }
    if fs != [] {
      var last := fs[|fs| - 1];
      assert last in fs && last.payload + [] == last.payload;
      assert !Begins([]);
    }
    var k := FirstFull(fs);
    if k + 1 < |fs| {
      assert fs[k] in fs;
      assert !Begins(fs[k].payload + EncodeAll(fs[k + 1..]));
      assert AllFound(fs[k + 1..]) != [];
    }
  }

  /** The first payload does not begin with an N: nothing behind it is found. */
  lemma TameScanned(fs: seq<File>, k: nat)
    requires AllStorable(fs) && k == FirstFull(fs) < |fs| && fs[k].payload[0] != MAGIC[0]
    ensures Scanned(fs) == AllFound(fs[..k + 1])
  {
    OneFull(fs, k);
    NothingBehind(fs, k);
    NoMore(AllFound(fs[..k + 1]));
  }

  lemma NothingBehind(fs: seq<File>, k: nat)
    requires k < |fs| && fs[k].payload != [] && fs[k].payload[0] != MAGIC[0]
    ensures Behind(fs, k) == []
  {
    TameNeverBegins(fs[k].payload, EncodeAll(fs[k + 1..]));
  }

  lemma NoMore(found: seq<Found>)
    ensures found + [] == found
  {
  }

  lemma TameNeverBegins(p: seq<byte>, rest: seq<byte>)
    requires p != [] && p[0] != MAGIC[0]
    ensures !Begins(p + rest)
  {
    if Begins(p + rest) {
      BeginsAtMagic(p + rest);
    }
  }

  lemma BeginsAtMagic(s: seq<byte>)
    requires Begins(s)
    ensures s != [] && s[0] == MAGIC[0]
  {
    BeginsWithMagic(s);
    assert s[..7][0] == s[0];
  }

  // A header that is its own first half twice: one attribute, whose value holds the second half.
  const HALF: seq<byte> := MAGIC + [0, 1, 0, 0, 0, 21, 0, 0, 0, 0, 0, 0, 0, 0]

  const TWICE: File := File([Attribute([], VALUE)], [])

  const VALUE: seq<byte> := HALF[13..] + HALF[..13]

  lemma TwiceFields()
    ensures Strings(TWICE.attrs) == [[], VALUE] && Size([[], VALUE]) == 25
    ensures Fields([[], VALUE]) == [0, 0, 0, 21] + VALUE
  {
    var xs: seq<seq<byte>> := [[], VALUE];
    assert xs[1..] == [VALUE] && xs[1..][1..] == [];
    assert Fields(xs[1..]) == Field(VALUE) + [] && Size(xs[1..]) == 2 + |VALUE| + 0;
    assert BigEndian(0, 2) == [0, 0] && BigEndian(21, 2) == [0, 21];
  }

  lemma TwiceIs()
    ensures Storable(TWICE) && BytesOf(TWICE) == HALF + HALF && HeaderSize(TWICE.attrs) == 42
  {
    TwiceFields();
    TwiceStorable();
    TwiceWritten();
    assert BigEndian(0, 8) == Zeros(8);
    TwoHalves();
  }

  lemma TwoHalves()
    ensures MAGIC + [0, 1] + ([0, 0, 0, 21] + VALUE) + Zeros(8) + [] == HALF + HALF
  {
  }

  lemma TwiceStorable()
    ensures Storable(TWICE)
  {
    TwiceFields();
  }

  lemma TwiceWritten()
    ensures WriteTo(TWICE.attrs) == MAGIC + [0, 1] + ([0, 0, 0, 21] + VALUE)
  {
    TwiceFields();
    assert BigEndian(1, 2) == [0, 1];
  }

  lemma HalfIsNothing()
    ensures Scan(HALF) == []
  {
    TwiceIs();
    ReadHalf();
  }

  lemma ReadHalf()
    ensures var r := ReadFrom(HALF); r.Parsed? ==> HeaderSize(r.attrs) == 42
  {
    TwiceIs();
    PrefixRead(TWICE.attrs, BigEndian(0, 8), 21);
    assert BytesOf(TWICE) == WriteTo(TWICE.attrs) + BigEndian(0, 8);
    assert (HALF + HALF)[..21] == HALF;
  }

  /** There are payloads that pass for the FlowFile behind them. */
  lemma SomeMimic() returns (fs: seq<File>)
    ensures AllStorable(fs) && Mimics(fs) && !Plain(fs)
  {
    fs := [File([], HALF), TWICE];
    TwiceIs();
    assert fs[1..] == [TWICE];
    HalfThenTwice();
  }

  lemma HalfThenTwice()
    ensures Scan(HALF + EncodeAll([TWICE])) == AllFound([TWICE])
  {
    TwiceIs();
    ScanEncoded(TWICE, HALF);
    HalfIsNothing();
    FirstCode([TWICE]);
    Halves(HALF, BytesOf(TWICE));
    assert [] + HALF == HALF;
  }

  lemma Halves(half: seq<byte>, twice: seq<byte>)
    requires twice == half + half
    ensures half + (twice + []) == twice + half
  {
  }
}
