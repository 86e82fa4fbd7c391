/** FlowFiles on the wire (vendor/github.com/pschou/go-flowfile/attributes.go, marshal.go). */
module FlowFile {
  import opened Words
  import opened Wire

  datatype Attribute = Attribute(name: seq<byte>, value: seq<byte>)

  datatype File = File(attrs: seq<Attribute>, payload: seq<byte>)

  // "NiFiFF3" and "NiFiEOF"
  const MAGIC: seq<byte> := [0x4E, 0x69, 0x46, 0x69, 0x46, 0x46, 0x33]
  const END_MAGIC: seq<byte> := [0x4E, 0x69, 0x46, 0x69, 0x45, 0x4F, 0x46]

  /** `Attributes.Get`: the first value with this name, or nothing. */
  function Get(attrs: seq<Attribute>, name: seq<byte>): seq<byte> {
    if attrs == [] then [] else if attrs[0].name == name then attrs[0].value else Get(attrs[1..], name)
  }

  /** A text in ASCII. */
  function Text(s: string): (b: seq<byte>)
    ensures |b| == |s|
  {
    seq(|s|, i requires 0 <= i < |s| => s[i] as int % 256)
  }

  // ---------------------------------------------------------------- writing

  /** Names and values in the order in which they are written. */
  function Strings(attrs: seq<Attribute>): (xs: seq<seq<byte>>)
    ensures |xs| == 2 * |attrs|
  {
    if attrs == [] then [] else [attrs[0].name, attrs[0].value] + Strings(attrs[1..])
  }

  function Pairs(xs: seq<seq<byte>>): (attrs: seq<Attribute>)
    requires |xs| % 2 == 0
    ensures |attrs| == |xs| / 2
  {
    if xs == [] then [] else [Attribute(xs[0], xs[1])] + Pairs(xs[2..])
  }

  /** Lengths and counts are cut to 16 bits, and what is written is cut with them. */
  function Cut16<T>(x: seq<T>): (y: seq<T>)
    ensures |x| < TWO_16 ==> y == x
  {
    x[..|x| % TWO_16]
  }

  function Field(x: seq<byte>): seq<byte> {
    var y := Cut16(x);
    BigEndian(|y|, 2) + y
  }

  function Fields(xs: seq<seq<byte>>): seq<byte> {
    if xs == [] then [] else Field(xs[0]) + Fields(xs[1..])
  }

  /** Names, values and their number fit their 16-bit lengths. */
  ghost predicate Writable(attrs: seq<Attribute>) {
    |attrs| < TWO_16 && Short(Strings(attrs))
  }

  ghost predicate Short(xs: seq<seq<byte>>) {
    forall x <- xs :: |x| < TWO_16
  }

  /** `Attributes.WriteTo` */
  function WriteTo(attrs: seq<Attribute>): seq<byte> {
    WriteCounted(Cut16(attrs))
  }

  function WriteCounted(attrs: seq<Attribute>): seq<byte> {
    MAGIC + BigEndian(|attrs|, 2) + Fields(Strings(attrs))
  }

  /** `File.EncodedReader` */
  function Encoded(attrs: seq<Attribute>, payload: seq<byte>): seq<byte> {
    WriteTo(attrs) + BigEndian(|payload|, 8) + payload
  }

  function BytesOf(f: File): seq<byte> {
    Encoded(f.attrs, f.payload)
  }

  function Size(xs: seq<seq<byte>>): nat {
    if xs == [] then 0 else 2 + |xs[0]| + Size(xs[1..])
  }

  /** `File.HeaderSize`: magic, count, fields, and the eight bytes of the payload's length. */
  function HeaderSize(attrs: seq<Attribute>): nat {
    17 + Size(Strings(attrs))
  }

  // ---------------------------------------------------------------- reading

  /** `Attributes.ReadFrom`: the attributes, ErrorNoFlowFileHeader, or another error. */
  datatype Parse = Parsed(attrs: seq<Attribute>) | NoHeader | Incomplete

  /** A buffer of n bytes after one `Read` from s: what is there, and zeros. */
  function Padded(s: seq<byte>, n: nat): (p: seq<byte>)
    ensures |p| == n
  {
    if |s| >= n then s[..n] else s + Zeros(n - |s|)
  }

  /** n strings, each a length and as many bytes. `Read` is satisfied with fewer bytes than asked for,
      but not with none; None is an error. */
  function ReadStrings(s: seq<byte>, n: nat): (r: Option<seq<seq<byte>>>)
    ensures r.Some? ==> |r.value| == n
  {
    if n == 0 then Some([])
    else if |s| < 2 then None
    else
      var size := FromBigEndian(s[..2]);
      if size > 0 && |s| == 2 then None
      else Prepend([Padded(s[2..], size)], ReadStrings(s[Min(2 + size, |s|)..], n - 1))
  }

  function Prepend(done: seq<seq<byte>>, r: Option<seq<seq<byte>>>): (t: Option<seq<seq<byte>>>)
    ensures t.Some? <==> r.Some?
    ensures t.Some? ==> |t.value| == |done| + |r.value|
  {
    if r.None? then None else Some(done + r.value)
  }

  /** `ReadFrom` on the bytes s. */
  function ReadFrom(s: seq<byte>): Parse {
    if s == [] then Incomplete  // io.EOF
    else
      var hdr := Padded(s, 7);
      if hdr == END_MAGIC then Incomplete
      else if hdr != MAGIC then NoHeader
      else if |s| < 9 then Incomplete
      else
        var count := FromBigEndian(s[7..9]);
        var r := ReadStrings(s[9..], 2 * count);
        if r.None? then Incomplete else Parsed(Pairs(r.value))
  }

  // ---------------------------------------------------------------- strings that end early

  /** The bytes w are the length and bytes of x. */
  ghost predicate IsField(x: seq<byte>, w: seq<byte>) {
    |w| == 2 + |x| && FromBigEndian(w[..2]) == |x| && w[2..] == x
  }

  ghost predicate Frames(xs: seq<seq<byte>>, ws: seq<seq<byte>>) {
    |ws| == |xs| && forall i | 0 <= i < |ws| :: IsField(xs[i], ws[i])
  }

  function Join(ws: seq<seq<byte>>): seq<byte> {
    if ws == [] then [] else ws[0] + Join(ws[1..])
  }

  lemma FieldIs(x: seq<byte>)
    requires |x| < TWO_16
    ensures IsField(x, Field(x))
  {
    PowersOf256();
    BigEndianRoundTrip(|x|, 2);
    assert Field(x)[..2] == BigEndian(|x|, 2);
  }

  lemma {:induction false} FramesOf(xs: seq<seq<byte>>) returns (ws: seq<seq<byte>>)
    requires Short(xs)
    ensures Frames(xs, ws) && Join(ws) == Fields(xs)
  {
    if xs == [] {
      ws := [];
    } else {
      assert xs[0] in xs;
      var rest := FramesOf(xs[1..]);
      FieldIs(xs[0]);
      ws := [Field(xs[0])] + rest;
      assert ws[1..] == rest;
      assert forall i | 0 < i < |ws| :: xs[i] == xs[1..][i - 1];
    }
  }

  lemma PrependTwice(a: seq<seq<byte>>, b: seq<seq<byte>>, r: Option<seq<seq<byte>>>)
    ensures Prepend(a, Prepend(b, r)) == Prepend(a + b, r)
    ensures Prepend([], r) == r
  {
    if r.Some? {
      assert a + (b + r.value) == (a + b) + r.value;
      assert [] + r.value == r.value;
    }
  }

  lemma FirstRead(x: seq<byte>, w: seq<byte>, end: seq<byte>, n: nat, s: seq<byte>)
    requires IsField(x, w) && n > 0 && s == w + end
    ensures ReadStrings(s, n) == Prepend([x], ReadStrings(end, n - 1))
  {
    assert s[..2] == w[..2] && s[2..] == x + end && s[|w|..] == end;
  }

  lemma JoinFirst(ws: seq<seq<byte>>, end: seq<byte>)
    requires ws != []
    ensures Join(ws) + end == ws[0] + (Join(ws[1..]) + end)
  {
  }

  lemma {:induction false} DoneRead(xs: seq<seq<byte>>, ws: seq<seq<byte>>, end: seq<byte>, n: nat, s: seq<byte>)
    requires Frames(xs, ws) && s == Join(ws) + end
    ensures ReadStrings(s, |xs| + n) == Prepend(xs, ReadStrings(end, n))
    decreases |xs|
  {
    if xs == [] {
      assert s == end;
      PrependTwice([], [], ReadStrings(end, n));
    } else {
      var tail := Join(ws[1..]) + end;
      JoinFirst(ws, end);
      DoneRead(xs[1..], ws[1..], end, n, tail);
      FirstRead(xs[0], ws[0], tail, |xs| + n, s);
      PrependTwice([xs[0]], xs[1..], ReadStrings(end, n));
      assert xs == [xs[0]] + xs[1..];
    }
  }

  /** Only the first d bytes of a field: enough, if it is the last one and its bytes have begun. */
  lemma CutRead(x: seq<byte>, w: seq<byte>, d: nat, n: nat)
    requires IsField(x, w) && d < |w| && n > 0
    ensures var r := ReadStrings(w[..d], n);
            (r.Some? <==> n == 1 && d > 2) && (r.Some? ==> r.value == [x[..d - 2] + Zeros(|x| - (d - 2))])
  {
    if d >= 2 {
      assert w[..d][2..] == x[..d - 2];
      assert w[..d][..2] == w[..2];
      assert w[..d][Min(2 + |x|, d)..] == [];
    }
  }

  /** Where the first c bytes of the fields end. */
  lemma {:induction false} CutSplits(ws: seq<seq<byte>>, tail: seq<byte>, c: nat) returns (i: nat, d: nat)
    requires c < |Join(ws)|
    ensures i < |ws| && d < |ws[i]| && c == |Join(ws[..i])| + d
    ensures (Join(ws) + tail)[..c] == Join(ws[..i]) + ws[i][..d]
  {
    var f := |ws[0]|;
    JoinFirst(ws, tail);
    if c < f {
      i, d := 0, c;
      assert ws[..0] == [];
    } else {
      var j;
      j, d := CutSplits(ws[1..], tail, c - f);
      i := j + 1;
      assert ws[..i][1..] == ws[1..][..j];
    }
  }

  lemma {:induction false} JoinedSize(xs: seq<seq<byte>>, ws: seq<seq<byte>>)
    requires Frames(xs, ws)
    ensures |Join(ws)| == Size(xs)
  {
    if xs != [] {
      JoinedSize(xs[1..], ws[1..]);
    }
  }

  lemma {:induction false} SizeSplit(xs: seq<seq<byte>>, i: nat)
    requires i <= |xs|
    ensures Size(xs) == Size(xs[..i]) + Size(xs[i..])
  {
    if i > 0 {
      SizeSplit(xs[1..], i - 1);
      assert xs[..i][1..] == xs[1..][..i - 1];
    } else {
      assert xs[..0] == [] && xs[0..] == xs;
    }
  }

  /** How much of the end of the fields `ReadFrom` does without: all of the last string but a byte. */
  function Slack(xs: seq<seq<byte>>): nat {
    if xs == [] || xs[|xs| - 1] == [] then 0 else |xs[|xs| - 1]| - 1
  }

  lemma CutSize(xs: seq<seq<byte>>, i: nat, d: nat)
    requires i < |xs| && d < 2 + |xs[i]|
    ensures Size(xs[..i]) + d + Slack(xs) >= Size(xs) <==> i + 1 == |xs| && d > 2
    ensures Size(xs[..i]) + d < Size(xs)
  {
    SizeSplit(xs, i);
    var more := xs[i..];
    if i + 1 < |xs| {
      SizeSplit(more, |more| - 1);
      assert Size(more[|more| - 1..]) == 2 + |xs[|xs| - 1]|;
      assert Size(more[..|more| - 1]) >= 2 + |xs[i]|;
    }
  }

  /** The same strings, but for the bytes of the last one. */
  ghost predicate Resembles(a: seq<seq<byte>>, b: seq<seq<byte>>) {
    |a| == |b| && forall i | 0 <= i < |a| :: |a[i]| == |b[i]|
  }

  /** The strings, with zeros for the last m bytes of the last one. */
  function Blanked(xs: seq<seq<byte>>, m: nat): (ys: seq<seq<byte>>)
    ensures Resembles(ys, xs)
  {
    if xs == [] || m > |xs[|xs| - 1]| then xs
    else
      var n := |xs| - 1;
      xs[..n] + [xs[n][..|xs[n]| - m] + Zeros(m)]
  }

  /** The first c bytes of the fields were enough; what is missing of the last string is taken for zeros. */
  ghost predicate PrefixResult(xs: seq<seq<byte>>, r: Option<seq<seq<byte>>>, c: nat) {
    && (r.Some? <==> c + Slack(xs) >= Size(xs))
    && (r.Some? ==> r.value == Blanked(xs, Max(0, Size(xs) - c)))
    && (c >= Size(xs) ==> r == Some(xs))
  }

  lemma WholeFields(xs: seq<seq<byte>>, ws: seq<seq<byte>>, end: seq<byte>, s: seq<byte>)
    requires Frames(xs, ws) && s == Join(ws) + end
    ensures ReadStrings(s, |xs|) == Some(xs)
  {
    DoneRead(xs, ws, end, 0, Join(ws) + end);
    assert xs + [] == xs;
  }

  lemma WholeResult(xs: seq<seq<byte>>, c: nat)
    requires c >= Size(xs)
    ensures PrefixResult(xs, Some(xs), c)
  {
    if xs != [] {
      var last := xs[|xs| - 1];
      assert last[..|last|] + Zeros(0) == last;
      assert xs == xs[..|xs| - 1] + [last];
    }
  }

  lemma CutResult(xs: seq<seq<byte>>, i: nat, d: nat, r: Option<seq<seq<byte>>>, c: nat)
    requires i < |xs| && d < 2 + |xs[i]| && c == Size(xs[..i]) + d
    requires r.Some? <==> i + 1 == |xs| && d > 2
    requires r.Some? ==> r.value == [xs[i][..d - 2] + Zeros(|xs[i]| - (d - 2))]
    ensures PrefixResult(xs, Prepend(xs[..i], r), c)
  {
    CutSize(xs, i, d);
    if i + 1 == |xs| {
      SizeSplit(xs, i);
      assert xs[i..] == [xs[i]] && Size([xs[i]]) == 2 + |xs[i]|;
    }
  }

  lemma CutFields(xs: seq<seq<byte>>, ws: seq<seq<byte>>, i: nat, d: nat, s: seq<byte>, c: nat)
    requires Frames(xs, ws) && i < |ws| && d < |ws[i]| && s == Join(ws[..i]) + ws[i][..d]
    requires c == Size(xs[..i]) + d
    ensures PrefixResult(xs, ReadStrings(s, |xs|), c)
  {
    var r := CutReads(xs, ws, i, d, s);
    CutResult(xs, i, d, r, c);
  }

  lemma CutReads(xs: seq<seq<byte>>, ws: seq<seq<byte>>, i: nat, d: nat, s: seq<byte>)
      returns (r: Option<seq<seq<byte>>>)
    requires Frames(xs, ws) && i < |ws| && d < |ws[i]| && s == Join(ws[..i]) + ws[i][..d]
    ensures |ws[i]| == 2 + |xs[i]| && ReadStrings(s, |xs|) == Prepend(xs[..i], r)
    ensures r.Some? <==> i + 1 == |xs| && d > 2
    ensures r.Some? ==> r.value == [xs[i][..d - 2] + Zeros(|xs[i]| - (d - 2))]
  {
    r := ReadStrings(ws[i][..d], |xs| - i);
    DoneRead(xs[..i], ws[..i], ws[i][..d], |xs| - i, s);
    CutRead(xs[i], ws[i], d, |xs| - i);
  }

  /** What comes of the fields when only the first c bytes are there. */
  lemma FieldsPrefix(xs: seq<seq<byte>>, tail: seq<byte>, c: nat)
    requires Short(xs) && c <= |Fields(xs)| + |tail|
    ensures PrefixResult(xs, ReadStrings((Fields(xs) + tail)[..c], |xs|), c)
  {
    var ws := FramesOf(xs);
    JoinedSize(xs, ws);
    if c >= |Join(ws)| {
      WholeFields(xs, ws, tail[..c - |Join(ws)|], (Join(ws) + tail)[..c]);
      WholeResult(xs, c);
    } else {
      JoinedPrefix(xs, ws, tail, c, (Join(ws) + tail)[..c]);
    }
  }

  lemma JoinedPrefix(xs: seq<seq<byte>>, ws: seq<seq<byte>>, tail: seq<byte>, c: nat, s: seq<byte>)
    requires Frames(xs, ws) && c < |Join(ws)| && s == (Join(ws) + tail)[..c]
    ensures PrefixResult(xs, ReadStrings(s, |xs|), c)
  {
    var i, d := CutPlace(xs, ws, tail, c, s);
    CutFields(xs, ws, i, d, s, c);
  }

  lemma CutPlace(xs: seq<seq<byte>>, ws: seq<seq<byte>>, tail: seq<byte>, c: nat, s: seq<byte>)
      returns (i: nat, d: nat)
    requires Frames(xs, ws) && c < |Join(ws)| && s == (Join(ws) + tail)[..c]
    ensures i < |ws| && d < |ws[i]| && c == Size(xs[..i]) + d && s == Join(ws[..i]) + ws[i][..d]
  {
    i, d := CutSplits(ws, tail, c);
    JoinedSize(xs[..i], ws[..i]);
  }

  // ---------------------------------------------------------------- headers that end early

  lemma {:induction false} PairsOfStrings(attrs: seq<Attribute>)
    ensures Pairs(Strings(attrs)) == attrs
  {
    if attrs != [] {
      PairsOfStrings(attrs[1..]);
      assert Strings(attrs)[2..] == Strings(attrs[1..]);
    }
  }

  lemma {:induction false} StringsOfPairs(xs: seq<seq<byte>>)
    requires |xs| % 2 == 0
    ensures Strings(Pairs(xs)) == xs
  {
    if xs != [] {
      StringsOfPairs(xs[2..]);
      assert Pairs(xs)[1..] == Pairs(xs[2..]);
    }
  }

  lemma {:induction false} ResemblingSize(a: seq<seq<byte>>, b: seq<seq<byte>>)
    requires Resembles(a, b)
    ensures Size(a) == Size(b)
  {
    if a != [] {
      ResemblingSize(a[1..], b[1..]);
    }
  }

  lemma {:induction false} FieldsSize(xs: seq<seq<byte>>)
    requires Short(xs)
    ensures |Fields(xs)| == Size(xs)
  {
    if xs != [] {
      assert xs[0] in xs;
      FieldsSize(xs[1..]);
    }
  }

  /** `HeaderSize` is where the payload begins, eight bytes of length included. */
  lemma EncodedParts(attrs: seq<Attribute>, payload: seq<byte>)
    requires Writable(attrs)
    ensures var s, n := Encoded(attrs, payload), HeaderSize(attrs);
            && |WriteTo(attrs)| + 8 == n && |s| == n + |payload|
            && s[n - 8..n] == BigEndian(|payload|, 8) && s[n..] == payload
  {
    FieldsSize(Strings(attrs));
  }

  /** How many bytes `ReadFrom` needs. */
  function ParseAt(attrs: seq<Attribute>): nat {
    SlackBelow(Strings(attrs));
    9 + Size(Strings(attrs)) - Slack(Strings(attrs))
  }

  lemma {:induction false} SlackBelow(xs: seq<seq<byte>>)
    ensures Slack(xs) <= Size(xs)
  {
    if xs != [] {
      SizeSplit(xs, |xs| - 1);
    }
  }

  /** Fewer than nine bytes, and not none. */
  lemma BeginningRead(rest: seq<byte>, c: nat)
    requires 0 < c < 9 && c <= 7 + |rest|
    ensures ReadFrom((MAGIC + rest)[..c]) == if c < 7 then NoHeader else Incomplete
  {
    var s := (MAGIC + rest)[..c];
    var hdr := Padded(s, 7);
    assert MAGIC[4] != END_MAGIC[4];
    if c < 7 {
      assert hdr[6] == 0;
      assert hdr[0] == s[0] == MAGIC[0];
      assert hdr[6] != MAGIC[6] && hdr[6] != END_MAGIC[6];
    } else {
      assert hdr == s[..7] == MAGIC;
    }
  }

  lemma CountRead(n: nat, rest: seq<byte>)
    requires n < TWO_16
    ensures var r := ReadStrings(rest, 2 * n);
            ReadFrom(MAGIC + BigEndian(n, 2) + rest) == if r.None? then Incomplete else Parsed(Pairs(r.value))
  {
    var s := MAGIC + BigEndian(n, 2) + rest;
    PowersOf256();
    BigEndianRoundTrip(n, 2);
    assert MAGIC[4] != END_MAGIC[4];
    assert Padded(s, 7) == MAGIC;
    assert s[7..9] == BigEndian(n, 2) && s[9..] == rest;
  }

  /** What `ReadFrom` makes of the first c bytes of a FlowFile. */
  ghost predicate Reads(attrs: seq<Attribute>, c: nat, r: Parse) {
    && (r.NoHeader? <==> 0 < c < 7)
    && (r.Parsed? <==> c >= ParseAt(attrs))
    && (r.Parsed? ==> HeaderSize(r.attrs) == HeaderSize(attrs))
    && (r.Parsed? ==> Strings(r.attrs) == Blanked(Strings(attrs), Max(0, HeaderSize(attrs) - 8 - c)))
    && (c + 8 >= HeaderSize(attrs) ==> r == Parsed(attrs))
  }

  lemma FieldsReads(attrs: seq<Attribute>, c: nat, r: Option<seq<seq<byte>>>)
    requires PrefixResult(Strings(attrs), r, c)
    ensures r.Some? ==> |r.value| % 2 == 0
    ensures Reads(attrs, 9 + c, if r.None? then Incomplete else Parsed(Pairs(r.value)))
  {
    SlackBelow(Strings(attrs));
    if r.Some? {
      ResemblingSize(r.value, Strings(attrs));
      StringsOfPairs(r.value);
      PairsOfStrings(attrs);
    }
  }

  lemma PrefixSplits(head: seq<byte>, more: seq<byte>, tail: seq<byte>, c: nat)
    requires |head| <= c <= |head| + |more| + |tail|
    ensures (head + more + tail)[..c] == head + (more + tail)[..c - |head|]
  {
    assert head + more + tail == head + (more + tail);
  }

  lemma LongPrefixRead(attrs: seq<Attribute>, tail: seq<byte>, c: nat)
    requires Writable(attrs) && c <= |Fields(Strings(attrs))| + |tail|
    ensures Reads(attrs, 9 + c, ReadFrom(MAGIC + BigEndian(|attrs|, 2) + (Fields(Strings(attrs)) + tail)[..c]))
  {
    var more := (Fields(Strings(attrs)) + tail)[..c];
    CountRead(|attrs|, more);
    FieldsPrefix(Strings(attrs), tail, c);
    FieldsReads(attrs, c, ReadStrings(more, 2 * |attrs|));
  }

  /** A FlowFile that arrives from its first byte on: fewer than seven bytes are taken for something
      else, and the attributes are read up to a byte of the last value; only with all of it are they right,
      before that its end is zeros. */
  lemma PrefixRead(attrs: seq<Attribute>, tail: seq<byte>, c: nat)
    requires Writable(attrs) && c <= |WriteTo(attrs)| + |tail|
    ensures Reads(attrs, c, ReadFrom((WriteTo(attrs) + tail)[..c]))
  {
    var all := WriteTo(attrs) + tail;
    SlackBelow(Strings(attrs));
    if 0 < c < 9 {
      assert all == MAGIC + all[7..];
      BeginningRead(all[7..], c);
    } else if c > 0 {
      PrefixSplits(MAGIC + BigEndian(|attrs|, 2), Fields(Strings(attrs)), tail, c);
      LongPrefixRead(attrs, tail, c - 9);
    }
  }

  // ---------------------------------------------------------------- attributes that are too long

  function CutEach(attrs: seq<Attribute>): (cut: seq<Attribute>)
    ensures |cut| == |attrs|
  {
    if attrs == [] then []
    else [Attribute(Cut16(attrs[0].name), Cut16(attrs[0].value))] + CutEach(attrs[1..])
  }

  /** What is left of attributes once they are written. */
  function CutAttrs(attrs: seq<Attribute>): seq<Attribute> {
    CutEach(Cut16(attrs))
  }

  lemma CutTwice<T>(x: seq<T>)
    ensures |Cut16(x)| < TWO_16 && Cut16(Cut16(x)) == Cut16(x)
    ensures |Cut16(x)| <= |x|
    ensures |Cut16(x)| == |x| <==> |x| < TWO_16
  {
  }

  lemma FirstStrings(attrs: seq<Attribute>)
    requires attrs != []
    ensures var xs, name, value := Strings(attrs), attrs[0].name, attrs[0].value;
            && Size(xs) == 4 + |name| + |value| + Size(Strings(attrs[1..]))
            && Fields(xs) == Field(name) + Field(value) + Fields(Strings(attrs[1..]))
            && (Short(xs) <==> |name| < TWO_16 && |value| < TWO_16 && Short(Strings(attrs[1..])))
  {
    var xs, rest := Strings(attrs), Strings(attrs[1..]);
    assert xs[0] == attrs[0].name && xs[1] == attrs[0].value;
    assert xs[1..] == [attrs[0].value] + rest && xs[1..][1..] == rest;
    assert Field(attrs[0].name) + (Field(attrs[0].value) + Fields(rest))
        == Field(attrs[0].name) + Field(attrs[0].value) + Fields(rest);
    assert forall x :: x in xs <==> x == attrs[0].name || x == attrs[0].value || x in rest;
  }

  lemma {:induction false} CutEachIs(attrs: seq<Attribute>)
    ensures Short(Strings(CutEach(attrs))) && Fields(Strings(CutEach(attrs))) == Fields(Strings(attrs))
    ensures Size(Strings(CutEach(attrs))) <= Size(Strings(attrs))
    ensures Size(Strings(CutEach(attrs))) == Size(Strings(attrs)) <==> Short(Strings(attrs))
    ensures Short(Strings(attrs)) ==> CutEach(attrs) == attrs
  {
    if attrs != [] {
      var cut := CutEach(attrs);
      CutEachIs(attrs[1..]);
      FirstStrings(attrs);
      FirstStrings(cut);
      assert cut[1..] == CutEach(attrs[1..]);
      CutTwice(attrs[0].name);
      CutTwice(attrs[0].value);
    }
  }

  lemma {:induction false} FewerAreShorter(attrs: seq<Attribute>, n: nat)
    requires n <= |attrs|
    ensures Size(Strings(attrs[..n])) + 4 * (|attrs| - n) <= Size(Strings(attrs))
  {
    if n == 0 {
      if attrs != [] {
        FirstStrings(attrs);
        FewerAreShorter(attrs[1..], 0);
        assert attrs[..0] == attrs[1..][..0];
      }
    } else {
      FirstStrings(attrs);
      FirstStrings(attrs[..n]);
      assert attrs[..n][1..] == attrs[1..][..n - 1];
      FewerAreShorter(attrs[1..], n - 1);
    }
  }

  /** Attributes of any number and length are written as what is left of them, which is what they were exactly
      if they are writable. */
  lemma WrittenCut(attrs: seq<Attribute>)
    ensures Writable(CutAttrs(attrs)) && WriteTo(attrs) == WriteTo(CutAttrs(attrs))
    ensures Writable(attrs) ==> CutAttrs(attrs) == attrs
  {
    CutTwice(attrs);
    CutEachIs(Cut16(attrs));
  }

  /** The size announced for a FlowFile is that of its encoding exactly if its attributes are writable;
      otherwise it is too large. */
  lemma AnnouncedSizeIff(attrs: seq<Attribute>, payload: seq<byte>)
    ensures |Encoded(attrs, payload)| <= HeaderSize(attrs) + |payload|
    ensures |Encoded(attrs, payload)| == HeaderSize(attrs) + |payload| <==> Writable(attrs)
  {
    WrittenCut(attrs);
    EncodedParts(CutAttrs(attrs), payload);
    CutTwice(attrs);
    CutEachIs(Cut16(attrs));
    FewerAreShorter(attrs, |Cut16(attrs)|);
  }

  /** Whatever the attributes, what is left of them is read back, and the payload found behind. */
  lemma ReadBack(attrs: seq<Attribute>, payload: seq<byte>)
    ensures ReadFrom(Encoded(attrs, payload)) == Parsed(CutAttrs(attrs))
    ensures var n := HeaderSize(CutAttrs(attrs));
            n <= |Encoded(attrs, payload)| && Encoded(attrs, payload)[n..] == payload
  {
    var cut, tail := CutAttrs(attrs), BigEndian(|payload|, 8) + payload;
    WrittenCut(attrs);
    EncodedParts(cut, payload);
    assert Encoded(attrs, payload) == WriteTo(cut) + tail;
    PrefixRead(cut, tail, |WriteTo(cut)| + |tail|);
    assert (WriteTo(cut) + tail)[..|WriteTo(cut)| + |tail|] == WriteTo(cut) + tail;
  }

  // ---------------------------------------------------------------- looking up, and other streams

  /** `Get` finds the value of the first attribute with the name, or nothing if there is none. */
  lemma {:induction false} GetIsFirst(attrs: seq<Attribute>, name: seq<byte>, i: nat)
    requires i <= |attrs| && forall j | 0 <= j < i :: attrs[j].name != name
    requires i < |attrs| ==> attrs[i].name == name
    ensures Get(attrs, name) == if i < |attrs| then attrs[i].value else []
  {
    if i > 0 {
      assert forall j | 0 <= j < i - 1 :: attrs[1..][j] == attrs[j + 1];
      GetIsFirst(attrs[1..], name, i - 1);
    }
  }

  lemma MagicIs()
    ensures MAGIC == Text("NiFiFF3") && END_MAGIC == Text("NiFiEOF")
  {
    assert |MAGIC| == 7 && |Text("NiFiFF3")| == 7;
    assert 'N' as int == 78 && 'i' as int == 105 && 'F' as int == 70 && '3' as int == 51 && 'E' as int == 69 && 'O' as int == 79;
  }

  /** The bytes of a FlowFile: the magic, how many attributes there are, for each its name and its value
      behind their lengths, the length of the payload, and the payload. */
  lemma OneAttribute(name: seq<byte>, value: seq<byte>, payload: seq<byte>)
    requires |name| < 256 && |value| < 256 && |payload| < 256
    ensures WriteTo([Attribute(name, value)]) ==
              Text("NiFiFF3") + [0, 1] + (([0, |name|] + name) + ([0, |value|] + value))
    ensures Encoded([Attribute(name, value)], payload) ==
              WriteTo([Attribute(name, value)]) + (Zeros(7) + [|payload|]) + payload
  {
    MagicIs();
    SmallNumber(1, 2);
    SmallNumber(|payload|, 8);
    ShortField(name);
    ShortField(value);
    TwoFields(name, value);
    assert BigEndian(1, 2) == [0, 1];
  }

  lemma ShortField(x: seq<byte>)
    requires |x| < 256
    ensures Field(x) == [0, |x|] + x
  {
    SmallNumber(|x|, 2);
  }

  lemma TwoFields(name: seq<byte>, value: seq<byte>)
    ensures Strings([Attribute(name, value)]) == [name, value]
    ensures Fields([name, value]) == Field(name) + Field(value)
  {
    assert [name, value][1..] == [value];
    assert Fields([value]) == Field(value);
  }

  lemma {:induction false} SmallNumber(x: nat, k: nat)
    requires 0 < k && x < 256
    ensures BigEndian(x, k) == Zeros(k - 1) + [x]
  {
    if k > 1 {
      SmallNumber(0, k - 1);
      assert Zeros(k - 2) + [0] == Zeros(k - 1);
    }
  }

  /** Other streams than FlowFiles: nothing and the end mark read as the end, anything else as no FlowFile. */
  lemma OtherStreams(s: seq<byte>)
    ensures s == [] || END_MAGIC <= s ==> ReadFrom(s) == Incomplete
    ensures ReadFrom(s) == NoHeader <==> s != [] && !(MAGIC <= s) && !(END_MAGIC <= s)
  {
    if |s| >= 7 {
      assert Padded(s, 7) == s[..7];
      assert MAGIC[4] != END_MAGIC[4];
    } else if s != [] {
      assert Padded(s, 7)[6] == 0;
    }
  }
}
