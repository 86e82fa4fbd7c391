/** The datagram header of lib-udp.go and its big-endian layout. */
module Wire {
  import opened Words

  type Uuid = u: seq<byte> | |u| == 16 witness Zeros(16)

  datatype Header = Header(uuid: Uuid, size: uint64, offset: uint64, mtu: uint16)

  const HEADER_SIZE := 34

  // Without job and UUID, `handle` starts from the all-zero id.
  const NIL_UUID: Uuid := Zeros(16)

  function Pow256(k: nat): nat {
    if k == 0 then 1 else 256 * Pow256(k - 1)
  }

  /** The k low-order bytes of x, most significant first. */
  function BigEndian(x: nat, k: nat): (s: seq<byte>)
    ensures |s| == k
  {
    if k == 0 then [] else BigEndian(x / 256, k - 1) + [x % 256]
  }

  function FromBigEndian(s: seq<byte>): nat {
    if s == [] then 0 else 256 * FromBigEndian(s[..|s| - 1]) + s[|s| - 1]
  }

  lemma {:induction false} BigEndianRoundTrip(x: nat, k: nat)
    requires x < Pow256(k)
    ensures FromBigEndian(BigEndian(x, k)) == x
  {
    if k > 0 {
      BigEndianRoundTrip(x / 256, k - 1);
      assert BigEndian(x, k)[..k - 1] == BigEndian(x / 256, k - 1);
    }
  }

  lemma {:induction false} FromBigEndianRoundTrip(s: seq<byte>)
    ensures FromBigEndian(s) < Pow256(|s|)
    ensures BigEndian(FromBigEndian(s), |s|) == s
  {
    if s != [] {
      FromBigEndianRoundTrip(s[..|s| - 1]);
      assert s == s[..|s| - 1] + [s[|s| - 1]];
    }
  }

  lemma Pow256Positive(k: nat)
    ensures Pow256(k) > 0
  {
  }

  lemma DividedTwice(x: nat, n: nat)
    requires n > 0
    ensures x / 256 / n == x / (256 * n)
  {
    var q := x / 256 / n;
    assert x / 256 == n * q + x / 256 % n;
    assert x == 256 * (x / 256) + x % 256;
    var r := 256 * (x / 256 % n) + x % 256;
    assert x == (256 * n) * q + r && 0 <= r < 256 * n;
    QuotientOf(x, 256 * n, q, r);
  }

  lemma QuotientOf(x: nat, m: nat, q: nat, r: nat)
    requires m > 0 && r < m && x == m * q + r
    ensures x / m == q
  {
    var d: int := x / m - q;
    assert m * d == r - x % m;
    assert d >= 1 ==> m * d >= m;
    assert d <= -1 ==> m * d + m <= 0;
  }

  /** Byte i of k counts 256 to the power of k-1-i. */
  lemma {:induction false} BigEndianAt(x: nat, k: nat, i: nat)
    requires i < k
    ensures Pow256(k - 1 - i) > 0 && BigEndian(x, k)[i] == x / Pow256(k - 1 - i) % 256
  {
    Pow256Positive(k - 1 - i);
    if i < k - 1 {
      BigEndianAt(x / 256, k - 1, i);
      Pow256Positive(k - 2 - i);
      DividedTwice(x, Pow256(k - 2 - i));
    }
  }

  lemma PowersOf256()
    ensures Pow256(2) == TWO_16 && Pow256(8) == TWO_64
  {
    assert Pow256(2) == 256 * Pow256(1);
    assert Pow256(4) == 256 * (256 * Pow256(2));
    assert Pow256(6) == 256 * (256 * Pow256(4));
    assert Pow256(8) == 256 * (256 * Pow256(6));
  }

  function Encode(h: Header): (s: seq<byte>)
    ensures |s| == HEADER_SIZE
  {
    h.uuid + BigEndian(h.size, 8) + BigEndian(h.offset, 8) + BigEndian(h.mtu, 2)
  }

  function Decode(s: seq<byte>): Header
    requires |s| == HEADER_SIZE
  {
    FromBigEndianRoundTrip(s[16..24]);
    FromBigEndianRoundTrip(s[24..32]);
    FromBigEndianRoundTrip(s[32..34]);
    PowersOf256();
    Header(s[..16], FromBigEndian(s[16..24]), FromBigEndian(s[24..32]), FromBigEndian(s[32..34]))
  }

  /** What the receiver reads from a datagram is what the sender put in front of the payload. */
  lemma DatagramRoundTrip(h: Header, payload: seq<byte>)
    ensures var dat := Encode(h) + payload;
            |dat| >= HEADER_SIZE && Decode(dat[..HEADER_SIZE]) == h && dat[HEADER_SIZE..] == payload
  {
    var dat := Encode(h) + payload;
    assert dat[..HEADER_SIZE] == Encode(h) && dat[HEADER_SIZE..] == payload;
    PowersOf256();
    BigEndianRoundTrip(h.size, 8);
    BigEndianRoundTrip(h.offset, 8);
    BigEndianRoundTrip(h.mtu, 2);
    assert Encode(h)[..16] == h.uuid;
    assert Encode(h)[16..24] == BigEndian(h.size, 8);
    assert Encode(h)[24..32] == BigEndian(h.offset, 8);
    assert Encode(h)[32..34] == BigEndian(h.mtu, 2);
  }

  /** Where the fields stand: the id, and then size, offset and chunk size as 8, 8 and 2 bytes, the most
      significant first. */
  lemma HeaderLayout(h: Header, i: nat)
    requires i < 34
    ensures i < 16 ==> Encode(h)[i] == h.uuid[i]
    ensures 16 <= i < 24 ==> Pow256(23 - i) > 0 && Encode(h)[i] == h.size / Pow256(23 - i) % 256
    ensures 24 <= i < 32 ==> Pow256(31 - i) > 0 && Encode(h)[i] == h.offset / Pow256(31 - i) % 256
    ensures 32 <= i ==> Pow256(33 - i) > 0 && Encode(h)[i] == h.mtu / Pow256(33 - i) % 256
  {
    if 16 <= i < 24 {
      BigEndianAt(h.size, 8, i - 16);
    } else if 24 <= i < 32 {
      BigEndianAt(h.offset, 8, i - 24);
    } else if 32 <= i {
      BigEndianAt(h.mtu, 2, i - 32);
    }
  }

  /** Every 34 bytes are the header of exactly one value, so the layout has no slack. */
  lemma HeaderRoundTrip(s: seq<byte>)
    requires |s| == HEADER_SIZE
    ensures Encode(Decode(s)) == s
  {
    FromBigEndianRoundTrip(s[16..24]);
    FromBigEndianRoundTrip(s[24..32]);
    FromBigEndianRoundTrip(s[32..34]);
    assert s == s[..16] + s[16..24] + s[24..32] + s[32..34];
  }
}
