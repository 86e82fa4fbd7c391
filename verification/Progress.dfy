/** The `.progress` file of a segmented transfer (ff-receiver.go:113-154, 209-274). */
module Progress {
  import opened Words

  type Id = seq<byte>

  datatype Call = Call(uuid: Id, idx: int)

  /** Calls that do more than return false. */
  predicate Effective(c: Call, count: int) {
    0 <= c.idx < count && count > 1
  }

  // ---------------------------------------------------------------- the bytes

  predicate AllSet(b: seq<byte>) {
    forall k | 0 <= k < |b| :: b[k] != 0
  }

  /** The file written for a path that has none: the id, and as many zeros as id and map together. */
  function Created(c: Call, count: int): seq<byte>
    requires Effective(c, count)
  {
    c.uuid + Zeros(|c.uuid| + count)[c.idx := 1]
  }

  /** Another id takes the file over. */
  function TakenOver(f: seq<byte>, uuid: Id, count: nat): seq<byte>
    requires |uuid| + count <= |f|
  {
    if f[..|uuid|] == uuid then f else uuid + Zeros(count) + f[|uuid| + count..]
  }

  function Updated(file: Option<seq<byte>>, c: Call, count: int): (Option<seq<byte>>, bool) {
    if !Effective(c, count) then (file, false)
    else match file
      case None => (Some(Created(c, count)), false)
      case Some(f) =>
        var n := |c.uuid|;
        if |f| < n + count then (file, false)
        else
          var g := TakenOver(f, c.uuid, count)[n + c.idx := 1];
          (Some(g), AllSet(g[n..n + count]))
  }

  /** `WriteAt` inside the file. */
  function Overwrite(f: seq<byte>, off: nat, b: seq<byte>): seq<byte>
    requires off + |b| <= |f|
  {
    f[..off] + b + f[off + |b|..]
  }

  /** The two writes of an update make the file `Updated` describes. */
  lemma OverwritesAre(f: seq<byte>, uuid: Id, idx: nat, count: nat)
    requires idx < count && |uuid| + count <= |f|
    ensures var g := if f[..|uuid|] == uuid then f else Overwrite(f, 0, uuid + Zeros(count));
            Overwrite(g, |uuid| + idx, [1]) == TakenOver(f, uuid, count)[|uuid| + idx := 1]
  {
    assert Overwrite(f, 0, uuid + Zeros(count)) == uuid + Zeros(count) + f[|uuid| + count..];
    var g := TakenOver(f, uuid, count);
    assert Overwrite(g, |uuid| + idx, [1]) == g[|uuid| + idx := 1];
  }

  class ProgressFile {
    var file: Option<seq<byte>>

    constructor ()
      ensures file == None
    {
      file := None;
    }

    static method NoZero(b: seq<byte>) returns (all: bool)
      ensures all == AllSet(b)
    {
      for k := 0 to |b|
        invariant forall j | 0 <= j < k :: b[j] != 0
      {
        if b[k] == 0 {
          return false;
        }
      }
      return true;
    }

    /** `updateIndexFile`, one call inside the mutex. */
    method UpdateIndexFile(puuid: Id, idx: int, count: int) returns (complete: bool)
      modifies this
      ensures (file, complete) == Updated(old(file), Call(puuid, idx), count)
    {
      if idx < 0 || idx >= count || count <= 1 {
        return false;
      }
      if file.None? {
        var b := Zeros(|puuid| + count);
        b := b[idx := 1];
        file := Some(puuid);
        file := Some(file.value + b);
        return false;
      }
      var fh := file.value;
      var n := |puuid|;
      if |fh| < n + count {  // short read
        return false;
      }
      OverwritesAre(fh, puuid, idx, count);
      if fh[..n] != puuid {
        fh := Overwrite(fh, 0, puuid + Zeros(count));
      }
      fh := Overwrite(fh, n + idx, [1]);
      file := Some(fh);
      complete := NoZero(fh[n..n + count]);
    }
  }

  // ---------------------------------------------------------------- what the bytes mean

  datatype Seen = Nothing | Seen(uuid: Id, segments: set<nat>)

  /** The file holds an id of length len, a map of count bytes, each 1 or 0, and as many zeros as the id
      has bytes: they come with the file and are never written again. */
  ghost predicate Represents(file: Option<seq<byte>>, len: nat, count: nat, s: Seen) {
    match file
    case None => s == Nothing
    case Some(f) =>
      && |f| == len + count + len
      && s.Seen? && s.uuid == f[..len]
      && (forall k <- s.segments :: k < count)
      && (forall k: nat | k < count :: f[len + k] == if k in s.segments then 1 else 0)
      && forall k | len + count <= k < |f| :: f[k] == 0
  }

  function Marked(s: Seen, c: Call): Seen
    requires c.idx >= 0
  {
    if s.Seen? && s.uuid == c.uuid then Seen(c.uuid, s.segments + {c.idx}) else Seen(c.uuid, {c.idx})
  }

  ghost predicate Full(s: Seen, count: nat) {
    s.Seen? && forall k: nat | k < count :: k in s.segments
  }

  /** One call marks one segment for its id, forgetting everything another id had marked, and returns
      true exactly when no segment is missing any more. */
  lemma UpdateMarks(file: Option<seq<byte>>, len: nat, count: nat, s: Seen, c: Call)
    requires Represents(file, len, count, s) && Effective(c, count) && |c.uuid| == len
    ensures var (file', complete) := Updated(file, c, count);
            Represents(file', len, count, Marked(s, c)) && (complete <==> Full(Marked(s, c), count))
  {
    var (file', complete) := Updated(file, c, count);
    var t := Marked(s, c);
    if file == None {
      var other: nat := if c.idx == 0 then 1 else 0;
      assert other !in t.segments;
    } else {
      var f, g := TakenOver(file.value, c.uuid, count), file'.value;
      assert g[..len] == c.uuid;
      forall k: nat | k < count
        ensures g[len + k] == if k in t.segments then 1 else 0
      {
        assert f[..len] == c.uuid;
        if file.value[..len] == c.uuid {
          assert f[len + k] == if k in s.segments then 1 else 0;
        } else {
          assert f[len + k] == 0;
        }
      }
      var b := g[len..len + count];
      assert forall k: nat | k < count :: k in t.segments <==> b[k] != 0;
    }
  }

  /** Any call at all, whatever its id and count: a file is made by the first effective call, is never taken
      away and keeps its length, and what lies behind the caller's id and map is left alone; a file that is too
      short for them is left as it is. */
  lemma UpdateKeepsFile(file: Option<seq<byte>>, c: Call, count: int)
    ensures var (file', complete) := Updated(file, c, count);
            && (file'.Some? <==> file.Some? || Effective(c, count))
            && (complete ==> file.Some? && Effective(c, count))
            && (file.Some? ==>
                  && |file'.value| == |file.value|
                  && (|file.value| < |c.uuid| + count ==> file' == file)
                  && (|c.uuid| + Max(0, count) <= |file.value| ==>
                        file'.value[|c.uuid| + Max(0, count)..] == file.value[|c.uuid| + Max(0, count)..]))
  {
  }

  // ---------------------------------------------------------------- whole histories

  function RunCalls(h: seq<Call>, count: int): (Option<seq<byte>>, bool) {
    if h == [] then (None, false) else Updated(RunCalls(h[..|h| - 1], count).0, h[|h| - 1], count)
  }

  /** Since its last call with segment k, no other id has had an effective call. */
  ghost predicate InForce(h: seq<Call>, count: int, uuid: Id, k: nat) {
    exists j | 0 <= j < |h| :: h[j] == Call(uuid, k) && SinceThen(h, count, uuid, j)
  }

  ghost predicate SinceThen(h: seq<Call>, count: int, uuid: Id, j: int) {
    forall m | j <= m < |h| && 0 <= m && Effective(h[m], count) :: h[m].uuid == uuid
  }

  ghost predicate AllInForce(h: seq<Call>, count: int, uuid: Id) {
    forall k: nat | k < count :: InForce(h, count, uuid, k)
  }

  /** The id of the last effective call. */
  ghost function CurrentId(h: seq<Call>, count: int): Option<Id> {
    if h == [] then None
    else if Effective(h[|h| - 1], count) then Some(h[|h| - 1].uuid)
    else CurrentId(h[..|h| - 1], count)
  }

  lemma InForceExtends(h: seq<Call>, count: int, c: Call, uuid: Id, k: nat)
    requires k < count && count > 1
    ensures InForce(h + [c], count, uuid, k) <==>
      (InForce(h, count, uuid, k) && (Effective(c, count) ==> c.uuid == uuid)) || c == Call(uuid, k)
  {
    var g := h + [c];
    assert forall m | 0 <= m < |h| :: g[m] == h[m];
    if InForce(g, count, uuid, k) {
      var j :| 0 <= j < |g| && g[j] == Call(uuid, k) && SinceThen(g, count, uuid, j);
      assert g[|h|] == c;
      if j < |h| {
        assert h[j] == Call(uuid, k) && SinceThen(h, count, uuid, j);
      }
    }
    if InForce(h, count, uuid, k) && (Effective(c, count) ==> c.uuid == uuid) {
      var j :| 0 <= j < |h| && h[j] == Call(uuid, k) && SinceThen(h, count, uuid, j);
      assert g[j] == Call(uuid, k) && SinceThen(g, count, uuid, j);
    }
    if c == Call(uuid, k) {
      assert g[|h|] == c && SinceThen(g, count, uuid, |h|);
    }
  }

  lemma {:induction false} InForceIsCurrent(h: seq<Call>, count: int, uuid: Id, k: nat)
    requires InForce(h, count, uuid, k) && k < count && count > 1
    ensures CurrentId(h, count) == Some(uuid)
  {
    var j :| 0 <= j < |h| && h[j] == Call(uuid, k) && SinceThen(h, count, uuid, j);
    var last := h[|h| - 1];
    if !Effective(last, count) {
      var init := h[..|h| - 1];
      assert init[j] == Call(uuid, k) && SinceThen(init, count, uuid, j);
      InForceIsCurrent(init, count, uuid, k);
    }
  }

  ghost predicate SameLength(h: seq<Call>, len: nat) {
    forall i | 0 <= i < |h| :: |h[i].uuid| == len
  }

  /** The bytes always say whose file it is and which segments were marked since it became theirs. */
  ghost predicate FileTells(file: Option<seq<byte>>, h: seq<Call>, len: nat, count: nat) {
    match CurrentId(h, count)
    case None => file == None
    case Some(u) =>
      exists s: Seen :: Represents(file, len, count, s) && s.Seen? && s.uuid == u
        && forall k: nat | k < count :: k in s.segments <==> InForce(h, count, u, k)
  }

  lemma StepTells(file: Option<seq<byte>>, h: seq<Call>, len: nat, count: nat, c: Call)
    requires count > 1 && FileTells(file, h, len, count) && |c.uuid| == len
    ensures var (file', complete) := Updated(file, c, count);
            && FileTells(file', h + [c], len, count)
            && (complete <==> Effective(c, count) && AllInForce(h + [c], count, c.uuid))
  {
    var g := h + [c];
    assert g[..|h|] == h && g[|h|] == c;
    var current := CurrentId(h, count);
    var s := Nothing;
    if current.Some? {
      s :| Represents(file, len, count, s) && s.Seen? && s.uuid == current.value
        && forall k: nat | k < count :: k in s.segments <==> InForce(h, count, current.value, k);
    }
    if Effective(c, count) {
      UpdateMarks(file, len, count, s, c);
      var t := Marked(s, c);
      forall k: nat | k < count
        ensures k in t.segments <==> InForce(g, count, c.uuid, k)
      {
        InForceExtends(h, count, c, c.uuid, k);
        if InForce(h, count, c.uuid, k) {
          InForceIsCurrent(h, count, c.uuid, k);
        }
      }
      assert CurrentId(g, count) == Some(c.uuid);
    } else {
      forall k: nat | k < count && current.Some?
        ensures InForce(g, count, current.value, k) <==> InForce(h, count, current.value, k)
      {
        InForceExtends(h, count, c, current.value, k);
      }
    }
  }

  /** Every byte of the file after these calls. */
  ghost predicate Bytes(f: seq<byte>, h: seq<Call>, len: nat, count: nat) {
    && |f| == 2 * len + count
    && CurrentId(h, count) == Some(f[..len])
    && (forall k: nat | k < count :: f[len + k] == if InForce(h, count, f[..len], k) then 1 else 0)
    && forall k | len + count <= k < |f| :: f[k] == 0
  }

  lemma TellsBytes(file: Option<seq<byte>>, h: seq<Call>, len: nat, count: nat)
    requires FileTells(file, h, len, count)
    ensures file.Some? ==> Bytes(file.value, h, len, count)
  {
  }

  /** For ids of one length and a fixed count of at least two, over any sequence of calls with
      duplicates, out-of-range indices and competing ids: the file represents the current id and the
      segments marked since it took over, which fixes each of its bytes, and the last call returned true
      if and only if it was for that id and these are all of them. */
  lemma {:induction false} ProgressFileCorrect(h: seq<Call>, len: nat, count: nat)
    requires count > 1 && SameLength(h, len)
    ensures var (file, complete) := RunCalls(h, count);
            && FileTells(file, h, len, count)
            && (file.Some? <==> exists c <- h :: Effective(c, count))
            && (file.Some? ==> Bytes(file.value, h, len, count))
            && (complete <==> h != [] && Effective(h[|h| - 1], count) && AllInForce(h, count, h[|h| - 1].uuid))
  {
    if h != [] {
      var init, c := h[..|h| - 1], h[|h| - 1];
      ProgressFileCorrect(init, len, count);
      StepTells(RunCalls(init, count).0, init, len, count, c);
      assert init + [c] == h;
      TellsBytes(RunCalls(h, count).0, h, len, count);
    }
  }

  /** A file of one segment is never reported complete. */
  lemma {:induction false} SingleSegmentNeverCompletes(h: seq<Call>, count: int)
    requires count <= 1
    ensures RunCalls(h, count) == (None, false)
  {
    if h != [] {
      SingleSegmentNeverCompletes(h[..|h| - 1], count);
    }
  }
}
