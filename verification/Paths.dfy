/** Which paths lead upward, as the unstager tells it (ff-unstager.go:99-105). */
module Paths {
  import opened Words
  import opened FlowFile

  const SLASH: byte := 0x2F
  const DOT: byte := 0x2E
  const PATH: seq<byte> := Text("path")

  /** What is between the slashes. */
  function Parts(path: seq<byte>): (parts: seq<seq<byte>>)
    ensures parts != []
  {
    if path == [] then [[]]
    else
      var rest := Parts(path[1..]);
      if path[0] == SLASH then [[]] + rest else [[path[0]] + rest[0]] + rest[1..]
  }

  /** `filepath.Clean` on a path that does not begin with a slash: what is left of its parts. */
  function Cleaned(parts: seq<seq<byte>>): seq<seq<byte>> {
    if parts == [] then []
    else
      var done, part := Cleaned(parts[..|parts| - 1]), parts[|parts| - 1];
      if part == [] || part == [DOT] then done
      else if part == [DOT, DOT] && done != [] && done[|done| - 1] != [DOT, DOT] then done[..|done| - 1]
      else done + [part]
  }

  /** Lines 100-104 of ff-unstager.go: the cleaned path begins with two dots. */
  predicate Upward(attrs: seq<Attribute>) {
    var path := Get(attrs, PATH);
    path != [] && path[0] != SLASH && StartsUp(Cleaned(Parts(path)))
  }

  predicate StartsUp(parts: seq<seq<byte>>) {
    parts != [] && |parts[0]| >= 2 && parts[0][0] == DOT && parts[0][1] == DOT
  }

  // ---------------------------------------------------------------- the parts of a path

  /** The parts with slashes between them. */
  function Slashed(parts: seq<seq<byte>>): seq<byte>
    requires parts != []
  {
    if |parts| == 1 then parts[0] else parts[0] + [SLASH] + Slashed(parts[1..])
  }

  lemma FirstLonger(c: byte, parts: seq<seq<byte>>)
    requires parts != []
    ensures Slashed([[c] + parts[0]] + parts[1..]) == [c] + Slashed(parts)
  {
    var more := [[c] + parts[0]] + parts[1..];
    assert more[1..] == parts[1..];
    if |parts| > 1 {
      assert [c] + parts[0] + [SLASH] + Slashed(parts[1..]) == [c] + (parts[0] + [SLASH] + Slashed(parts[1..]));
    }
  }

  /** The parts are the path cut at every slash, and nowhere else. */
  lemma {:induction false} PartsAre(path: seq<byte>)
    ensures Slashed(Parts(path)) == path
    ensures forall part <- Parts(path) :: SLASH !in part
  {
    if path != [] {
      var rest := Parts(path[1..]);
      PartsAre(path[1..]);
      assert path == [path[0]] + path[1..];
      if path[0] == SLASH {
        assert ([[]] + rest)[1..] == rest;
        assert [] + [SLASH] + Slashed(rest) == [SLASH] + Slashed(rest);
      } else {
        FirstLonger(path[0], rest);
        assert rest[0] in rest;
        assert forall part <- rest[1..] :: part in rest;
      }
    }
  }

  // ---------------------------------------------------------------- what cleaning leaves

  const UP: seq<byte> := [DOT, DOT]

  predicate IsName(part: seq<byte>) {
    part != [] && part != [DOT] && part != UP
  }

  /** How far below the start the parts lead: names go down, two dots up. */
  function Depth(parts: seq<seq<byte>>): int {
    if parts == [] then 0
    else
      var part := parts[|parts| - 1];
      Depth(parts[..|parts| - 1]) + if part == UP then -1 else if IsName(part) then 1 else 0
  }

  /** The highest place on the way. */
  function Highest(parts: seq<seq<byte>>): (lo: int)
    ensures lo <= 0 && lo <= Depth(parts)
  {
    if parts == [] then 0
    else
      var before, now := Highest(parts[..|parts| - 1]), Depth(parts);
      if now < before then now else before
  }

  /** The way leads through part k, a name, at depth d, and does not come back from there. */
  ghost predicate Stays(parts: seq<seq<byte>>, k: nat, d: int) {
    && k < |parts| && IsName(parts[k]) && Depth(parts[..k]) == d
    && forall m | k < m <= |parts| :: Depth(parts[..m]) > d
  }

  ghost predicate NameAt(parts: seq<seq<byte>>, d: int, name: seq<byte>) {
    exists k: nat :: Stays(parts, k, d) && parts[k] == name
  }

  /** Entry i of what cleaning leaves: two dots for each step above the start, and then the names through
      which the way leads for good. */
  ghost predicate EntryIs(parts: seq<seq<byte>>, i: int, part: seq<byte>) {
    if i < -Highest(parts) then part == UP else NameAt(parts, 2 * Highest(parts) + i, part)
  }

  lemma StaysOn(parts: seq<seq<byte>>, more: seq<seq<byte>>, k: nat, d: int)
    requires more != [] && more[..|more| - 1] == parts && Stays(parts, k, d) && Depth(more) > d
    ensures Stays(more, k, d)
  {
    forall m | k < m <= |more|
      ensures Depth(more[..m]) > d
    {
      if m <= |parts| {
        assert more[..m] == parts[..m];
      } else {
        assert more[..m] == more;
      }
    }
    assert more[..k] == parts[..k] && more[k] == parts[k];
  }

  lemma NameStaysOn(parts: seq<seq<byte>>, more: seq<seq<byte>>, d: int, name: seq<byte>)
    requires more != [] && more[..|more| - 1] == parts && NameAt(parts, d, name) && Depth(more) > d
    ensures NameAt(more, d, name)
  {
    var k: nat :| Stays(parts, k, d) && parts[k] == name;
    StaysOn(parts, more, k, d);
  }

  lemma LastName(parts: seq<seq<byte>>)
    requires parts != [] && IsName(parts[|parts| - 1])
    ensures NameAt(parts, Depth(parts) - 1, parts[|parts| - 1])
  {
    assert parts[..|parts|] == parts;
    assert Stays(parts, |parts| - 1, Depth(parts) - 1);
  }

  lemma {:induction false} CleanedIs(parts: seq<seq<byte>>)
    ensures |Cleaned(parts)| == Depth(parts) - 2 * Highest(parts)
    ensures forall i | 0 <= i < |Cleaned(parts)| :: EntryIs(parts, i, Cleaned(parts)[i])
  {
    if parts != [] {
      var init, part := parts[..|parts| - 1], parts[|parts| - 1];
      var done := Cleaned(init);
      CleanedIs(init);
      if IsName(part) {
        LastName(parts);
      } else if part == UP && |done| > -Highest(init) {
        assert EntryIs(init, |done| - 1, done[|done| - 1]);
      } else if part == UP && done != [] {
        assert EntryIs(init, |done| - 1, done[|done| - 1]);
      }
      forall i | 0 <= i < |Cleaned(parts)|
        ensures EntryIs(parts, i, Cleaned(parts)[i])
      {
        if i < |done| {
          assert EntryIs(init, i, done[i]);
          if i >= -Highest(init) {
            NameStaysOn(init, parts, 2 * Highest(init) + i, done[i]);
          }
        }
      }
    }
  }

  ghost predicate TwoDots(part: seq<byte>) {
    |part| >= 2 && part[0] == DOT && part[1] == DOT
  }

  /** The parts lead above the start on the way, or into an entry of it that begins with two dots. */
  ghost predicate LeadsUp(parts: seq<seq<byte>>) {
    || (exists m | 0 <= m <= |parts| :: Depth(parts[..m]) < 0)
    || exists k: nat :: Stays(parts, k, 0) && TwoDots(parts[k])
  }

  lemma {:induction false} HighestIs(parts: seq<seq<byte>>)
    ensures Highest(parts) < 0 <==> exists m | 0 <= m <= |parts| :: Depth(parts[..m]) < 0
  {
    if parts == [] {
      assert parts[..0] == [];
    } else {
      var init := parts[..|parts| - 1];
      HighestIs(init);
      assert parts[..|parts|] == parts;
      assert forall m | 0 <= m <= |init| :: parts[..m] == init[..m];
      if Highest(init) < 0 {
        var m :| 0 <= m <= |init| && Depth(init[..m]) < 0;
        assert Depth(parts[..m]) < 0;
      }
    }
  }

  lemma StaysOnce(parts: seq<seq<byte>>, k: nat, l: nat, d: int)
    requires Stays(parts, k, d) && Stays(parts, l, d)
    ensures k == l
  {
  }

  /** Exactly which relative paths are refused: those that lead above their start somewhere on the way, and
      those whose first entry, once names and two dots have cancelled, begins with two dots itself. */
  lemma UpwardIff(attrs: seq<Attribute>)
    ensures var path := Get(attrs, PATH);
            Upward(attrs) <==> path != [] && path[0] != SLASH && LeadsUp(Parts(path))
  {
    var parts := Parts(Get(attrs, PATH));
    CleanedIs(parts);
    HighestIs(parts);
    var c := Cleaned(parts);
    if c != [] {
      assert EntryIs(parts, 0, c[0]);
    }
    if k: nat :| Highest(parts) == 0 && Stays(parts, k, 0) && TwoDots(parts[k]) {
      assert parts[..|parts|] == parts;
      var l: nat :| Stays(parts, l, 0) && parts[l] == c[0];
      StaysOnce(parts, k, l, 0);
    }
  }
}
