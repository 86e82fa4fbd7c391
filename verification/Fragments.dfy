/** The list of pending fragments (vendor/github.com/pschou/go-memdiskbuf/writeatbuf.go:214-271). */
module Fragments {
  import opened Words

  /** `startStop`; a slot with stop 0 is free. */
  datatype Run = Run(start: nat, stop: nat)

  const FREE := Run(0, 0)

  predicate Live(r: Run) {
    r.stop != 0
  }

  predicate In(runs: seq<Run>, x: int) {
    exists r <- runs :: r.start <= x < r.stop
  }

  function Joined(r: Run, q: Run): Run {
    Run(Min(r.start, q.start), Max(r.stop, q.stop))
  }

  // ---------------------------------------------------------------- condense

  /** The order of sort.Slice: by start, free slots last. */
  predicate Before(r: Run, q: Run) {
    if q.stop == 0 && r.stop > 0 then true
    else if r.stop == 0 && q.stop > 0 then false
    else r.start < q.start
  }

  function Insert(r: Run, sorted: seq<Run>): (s: seq<Run>)
    ensures |s| == |sorted| + 1
  {
    if sorted == [] || !Before(sorted[0], r) then [r] + sorted else [sorted[0]] + Insert(r, sorted[1..])
  }

  function Sorted(runs: seq<Run>): (s: seq<Run>)
    ensures |s| == |runs|
  {
    if runs == [] then [] else Insert(runs[0], Sorted(runs[1..]))
  }

  lemma {:induction false} InsertMembers(r: Run, sorted: seq<Run>)
    ensures forall q :: q in Insert(r, sorted) <==> q == r || q in sorted
  {
    if sorted != [] {
      InsertMembers(r, sorted[1..]);
      assert sorted == [sorted[0]] + sorted[1..];
    }
  }

  lemma {:induction false} SortedMembers(runs: seq<Run>)
    ensures forall q :: q in Sorted(runs) <==> q in runs
  {
    if runs != [] {
      SortedMembers(runs[1..]);
      InsertMembers(runs[0], Sorted(runs[1..]));
      assert runs == [runs[0]] + runs[1..];
    }
  }

  /** At most one byte lies between the two. */
  predicate Near(r: Run, q: Run) {
    r.stop + 1 >= q.start && q.stop + 1 >= r.start
  }

  /** The inner loop: slot i takes over everything near it from slot j on. */
  function Sweep(runs: seq<Run>, i: nat, j: nat): (s: seq<Run>)
    requires i < j <= |runs|
    ensures |s| == |runs|
    decreases |runs| - j
  {
    if j == |runs| then runs
    else if Live(runs[j]) && Near(runs[i], runs[j]) then Sweep(runs[i := Joined(runs[i], runs[j])][j := FREE], i, j + 1)
    else Sweep(runs, i, j + 1)
  }

  function LiveCount(runs: seq<Run>): nat {
    if runs == [] then 0 else LiveCount(runs[..|runs| - 1]) + if Live(runs[|runs| - 1]) then 1 else 0
  }

  lemma {:induction false} LiveCountSet(runs: seq<Run>, k: nat, r: Run)
    requires k < |runs|
    ensures LiveCount(runs[k := r]) ==
            LiveCount(runs) - (if Live(runs[k]) then 1 else 0) + if Live(r) then 1 else 0
  {
    var n := |runs| - 1;
    if k == n {
      assert runs[k := r][..n] == runs[..n];
    } else {
      LiveCountSet(runs[..n], k, r);
      assert runs[k := r][..n] == runs[..n][k := r];
    }
  }

  lemma {:induction false} SweepCount(runs: seq<Run>, i: nat, j: nat)
    requires i < j <= |runs| && Live(runs[i])
    ensures Sweep(runs, i, j) == runs || LiveCount(Sweep(runs, i, j)) < LiveCount(runs)
    ensures Live(Sweep(runs, i, j)[i])
    decreases |runs| - j
  {
    if j < |runs| {
      if Live(runs[j]) && Near(runs[i], runs[j]) {
        var joined := Joined(runs[i], runs[j]);
        LiveCountSet(runs, i, joined);
        LiveCountSet(runs[i := joined], j, FREE);
        SweepCount(runs[i := joined][j := FREE], i, j + 1);
      } else {
        SweepCount(runs, i, j + 1);
      }
    }
  }

  /** The outer loop, at slot i. */
  function MergeFrom(runs: seq<Run>, i: nat): (s: seq<Run>)
    requires i <= |runs|
    ensures |s| == |runs|
    decreases LiveCount(runs), |runs| - i
  {
    if i == |runs| then runs
    else if !Live(runs[i]) then MergeFrom(runs, i + 1)
    else
      SweepCount(runs, i, i + 1);
      var swept := Sweep(runs, i, i + 1);
      if swept == runs then MergeFrom(runs, i + 1) else MergeFrom(swept, i)
  }

  function Condense(runs: seq<Run>): (s: seq<Run>)
    ensures |s| == |runs|
  {
    MergeFrom(Sorted(runs), 0)
  }

  // ---------------------------------------------------------------- add

  predicate Touches(r: Run, start: nat, stop: nat) {
    r.stop >= start && stop >= r.start
  }

  /** `add`, at slot k; free is the first free slot met so far. A fragment appended for want of a slot is
      condensed with the others only by the next call: the deferred `condense` gets the slice as it was.
      Where `append` has moved a full slice, that is the array left behind, and nothing is condensed. */
  function Add(runs: seq<Run>, start: nat, stop: nat, cap: nat, k: nat := 0, free: nat := |runs|): seq<Run>
    requires k <= |runs| && free <= |runs|
    decreases |runs| - k
  {
    if k == |runs| then
      if free < |runs| then Condense(runs[free := Run(start, stop)])
      else (if |runs| < cap then Condense(runs) else runs) + [Run(start, stop)]
    else if Touches(runs[k], start, stop) then Condense(runs[k := Joined(runs[k], Run(start, stop))])
    else Add(runs, start, stop, cap, k + 1, if free == |runs| && !Live(runs[k]) then k else free)
  }

  /** The capacity of a slice that grew from n elements to m: `append` doubles a full one, and makes one of
      256 elements or more grow by less. */
  function Capacity(cap: nat, n: nat, m: nat): nat {
    if m <= Max(n, cap) then cap else if cap < 256 then Max(cap + 1, 2 * cap) else cap + (cap + 768) / 4
  }

  // ---------------------------------------------------------------- what the list keeps

  /** No two fragments overlap or touch. */
  ghost predicate Apart(r: Run, q: Run) {
    r.stop < q.start || q.stop < r.start
  }

  ghost predicate AllApart(runs: seq<Run>) {
    forall i, j | 0 <= i < j < |runs| && Live(runs[i]) && Live(runs[j]) :: Apart(runs[i], runs[j])
  }

  ghost predicate Starts(runs: seq<Run>, x: nat) {
    exists r <- runs :: Live(r) && r.start == x
  }

  ghost predicate Stops(runs: seq<Run>, x: nat) {
    exists r <- runs :: Live(r) && r.stop == x
  }

  /** Fragments without bytes are old ones. */
  ghost predicate NoNewEmpty(from: seq<Run>, runs: seq<Run>) {
    forall r <- runs :: Live(r) && r.start == r.stop ==> r in from
  }

  ghost predicate Sound(runs: seq<Run>) {
    forall r <- runs :: r.start <= r.stop
  }

  ghost predicate Bounded(runs: seq<Run>, lo: nat, hi: nat) {
    forall r <- runs :: Live(r) ==> lo <= r.start && r.stop <= hi
  }

  ghost predicate AllAway(runs: seq<Run>, start: nat, stop: nat) {
    forall r <- runs :: Live(r) ==> !Touches(r, start, stop)
  }

  /** A single byte between two fragments. */
  ghost predicate Gap(runs: seq<Run>, x: int) {
    x > 0 && Stops(runs, x) && Starts(runs, x + 1)
  }

  ghost predicate Follows(from: seq<Run>, runs: seq<Run>, x: int) {
    (In(from, x) ==> In(runs, x)) && (In(runs, x) ==> In(from, x) || Gap(from, x))
  }

  /** What merging makes of `from`: nothing lost, nothing new but single bytes between fragments. */
  ghost predicate MergedFrom(from: seq<Run>, runs: seq<Run>) {
    && Sound(runs)
    && (forall x :: Follows(from, runs, x))
    && (forall r <- runs :: Live(r) ==> Starts(from, r.start) && Stops(from, r.stop))
    && NoNewEmpty(from, runs)
    && (forall a: nat, b: nat | a < b && AllAway(from, a, b) :: AllAway(runs, a, b))
  }

  lemma MergedSelf(runs: seq<Run>)
    requires Sound(runs)
    ensures MergedFrom(runs, runs)
  {
  }

  /** The new content of slot i holds what it held, what slot j held, and perhaps the byte between. */
  lemma JoinedHolds(r: Run, q: Run, x: int)
    requires Near(r, q) && r.start <= r.stop && q.start <= q.stop
    ensures var t := Joined(r, q);
            t.start <= x < t.stop <==>
              || r.start <= x < r.stop || q.start <= x < q.stop
              || (x == r.stop && q.start == x + 1) || (x == q.stop && r.start == x + 1)
  {
  }

  function Merged(runs: seq<Run>, i: nat, j: nat): seq<Run>
    requires i < j < |runs|
  {
    runs[i := Joined(runs[i], runs[j])][j := FREE]
  }

  lemma MergedMember(runs: seq<Run>, i: nat, j: nat, r: Run)
    requires i < j < |runs|
    ensures r in Merged(runs, i, j) ==> r in runs || r == Joined(runs[i], runs[j]) || r == FREE
    ensures r in runs && r != runs[i] && r != runs[j] ==> r in Merged(runs, i, j)
    ensures Joined(runs[i], runs[j]) in Merged(runs, i, j)
  {
    var t := Merged(runs, i, j);
    assert t[i] == Joined(runs[i], runs[j]);
    if r in runs && r != runs[i] && r != runs[j] {
      var k :| 0 <= k < |runs| && runs[k] == r;
      assert t[k] == r;
    }
  }

  lemma MergeStepIn(from: seq<Run>, runs: seq<Run>, i: nat, j: nat, x: int)
    requires MergedFrom(from, runs) && i < j < |runs| && Live(runs[i]) && Live(runs[j]) && Near(runs[i], runs[j])
    ensures Follows(from, Merged(runs, i, j), x)
  {
    var t, r, q := Merged(runs, i, j), runs[i], runs[j];
    assert Follows(from, runs, x);
    assert r in runs && q in runs;
    JoinedHolds(r, q, x);
    if In(from, x) {
      var s :| s in runs && s.start <= x < s.stop;
      MergedMember(runs, i, j, s);
    }
    if In(t, x) {
      var s :| s in t && s.start <= x < s.stop;
      MergedMember(runs, i, j, s);
      if s in runs || r.start <= x < r.stop || q.start <= x < q.stop {
        assert In(runs, x);
      } else {
        assert Gap(from, x);
      }
    }
  }

  lemma MergeStep(from: seq<Run>, runs: seq<Run>, i: nat, j: nat)
    requires MergedFrom(from, runs) && i < j < |runs| && Live(runs[i]) && Live(runs[j]) && Near(runs[i], runs[j])
    ensures MergedFrom(from, Merged(runs, i, j))
  {
    var t := Merged(runs, i, j);
    assert runs[i] in runs && runs[j] in runs;
    forall r <- t
      ensures r in runs || r == Joined(runs[i], runs[j]) || r == FREE
    {
      MergedMember(runs, i, j, r);
    }
    forall x
      ensures Follows(from, t, x)
    {
      MergeStepIn(from, runs, i, j, x);
    }
  }

  // ---------------------------------------------------------------- condense leaves nothing near

  /** The slots below i are done with. */
  ghost predicate Settled(runs: seq<Run>, i: nat) {
    forall k, l | 0 <= k < i && k < l < |runs| && Live(runs[k]) && Live(runs[l]) :: !Near(runs[k], runs[l])
  }

  /** A hull of near neighbours is not near what neither of them was near. */
  lemma StaysAway(r: Run, q: Run, s: Run)
    requires Near(r, q) && !Near(s, r) && !Near(s, q) && s.start <= s.stop
    ensures !Near(s, Joined(r, q))
  {
  }

  lemma MergeKeepsSettled(runs: seq<Run>, i: nat, j: nat)
    requires Sound(runs) && i < j < |runs| && Live(runs[i]) && Live(runs[j]) && Near(runs[i], runs[j]) && Settled(runs, i)
    ensures Settled(Merged(runs, i, j), i)
  {
    var t := Merged(runs, i, j);
    forall k, l | 0 <= k < i && k < l < |t| && Live(t[k]) && Live(t[l])
      ensures !Near(t[k], t[l])
    {
      assert runs[k] in runs;
      if l == i {
        StaysAway(runs[i], runs[j], runs[k]);
      }
    }
  }

  lemma {:induction false} SweepKeeps(from: seq<Run>, runs: seq<Run>, i: nat, j: nat)
    requires MergedFrom(from, runs) && i < j <= |runs| && Live(runs[i])
    ensures MergedFrom(from, Sweep(runs, i, j))
    decreases |runs| - j
  {
    if j < |runs| {
      if Live(runs[j]) && Near(runs[i], runs[j]) {
        MergeStep(from, runs, i, j);
        SweepKeeps(from, Merged(runs, i, j), i, j + 1);
      } else {
        SweepKeeps(from, runs, i, j + 1);
      }
    }
  }

  lemma MergeKeepsSound(runs: seq<Run>, i: nat, j: nat)
    requires Sound(runs) && i < j < |runs|
    ensures Sound(Merged(runs, i, j))
  {
    assert runs[i] in runs && runs[j] in runs;
  }

  lemma {:induction false} SweepSettles(runs: seq<Run>, i: nat, j: nat)
    requires Sound(runs) && i < j <= |runs| && Live(runs[i]) && Settled(runs, i)
    ensures Settled(Sweep(runs, i, j), i)
    decreases |runs| - j
  {
    if j < |runs| {
      if Live(runs[j]) && Near(runs[i], runs[j]) {
        MergeKeepsSettled(runs, i, j);
        MergeKeepsSound(runs, i, j);
        SweepSettles(Merged(runs, i, j), i, j + 1);
      } else {
        SweepSettles(runs, i, j + 1);
      }
    }
  }

  lemma {:induction false} SweepHead(runs: seq<Run>, i: nat, j: nat)
    requires i < j <= |runs| && Live(runs[i])
    ensures Live(runs[0]) ==> Live(Sweep(runs, i, j)[0])
    decreases |runs| - j
  {
    if j < |runs| {
      SweepHead(if Live(runs[j]) && Near(runs[i], runs[j]) then Merged(runs, i, j) else runs, i, j + 1);
    }
  }

  lemma {:induction false} SweepUnchanged(runs: seq<Run>, i: nat, j: nat)
    requires i < j <= |runs| && Live(runs[i]) && Sweep(runs, i, j) == runs
    ensures forall l | j <= l < |runs| && Live(runs[l]) :: !Near(runs[i], runs[l])
    decreases |runs| - j
  {
    if j < |runs| {
      if Live(runs[j]) && Near(runs[i], runs[j]) {
        SweepShrinks(runs, i, j);
      } else {
        SweepUnchanged(runs, i, j + 1);
      }
    }
  }

  lemma SweepShrinks(runs: seq<Run>, i: nat, j: nat)
    requires i < j < |runs| && Live(runs[i]) && Live(runs[j]) && Near(runs[i], runs[j])
    ensures Sweep(runs, i, j) != runs
  {
    LiveCountSet(runs, i, Joined(runs[i], runs[j]));
    LiveCountSet(runs[i := Joined(runs[i], runs[j])], j, FREE);
    SweepCount(Merged(runs, i, j), i, j + 1);
  }

  lemma {:induction false} MergeKeeps(from: seq<Run>, runs: seq<Run>, i: nat)
    requires MergedFrom(from, runs) && i <= |runs| && Settled(runs, i)
    ensures var s := MergeFrom(runs, i);
            MergedFrom(from, s) && Settled(s, |s|) && (runs != [] && Live(runs[0]) ==> Live(s[0]))
    decreases LiveCount(runs), |runs| - i
  {
    if i < |runs| {
      if !Live(runs[i]) {
        MergeKeeps(from, runs, i + 1);
      } else {
        SweepCount(runs, i, i + 1);
        SweepKeeps(from, runs, i, i + 1);
        SweepSettles(runs, i, i + 1);
        SweepHead(runs, i, i + 1);
        if Sweep(runs, i, i + 1) == runs {
          SweepUnchanged(runs, i, i + 1);
        }
        MergeKeeps(from, Sweep(runs, i, i + 1), if Sweep(runs, i, i + 1) == runs then i + 1 else i);
      }
    }
  }

  /** Slot 0 is in use if any slot is. */
  ghost predicate HeadLive(runs: seq<Run>) {
    runs != [] && !Live(runs[0]) ==> forall r <- runs :: !Live(r)
  }

  lemma {:induction false} SortedHead(runs: seq<Run>)
    ensures HeadLive(Sorted(runs))
  {
    if runs != [] {
      SortedHead(runs[1..]);
      InsertMembers(runs[0], Sorted(runs[1..]));
    }
  }

  /** `condense` keeps what the list covers, fills single-byte gaps, leaves no two fragments near each
      other, and puts a fragment first. */
  lemma CondenseKeeps(runs: seq<Run>)
    requires Sound(runs)
    ensures var s := Condense(runs);
            && MergedFrom(runs, s) && Settled(s, |s|) && HeadLive(s)
            && forall r <- runs :: Live(r) ==> Live(s[0])
  {
    var sorted := Sorted(runs);
    SortedHead(runs);
    SortedMembers(runs);
    forall x
      ensures In(sorted, x) <==> In(runs, x)
    {
      if In(runs, x) {
        var r :| r in runs && r.start <= x < r.stop;
        assert r in sorted;
      }
      if In(sorted, x) {
        var r :| r in sorted && r.start <= x < r.stop;
        assert r in runs;
      }
    }
    MergedSorted(runs);
    MergeKeeps(runs, sorted, 0);
    assert sorted != [] && !Live(sorted[0]) ==> forall r <- Condense(runs) :: !Live(r) by {
      assert forall x :: Starts(runs, x) ==> exists r <- sorted :: Live(r);
    }
  }

  lemma MergedSorted(runs: seq<Run>)
    requires Sound(runs) && forall x :: In(Sorted(runs), x) <==> In(runs, x)
    ensures MergedFrom(runs, Sorted(runs))
  {
    SortedMembers(runs);
  }

  // ---------------------------------------------------------------- what add does

  /** The list a buffer keeps. */
  ghost predicate Tidy(runs: seq<Run>) {
    runs != [] && Sound(runs) && AllApart(runs) && HeadLive(runs)
  }

  ghost predicate AddGap(runs: seq<Run>, start: nat, stop: nat, x: int) {
    x > 0 && (x == stop || Stops(runs, x)) && (x + 1 == start || Starts(runs, x + 1))
  }

  /** Slot i holds one fragment more. */
  ghost predicate Extended(runs: seq<Run>, start: nat, stop: nat, from: seq<Run>) {
    && Sound(from) && NoNewEmpty(runs, from)
    && (forall x :: In(from, x) <==> In(runs, x) || start <= x < stop)
    && (forall x: nat | Starts(from, x) :: x == start || Starts(runs, x))
    && (forall x: nat | Stops(from, x) :: x == stop || Stops(runs, x))
  }

  lemma SlotIn(runs: seq<Run>, i: nat, r: Run, start: nat, stop: nat, x: int)
    requires Sound(runs) && i < |runs|
    requires r.start <= x < r.stop <==> runs[i].start <= x < runs[i].stop || start <= x < stop
    ensures In(runs[i := r], x) <==> In(runs, x) || start <= x < stop
  {
    var t := runs[i := r];
    assert t[i] == r;
    if In(runs, x) {
      var k :| 0 <= k < |runs| && runs[k].start <= x < runs[k].stop;
      assert t[k] in t;
    }
    if In(t, x) {
      var k :| 0 <= k < |t| && t[k].start <= x < t[k].stop;
      assert runs[k] in runs;
    }
    if start <= x < stop {
      assert t[i] in t;
    }
  }

  lemma SlotExtends(runs: seq<Run>, i: nat, start: nat, stop: nat)
    requires Sound(runs) && i < |runs| && start < stop
    requires Touches(runs[i], start, stop) || runs[i] == FREE
    ensures Extended(runs, start, stop, runs[i := if Touches(runs[i], start, stop) then Joined(runs[i], Run(start, stop)) else Run(start, stop)])
  {
    var r := if Touches(runs[i], start, stop) then Joined(runs[i], Run(start, stop)) else Run(start, stop);
    var t := runs[i := r];
    assert runs[i] in runs;
    forall x
      ensures In(t, x) <==> In(runs, x) || start <= x < stop
    {
      SlotIn(runs, i, r, start, stop, x);
    }
    forall s <- t
      ensures s in runs || s == r
    {
    }
  }

  ghost predicate AddedAt(runs: seq<Run>, start: nat, stop: nat, s: seq<Run>, x: int) {
    && (In(runs, x) || start <= x < stop ==> In(s, x))
    && (In(s, x) ==> In(runs, x) || start <= x < stop || AddGap(runs, start, stop, x))
  }

  /** What `add` makes of the list, whichever slot it takes. */
  ghost predicate Added(runs: seq<Run>, start: nat, stop: nat, s: seq<Run>) {
    && Tidy(s) && NoNewEmpty(runs, s)
    && (forall x :: AddedAt(runs, start, stop, s, x))
    && (forall lo: nat, hi: nat :: Bounded(runs, lo, hi) && lo <= start && stop <= hi ==> Bounded(s, lo, hi))
  }

  lemma CondensedIsAdded(runs: seq<Run>, start: nat, stop: nat, from: seq<Run>)
    requires runs != [] && |from| == |runs| && Extended(runs, start, stop, from) && start < stop
    ensures Added(runs, start, stop, Condense(from))
  {
    CondenseKeeps(from);
    var s := Condense(from);
    forall x
      ensures AddedAt(runs, start, stop, s, x)
    {
      assert Follows(from, s, x);
    }
    forall lo: nat, hi: nat | Bounded(runs, lo, hi) && lo <= start && stop <= hi
      ensures Bounded(s, lo, hi)
    {
      BoundedFrom(runs, start, stop, from, s, lo, hi);
    }
  }

  lemma BoundedFrom(runs: seq<Run>, start: nat, stop: nat, from: seq<Run>, s: seq<Run>, lo: nat, hi: nat)
    requires Extended(runs, start, stop, from) && MergedFrom(from, s)
    requires Bounded(runs, lo, hi) && lo <= start && stop <= hi
    ensures Bounded(s, lo, hi)
  {
    forall r <- s | Live(r)
      ensures lo <= r.start && r.stop <= hi
    {
      assert Starts(from, r.start) && Stops(from, r.stop);
    }
  }

  lemma CondensedIsTidy(runs: seq<Run>)
    requires Tidy(runs)
    ensures Tidy(Condense(runs)) && MergedFrom(runs, Condense(runs)) && (Live(runs[0]) ==> Live(Condense(runs)[0]))
  {
    CondenseKeeps(runs);
    assert runs[0] in runs;
  }

  /** A fragment that touches none of the list is appended as it is, to the list condensed or not. */
  lemma AppendedIsAdded(runs: seq<Run>, start: nat, stop: nat, c: seq<Run>)
    requires MergedFrom(runs, c) && Tidy(c) && Live(c[0]) && start < stop && AllAway(runs, start, stop)
    ensures Added(runs, start, stop, c + [Run(start, stop)])
  {
    var s := c + [Run(start, stop)];
    assert AllAway(c, start, stop);
    forall x
      ensures AddedAt(runs, start, stop, s, x)
    {
      assert Follows(runs, c, x);
      AppendIn(c, Run(start, stop), x);
    }
    assert runs[0] in runs;
  }

  lemma FreeSlotIsAdded(runs: seq<Run>, start: nat, stop: nat, free: nat)
    requires Tidy(runs) && start < stop && free < |runs| && !Live(runs[free]) && !Touches(runs[free], start, stop)
    ensures Added(runs, start, stop, Condense(runs[free := Run(start, stop)]))
  {
    assert runs[free] in runs && runs[free] == FREE;
    SlotExtends(runs, free, start, stop);
    CondensedIsAdded(runs, start, stop, runs[free := Run(start, stop)]);
  }

  lemma TouchedSlotIsAdded(runs: seq<Run>, start: nat, stop: nat, k: nat)
    requires Tidy(runs) && start < stop && k < |runs| && Touches(runs[k], start, stop)
    ensures Added(runs, start, stop, Condense(runs[k := Joined(runs[k], Run(start, stop))]))
  {
    SlotExtends(runs, k, start, stop);
    CondensedIsAdded(runs, start, stop, runs[k := Joined(runs[k], Run(start, stop))]);
  }

  lemma NoSlotIsAdded(runs: seq<Run>, start: nat, stop: nat, c: seq<Run>)
    requires Tidy(runs) && start < stop && AllAway(runs, start, stop) && Live(runs[0])
    requires c == Condense(runs) || c == runs
    ensures Added(runs, start, stop, c + [Run(start, stop)])
  {
    CondensedIsTidy(runs);
    MergedSelf(runs);
    AppendedIsAdded(runs, start, stop, c);
  }

  lemma AppendIn(c: seq<Run>, r: Run, x: int)
    ensures In(c + [r], x) <==> In(c, x) || r.start <= x < r.stop
  {
    assert r in c + [r];
    if In(c, x) {
      var q :| q in c && q.start <= x < q.stop;
      assert q in c + [r];
    }
  }

  // ---------------------------------------------------------------- in which order the list is

  /** Fragments stand in the order of their starts. */
  ghost predicate Ascending(runs: seq<Run>) {
    forall i, j | 0 <= i < j < |runs| && Live(runs[i]) && Live(runs[j]) :: runs[i].start <= runs[j].start
  }

  /** In order, nothing near anything else, and slot 0 in use if any is. */
  ghost predicate Ordered(runs: seq<Run>) {
    Ascending(runs) && Settled(runs, |runs|) && HeadLive(runs)
  }

  ghost predicate AllLive(runs: seq<Run>) {
    forall r <- runs :: Live(r)
  }

  ghost predicate NoneNear(runs: seq<Run>) {
    forall i, j | 0 <= i < j < |runs| :: !Near(runs[i], runs[j])
  }

  /** Sorted by `Before`. */
  ghost predicate InOrder(runs: seq<Run>) {
    forall i, j | 0 <= i < j < |runs| :: !Before(runs[j], runs[i])
  }

  lemma {:induction false} InsertInOrder(r: Run, sorted: seq<Run>)
    requires InOrder(sorted)
    ensures InOrder(Insert(r, sorted))
  {
    if sorted != [] && Before(sorted[0], r) {
      InsertInOrder(r, sorted[1..]);
      var rest := Insert(r, sorted[1..]);
      InsertMembers(r, sorted[1..]);
      forall j | 0 <= j < |rest|
        ensures !Before(rest[j], sorted[0])
      {
        assert rest[j] in rest;
        if rest[j] != r {
          var k :| 0 <= k < |sorted[1..]| && sorted[1..][k] == rest[j];
          assert sorted[k + 1] == rest[j];
        }
      }
    }
  }

  lemma {:induction false} SortedInOrder(runs: seq<Run>)
    ensures InOrder(Sorted(runs))
  {
    if runs != [] {
      SortedInOrder(runs[1..]);
      InsertInOrder(runs[0], Sorted(runs[1..]));
    }
  }

  /** Joining a fragment with a later one leaves its start. */
  lemma MergeKeepsAscending(runs: seq<Run>, i: nat, j: nat)
    requires Ascending(runs) && i < j < |runs| && Live(runs[i]) && Live(runs[j])
    ensures Ascending(Merged(runs, i, j))
  {
  }

  lemma {:induction false} SweepKeepsAscending(runs: seq<Run>, i: nat, j: nat)
    requires Ascending(runs) && i < j <= |runs| && Live(runs[i])
    ensures Ascending(Sweep(runs, i, j))
    decreases |runs| - j
  {
    if j < |runs| {
      if Live(runs[j]) && Near(runs[i], runs[j]) {
        MergeKeepsAscending(runs, i, j);
        SweepKeepsAscending(Merged(runs, i, j), i, j + 1);
      } else {
        SweepKeepsAscending(runs, i, j + 1);
      }
    }
  }

  lemma {:induction false} MergeFromKeepsAscending(runs: seq<Run>, i: nat)
    requires Ascending(runs) && i <= |runs|
    ensures Ascending(MergeFrom(runs, i))
    decreases LiveCount(runs), |runs| - i
  {
    if i < |runs| {
      if !Live(runs[i]) {
        MergeFromKeepsAscending(runs, i + 1);
      } else {
        SweepCount(runs, i, i + 1);
        SweepKeepsAscending(runs, i, i + 1);
        MergeFromKeepsAscending(Sweep(runs, i, i + 1), if Sweep(runs, i, i + 1) == runs then i + 1 else i);
      }
    }
  }

  /** `condense` leaves the fragments in the order of their starts. */
  lemma CondenseOrders(runs: seq<Run>)
    requires Sound(runs)
    ensures Ordered(Condense(runs))
  {
    CondenseKeeps(runs);
    SortedInOrder(runs);
    assert Ascending(Sorted(runs));
    MergeFromKeepsAscending(Sorted(runs), 0);
  }

  ghost predicate NoneTouches(runs: seq<Run>, start: nat, stop: nat, k: nat) {
    forall l | 0 <= l < k && l < |runs| :: !Touches(runs[l], start, stop)
  }

  lemma {:induction false} AddKeepsFrom(runs: seq<Run>, start: nat, stop: nat, cap: nat, k: nat, free: nat)
    requires Tidy(runs) && start < stop && k <= |runs| && free <= |runs|
    requires NoneTouches(runs, start, stop, k)
    requires if free < |runs| then free < k && !Live(runs[free]) else forall l | 0 <= l < k :: Live(runs[l])
    ensures Added(runs, start, stop, Add(runs, start, stop, cap, k, free))
    decreases |runs| - k
  {
    if k == |runs| {
      if free < |runs| {
        FreeSlotIsAdded(runs, start, stop, free);
      } else {
        NoSlotIsAdded(runs, start, stop, if |runs| < cap then Condense(runs) else runs);
      }
    } else if Touches(runs[k], start, stop) {
      TouchedSlotIsAdded(runs, start, stop, k);
    } else {
      AddKeepsFrom(runs, start, stop, cap, k + 1, if free == |runs| && !Live(runs[k]) then k else free);
    }
  }

  /** `add`, in full, whatever the capacity: nothing is lost, the new fragment is there, and at most single
      bytes between fragments are taken for covered though nobody wrote them. */
  lemma AddKeeps(runs: seq<Run>, start: nat, stop: nat, cap: nat)
    requires Tidy(runs) && start < stop
    ensures Added(runs, start, stop, Add(runs, start, stop, cap))
  {
    AddKeepsFrom(runs, start, stop, cap, 0, |runs|);
  }

  /** No slot is free, and none touches the new fragment: it has to be appended. */
  ghost predicate Appends(runs: seq<Run>, start: nat, stop: nat) {
    AllLive(runs) && AllAway(runs, start, stop)
  }

  /** In which order `add` leaves the list: a new fragment is appended only for want of a slot. All other
      slots are in order, unless the append had to move the list, which leaves them as they were. */
  ghost predicate AddedInOrder(runs: seq<Run>, start: nat, stop: nat, cap: nat, s: seq<Run>) {
    if !Appends(runs, start, stop) then |s| == |runs| && Ordered(s)
    else
      && |s| == |runs| + 1 && s[|runs|] == Run(start, stop)
      && if |runs| < cap then Ordered(s[..|runs|]) && MergedFrom(runs, s[..|runs|]) else s[..|runs|] == runs
  }

  lemma SlotSound(runs: seq<Run>, i: nat, r: Run)
    requires Sound(runs) && i < |runs| && r.start <= r.stop
    ensures Sound(runs[i := r])
  {
  }

  lemma AppendOrders(runs: seq<Run>, start: nat, stop: nat, cap: nat, s: seq<Run>)
    requires Tidy(runs) && Appends(runs, start, stop)
    requires s == (if |runs| < cap then Condense(runs) else runs) + [Run(start, stop)]
    ensures AddedInOrder(runs, start, stop, cap, s)
  {
    if |runs| < cap {
      CondenseKeeps(runs);
      CondenseOrders(runs);
      assert s[..|runs|] == Condense(runs);
    }
  }

  lemma {:induction false} AddOrdersFrom(runs: seq<Run>, start: nat, stop: nat, cap: nat, k: nat, free: nat)
    requires Tidy(runs) && start < stop && k <= |runs| && free <= |runs|
    requires NoneTouches(runs, start, stop, k)
    requires if free < |runs| then free < k && !Live(runs[free]) else forall l | 0 <= l < k :: Live(runs[l])
    ensures AddedInOrder(runs, start, stop, cap, Add(runs, start, stop, cap, k, free))
    decreases |runs| - k
  {
    if k == |runs| {
      if free < |runs| {
        assert runs[free] in runs;
        SlotSound(runs, free, Run(start, stop));
        CondenseOrders(runs[free := Run(start, stop)]);
      } else {
        AppendOrders(runs, start, stop, cap, Add(runs, start, stop, cap, k, free));
      }
    } else if Touches(runs[k], start, stop) {
      assert runs[k] in runs;
      SlotSound(runs, k, Joined(runs[k], Run(start, stop)));
      CondenseOrders(runs[k := Joined(runs[k], Run(start, stop))]);
    } else {
      AddOrdersFrom(runs, start, stop, cap, k + 1, if free == |runs| && !Live(runs[k]) then k else free);
    }
  }

  lemma AddOrders(runs: seq<Run>, start: nat, stop: nat, cap: nat)
    requires Tidy(runs) && start < stop
    ensures AddedInOrder(runs, start, stop, cap, Add(runs, start, stop, cap))
  {
    AddOrdersFrom(runs, start, stop, cap, 0, |runs|);
  }

  // ---------------------------------------------------------------- when condensing frees slots

  lemma {:induction false} SortedPermutes(runs: seq<Run>)
    ensures multiset(Sorted(runs)) == multiset(runs)
  {
    if runs != [] {
      SortedPermutes(runs[1..]);
      InsertPermutes(runs[0], Sorted(runs[1..]));
      assert runs == [runs[0]] + runs[1..];
    }
  }

  lemma {:induction false} InsertPermutes(r: Run, sorted: seq<Run>)
    ensures multiset(Insert(r, sorted)) == multiset(sorted) + multiset{r}
  {
    if sorted != [] {
      InsertPermutes(r, sorted[1..]);
      assert sorted == [sorted[0]] + sorted[1..];
    }
  }

  lemma {:induction false} TwiceIn(runs: seq<Run>, r: Run) returns (i: nat, j: nat)
    requires multiset(runs)[r] >= 2
    ensures i < j < |runs| && runs[i] == r == runs[j]
  {
    var n := |runs| - 1;
    assert runs == runs[..n] + [runs[n]];
    if runs[n] == r {
      assert r in multiset(runs[..n]);
      i :| 0 <= i < n && runs[..n][i] == r;
      j := n;
    } else {
      i, j := TwiceIn(runs[..n], r);
    }
  }

  /** Whether two fragments are near does not depend on the order of the list. */
  lemma NearPermutes(runs: seq<Run>, other: seq<Run>)
    requires multiset(runs) == multiset(other) && NoneNear(runs)
    ensures NoneNear(other)
  {
    forall i, j | 0 <= i < j < |other|
      ensures !Near(other[i], other[j])
    {
      assert other[i] in multiset(other) && other[j] in multiset(other);
      if other[i] == other[j] {
        assert other == other[..j] + other[j..] && other[i] in multiset(other[..j]) && other[j] in multiset(other[j..]);
        var k, l := TwiceIn(runs, other[i]);
      } else {
        var k :| 0 <= k < |runs| && runs[k] == other[i];
        var l :| 0 <= l < |runs| && runs[l] == other[j];
        assert k < l || l < k;
      }
    }
  }

  lemma {:induction false} SweepRests(runs: seq<Run>, i: nat, j: nat)
    requires i < j <= |runs| && forall l | j <= l < |runs| :: !Near(runs[i], runs[l])
    ensures Sweep(runs, i, j) == runs
    decreases |runs| - j
  {
    if j < |runs| {
      SweepRests(runs, i, j + 1);
    }
  }

  /** Where nothing is near there is nothing to merge. */
  lemma {:induction false} MergeRests(runs: seq<Run>, i: nat)
    requires NoneNear(runs) && i <= |runs|
    ensures MergeFrom(runs, i) == runs
    decreases |runs| - i
  {
    if i < |runs| {
      if Live(runs[i]) {
        SweepCount(runs, i, i + 1);
        SweepRests(runs, i, i + 1);
      }
      MergeRests(runs, i + 1);
    }
  }

  /** A merge frees a slot. */
  lemma {:induction false} MergeFrees(runs: seq<Run>, i: nat)
    requires i <= |runs|
    ensures MergeFrom(runs, i) == runs || LiveCount(MergeFrom(runs, i)) < LiveCount(runs)
    decreases LiveCount(runs), |runs| - i
  {
    if i < |runs| {
      if !Live(runs[i]) {
        MergeFrees(runs, i + 1);
      } else {
        SweepCount(runs, i, i + 1);
        MergeFrees(Sweep(runs, i, i + 1), if Sweep(runs, i, i + 1) == runs then i + 1 else i);
      }
    }
  }

  lemma {:induction false} LiveCountAll(runs: seq<Run>)
    ensures LiveCount(runs) <= |runs|
    ensures LiveCount(runs) == |runs| <==> AllLive(runs)
  {
    if runs != [] {
      var n := |runs| - 1;
      LiveCountAll(runs[..n]);
      assert forall r :: r in runs <==> r in runs[..n] || r == runs[n];
    }
  }

  /** Condensing a full list leaves no free slot, and so only sorts it, exactly if no two of its fragments
      are near. The slots it frees stay where they are, and need not be the last. */
  lemma CondenseFreesIff(runs: seq<Run>)
    requires Sound(runs) && AllLive(runs)
    ensures AllLive(Condense(runs)) <==> NoneNear(runs)
    ensures NoneNear(runs) ==> multiset(Condense(runs)) == multiset(runs)
  {
    var sorted := Sorted(runs);
    SortedPermutes(runs);
    if NoneNear(runs) {
      SortedMembers(runs);
      NearPermutes(runs, sorted);
      MergeRests(sorted, 0);
    }
    if AllLive(Condense(runs)) {
      AllLiveIsSorted(runs);
      CondenseKeeps(runs);
      SettledIsNoneNear(sorted);
      NearPermutes(sorted, runs);
    }
  }

  lemma AllLiveIsSorted(runs: seq<Run>)
    requires AllLive(Condense(runs))
    ensures Condense(runs) == Sorted(runs)
  {
    LiveCountAll(Sorted(runs));
    LiveCountAll(Condense(runs));
    MergeFrees(Sorted(runs), 0);
  }

  lemma SettledIsNoneNear(runs: seq<Run>)
    requires AllLive(runs) && Settled(runs, |runs|)
    ensures NoneNear(runs)
  {
    assert forall k | 0 <= k < |runs| :: runs[k] in runs;
  }

  /** A slot freed in the middle. */
  lemma FreeNeedNotBeLast()
    ensures Condense([Run(0, 5), Run(6, 9), Run(20, 30)]) == [Run(0, 9), FREE, Run(20, 30)]
  {
    var runs := [Run(0, 5), Run(6, 9), Run(20, 30)];
    assert runs[1..] == [Run(6, 9), Run(20, 30)] && runs[1..][1..] == [Run(20, 30)] && runs[1..][1..][1..] == [];
    assert Sorted(runs) == runs;
    var one := [Run(0, 9), FREE, Run(20, 30)];
    SweepCount(runs, 0, 1);
    assert Sweep(runs, 0, 1) == one by {
      assert Sweep(runs, 0, 1) == Sweep(one, 0, 2) == Sweep(one, 0, 3) == one;
    }
    SweepCount(one, 0, 1);
    assert Sweep(one, 0, 1) == Sweep(one, 0, 2) == Sweep(one, 0, 3) == one;
    SweepCount(one, 2, 3);
    assert MergeFrom(one, 0) == MergeFrom(one, 1) == MergeFrom(one, 2) == MergeFrom(one, 3) == one;
  }

  // ---------------------------------------------------------------- how the slice grows

  /** The capacity of a slice that began with three elements and grew one by one to n. */
  function CapacityAt(n: nat): nat {
    if n <= 3 then 3 else Capacity(CapacityAt(n - 1), n - 1, n)
  }

  function Doubled(k: nat): nat {
    if k == 0 then 3 else 2 * Doubled(k - 1)
  }

  lemma {:induction false} AddLength(runs: seq<Run>, start: nat, stop: nat, cap: nat, k: nat, free: nat)
    requires k <= |runs| && free <= |runs|
    ensures |runs| <= |Add(runs, start, stop, cap, k, free)| <= |runs| + 1
    decreases |runs| - k
  {
    if k < |runs| && !Touches(runs[k], start, stop) {
      AddLength(runs, start, stop, cap, k + 1, if free == |runs| && !Live(runs[k]) then k else free);
    }
  }

  lemma DoubledValues(k: nat)
    requires k <= 7
    ensures Doubled(k) <= 192 || Doubled(k) == 384
  {
    assert Doubled(3) == 24;
    assert Doubled(6) == 192 && Doubled(7) == 384;
  }

  lemma CapacityFull(m: nat)
    requires 192 < m <= 384
    ensures CapacityAt(m) == 384
  {
    var k := CapacityDoubles(m);
    DoubledValues(k);
  }

  /** The next after 384 is 672. */
  lemma {:induction false} CapacityAfter(n: nat)
    requires 384 < n <= 672
    ensures CapacityAt(n) == 672
  {
    if n == 385 {
      CapacityFull(n - 1);
    } else {
      CapacityAfter(n - 1);
    }
  }

  /** Up to 384 elements it is the first of 3, 6, 12, ... that is large enough. */
  lemma {:induction false} CapacityDoubles(n: nat) returns (k: nat)
    requires 3 <= n <= 384
    ensures k <= 7 && CapacityAt(n) == Doubled(k) && n <= Doubled(k) && (n > 3 ==> Doubled(k) < 2 * n)
  {
    if n == 3 {
      k := 0;
    } else {
      k := CapacityDoubles(n - 1);
      assert Doubled(3) == 24;
      assert Doubled(6) == 192 && Doubled(7) == 384;
      if n > Doubled(k) {
        k := k + 1;
      }
    }
  }

  lemma AddedHead(runs: seq<Run>, start: nat, stop: nat, s: seq<Run>)
    requires start < stop && Added(runs, start, stop, s)
    ensures Live(s[0])
  {
    assert AddedAt(runs, start, stop, s, start);
    var r :| r in s && r.start <= start < r.stop;
  }

  lemma DistinctSlots(runs: seq<Run>, i: nat, j: nat)
    requires AllApart(runs) && i < |runs| && j < |runs| && i != j && Live(runs[i]) && Live(runs[j])
    ensures Apart(runs[i], runs[j])
  {
  }
}
