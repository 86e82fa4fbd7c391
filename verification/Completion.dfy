/** Many posts of segments at once: save, then mark under the mutex, then verify
    (ff-receiver.go:113-154). */
module Completion {
  import opened Words
  import opened Progress

  /** Where a post is. `Proceeding` is a post whose mark came back true. */
  datatype Phase = Arrived | Failed | Saved | Waiting | Proceeding | Verified | Rejected | Finished

  datatype World = World(phases: seq<Phase>, saved: set<Call>, file: Option<seq<byte>>)

  /** One atomic step of post p. */
  datatype Action = Save(p: nat, ok: bool) | Mark(p: nat) | Verify(p: nat, ok: bool) | Remove(p: nat)

  function At(w: World, p: nat, phase: Phase): World
    requires p < |w.phases|
  {
    w.(phases := w.phases[p := phase])
  }

  function Next(posts: seq<Call>, count: int, w: World, a: Action): World {
    if a.p >= |w.phases| || a.p >= |posts| then w
    else match a
      case Save(p, ok) =>
        if w.phases[p] != Arrived then w
        else if ok then At(w, p, Saved).(saved := w.saved + {posts[p]})
        else At(w, p, Failed)
      case Mark(p) =>
        if w.phases[p] != Saved then w
        else
          var (file, complete) := Updated(w.file, posts[p], count);
          At(w, p, if complete then Proceeding else Waiting).(file := file)
      case Verify(p, ok) =>
        if w.phases[p] != Proceeding then w else At(w, p, if ok then Verified else Rejected)
      case Remove(p) =>
        if w.phases[p] != Verified then w else At(w, p, Finished).(file := None)
  }

  function Start(n: nat): World {
    World(seq(n, _ => Arrived), {}, None)
  }

  function Run(posts: seq<Call>, count: int, w: World, actions: seq<Action>): World {
    if actions == [] then w
    else Next(posts, count, Run(posts, count, w, actions[..|actions| - 1]), actions[|actions| - 1])
  }

  predicate Won(ph: Phase) {
    ph == Proceeding || ph == Verified || ph == Rejected || ph == Finished
  }

  predicate HasMarked(ph: Phase) {
    ph == Waiting || Won(ph)
  }

  // ---------------------------------------------------------------- nobody proceeds too early

  ghost predicate AllSaved(w: World, uuid: Id, count: nat) {
    forall k: nat | k < count :: Call(uuid, k) in w.saved
  }

  /** Whatever is marked in the file has been saved, and so has every segment of a winner. */
  ghost predicate Sound(posts: seq<Call>, len: nat, count: nat, w: World) {
    && |w.phases| == |posts|
    && (forall p | 0 <= p < |posts| && w.phases[p] != Arrived && w.phases[p] != Failed :: posts[p] in w.saved)
    && (forall p | 0 <= p < |posts| && Won(w.phases[p]) :: AllSaved(w, posts[p].uuid, count))
    && exists s :: FileSaved(w, len, count, s)
  }

  ghost predicate FileSaved(w: World, len: nat, count: nat, s: Seen) {
    Represents(w.file, len, count, s) && (s.Seen? ==> forall k <- s.segments :: Call(s.uuid, k) in w.saved)
  }

  lemma MarkKeepsSound(posts: seq<Call>, len: nat, count: nat, w: World, p: nat)
    requires SameLength(posts, len) && Sound(posts, len, count, w) && p < |posts| && w.phases[p] == Saved
    ensures Sound(posts, len, count, Next(posts, count, w, Mark(p)))
  {
    var w' := Next(posts, count, w, Mark(p));
    var c := posts[p];
    var s :| FileSaved(w, len, count, s);
    if Effective(c, count) {
      UpdateMarks(w.file, len, count, s, c);
      assert FileSaved(w', len, count, Marked(s, c));
    } else {
      assert FileSaved(w', len, count, s);
    }
  }

  lemma OtherKeepsSound(posts: seq<Call>, len: nat, count: nat, w: World, a: Action)
    requires Sound(posts, len, count, w) && !a.Mark?
    ensures Sound(posts, len, count, Next(posts, count, w, a))
  {
    var w' := Next(posts, count, w, a);
    var s :| FileSaved(w, len, count, s);
    assert w.saved <= w'.saved;
    assert FileSaved(w', len, count, if w'.file == w.file then s else Nothing);
  }

  lemma NextKeepsSound(posts: seq<Call>, len: nat, count: nat, w: World, a: Action)
    requires SameLength(posts, len) && Sound(posts, len, count, w)
    ensures Sound(posts, len, count, Next(posts, count, w, a))
  {
    if a.Mark? && a.p < |posts| && w.phases[a.p] == Saved {
      MarkKeepsSound(posts, len, count, w, a.p);
    } else if !a.Mark? {
      OtherKeepsSound(posts, len, count, w, a);
    }
  }

  /** In every interleaving of any posts, also with duplicates and with ids competing for the path, a
      post that goes on to verify the whole file does so when every segment of it has been saved. */
  lemma {:induction false} WinnersHaveEverything(posts: seq<Call>, len: nat, count: nat, actions: seq<Action>)
    requires SameLength(posts, len)
    ensures var w := Run(posts, count, Start(|posts|), actions);
            && Sound(posts, len, count, w)
            && forall p | 0 <= p < |posts| && Won(w.phases[p]) :: AllSaved(w, posts[p].uuid, count)
  {
    if actions == [] {
      assert FileSaved(Start(|posts|), len, count, Nothing);
    } else {
      WinnersHaveEverything(posts, len, count, actions[..|actions| - 1]);
      NextKeepsSound(posts, len, count, Run(posts, count, Start(|posts|), actions[..|actions| - 1]), actions[|actions| - 1]);
    }
  }

  // ---------------------------------------------------------------- what a phase says about the past

  /** How far a post has come says which of its steps went well. */
  ghost predicate PastOf(actions: seq<Action>, p: nat, ph: Phase) {
    match ph
    case Arrived => Save(p, true) !in actions && Save(p, false) !in actions
    case Failed => Save(p, false) in actions
    case Saved => Save(p, true) in actions
    case Waiting => Save(p, true) in actions && Mark(p) in actions
    case Proceeding => Save(p, true) in actions && Mark(p) in actions
    case Verified => Save(p, true) in actions && Mark(p) in actions && Verify(p, true) in actions
    case Rejected => Save(p, true) in actions && Mark(p) in actions && Verify(p, false) in actions
    case Finished => Save(p, true) in actions && Mark(p) in actions && Verify(p, true) in actions && Remove(p) in actions
  }

  lemma {:induction false} PhasesTell(posts: seq<Call>, count: int, actions: seq<Action>, p: nat)
    requires p < |posts|
    ensures var w := Run(posts, count, Start(|posts|), actions);
            |w.phases| == |posts| && PastOf(actions, p, w.phases[p])
  {
    if actions != [] {
      var n := |actions| - 1;
      PhasesTell(posts, count, actions[..n], p);
      assert actions == actions[..n] + [actions[n]];
      assert forall a: Action :: a in actions <==> a in actions[..n] || a == actions[n];
    }
  }

  /** These phases are left by no step: a post whose save or verification failed is never heard of again, and
      leaves the progress file to the others. */
  predicate Final(ph: Phase) {
    ph == Failed || ph == Waiting || ph == Rejected || ph == Finished
  }

  lemma {:induction false} FinalStays(posts: seq<Call>, count: int, w: World, actions: seq<Action>, p: nat)
    requires p < |posts| == |w.phases| && Final(w.phases[p])
    ensures var t := Run(posts, count, w, actions); |t.phases| == |posts| && t.phases[p] == w.phases[p]
  {
    if actions != [] {
      FinalStays(posts, count, w, actions[..|actions| - 1], p);
    }
  }

  /** A post that fails to save its segment stays out, whatever is tried with it afterwards. */
  lemma FailedSaveIsFinal(posts: seq<Call>, count: int, w: World, rest: seq<Action>, p: nat)
    requires p < |posts| == |w.phases| && w.phases[p] == Arrived
    ensures var t := Run(posts, count, Next(posts, count, w, Save(p, false)), rest);
            && |t.phases| == |posts| && !HasMarked(t.phases[p])
            && Next(posts, count, w, Save(p, false)).saved == w.saved
  {
    FinalStays(posts, count, Next(posts, count, w, Save(p, false)), rest, p);
  }

  // ---------------------------------------------------------------- at most one proceeds

  /** Posts of segments of one file. */
  ghost predicate OfOneFile(posts: seq<Call>, uuid: Id, count: nat) {
    forall p | 0 <= p < |posts| :: posts[p].uuid == uuid && 0 <= posts[p].idx < count
  }

  ghost predicate PostedTwice(posts: seq<Call>) {
    exists p, q | 0 <= p < q < |posts| :: posts[p].idx == posts[q].idx
  }

  ghost predicate EachPosted(posts: seq<Call>, count: nat) {
    forall k: nat | k < count :: Posted(posts, k)
  }

  ghost predicate Posted(posts: seq<Call>, k: nat) {
    exists p | 0 <= p < |posts| :: posts[p].idx == k
  }

  /** A post of segment k has marked. */
  ghost predicate Done(posts: seq<Call>, w: World, k: nat) {
    exists p | 0 <= p < |posts| && p < |w.phases| :: posts[p].idx == k && HasMarked(w.phases[p])
  }

  ghost predicate AllDone(posts: seq<Call>, w: World, count: nat) {
    forall k: nat | k < count :: Done(posts, w, k)
  }

  ghost predicate SomeWinner(w: World) {
    exists p | 0 <= p < |w.phases| :: Won(w.phases[p])
  }

  ghost predicate AtMostOneWinner(w: World) {
    forall p, q | 0 <= p < q < |w.phases| :: !(Won(w.phases[p]) && Won(w.phases[q]))
  }

  ghost predicate TellsDone(posts: seq<Call>, uuid: Id, count: nat, w: World, file: Option<seq<byte>>, s: Seen) {
    && Represents(file, |uuid|, count, s) && (s.Seen? ==> s.uuid == uuid)
    && forall k: nat | k < count :: Done(posts, w, k) <==> s.Seen? && k in s.segments
  }

  ghost predicate SomeFinished(w: World) {
    exists p | 0 <= p < |w.phases| :: w.phases[p] == Finished
  }

  /** The progress file tells which segments are done, until the winner removes it for good. */
  ghost predicate FileTellsDone(posts: seq<Call>, uuid: Id, count: nat, w: World) {
    if SomeFinished(w) then w.file == None else exists s :: TellsDone(posts, uuid, count, w, w.file, s)
  }

  ghost predicate Fair(posts: seq<Call>, uuid: Id, count: nat, w: World) {
    && |w.phases| == |posts|
    && (SomeWinner(w) <==> AllDone(posts, w, count))
    && AtMostOneWinner(w)
    && FileTellsDone(posts, uuid, count, w)
  }

  /** One post more has marked. */
  lemma DoneExtends(posts: seq<Call>, w: World, w': World, p: nat, k: nat)
    requires |w.phases| == |w'.phases| == |posts| && p < |posts| && posts[p].idx >= 0 && HasMarked(w'.phases[p])
    requires forall q | 0 <= q < |posts| && q != p :: w'.phases[q] == w.phases[q]
    ensures Done(posts, w', k) <==> Done(posts, w, k) || k == posts[p].idx
  {
    if Done(posts, w, k) {
      var q :| 0 <= q < |posts| && posts[q].idx == k && HasMarked(w.phases[q]);
      assert HasMarked(w'.phases[q]);
    }
  }

  lemma NotDoneYet(posts: seq<Call>, uuid: Id, count: nat, w: World, p: nat)
    requires OfOneFile(posts, uuid, count) && !PostedTwice(posts) && |w.phases| == |posts|
    requires p < |posts| && !HasMarked(w.phases[p])
    ensures !Done(posts, w, posts[p].idx)
  {
    forall q | 0 <= q < |posts| && posts[q].idx == posts[p].idx
      ensures q == p
    {
    }
  }

  lemma MarkKeepsFair(posts: seq<Call>, uuid: Id, count: nat, w: World, p: nat)
    requires count > 1 && OfOneFile(posts, uuid, count) && !PostedTwice(posts) && Fair(posts, uuid, count, w)
    requires p < |posts| && w.phases[p] == Saved
    ensures Fair(posts, uuid, count, Next(posts, count, w, Mark(p)))
  {
    var w' := Next(posts, count, w, Mark(p));
    NotDoneYet(posts, uuid, count, w, p);
    assert !SomeWinner(w) && !SomeFinished(w);
    var s :| TellsDone(posts, uuid, count, w, w.file, s);
    UpdateMarks(w.file, |uuid|, count, s, posts[p]);
    var t := Marked(s, posts[p]);
    forall k: nat | k < count
      ensures Done(posts, w', k) <==> k in t.segments
    {
      DoneExtends(posts, w, w', p, k);
    }
    assert TellsDone(posts, uuid, count, w', w'.file, t);
    assert !SomeWinner(w);
    assert forall q | 0 <= q < |posts| && q != p :: !Won(w'.phases[q]);
    if AllDone(posts, w', count) {
      assert Won(w'.phases[p]);
    }
  }

  lemma SaveKeepsFair(posts: seq<Call>, uuid: Id, count: nat, w: World, a: Action)
    requires count > 1 && OfOneFile(posts, uuid, count) && !PostedTwice(posts) && Fair(posts, uuid, count, w)
    requires a.Save? && a.p < |posts| && w.phases[a.p] == Arrived
    ensures Fair(posts, uuid, count, Next(posts, count, w, a))
  {
    var w' := Next(posts, count, w, a);
    NotDoneYet(posts, uuid, count, w, a.p);
    assert !SomeWinner(w);
    forall p | 0 <= p < |posts|
      ensures HasMarked(w'.phases[p]) <==> HasMarked(w.phases[p])
      ensures !Won(w'.phases[p])
    {
      assert !Won(w.phases[p]);
    }
    SameDone(posts, w, w');
    assert !SomeFinished(w);
    var s :| TellsDone(posts, uuid, count, w, w.file, s);
    assert TellsDone(posts, uuid, count, w', w'.file, s);
  }

  lemma SameDone(posts: seq<Call>, w: World, w': World)
    requires |w.phases| == |w'.phases| == |posts|
    requires forall p | 0 <= p < |posts| :: HasMarked(w'.phases[p]) <==> HasMarked(w.phases[p])
    ensures forall k :: Done(posts, w', k) <==> Done(posts, w, k)
  {
    forall k
      ensures Done(posts, w', k) <==> Done(posts, w, k)
    {
      if Done(posts, w, k) {
        var p :| 0 <= p < |posts| && posts[p].idx == k && HasMarked(w.phases[p]);
        assert HasMarked(w'.phases[p]);
      }
    }
  }

  lemma WinnerKeepsFair(posts: seq<Call>, uuid: Id, count: nat, w: World, w': World, p: nat)
    requires Fair(posts, uuid, count, w) && p < |posts| && Won(w.phases[p]) && w.phases[p] != Finished
    requires |w'.phases| == |posts| && Won(w'.phases[p])
    requires w'.file == if w'.phases[p] == Finished then None else w.file
    requires forall q | 0 <= q < |posts| && q != p :: w'.phases[q] == w.phases[q]
    ensures Fair(posts, uuid, count, w')
  {
    assert SomeWinner(w) && SomeWinner(w');
    SameDone(posts, w, w');
    assert forall q | 0 <= q < |posts| && q != p :: !Won(w.phases[q]);
    assert !SomeFinished(w);
    var s :| TellsDone(posts, uuid, count, w, w.file, s);
    assert TellsDone(posts, uuid, count, w', w.file, s);
  }

  lemma NextKeepsFair(posts: seq<Call>, uuid: Id, count: nat, w: World, a: Action)
    requires count > 1 && OfOneFile(posts, uuid, count) && !PostedTwice(posts) && Fair(posts, uuid, count, w)
    ensures Fair(posts, uuid, count, Next(posts, count, w, a))
  {
    var w' := Next(posts, count, w, a);
    if w' != w {
      match a
      case Save(p, ok) => SaveKeepsFair(posts, uuid, count, w, a);
      case Mark(p) => MarkKeepsFair(posts, uuid, count, w, p);
      case Verify(p, ok) => WinnerKeepsFair(posts, uuid, count, w, w', p);
      case Remove(p) => WinnerKeepsFair(posts, uuid, count, w, w', p);
    }
  }

  /** When no segment is posted twice, then in every interleaving never more than one post proceeds,
      and one has exactly when every segment has been marked. The progress file says at every moment which
      segments are, until that post has verified the file and removed it. */
  lemma {:induction false} ExactlyOneProceeds(posts: seq<Call>, uuid: Id, count: nat, actions: seq<Action>)
    requires count > 1 && OfOneFile(posts, uuid, count) && !PostedTwice(posts)
    ensures var w := Run(posts, count, Start(|posts|), actions);
            && Fair(posts, uuid, count, w) && AtMostOneWinner(w) && (SomeWinner(w) <==> AllDone(posts, w, count))
            && FileTellsDone(posts, uuid, count, w)
  {
    if actions == [] {
      var w := Start(|posts|);
      assert !Done(posts, w, 0);
      assert TellsDone(posts, uuid, count, w, None, Nothing);
    } else {
      ExactlyOneProceeds(posts, uuid, count, actions[..|actions| - 1]);
      NextKeepsFair(posts, uuid, count, Run(posts, count, Start(|posts|), actions[..|actions| - 1]), actions[|actions| - 1]);
    }
  }

  // ---------------------------------------------------------------- exactly when a second one can

  lemma {:induction false} SavedIsPosted(posts: seq<Call>, count: int, actions: seq<Action>)
    ensures forall c <- Run(posts, count, Start(|posts|), actions).saved :: c in posts
  {
    if actions != [] {
      SavedIsPosted(posts, count, actions[..|actions| - 1]);
    }
  }

  lemma {:induction false} RunSplits(posts: seq<Call>, count: int, w: World, a: seq<Action>, b: seq<Action>)
    ensures Run(posts, count, w, a + b) == Run(posts, count, Run(posts, count, w, a), b)
  {
    if b == [] {
      assert a + b == a;
    } else {
      RunSplits(posts, count, w, a, b[..|b| - 1]);
      assert (a + b)[..|a + b| - 1] == a + b[..|b| - 1];
    }
  }

  function Saves(n: nat): (actions: seq<Action>)
    ensures |actions| == n
  {
    seq(n, p requires 0 <= p < n => Save(p, true))
  }

  function Marks(ps: seq<nat>): (actions: seq<Action>)
    ensures |actions| == |ps|
  {
    seq(|ps|, i requires 0 <= i < |ps| => Mark(ps[i]))
  }

  lemma {:induction false} AfterSaves(posts: seq<Call>, count: int, n: nat)
    requires n <= |posts|
    ensures var w := Run(posts, count, Start(|posts|), Saves(n));
            && w.file == None && |w.phases| == |posts|
            && forall p | 0 <= p < |posts| :: w.phases[p] == if p < n then Saved else Arrived
  {
    if n > 0 {
      AfterSaves(posts, count, n - 1);
      assert Saves(n)[..n - 1] == Saves(n - 1);
    }
  }

  /** Segment k is among these posts. */
  ghost predicate Among(posts: seq<Call>, ps: seq<nat>, k: nat) {
    exists p <- ps :: p < |posts| && posts[p].idx == k
  }

  ghost predicate TellsAmong(posts: seq<Call>, uuid: Id, count: nat, ps: seq<nat>, file: Option<seq<byte>>, s: Seen) {
    && Represents(file, |uuid|, count, s) && (s.Seen? ==> s.uuid == uuid)
    && forall k: nat | k < count :: Among(posts, ps, k) <==> s.Seen? && k in s.segments
  }

  /** All posts have saved, and these have marked. */
  ghost predicate AfterMarks(posts: seq<Call>, uuid: Id, count: nat, ps: seq<nat>, w: World) {
    && |w.phases| == |posts|
    && (forall p | 0 <= p < |posts| :: if p in ps then HasMarked(w.phases[p]) else w.phases[p] == Saved)
    && exists s :: TellsAmong(posts, uuid, count, ps, w.file, s)
  }

  lemma AmongExtends(posts: seq<Call>, ps: seq<nat>, p: nat, k: nat)
    requires p < |posts|
    ensures Among(posts, ps + [p], k) <==> Among(posts, ps, k) || posts[p].idx == k
  {
    if Among(posts, ps, k) {
      var q :| q in ps && q < |posts| && posts[q].idx == k;
      assert q in ps + [p];
    }
    assert p in ps + [p];
  }

  /** One more post marks: it proceeds exactly if it and the posts before it are of all segments. */
  lemma OneMarks(posts: seq<Call>, uuid: Id, count: nat, ps: seq<nat>, w: World, p: nat)
    requires count > 1 && OfOneFile(posts, uuid, count) && AfterMarks(posts, uuid, count, ps, w)
    requires p < |posts| && p !in ps
    ensures var w' := Next(posts, count, w, Mark(p));
            && AfterMarks(posts, uuid, count, ps + [p], w')
            && (Won(w'.phases[p]) <==> forall k: nat | k < count :: Among(posts, ps + [p], k))
            && forall q | 0 <= q < |posts| && q != p :: w'.phases[q] == w.phases[q]
  {
    var w' := Next(posts, count, w, Mark(p));
    var s :| TellsAmong(posts, uuid, count, ps, w.file, s);
    UpdateMarks(w.file, |uuid|, count, s, posts[p]);
    var t := Marked(s, posts[p]);
    forall k: nat | k < count
      ensures Among(posts, ps + [p], k) <==> k in t.segments
    {
      AmongExtends(posts, ps, p, k);
    }
    assert TellsAmong(posts, uuid, count, ps + [p], w'.file, t);
  }

  lemma {:induction false} MarkAll(posts: seq<Call>, uuid: Id, count: nat, w0: World, ps: seq<nat>)
    requires count > 1 && OfOneFile(posts, uuid, count) && AfterMarks(posts, uuid, count, [], w0)
    requires Distinct(ps) && forall i | 0 <= i < |ps| :: ps[i] < |posts|
    ensures var w := Run(posts, count, w0, Marks(ps));
            && AfterMarks(posts, uuid, count, ps, w)
            && (ps != [] ==>
                  (Won(w.phases[ps[|ps| - 1]]) <==> forall k: nat | k < count :: Among(posts, ps, k)))
  {
    if ps != [] {
      var init, last := ps[..|ps| - 1], ps[|ps| - 1];
      assert last !in init;
      MarkAll(posts, uuid, count, w0, init);
      assert Marks(ps)[..|ps| - 1] == Marks(init);
      assert init + [last] == ps;
      OneMarks(posts, uuid, count, init, Run(posts, count, w0, Marks(init)), last);
    }
  }

  /** All posts but q, in order. */
  function AllBut(n: nat, q: nat): (ps: seq<nat>)
    ensures forall p: nat :: p in ps <==> p < n && p != q
    ensures Distinct(ps)
  {
    if n == 0 then []
    else
      var init := AllBut(n - 1, q);
      assert forall i | 0 <= i < |init| :: init[i] in init;
      if n - 1 == q then init else init + [n - 1]
  }

  /** The post that repeats a segment marks last: it and the one before it proceed. */
  lemma TwoProceed(posts: seq<Call>, uuid: Id, count: nat, p: nat, q: nat) returns (actions: seq<Action>)
    requires count > 1 && OfOneFile(posts, uuid, count) && EachPosted(posts, count)
    requires p < q < |posts| && posts[p].idx == posts[q].idx
    ensures !AtMostOneWinner(Run(posts, count, Start(|posts|), actions))
  {
    var n := |posts|;
    var w0 := Run(posts, count, Start(n), Saves(n));
    AfterSaves(posts, count, n);
    assert TellsAmong(posts, uuid, count, [], w0.file, Nothing);
    var ps := AllBut(n, q);
    assert forall i | 0 <= i < |ps| :: ps[i] in ps;
    MarkAll(posts, uuid, count, w0, ps);
    var w := Run(posts, count, w0, Marks(ps));
    CoverWithout(posts, count, p, q, ps);
    var first := ps[|ps| - 1];
    assert first in ps;
    OneMarks(posts, uuid, count, ps, w, q);
    forall k: nat | k < count
      ensures Among(posts, ps + [q], k)
    {
      AmongExtends(posts, ps, q, k);
    }
    var w2 := Next(posts, count, w, Mark(q));
    assert Won(w2.phases[first]) && Won(w2.phases[q]) && first != q;
    var all := Marks(ps) + [Mark(q)];
    assert all[..|all| - 1] == Marks(ps);
    RunSplits(posts, count, Start(n), Saves(n), all);
    actions := Saves(n) + all;
    assert !AtMostOneWinner(w2);
  }

  lemma CoverWithout(posts: seq<Call>, count: nat, p: nat, q: nat, ps: seq<nat>)
    requires EachPosted(posts, count) && p < q < |posts| && posts[p].idx == posts[q].idx
    requires forall x: nat :: x in ps <==> x < |posts| && x != q
    ensures forall k: nat | k < count :: Among(posts, ps, k)
    ensures ps != []
  {
    assert p in ps;
    forall k: nat | k < count
      ensures Among(posts, ps, k)
    {
      assert Posted(posts, k);
      var x :| 0 <= x < |posts| && posts[x].idx == k;
      var y: nat := if x == q then p else x;
      assert y in ps;
    }
  }

  lemma TwoWinnersNeed(posts: seq<Call>, uuid: Id, count: nat, actions: seq<Action>)
    requires count > 1 && OfOneFile(posts, uuid, count)
    requires !AtMostOneWinner(Run(posts, count, Start(|posts|), actions))
    ensures EachPosted(posts, count) && PostedTwice(posts)
  {
    var w := Run(posts, count, Start(|posts|), actions);
    WinnersHaveEverything(posts, |uuid|, count, actions);
    SavedIsPosted(posts, count, actions);
    var p :| 0 <= p < |posts| && Won(w.phases[p]);
    forall k: nat | k < count
      ensures Posted(posts, k)
    {
      assert AllSaved(w, uuid, count) && Call(uuid, k) in w.saved;
      var x :| 0 <= x < |posts| && posts[x] == Call(uuid, k);
    }
    if !PostedTwice(posts) {
      ExactlyOneProceeds(posts, uuid, count, actions);
      assert false;
    }
  }

  /** A second post can go on to verify the whole file if and only if every segment is posted and some
      segment more than once. */
  lemma SecondWinnerIff(posts: seq<Call>, uuid: Id, count: nat)
    requires count > 1 && OfOneFile(posts, uuid, count)
    ensures (exists actions :: !AtMostOneWinner(Run(posts, count, Start(|posts|), actions)))
       <==> EachPosted(posts, count) && PostedTwice(posts)
  {
    forall actions | !AtMostOneWinner(Run(posts, count, Start(|posts|), actions))
      ensures EachPosted(posts, count) && PostedTwice(posts)
    {
      TwoWinnersNeed(posts, uuid, count, actions);
    }
    if EachPosted(posts, count) && PostedTwice(posts) {
      var p, q :| 0 <= p < q < |posts| && posts[p].idx == posts[q].idx;
      var actions := TwoProceed(posts, uuid, count, p, q);
    }
  }
}
