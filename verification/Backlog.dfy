/** Which staged batches can still get downstream, whatever happens from now on. */
module Backlog {
  import opened Words
  import opened FlowFile
  import opened Paths
  import opened Scanner
  import opened Staging

  /** In some future what is found of the batch is accepted downstream. */
  ghost predicate CanBeSentOut(cfg: Config, w: World, id: Id) {
    exists actions :: SentOut(Run(cfg, w, actions), id)
  }

  /** The entries the unstager has yet to deliver, if it goes on from here. */
  function Ahead(cfg: Config, u: Unstager): seq<Id> {
    match u
    case Opening(todo, _) => todo
    case Sending(todo, _, _, _) => todo
    case Retrying(todo, n) => if n < cfg.retries then todo else []
    case RemoveJson(todo) => if todo == [] then [] else todo[1..]
    case RemoveDat(todo) => if todo == [] then [] else todo[1..]
    case _ => []
  }

  ghost predicate Passable(w: World, id: Id) {
    id in w.posts && Passes(w.lib, w.lib.scan(w.posts[id].request))
  }

  /** The p-th entry of the list is id, and everything before it is passable. */
  ghost predicate ReachedAt(w: World, ids: seq<Id>, id: Id, p: nat) {
    p < |ids| && ids[p] == id && forall q | 0 <= q <= p :: Passable(w, ids[q])
  }

  ghost predicate Reached(w: World, ids: seq<Id>, id: Id) {
    exists p: nat :: ReachedAt(w, ids, id, p)
  }

  /** Nothing in front of id in the directory is in its way. */
  ghost predicate FrontClear(w: World, id: Id) {
    Passable(w, id) && forall j <- w.json | j < id :: Passable(w, j)
  }

  ghost predicate Hope(cfg: Config, w: World, id: Id) {
    SentOut(w, id) || Reached(w, Ahead(cfg, w.unstager), id) || FrontClear(w, id)
  }

  // ---------------------------------------------------------------- no hope is gained

  lemma ReachedTail(w: World, ids: seq<Id>, id: Id)
    requires ids != [] && Passable(w, ids[0]) && Reached(w, ids[1..], id)
    ensures Reached(w, ids, id)
  {
    var p: nat :| ReachedAt(w, ids[1..], id, p);
    forall q | 0 <= q <= p + 1
      ensures Passable(w, ids[q])
    {
      assert q > 0 ==> ids[q] == ids[1..][q - 1];
    }
    assert ReachedAt(w, ids, id, p + 1);
  }

  lemma FirstReached(w: World, ids: seq<Id>)
    requires ids != [] && Passable(w, ids[0])
    ensures Reached(w, ids, ids[0])
  {
    assert ReachedAt(w, ids, ids[0], 0);
  }

  /** In a fresh listing, what comes before an entry is what has a smaller name. */
  lemma ListingReachesIff(w: World, entries: seq<Id>, id: Id)
    requires DirectoryListing(w, entries)
    ensures Reached(w, entries, id) <==> id in w.json && FrontClear(w, id)
  {
    if Reached(w, entries, id) {
      var p: nat :| ReachedAt(w, entries, id, p);
      assert entries[p] in entries;
      forall j <- w.json | j < id
        ensures Passable(w, j)
      {
        assert j in entries;
      }
    }
    if id in w.json && FrontClear(w, id) {
      assert id in entries;
      var p: nat :| p < |entries| && entries[p] == id;
      forall q | 0 <= q <= p
        ensures Passable(w, entries[q])
      {
        assert entries[q] in entries;
      }
      assert ReachedAt(w, entries, id, p);
    }
  }

  /** The requests do not change, and the unstager delivers what it may. */
  lemma SamePassable(w: World, w': World, ids: seq<Id>, id: Id)
    requires forall x <- ids :: Passable(w', x) ==> Passable(w, x)
    requires Reached(w', ids, id)
    ensures Reached(w, ids, id)
  {
    var p: nat :| ReachedAt(w', ids, id, p);
    assert ReachedAt(w, ids, id, p);
  }

  /** A step that is not the unstager's. */
  lemma QuietStep(cfg: Config, w: World, w': World, id: Id)
    requires Invariant(w) && id in w.posts && Hope(cfg, w', id)
    requires w'.accepted == w.accepted && w'.lib == w.lib && (w'.unstager == w.unstager || Ahead(cfg, w'.unstager) == [])
    requires forall x <- w.posts :: x in w'.posts && w'.posts[x].request == w.posts[x].request
    requires forall x <- w.json :: x in w'.json
    ensures Hope(cfg, w, id)
  {
    forall x <- w.json
      ensures x in w.posts
    {
      assert IdFaithful(w, x);
    }
    if SentOut(w', id) {
    } else if Reached(w', Ahead(cfg, w'.unstager), id) {
      SamePassable(w, w', Ahead(cfg, w.unstager), id);
    } else {
      assert Passable(w, id);
    }
  }

  lemma PostStepIsQuiet(cfg: Config, w: World, id: Id, ok: bool)
    requires Careful(cfg) && Invariant(w) && id in w.posts
    ensures var w' := PostStep(cfg, w, id, ok);
            && w'.accepted == w.accepted && w'.unstager == w.unstager && w'.lib == w.lib
            && (forall x <- w.posts :: x in w'.posts && w'.posts[x].request == w.posts[x].request)
            && (forall x <- w.json :: x in w'.json)
  {
    assert IdFaithful(w, id);
    StepKeepsListing(cfg, w, id, ok);
    forall x | x != id
      ensures SameAt(w, PostStep(cfg, w, id, ok), x)
    {
      StepSameAt(cfg, w, id, ok, x);
    }
  }

  /** What the unstager has ahead of it after a step: nothing, the same, one less, or a fresh listing. */
  lemma UnstagerAhead(cfg: Config, w: World, a: Action)
    requires Careful(cfg) && Invariant(w)
    ensures var w' := UnstagerStep(cfg, w, a);
            var before, after := Ahead(cfg, w.unstager), Ahead(cfg, w'.unstager);
            || after == [] || after == before || DirectoryListing(w, after)
            || (before != [] && after == before[1..] && Passable(w, before[0]))
  {
    if w.unstager.Sending? {
      assert w.unstager.sent == |w.unstager.content| ==> Level(w.lib, w.unstager.content, |w.unstager.content|);
    }
  }

  lemma UnstagerDelivers(cfg: Config, w: World, a: Action, id: Id)
    requires Careful(cfg) && Invariant(w) && SentOut(UnstagerStep(cfg, w, a), id)
    ensures SentOut(w, id) || Reached(w, Ahead(cfg, w.unstager), id)
  {
    if !SentOut(w, id) {
      var todo, content := w.unstager.todo, w.unstager.content;
      FirstReached(w, todo);
    }
  }

  lemma UnstagerClears(cfg: Config, w: World, a: Action, id: Id)
    requires Careful(cfg) && Invariant(w) && FrontClear(UnstagerStep(cfg, w, a), id)
    ensures FrontClear(w, id)
  {
    var w' := UnstagerStep(cfg, w, a);
    forall j <- w.json | j < id
      ensures Passable(w, j)
    {
      if j in w'.json {
        assert Passable(w', j);
      }
    }
  }

  lemma UnstagerGainsNothing(cfg: Config, w: World, a: Action, id: Id)
    requires Careful(cfg) && Invariant(w) && Hope(cfg, UnstagerStep(cfg, w, a), id)
    ensures Hope(cfg, w, id)
  {
    var w' := UnstagerStep(cfg, w, a);
    var after := Ahead(cfg, w'.unstager);
    if SentOut(w', id) {
      UnstagerDelivers(cfg, w, a, id);
    } else if FrontClear(w', id) {
      UnstagerClears(cfg, w, a, id);
    } else {
      SamePassable(w, w', after, id);
      UnstagerAhead(cfg, w, a);
      if DirectoryListing(w, after) {
        ListingReachesIff(w, after, id);
      } else if after != Ahead(cfg, w.unstager) {
        ReachedTail(w, Ahead(cfg, w.unstager), id);
      }
    }
  }

  lemma NextGainsNothing(cfg: Config, w: World, a: Action, id: Id)
    requires Careful(cfg) && Invariant(w) && id in w.posts && Hope(cfg, Next(cfg, w, a), id)
    ensures Hope(cfg, w, id)
  {
    var w' := Next(cfg, w, a);
    match a
    case Begin(_, _) => QuietStep(cfg, w, w', id);
    case Step(x, ok) =>
      if x in w.posts {
        PostStepIsQuiet(cfg, w, x, ok);
        QuietStep(cfg, w, w', id);
      }
    case CrashStager => QuietStep(cfg, w, w', id);
    case CrashUnstager => QuietStep(cfg, w, w', id);
    case Restart => QuietStep(cfg, w, w', id);
    case _ => UnstagerGainsNothing(cfg, w, a, id);
  }

  lemma {:induction false} PostsStay(cfg: Config, w: World, actions: seq<Action>, id: Id)
    requires id in w.posts
    ensures var w' := Run(cfg, w, actions); id in w'.posts && w'.posts[id].request == w.posts[id].request
  {
    if actions != [] {
      var init, a := actions[..|actions| - 1], actions[|actions| - 1];
      PostsStay(cfg, w, init, id);
      PostStays(cfg, Run(cfg, w, init), a, id);
    }
  }

  lemma PostStays(cfg: Config, w: World, a: Action, id: Id)
    requires id in w.posts
    ensures var w' := Next(cfg, w, a); id in w'.posts && w'.posts[id].request == w.posts[id].request
  {
    if a.Step? && a.id in w.posts {
      PostRequests(cfg, w, a.id, a.ok);
    }
  }

  lemma {:induction false} RunGainsNothing(cfg: Config, w: World, actions: seq<Action>, id: Id)
    requires Careful(cfg) && Invariant(w) && id in w.posts && Hope(cfg, Run(cfg, w, actions), id)
    ensures Hope(cfg, w, id)
  {
    if actions != [] {
      var init, a := actions[..|actions| - 1], actions[|actions| - 1];
      RunKeepsInvariant(cfg, w, init);
      PostsStay(cfg, w, init, id);
      NextGainsNothing(cfg, Run(cfg, w, init), a, id);
      RunGainsNothing(cfg, w, init, id);
    }
  }

  // ---------------------------------------------------------------- hope is enough

  lemma {:induction false} RunFrom(cfg: Config, w: World, a: Action, actions: seq<Action>)
    ensures Run(cfg, w, [a] + actions) == Run(cfg, Next(cfg, w, a), actions)
  {
    var all := [a] + actions;
    if actions == [] {
      assert all[..|all| - 1] == [];
    } else {
      RunFrom(cfg, w, a, actions[..|actions| - 1]);
      assert all[..|all| - 1] == [a] + actions[..|actions| - 1];
    }
  }

  lemma OneStepEarlier(cfg: Config, w: World, a: Action, id: Id)
    requires CanBeSentOut(cfg, Next(cfg, w, a), id)
    ensures CanBeSentOut(cfg, w, id)
  {
    var actions :| SentOut(Run(cfg, Next(cfg, w, a), actions), id);
    RunFrom(cfg, w, a, actions);
    assert SentOut(Run(cfg, w, [a] + actions), id);
  }

  lemma DeliveredNow(cfg: Config, w: World, id: Id)
    requires SentOut(w, id)
    ensures CanBeSentOut(cfg, w, id)
  {
    assert Run(cfg, w, []) == w;
  }

  /** How far the unstager is from closing the current request. */
  function Rank(u: Unstager): nat {
    match u
    case RemoveJson(_) => 5
    case RemoveDat(_) => 4
    case Retrying(_, _) => 3
    case Opening(_, _) => 2
    case Sending(_, _, _, _) => 1
    case _ => 0
  }

  function Unsent(u: Unstager): nat {
    if u.Sending? then Max(0, |u.content| - u.sent) else 0
  }

  /** The step that brings the unstager on. */
  function Forward(u: Unstager): Action {
    match u
    case Opening(_, _) => Open(true)
    case Sending(_, _, content, k) => if k < |content| then Send(true) else CloseRequest(Accepted)
    case Retrying(_, _) => Retry(true)
    case _ => Remove(true)
  }

  /** Delivered, one entry nearer, or nearer to closing the request. */
  ghost predicate Nearer(cfg: Config, w: World, w': World, id: Id, p: nat) {
    || SentOut(w', id)
    || (p > 0 && ReachedAt(w', Ahead(cfg, w'.unstager), id, p - 1))
    || (ReachedAt(w', Ahead(cfg, w'.unstager), id, p)
        && (Rank(w'.unstager) < Rank(w.unstager)
            || (Rank(w'.unstager) == Rank(w.unstager) && Unsent(w'.unstager) < Unsent(w.unstager))))
  }

  lemma SendHelps(cfg: Config, w: World, id: Id, p: nat)
    requires Careful(cfg) && Invariant(w) && w.unstager.Sending? && ReachedAt(w, w.unstager.todo, id, p)
    requires w.unstager.sent < |w.unstager.content|
    ensures Nearer(cfg, w, Next(cfg, w, Send(true)), id, p)
  {
    assert Passable(w, w.unstager.todo[0]);
    assert ReachedAt(Next(cfg, w, Send(true)), w.unstager.todo, id, p);
  }

  lemma CloseHelps(cfg: Config, w: World, id: Id, p: nat)
    requires Careful(cfg) && Invariant(w) && w.unstager.Sending? && ReachedAt(w, w.unstager.todo, id, p)
    requires w.unstager.sent == |w.unstager.content|
    ensures Nearer(cfg, w, Next(cfg, w, CloseRequest(Accepted)), id, p)
  {
    var todo, w' := w.unstager.todo, Next(cfg, w, CloseRequest(Accepted));
    assert Passable(w, todo[0]);
    if p == 0 {
      assert Delivery(id, w.unstager.content) in w'.accepted;
    } else {
      forall q | 0 <= q <= p - 1
        ensures Passable(w', todo[1..][q])
      {
        assert Passable(w, todo[q + 1]);
      }
      assert ReachedAt(w', Ahead(cfg, w'.unstager), id, p - 1);
    }
  }

  lemma OpenHelps(cfg: Config, w: World, id: Id, p: nat)
    requires Careful(cfg) && Invariant(w) && w.unstager.Opening? && ReachedAt(w, w.unstager.todo, id, p)
    ensures Nearer(cfg, w, Next(cfg, w, Open(true)), id, p)
  {
    var todo := w.unstager.todo;
    assert todo[0] in todo && IdFaithful(w, todo[0]);
    assert ReachedAt(Next(cfg, w, Open(true)), todo, id, p);
  }

  /** The unstager's step gets id delivered, or comes nearer to it. */
  lemma ForwardHelps(cfg: Config, w: World, id: Id, p: nat)
    requires Careful(cfg) && Invariant(w) && ReachedAt(w, Ahead(cfg, w.unstager), id, p)
    ensures Nearer(cfg, w, Next(cfg, w, Forward(w.unstager)), id, p)
  {
    if w.unstager.Opening? {
      OpenHelps(cfg, w, id, p);
    } else if w.unstager.Sending? {
      if w.unstager.sent < |w.unstager.content| {
        SendHelps(cfg, w, id, p);
      } else {
        CloseHelps(cfg, w, id, p);
      }
    } else {
      assert ReachedAt(Next(cfg, w, Forward(w.unstager)), Ahead(cfg, w.unstager), id, p);
    }
  }

  lemma {:induction false} ReachedIsEnough(cfg: Config, w: World, id: Id, p: nat)
    requires Careful(cfg) && Invariant(w) && ReachedAt(w, Ahead(cfg, w.unstager), id, p)
    ensures CanBeSentOut(cfg, w, id)
    decreases p, Rank(w.unstager), Unsent(w.unstager)
  {
    var a := Forward(w.unstager);
    var w' := Next(cfg, w, a);
    ForwardHelps(cfg, w, id, p);
    NextKeepsInvariant(cfg, w, a);
    if SentOut(w', id) {
      DeliveredNow(cfg, w', id);
    } else if p > 0 && ReachedAt(w', Ahead(cfg, w'.unstager), id, p - 1) {
      ReachedIsEnough(cfg, w', id, p - 1);
    } else {
      ReachedIsEnough(cfg, w', id, p);
    }
    OneStepEarlier(cfg, w, a, id);
  }

  lemma {:induction false} SortedOf(ids: set<Id>, bound: nat) returns (s: seq<Id>)
    requires forall x <- ids :: x < bound
    ensures Sorted(s) && forall x :: x in s <==> x in ids
  {
    if bound == 0 {
      s := [];
    } else {
      var last := bound - 1;
      s := SortedOf(ids - {last}, last);
      assert forall i | 0 <= i < |s| :: s[i] in s;
      if last in ids {
        s := s + [last];
      }
    }
  }

  lemma {:induction false} BoundOf(ids: set<Id>) returns (bound: nat)
    ensures forall x <- ids :: x < bound
  {
    if ids == {} {
      bound := 0;
    } else {
      var x :| x in ids;
      var rest := BoundOf(ids - {x});
      bound := Max(rest, x + 1);
      assert forall y <- ids :: y == x || y in ids - {x};
    }
  }

  /** After a restart the directory is listed anew. */
  lemma FrontClearIsEnough(cfg: Config, w: World, id: Id)
    requires Careful(cfg) && Invariant(w) && id in w.json && FrontClear(w, id)
    ensures CanBeSentOut(cfg, w, id)
  {
    var w1 := Next(cfg, w, CrashUnstager);
    var w2 := Next(cfg, w1, Restart);
    var bound := BoundOf(w.json.Keys);
    var entries := SortedOf(w.json.Keys, bound);
    var w3 := Next(cfg, w2, List(entries));
    NextKeepsInvariant(cfg, w, CrashUnstager);
    NextKeepsInvariant(cfg, w1, Restart);
    NextKeepsInvariant(cfg, w2, List(entries));
    assert FrontClear(w3, id);
    assert DirectoryListing(w3, entries);
    ListingReachesIff(w3, entries, id);
    var p: nat :| ReachedAt(w3, entries, id, p);
    ReachedIsEnough(cfg, w3, id, p);
    OneStepEarlier(cfg, w2, List(entries), id);
    OneStepEarlier(cfg, w1, Restart, id);
    OneStepEarlier(cfg, w, CrashUnstager, id);
  }

  /** From every reachable state, what is found of a staged batch can still be sent out if and only if it
      was already, or neither it nor an entry in front of it is empty or holds a path that leads upward,
      where the front is that of the directory or of the list the unstager is working on. */
  lemma CanBeSentOutIff(cfg: Config, w: World, id: Id)
    requires Careful(cfg) && Invariant(w) && id in w.json
    ensures CanBeSentOut(cfg, w, id) <==> Hope(cfg, w, id)
  {
    assert IdFaithful(w, id);
    if CanBeSentOut(cfg, w, id) {
      var actions :| SentOut(Run(cfg, w, actions), id);
      assert Hope(cfg, Run(cfg, w, actions), id);
      RunGainsNothing(cfg, w, actions, id);
    }
    if SentOut(w, id) {
      DeliveredNow(cfg, w, id);
    } else if Reached(w, Ahead(cfg, w.unstager), id) {
      var p: nat :| ReachedAt(w, Ahead(cfg, w.unstager), id, p);
      ReachedIsEnough(cfg, w, id, p);
    } else if FrontClear(w, id) {
      FrontClearIsEnough(cfg, w, id);
    }
  }

  /** Some future delivers the batch as it was posted. */
  ghost predicate CanBeDelivered(cfg: Config, w: World, id: Id) {
    exists actions :: Delivered(Run(cfg, w, actions), id)
  }

  /** From every reachable state, a staged batch can still get downstream as it was posted if and only if
      the scan finds all of it, and it can be sent out. */
  lemma StagedCanBeDeliveredIff(cfg: Config, w: World, id: Id)
    requires Careful(cfg) && Invariant(w) && w.lib == LIBRARY && id in w.json
    ensures id in w.posts
    ensures CanBeDelivered(cfg, w, id) <==> Whole(w.posts[id].request) && Hope(cfg, w, id)
  {
    assert IdFaithful(w, id);
    CanBeSentOutIff(cfg, w, id);
    forall actions
      ensures Delivered(Run(cfg, w, actions), id) <==> SentOut(Run(cfg, w, actions), id) && Whole(w.posts[id].request)
    {
      RunKeepsInvariant(cfg, w, actions);
      LibraryStays(cfg, w, actions);
      PostsStay(cfg, w, actions, id);
      DeliveredIff(Run(cfg, w, actions), id);
    }
  }

  /** Between two turns of the directory loop only the directory counts. */
  lemma IdleCanDeliverIff(cfg: Config, w: World, id: Id)
    requires Careful(cfg) && Invariant(w) && w.lib == LIBRARY && id in w.json && (w.unstager.Idle? || w.unstager.Stopped?)
    ensures id in w.posts
    ensures CanBeDelivered(cfg, w, id) <==>
              Delivered(w, id) || (Whole(w.posts[id].request) && forall j <- w.json | j <= id :: Passable(w, j))
  {
    StagedCanBeDeliveredIff(cfg, w, id);
    DeliveredIff(w, id);
    assert !Reached(w, [], id);
  }

  /** A request without FlowFiles is never closed: nothing moves the unstager any more but its end. */
  lemma EmptyBatchBlocks(cfg: Config, w: World, todo: seq<Id>, tries: nat, a: Action)
    requires w.unstager == Sending(todo, tries, [], 0) && a != CrashUnstager
    ensures Next(cfg, w, a).unstager == w.unstager
  {
    if a.Step? && a.id in w.posts {
      match w.posts[a.id].pc
      case Write(i) =>
      case Verify(i) =>
      case _ =>
    }
  }
}
