/** Connections and worker tokens of ff-http-to-kcp.go (60-95, 172-198): two bounded channels, one
    refill loop, and any number of posts, each statement on a channel being one step. */
module KcpPool {
  import opened Words

  type Conn = nat

  /** Where a post is. */
  datatype Phase =
    | WaitConn
    | Pinging(conn: Conn)
    | WaitWorker(conn: Conn)
    | Working(conn: Conn, iw: nat)
    | Returning(conn: Conn, iw: nat, failed: bool)
    | Checking(conn: Conn)
    | Sending(conn: Conn)
    | Closing(conn: Conn)
    | Over

  datatype Refill = Resting | Dialing | Holding(conn: Conn)

  datatype State = State(
    connBuf: seq<Conn>,
    worker: seq<nat>,
    posts: seq<Phase>,
    refill: Refill,
    closed: set<Conn>,
    next: Conn)  // connections are numbered as they are dialled

  datatype Action =
    | Arrive
    | TakeConn(p: nat)
    | Ping(p: nat, ok: bool)
    | TakeWorker(p: nat)
    | Finish(p: nat, failed: bool)
    | Release(p: nat)
    | CheckLen(p: nat)
    | SendBack(p: nat)
    | Close(p: nat)
    | RefillCheck
    | Dial(ok: bool)
    | RefillSend

  function Capacity(threads: nat): nat {
    threads + 4
  }

  function Start(threads: nat): State {
    State(UpTo(threads), UpTo(threads), [], Resting, {}, threads)
  }

  function At(s: State, p: nat, ph: Phase): State
    requires p < |s.posts|
  {
    s.(posts := s.posts[p := ph])
  }

  function PostStep(threads: nat, s: State, a: Action): State {
    match a
    case TakeConn(p) =>
      if p < |s.posts| && s.posts[p].WaitConn? && s.connBuf != []
      then At(s, p, Pinging(s.connBuf[0])).(connBuf := s.connBuf[1..]) else s
    case Ping(p, ok) =>
      if p < |s.posts| && s.posts[p].Pinging?
      then if ok then At(s, p, WaitWorker(s.posts[p].conn))
           else At(s, p, WaitConn).(closed := s.closed + {s.posts[p].conn})
      else s
    case TakeWorker(p) =>
      if p < |s.posts| && s.posts[p].WaitWorker? && s.worker != []
      then At(s, p, Working(s.posts[p].conn, s.worker[0])).(worker := s.worker[1..]) else s
    case Finish(p, failed) =>
      if p < |s.posts| && s.posts[p].Working?
      then At(s, p, Returning(s.posts[p].conn, s.posts[p].iw, failed)) else s
    case Release(p) =>
      if p < |s.posts| && s.posts[p].Returning? && |s.worker| < threads
      then At(s, p, if s.posts[p].failed then Closing(s.posts[p].conn) else Checking(s.posts[p].conn))
             .(worker := s.worker + [s.posts[p].iw])
      else s
    case CheckLen(p) =>
      if p < |s.posts| && s.posts[p].Checking?
      then At(s, p, if |s.connBuf| < threads - 1 then Sending(s.posts[p].conn) else Closing(s.posts[p].conn)) else s
    case SendBack(p) =>
      if p < |s.posts| && s.posts[p].Sending? && |s.connBuf| < Capacity(threads)
      then At(s, p, Over).(connBuf := s.connBuf + [s.posts[p].conn]) else s
    case Close(p) =>
      if p < |s.posts| && s.posts[p].Closing?
      then At(s, p, Over).(closed := s.closed + {s.posts[p].conn}) else s
    case _ => s
  }

  /** A step that would block, or is not next in its program, leaves s as it is. `RefillCheck` reads the
      lengths of both channels in one step, where the program reads one after the other. */
  function Next(threads: nat, s: State, a: Action): State {
    match a
    case Arrive => s.(posts := s.posts + [WaitConn])
    case RefillCheck =>
      if s.refill.Resting? && |s.connBuf| + |s.worker| <= threads then s.(refill := Dialing) else s
    case Dial(ok) =>
      if !s.refill.Dialing? then s
      else if ok then s.(refill := Holding(s.next), next := s.next + 1)
      else s.(refill := Resting)
    case RefillSend =>
      if s.refill.Holding? && |s.connBuf| < Capacity(threads)
      then s.(refill := Resting, connBuf := s.connBuf + [s.refill.conn]) else s
    case _ => PostStep(threads, s, a)
  }

  function Run(threads: nat, s: State, actions: seq<Action>): State {
    if actions == [] then s
    else Next(threads, Run(threads, s, actions[..|actions| - 1]), actions[|actions| - 1])
  }

  // ---------------------------------------------------------------- who owns what

  /** Who has which of the numbered items: some wait in a channel, some are held by one of the owners,
      some are gone for good. */
  datatype Ledger = Ledger(pool: seq<nat>, owners: seq<Option<nat>>, gone: set<nat>, issued: nat)

  datatype Move = Join | Take(o: nat) | Give(o: nat) | Drop(o: nat) | Issue(o: nat)

  function Moved(l: Ledger, m: Move): Ledger {
    match m
    case Join => l.(owners := l.owners + [None])
    case Take(o) =>
      if o < |l.owners| && l.owners[o] == None && l.pool != []
      then l.(pool := l.pool[1..], owners := l.owners[o := Some(l.pool[0])]) else l
    case Give(o) =>
      if o < |l.owners| && l.owners[o].Some?
      then l.(pool := l.pool + [l.owners[o].value], owners := l.owners[o := None]) else l
    case Drop(o) =>
      if o < |l.owners| && l.owners[o].Some?
      then l.(gone := l.gone + {l.owners[o].value}, owners := l.owners[o := None]) else l
    case Issue(o) =>
      if o < |l.owners| && l.owners[o] == None
      then l.(owners := l.owners[o := Some(l.issued)], issued := l.issued + 1) else l
  }

  ghost predicate NoneLost(l: Ledger) {
    forall c: nat | c < l.issued :: c in l.pool || c in l.gone || Some(c) in l.owners
  }

  ghost predicate NoneShared(l: Ledger) {
    && Distinct(l.pool)
    && (forall c <- l.pool :: c < l.issued && c !in l.gone)
    && (forall o | 0 <= o < |l.owners| && l.owners[o].Some? ::
          l.owners[o].value < l.issued && l.owners[o].value !in l.gone && l.owners[o].value !in l.pool)
    && (forall o, q | 0 <= o < q < |l.owners| && l.owners[o].Some? :: l.owners[o] != l.owners[q])
    && (forall c <- l.gone :: c < l.issued)
  }

  /** Every item issued so far is in exactly one place. */
  ghost predicate OnePlace(l: Ledger) {
    NoneShared(l) && NoneLost(l)
  }

  lemma TakeShares(l: Ledger, o: nat)
    requires NoneShared(l) && l.pool != []
    ensures NoneShared(Moved(l, Take(o)))
  {
    assert l.pool[0] in l.pool;
    assert forall c <- l.pool[1..] :: c in l.pool;
  }

  lemma GiveShares(l: Ledger, o: nat)
    requires NoneShared(l)
    ensures NoneShared(Moved(l, Give(o)))
  {
  }

  lemma NoSharing(l: Ledger, m: Move)
    requires NoneShared(l)
    ensures NoneShared(Moved(l, m))
  {
    match m
    case Join =>
    case Take(o) => if l.pool != [] { TakeShares(l, o); }
    case Give(o) => GiveShares(l, o);
    case Drop(o) =>
    case Issue(o) =>
  }

  lemma StaysOwned(l: Ledger, o: nat, v: Option<nat>, c: nat)
    requires o < |l.owners| && Some(c) in l.owners && l.owners[o] != Some(c)
    ensures Some(c) in l.owners[o := v]
  {
    var q :| 0 <= q < |l.owners| && l.owners[q] == Some(c);
    assert l.owners[o := v][q] == Some(c);
  }

  lemma NotLost(l: Ledger, m: Move, c: nat)
    requires NoneLost(l) && c < l.issued
    ensures var t := Moved(l, m); c in t.pool || c in t.gone || Some(c) in t.owners
  {
    if !m.Join? && m.o < |l.owners| && Some(c) in l.owners && l.owners[m.o] != Some(c) {
      StaysOwned(l, m.o, None, c);
      StaysOwned(l, m.o, Some(l.issued), c);
      if l.pool != [] {
        StaysOwned(l, m.o, Some(l.pool[0]), c);
      }
    } else if m.Take? && m.o < |l.owners| && l.pool != [] {
      assert l.owners[m.o := Some(l.pool[0])][m.o] == Some(l.pool[0]);
      assert l.pool == [l.pool[0]] + l.pool[1..];
    }
  }

  lemma MoveKeepsOnePlace(l: Ledger, m: Move)
    requires OnePlace(l)
    ensures OnePlace(Moved(l, m))
  {
    NoSharing(l, m);
    var t := Moved(l, m);
    forall c: nat | c < t.issued
      ensures c in t.pool || c in t.gone || Some(c) in t.owners
    {
      if c < l.issued {
        NotLost(l, m, c);
      } else {
        assert t.owners[m.o] == Some(c);
      }
    }
  }

  function ConnOf(ph: Phase): Option<nat> {
    if ph.WaitConn? || ph.Over? then None else Some(ph.conn)
  }

  function TokenOf(ph: Phase): Option<nat> {
    if ph.Working? || ph.Returning? then Some(ph.iw) else None
  }

  function ConnOwners(posts: seq<Phase>): (os: seq<Option<nat>>)
    ensures |os| == |posts| && forall p | 0 <= p < |posts| :: os[p] == ConnOf(posts[p])
  {
    seq(|posts|, p requires 0 <= p < |posts| => ConnOf(posts[p]))
  }

  function TokenOwners(posts: seq<Phase>): (os: seq<Option<nat>>)
    ensures |os| == |posts| && forall p | 0 <= p < |posts| :: os[p] == TokenOf(posts[p])
  {
    seq(|posts|, p requires 0 <= p < |posts| => TokenOf(posts[p]))
  }

  /** The connections; owner 0 is the refill loop. */
  function Conns(s: State): Ledger {
    Ledger(s.connBuf, [if s.refill.Holding? then Some(s.refill.conn) else None] + ConnOwners(s.posts), s.closed, s.next)
  }

  /** The worker tokens. */
  function Tokens(threads: nat, s: State): Ledger {
    Ledger(s.worker, TokenOwners(s.posts), {}, threads)
  }

  ghost predicate Invariant(threads: nat, s: State) {
    OnePlace(Conns(s)) && OnePlace(Tokens(threads, s)) && |s.connBuf| <= threads + 4
  }

  /** Of the connections a step moves at most one, and so of the tokens. */
  function ConnMove(a: Action): Move {
    match a
    case TakeConn(p) => Take(p + 1)
    case Ping(p, _) => Drop(p + 1)
    case SendBack(p) => Give(p + 1)
    case Close(p) => Drop(p + 1)
    case Dial(_) => Issue(0)
    case RefillSend => Give(0)
    case _ => Join
  }

  function TokenMove(a: Action): Move {
    match a
    case TakeWorker(p) => Take(p)
    case Release(p) => Give(p)
    case _ => Join
  }

  lemma OwnersSet(posts: seq<Phase>, p: nat, ph: Phase)
    requires p < |posts|
    ensures ConnOwners(posts[p := ph]) == ConnOwners(posts)[p := ConnOf(ph)]
    ensures TokenOwners(posts[p := ph]) == TokenOwners(posts)[p := TokenOf(ph)]
    ensures forall o :: ([o] + ConnOwners(posts))[p + 1 := ConnOf(ph)] == [o] + ConnOwners(posts[p := ph])
  {
  }

  predicate OfPost(s: State, a: Action) {
    !a.Arrive? && !a.RefillCheck? && !a.Dial? && !a.RefillSend? && a.p < |s.posts|
  }

  lemma OnePostTouched(threads: nat, s: State, a: Action)
    requires OfPost(s, a)
    ensures var t := Next(threads, s, a); |t.posts| == |s.posts| && t.posts == s.posts[a.p := t.posts[a.p]]
  {
  }

  lemma HolderStays(threads: nat, s: State, a: Action)
    requires OfPost(s, a) && (a.TakeWorker? || a.Finish? || a.Release? || a.CheckLen?)
    ensures Conns(Next(threads, s, a)) == Conns(s)
  {
    OnePostTouched(threads, s, a);
    var ph := Next(threads, s, a).posts[a.p];
    OwnersSet(s.posts, a.p, ph);
    assert ConnOf(ph) == ConnOf(s.posts[a.p]);
    assert ConnOwners(s.posts)[a.p := ConnOf(ph)] == ConnOwners(s.posts);
  }

  ghost predicate MovesConn(threads: nat, s: State, a: Action) {
    var l, t := Conns(s), Conns(Next(threads, s, a));
    t == l || t == Moved(l, ConnMove(a))
  }

  lemma TakeMovesConn(threads: nat, s: State, p: nat)
    requires p < |s.posts|
    ensures MovesConn(threads, s, TakeConn(p))
  {
    if s.connBuf != [] {
      OwnersSet(s.posts, p, Pinging(s.connBuf[0]));
    }
  }

  lemma PingMovesConn(threads: nat, s: State, p: nat, ok: bool)
    requires p < |s.posts|
    ensures MovesConn(threads, s, Ping(p, ok))
  {
    var ph := Next(threads, s, Ping(p, ok)).posts[p];
    OwnersSet(s.posts, p, ph);
    assert ok ==> ConnOwners(s.posts)[p := ConnOf(ph)] == ConnOwners(s.posts);
  }

  lemma LastMovesConn(threads: nat, s: State, p: nat)
    requires p < |s.posts|
    ensures MovesConn(threads, s, SendBack(p))
    ensures MovesConn(threads, s, Close(p))
  {
    OwnersSet(s.posts, p, Over);
  }

  lemma ConnStep(threads: nat, s: State, a: Action)
    ensures MovesConn(threads, s, a)
  {
    if !OfPost(s, a) {
      assert ConnOwners(s.posts + [WaitConn]) == ConnOwners(s.posts) + [None];
    } else {
      match a
      case TakeConn(p) => TakeMovesConn(threads, s, p);
      case Ping(p, ok) => PingMovesConn(threads, s, p, ok);
      case SendBack(p) => LastMovesConn(threads, s, p);
      case Close(p) => LastMovesConn(threads, s, p);
      case _ => HolderStays(threads, s, a);
    }
  }

  lemma TokenStep(threads: nat, s: State, a: Action)
    ensures var l, t := Tokens(threads, s), Tokens(threads, Next(threads, s, a)); t == l || t == Moved(l, TokenMove(a))
  {
    if OfPost(s, a) {
      OnePostTouched(threads, s, a);
      OwnersSet(s.posts, a.p, Next(threads, s, a).posts[a.p]);
    } else {
      assert TokenOwners(s.posts + [WaitConn]) == TokenOwners(s.posts) + [None];
    }
  }

  lemma HeadBounded(s: seq<nat>, n: nat)
    requires s != [] && forall t <- s :: t < n
    ensures n > 0
  {
    assert s[0] in s;
  }

  lemma {:induction false} DistinctBounded(s: seq<nat>, n: nat)
    requires Distinct(s) && forall t <- s :: t < n
    ensures |s| <= n
    ensures |s| == n ==> forall t: nat | t < n :: t in s
    decreases n
  {
    if n == 0 {
      if s != [] {
        HeadBounded(s, n);
      }
    } else if n - 1 in s {
      var i :| 0 <= i < |s| && s[i] == n - 1;
      var rest := s[..i] + s[i + 1..];
      assert forall t <- rest :: t in s && t != n - 1;
      DistinctBounded(rest, n - 1);
      assert forall t <- rest :: t in s;
    } else {
      DistinctBounded(s, n - 1);
    }
  }

  lemma PoolStaysInCapacity(threads: nat, s: State, a: Action)
    requires |s.connBuf| <= Capacity(threads)
    ensures |Next(threads, s, a).connBuf| <= Capacity(threads)
  {
  }

  lemma NextKeepsInvariant(threads: nat, s: State, a: Action)
    requires Invariant(threads, s)
    ensures Invariant(threads, Next(threads, s, a))
  {
    ConnStep(threads, s, a);
    MoveKeepsOnePlace(Conns(s), ConnMove(a));
    TokenStep(threads, s, a);
    MoveKeepsOnePlace(Tokens(threads, s), TokenMove(a));
    PoolStaysInCapacity(threads, s, a);
  }

  lemma {:induction false} RunKeepsInvariant(threads: nat, s: State, actions: seq<Action>)
    requires Invariant(threads, s)
    ensures Invariant(threads, Run(threads, s, actions))
  {
    if actions != [] {
      RunKeepsInvariant(threads, s, actions[..|actions| - 1]);
      NextKeepsInvariant(threads, Run(threads, s, actions[..|actions| - 1]), actions[|actions| - 1]);
    }
  }

  lemma StartInvariant(threads: nat)
    ensures Invariant(threads, Start(threads))
  {
    var ids := UpTo(threads);
    forall t: nat | t < threads
      ensures t in ids
    {
      assert ids[t] == t;
    }
  }

  /** In every run: each token is in the channel or with one post, and each connection ever dialled is in
      the pool once, or with one post or the refill loop, or closed; and no channel holds more than it can. */
  lemma PoolExclusive(threads: nat, actions: seq<Action>)
    ensures Invariant(threads, Run(threads, Start(threads), actions))
  {
    StartInvariant(threads);
    RunKeepsInvariant(threads, Start(threads), actions);
  }

  // ---------------------------------------------------------------- nobody is stuck

  lemma RunExtends(threads: nat, start: State, actions: seq<Action>, s: State, a: Action) returns (more: seq<Action>)
    requires Run(threads, start, actions) == s
    ensures more == actions + [a] && Run(threads, start, more) == Next(threads, s, a)
  {
    more := actions + [a];
    assert more[..|more| - 1] == actions;
  }

  ghost predicate NobodyArrives(actions: seq<Action>) {
    forall i | 0 <= i < |actions| :: !actions[i].Arrive?
  }

  /** A run without newcomers leads from `start`, itself a state of some run, to s. */
  ghost predicate Reached(threads: nat, start: State, actions: seq<Action>, s: State) {
    Run(threads, start, actions) == s && NobodyArrives(actions) && Invariant(threads, start)
  }

  lemma Do(threads: nat, start: State, actions: seq<Action>, s: State, a: Action) returns (more: seq<Action>, t: State)
    requires Reached(threads, start, actions, s) && !a.Arrive?
    ensures t == Next(threads, s, a) && Reached(threads, start, more, t)
  {
    more := RunExtends(threads, start, actions, s, a);
    t := Next(threads, s, a);
  }

  /** An empty pool always satisfies the guard of the refill loop, because there are never more than
      `threads` tokens in the channel. */
  lemma EmptyPoolRefills(threads: nat, s: State)
    requires Invariant(threads, s) && s.connBuf == []
    ensures |s.connBuf| + |s.worker| <= threads
  {
    DistinctBounded(s.worker, threads);
  }

  /** The channel has room for the token a post brings back. */
  lemma ReleaseNeverBlocks(threads: nat, s: State, p: nat)
    requires Invariant(threads, s) && p < |s.posts| && TokenOf(s.posts[p]).Some?
    ensures |s.worker| < threads
  {
    DistinctBounded(s.worker, threads);
  }

  lemma GuardHolds(threads: nat, start: State, actions: seq<Action>, s: State)
    requires Reached(threads, start, actions, s) && s.connBuf == []
    ensures |s.connBuf| + |s.worker| <= threads
  {
    RunKeepsInvariant(threads, start, actions);
    EmptyPoolRefills(threads, s);
  }

  lemma RoomForToken(threads: nat, start: State, actions: seq<Action>, s: State, p: nat)
    requires Reached(threads, start, actions, s) && p < |s.posts| && TokenOf(s.posts[p]).Some?
    ensures |s.worker| < threads
  {
    RunKeepsInvariant(threads, start, actions);
    ReleaseNeverBlocks(threads, s, p);
  }

  lemma WithinCapacity(threads: nat, start: State, actions: seq<Action>, s: State)
    requires Reached(threads, start, actions, s)
    ensures |s.connBuf| <= Capacity(threads)
  {
    RunKeepsInvariant(threads, start, actions);
  }

  lemma TokenHolder(threads: nat, start: State, actions: seq<Action>, s: State) returns (q: nat)
    requires Reached(threads, start, actions, s) && threads > 0 && s.worker == []
    ensures q < |s.posts| && TokenOf(s.posts[q]).Some?
  {
    RunKeepsInvariant(threads, start, actions);
    var owners := TokenOwners(s.posts);
    assert Some(0) in owners;
    q :| 0 <= q < |owners| && owners[q] == Some(0);
  }

  lemma RefillEmpty(threads: nat, start: State, actions: seq<Action>, s: State) returns (more: seq<Action>, t: State)
    requires Reached(threads, start, actions, s) && s.connBuf == [] && !s.refill.Holding?
    ensures Reached(threads, start, more, t) && t.posts == s.posts && t.connBuf == [] && t.refill.Holding?
  {
    more, t := actions, s;
    if s.refill.Resting? {
      GuardHolds(threads, start, actions, s);
      more, t := Do(threads, start, more, t, RefillCheck);
    }
    more, t := Do(threads, start, more, t, Dial(true));
  }

  lemma RefillOne(threads: nat, start: State, actions: seq<Action>, s: State) returns (more: seq<Action>, t: State)
    requires Reached(threads, start, actions, s) && s.connBuf == [] && s.refill.Holding?
    ensures Reached(threads, start, more, t) && t.posts == s.posts && t.connBuf != []
  {
    more, t := Do(threads, start, actions, s, RefillSend);
  }

  lemma GetConnection(threads: nat, start: State, actions: seq<Action>, s: State) returns (more: seq<Action>, t: State)
    requires Reached(threads, start, actions, s)
    ensures Reached(threads, start, more, t) && t.posts == s.posts && t.connBuf != []
  {
    more, t := actions, s;
    if s.connBuf == [] {
      if !s.refill.Holding? {
        more, t := RefillEmpty(threads, start, actions, s);
      }
      more, t := RefillOne(threads, start, more, t);
    }
  }

  lemma DoFinish(threads: nat, start: State, actions: seq<Action>, s: State, q: nat) returns (more: seq<Action>, t: State)
    requires Reached(threads, start, actions, s) && q < |s.posts| && s.posts[q].Working?
    ensures Reached(threads, start, more, t) && t == At(s, q, Returning(s.posts[q].conn, s.posts[q].iw, false))
  {
    more, t := Do(threads, start, actions, s, Finish(q, false));
  }

  lemma DoRelease(threads: nat, start: State, actions: seq<Action>, s: State, q: nat) returns (more: seq<Action>, t: State)
    requires Reached(threads, start, actions, s) && q < |s.posts| && s.posts[q].Returning?
    ensures Reached(threads, start, more, t) && t.worker == s.worker + [s.posts[q].iw]
    ensures |t.posts| == |s.posts| && (t.posts[q].Checking? || t.posts[q].Closing?)
    ensures forall p | 0 <= p < |s.posts| && p != q :: t.posts[p] == s.posts[p]
  {
    RoomForToken(threads, start, actions, s, q);
    more, t := Do(threads, start, actions, s, Release(q));
  }

  lemma GiveUpToken(threads: nat, start: State, actions: seq<Action>, s: State, q: nat) returns (more: seq<Action>, t: State)
    requires Reached(threads, start, actions, s) && q < |s.posts| && TokenOf(s.posts[q]).Some?
    ensures Reached(threads, start, more, t) && t.worker != []
    ensures |t.posts| == |s.posts| && (t.posts[q].Checking? || t.posts[q].Closing?)
    ensures forall p | 0 <= p < |s.posts| && p != q :: t.posts[p] == s.posts[p]
  {
    if s.posts[q].Working? {
      var middle, u := DoFinish(threads, start, actions, s, q);
      more, t := DoRelease(threads, start, middle, u, q);
    } else {
      more, t := DoRelease(threads, start, actions, s, q);
    }
  }

  /** With no token in the channel, whoever has token 0 can bring it back without waiting for anything. */
  lemma GetToken(threads: nat, start: State, actions: seq<Action>, s: State, p: nat) returns (more: seq<Action>, t: State)
    requires Reached(threads, start, actions, s) && threads > 0 && p < |s.posts| && s.posts[p].WaitWorker?
    ensures Reached(threads, start, more, t) && |t.posts| == |s.posts| && t.posts[p] == s.posts[p] && t.worker != []
  {
    more, t := actions, s;
    if s.worker == [] {
      var q := TokenHolder(threads, start, actions, s);
      more, t := GiveUpToken(threads, start, actions, s, q);
    }
  }

  lemma DoTakeWorker(threads: nat, start: State, actions: seq<Action>, s: State, p: nat) returns (more: seq<Action>, t: State)
    requires Reached(threads, start, actions, s) && threads > 0 && p < |s.posts| && s.posts[p].WaitWorker?
    ensures Reached(threads, start, more, t) && |t.posts| == |s.posts| && t.posts[p].Working?
  {
    more, t := GetToken(threads, start, actions, s, p);
    more, t := Do(threads, start, more, t, TakeWorker(p));
  }

  lemma Serve(threads: nat, start: State, actions: seq<Action>, s: State, p: nat) returns (more: seq<Action>, t: State)
    requires Reached(threads, start, actions, s) && threads > 0 && p < |s.posts|
    requires s.posts[p].WaitWorker? || TokenOf(s.posts[p]).Some?
    ensures Reached(threads, start, more, t) && |t.posts| == |s.posts| && (t.posts[p].Checking? || t.posts[p].Closing?)
  {
    more, t := actions, s;
    if s.posts[p].WaitWorker? {
      more, t := DoTakeWorker(threads, start, actions, s, p);
    }
    more, t := GiveUpToken(threads, start, more, t, p);
  }

  lemma DoCheck(threads: nat, start: State, actions: seq<Action>, s: State, p: nat) returns (more: seq<Action>, t: State)
    requires Reached(threads, start, actions, s) && p < |s.posts| && s.posts[p].Checking?
    ensures Reached(threads, start, more, t) && |t.posts| == |s.posts|
    ensures t.posts[p].Closing? || (t.posts[p].Sending? && |t.connBuf| < Capacity(threads))
  {
    more, t := Do(threads, start, actions, s, CheckLen(p));
  }

  lemma DoClose(threads: nat, start: State, actions: seq<Action>, s: State, p: nat) returns (more: seq<Action>, t: State)
    requires Reached(threads, start, actions, s) && p < |s.posts| && s.posts[p].Closing?
    ensures Reached(threads, start, more, t) && |t.posts| == |s.posts| && t.posts[p].Over?
  {
    more, t := Do(threads, start, actions, s, Close(p));
  }

  lemma DoSendBack(threads: nat, start: State, actions: seq<Action>, s: State, p: nat) returns (more: seq<Action>, t: State)
    requires Reached(threads, start, actions, s) && p < |s.posts| && s.posts[p].Sending? && |s.connBuf| < Capacity(threads)
    ensures Reached(threads, start, more, t) && |t.posts| == |s.posts| && t.posts[p].Over?
  {
    more, t := Do(threads, start, actions, s, SendBack(p));
  }

  predicate WantsConn(ph: Phase) {
    ph.WaitConn? || ph.Pinging?
  }

  /** p is about to send its connection back, the pool is full, and nobody else is after a connection. */
  ghost predicate Jammed(threads: nat, s: State, p: nat)
    requires p < |s.posts|
  {
    && s.posts[p].Sending? && |s.connBuf| >= threads + 4
    && forall q | 0 <= q < |s.posts| :: !WantsConn(s.posts[q])
  }

  lemma MakeRoom(threads: nat, start: State, actions: seq<Action>, s: State, q: nat) returns (more: seq<Action>, t: State)
    requires Reached(threads, start, actions, s) && q < |s.posts| && WantsConn(s.posts[q])
    requires s.connBuf != []
    ensures Reached(threads, start, more, t) && |t.posts| == |s.posts| && |t.connBuf| == |s.connBuf| - 1
    ensures forall p | 0 <= p < |s.posts| && p != q :: t.posts[p] == s.posts[p]
  {
    more, t := actions, s;
    if s.posts[q].Pinging? {
      more, t := Do(threads, start, more, t, Ping(q, false));
    }
    more, t := Do(threads, start, more, t, TakeConn(q));
  }

  lemma SendWhenRoom(threads: nat, start: State, actions: seq<Action>, s: State, p: nat) returns (more: seq<Action>, t: State)
    requires Reached(threads, start, actions, s) && p < |s.posts| && s.posts[p].Sending? && !Jammed(threads, s, p)
    ensures Reached(threads, start, more, t) && |t.posts| == |s.posts| && t.posts[p].Over?
  {
    more, t := actions, s;
    WithinCapacity(threads, start, actions, s);
    if |s.connBuf| >= Capacity(threads) {
      var q :| 0 <= q < |s.posts| && WantsConn(s.posts[q]);
      more, t := MakeRoom(threads, start, actions, s, q);
    }
    more, t := DoSendBack(threads, start, more, t, p);
  }

  lemma Connect(threads: nat, start: State, actions: seq<Action>, s: State, p: nat) returns (more: seq<Action>, t: State)
    requires Reached(threads, start, actions, s) && p < |s.posts| && WantsConn(s.posts[p])
    ensures Reached(threads, start, more, t) && |t.posts| == |s.posts| && t.posts[p].WaitWorker?
  {
    more, t := actions, s;
    if s.posts[p].WaitConn? {
      more, t := GetConnection(threads, start, actions, s);
      more, t := Do(threads, start, more, t, TakeConn(p));
    }
    more, t := Do(threads, start, more, t, Ping(p, true));
  }

  /** With nobody new arriving, every post that is not jammed can still be brought to its end, given
      that dialling can succeed and connections can answer. */
  lemma PostFinishes(threads: nat, s: State, p: nat) returns (actions: seq<Action>)
    requires Invariant(threads, s) && threads > 0 && p < |s.posts| && !Jammed(threads, s, p)
    ensures NobodyArrives(actions) && Finished(Run(threads, s, actions), p)
  {
    var t := s;
    actions := [];
    if t.posts[p].Sending? {
      actions, t := SendWhenRoom(threads, s, actions, t, p);
      return;
    }
    if WantsConn(t.posts[p]) {
      actions, t := Connect(threads, s, actions, t, p);
    }
    if t.posts[p].WaitWorker? || TokenOf(t.posts[p]).Some? {
      actions, t := Serve(threads, s, actions, t, p);
    }
    if t.posts[p].Checking? {
      actions, t := DoCheck(threads, s, actions, t, p);
    }
    if t.posts[p].Closing? {
      actions, t := DoClose(threads, s, actions, t, p);
    } else if t.posts[p].Sending? {
      actions, t := DoSendBack(threads, s, actions, t, p);
    }
  }

  ghost predicate Finished(s: State, p: nat) {
    p < |s.posts| && s.posts[p].Over?
  }

  lemma {:induction false} JamLasts(threads: nat, s: State, p: nat, actions: seq<Action>)
    requires p < |s.posts| && Jammed(threads, s, p) && NobodyArrives(actions)
    ensures var t := Run(threads, s, actions); |t.posts| == |s.posts| && Jammed(threads, t, p)
  {
    if actions != [] {
      JamLasts(threads, s, p, actions[..|actions| - 1]);
      JamOutlives(threads, Run(threads, s, actions[..|actions| - 1]), p, actions[|actions| - 1]);
    }
  }

  lemma JamOutlives(threads: nat, s: State, p: nat, a: Action)
    requires p < |s.posts| && Jammed(threads, s, p) && !a.Arrive?
    ensures var t := Next(threads, s, a); |t.posts| == |s.posts| && Jammed(threads, t, p)
  {
  }

  /** Whether a post can end without any newcomer: always, except when it came between the check of the
      pool's length and its send that others filled the pool, and nobody wants a connection any more. */
  lemma FinishesUnaidedIff(threads: nat, s: State, p: nat)
    requires Invariant(threads, s) && threads > 0 && p < |s.posts|
    ensures (exists actions :: NobodyArrives(actions) && Finished(Run(threads, s, actions), p)) <==> !Jammed(threads, s, p)
  {
    if Jammed(threads, s, p) {
      forall actions | NobodyArrives(actions)
        ensures !Finished(Run(threads, s, actions), p)
      {
        JamLasts(threads, s, p, actions);
      }
    } else {
      var actions := PostFinishes(threads, s, p);
    }
  }

  /** No deadlock for good: in every reachable state every post can still end, if newcomers may arrive. */
  lemma EveryPostCanFinish(threads: nat, s: State, p: nat) returns (actions: seq<Action>)
    requires Invariant(threads, s) && threads > 0 && p < |s.posts|
    ensures Finished(Run(threads, s, actions), p)
  {
    if Jammed(threads, s, p) {
      var first := RunExtends(threads, s, [], s, Arrive);
      var t := Next(threads, s, Arrive);
      NextKeepsInvariant(threads, s, Arrive);
      assert WantsConn(t.posts[|s.posts|]);
      var rest := PostFinishes(threads, t, p);
      RunSplits(threads, s, first, rest);
      actions := first + rest;
    } else {
      actions := PostFinishes(threads, s, p);
    }
  }

  lemma {:induction false} NobodyServedWithoutThreads(actions: seq<Action>)
    ensures var s := Run(0, Start(0), actions);
            s.worker == [] && forall p | 0 <= p < |s.posts| ::
              s.posts[p].WaitConn? || s.posts[p].Pinging? || s.posts[p].WaitWorker?
  {
    if actions != [] {
      NobodyServedWithoutThreads(actions[..|actions| - 1]);
    }
  }

  /** -threads 0 is the one setting with which no post ever ends. */
  lemma ServesIff(threads: nat)
    ensures (exists actions :: PostEnds(Run(threads, Start(threads), actions))) <==> threads > 0
  {
    if threads > 0 {
      StartInvariant(threads);
      var actions := RunExtends(threads, Start(threads), [], Start(threads), Arrive);
      var s := Next(threads, Start(threads), Arrive);
      NextKeepsInvariant(threads, Start(threads), Arrive);
      var rest := EveryPostCanFinish(threads, s, 0);
      RunSplits(threads, Start(threads), actions, rest);
      assert Finished(Run(threads, Start(threads), actions + rest), 0);
    } else {
      forall actions
        ensures !PostEnds(Run(threads, Start(threads), actions))
      {
        NobodyServedWithoutThreads(actions);
      }
    }
  }

  ghost predicate PostEnds(s: State) {
    exists p: nat :: Finished(s, p)
  }

  lemma {:induction false} RunSplits(threads: nat, s: State, a: seq<Action>, b: seq<Action>)
    ensures Run(threads, s, a + b) == Run(threads, Run(threads, s, a), b)
  {
    if b == [] {
      assert a + b == a;
    } else {
      RunSplits(threads, s, a, b[..|b| - 1]);
      assert (a + b)[..|a + b| - 1] == a + b[..|b| - 1];
    }
  }

  // ---------------------------------------------------------------- how a jam comes about

  ghost predicate SomeoneJammed(threads: nat, s: State) {
    exists p: nat :: p < |s.posts| && Jammed(threads, s, p)
  }

  ghost predicate NobodySends(s: State) {
    forall p | 0 <= p < |s.posts| :: !s.posts[p].Sending?
  }

  lemma NextSendsNothing(threads: nat, s: State, a: Action)
    requires threads < 2 && NobodySends(s)
    ensures NobodySends(Next(threads, s, a))
  {
  }

  lemma {:induction false} NobodySendsBack(threads: nat, actions: seq<Action>)
    requires threads < 2
    ensures NobodySends(Run(threads, Start(threads), actions))
  {
    if actions != [] {
      NobodySendsBack(threads, actions[..|actions| - 1]);
      NextSendsNothing(threads, Run(threads, Start(threads), actions[..|actions| - 1]), actions[|actions| - 1]);
    }
  }

  /** The pool is empty, every token is back, and the posts wait to send their connections back. */
  ghost predicate Crowded(threads: nat, s: State) {
    && s.connBuf == [] && |s.worker| == threads && s.refill.Resting?
    && forall p | 0 <= p < |s.posts| :: s.posts[p].Sending?
  }

  /** As before, but for the last post, which waits for a connection. */
  ghost predicate OneWaits(threads: nat, s: State) {
    && |s.worker| == threads && s.refill.Resting?
    && |s.posts| > 0 && s.posts[|s.posts| - 1].WaitConn?
    && forall p | 0 <= p < |s.posts| - 1 :: s.posts[p].Sending?
  }

  lemma GetsConnection(threads: nat, start: State, actions: seq<Action>, s: State) returns (more: seq<Action>, t: State)
    requires OneWaits(threads, s) && s.connBuf == [] && Run(threads, start, actions) == s
    ensures Run(threads, start, more) == t && t.connBuf == [] && t.worker == s.worker && t.refill.Resting?
    ensures exists c :: t.posts == s.posts[|s.posts| - 1 := Pinging(c)]
  {
    more := RunExtends(threads, start, actions, s, RefillCheck);
    t := Next(threads, s, RefillCheck);
    more := RunExtends(threads, start, more, t, Dial(true));
    t := Next(threads, t, Dial(true));
    more := RunExtends(threads, start, more, t, RefillSend);
    t := Next(threads, t, RefillSend);
    more := RunExtends(threads, start, more, t, TakeConn(|s.posts| - 1));
    t := Next(threads, t, TakeConn(|s.posts| - 1));
    assert t.posts == s.posts[|s.posts| - 1 := Pinging(s.next)];
  }

  lemma PassesThrough(threads: nat, start: State, actions: seq<Action>, s: State, p: nat, c: Conn)
      returns (more: seq<Action>, t: State)
    requires threads >= 2 && p < |s.posts| && s.posts[p] == Pinging(c) && |s.worker| == threads && s.refill.Resting?
    requires s.connBuf == [] && Run(threads, start, actions) == s
    ensures Run(threads, start, more) == t && t.connBuf == [] && |t.worker| == threads && t.refill.Resting?
    ensures t.posts == s.posts[p := Sending(c)]
  {
    more := RunExtends(threads, start, actions, s, Ping(p, true));
    t := Next(threads, s, Ping(p, true));
    more := RunExtends(threads, start, more, t, TakeWorker(p));
    t := Next(threads, t, TakeWorker(p));
    more := RunExtends(threads, start, more, t, Finish(p, false));
    t := Next(threads, t, Finish(p, false));
    more := RunExtends(threads, start, more, t, Release(p));
    t := Next(threads, t, Release(p));
    more := RunExtends(threads, start, more, t, CheckLen(p));
    t := Next(threads, t, CheckLen(p));
  }

  lemma Queues(threads: nat, start: State, actions: seq<Action>, s: State) returns (more: seq<Action>, t: State)
    requires threads >= 2 && OneWaits(threads, s) && s.connBuf == [] && Run(threads, start, actions) == s
    ensures Run(threads, start, more) == t && Crowded(threads, t) && |t.posts| == |s.posts|
  {
    more, t := GetsConnection(threads, start, actions, s);
    var c :| t.posts == s.posts[|s.posts| - 1 := Pinging(c)];
    more, t := PassesThrough(threads, start, more, t, |s.posts| - 1, c);
  }

  lemma {:induction false} QueuesGrow(threads: nat, start: State, actions: seq<Action>, s: State, n: nat)
      returns (more: seq<Action>, t: State)
    requires threads >= 2 && Crowded(threads, s) && Run(threads, start, actions) == s
    ensures Run(threads, start, more) == t && Crowded(threads, t) && |t.posts| == |s.posts| + n
    decreases n
  {
    more, t := actions, s;
    if n > 0 {
      more := RunExtends(threads, start, more, t, Arrive);
      t := Next(threads, t, Arrive);
      more, t := Queues(threads, start, more, t);
      more, t := QueuesGrow(threads, start, more, t, n - 1);
    }
  }

  /** One post drains the pool: none of the connections answers. */
  lemma {:induction false} Drains(threads: nat, start: State, actions: seq<Action>, s: State) returns (more: seq<Action>, t: State)
    requires OneWaits(threads, s) && |s.posts| == 1 && Run(threads, start, actions) == s
    ensures Run(threads, start, more) == t && OneWaits(threads, t) && |t.posts| == 1 && t.connBuf == []
    decreases |s.connBuf|
  {
    more, t := actions, s;
    if s.connBuf != [] {
      more := RunExtends(threads, start, more, t, TakeConn(0));
      t := Next(threads, t, TakeConn(0));
      more := RunExtends(threads, start, more, t, Ping(0, false));
      t := Next(threads, t, Ping(0, false));
      more, t := Drains(threads, start, more, t);
    }
  }

  /** The first posts of a crowd send their connections back. */
  ghost predicate Filling(s: State) {
    && |s.connBuf| <= |s.posts|
    && (forall p | 0 <= p < |s.connBuf| :: s.posts[p].Over?)
    && (forall p | |s.connBuf| <= p < |s.posts| :: s.posts[p].Sending?)
  }

  lemma {:induction false} Fills(threads: nat, start: State, actions: seq<Action>, s: State) returns (more: seq<Action>, t: State)
    requires Filling(s) && |s.connBuf| <= Capacity(threads) < |s.posts| && Run(threads, start, actions) == s
    ensures Run(threads, start, more) == t && Filling(t) && |t.posts| == |s.posts| && |t.connBuf| == Capacity(threads)
    decreases Capacity(threads) - |s.connBuf|
  {
    more, t := actions, s;
    if |s.connBuf| < Capacity(threads) {
      more := RunExtends(threads, start, more, t, SendBack(|s.connBuf|));
      t := Next(threads, t, SendBack(|s.connBuf|));
      more, t := Fills(threads, start, more, t);
    }
  }

  /** A jam can come about unless -threads is 0 or 1, when nothing is ever sent back: the check of the
      pool's length does not reserve a place for the send that follows. */
  lemma JamReachableIff(threads: nat)
    ensures (exists actions :: SomeoneJammed(threads, Run(threads, Start(threads), actions))) <==> threads >= 2
  {
    var start := Start(threads);
    if threads < 2 {
      forall actions
        ensures !SomeoneJammed(threads, Run(threads, start, actions))
      {
        NobodySendsBack(threads, actions);
      }
    } else {
      var actions := RunExtends(threads, start, [], start, Arrive);
      var s := Next(threads, start, Arrive);
      actions, s := Drains(threads, start, actions, s);
      actions, s := Queues(threads, start, actions, s);
      actions, s := QueuesGrow(threads, start, actions, s, Capacity(threads));
      actions, s := Fills(threads, start, actions, s);
      assert Jammed(threads, s, Capacity(threads));
    }
  }

  // ---------------------------------------------------------------- how full the pool gets

  /** Each length check and the send that follows it happen together. */
  function Together(threads: nat, s: State, a: Action): State {
    match a
    case CheckLen(p) => Next(threads, Next(threads, s, a), SendBack(p))
    case Dial(ok) => Next(threads, Next(threads, Next(threads, s, RefillCheck), a), RefillSend)
    case SendBack(p) => s
    case RefillCheck => s
    case RefillSend => s
    case _ => Next(threads, s, a)
  }

  function RunTogether(threads: nat, actions: seq<Action>): State {
    if actions == [] then Start(threads)
    else Together(threads, RunTogether(threads, actions[..|actions| - 1]), actions[|actions| - 1])
  }

  ghost predicate Settled(threads: nat, s: State) {
    && Invariant(threads, s) && |s.connBuf| <= threads + 1 && s.refill.Resting?
    && forall p | 0 <= p < |s.posts| :: !s.posts[p].Sending?
  }

  /** If nothing comes between a check and its send, the pool never holds more than threads+1
      connections: three places of the channel are never used, and no send ever waits. */
  lemma {:induction false} PoolBound(threads: nat, actions: seq<Action>)
    ensures Settled(threads, RunTogether(threads, actions))
  {
    if actions == [] {
      StartInvariant(threads);
    } else {
      PoolBound(threads, actions[..|actions| - 1]);
      TogetherStaysSettled(threads, RunTogether(threads, actions[..|actions| - 1]), actions[|actions| - 1]);
    }
  }

  lemma CheckAndSendCounts(threads: nat, s: State, p: nat)
    requires |s.connBuf| <= threads + 1 && s.refill.Resting?
    requires forall q | 0 <= q < |s.posts| :: !s.posts[q].Sending?
    ensures var t := Together(threads, s, CheckLen(p));
            && |t.connBuf| <= threads + 1 && t.refill.Resting?
            && forall q | 0 <= q < |t.posts| :: !t.posts[q].Sending?
  {
  }

  lemma CheckAndSend(threads: nat, s: State, p: nat)
    requires Settled(threads, s)
    ensures Settled(threads, Together(threads, s, CheckLen(p)))
  {
    NextKeepsInvariant(threads, s, CheckLen(p));
    NextKeepsInvariant(threads, Next(threads, s, CheckLen(p)), SendBack(p));
    CheckAndSendCounts(threads, s, p);
  }

  lemma RefillOnce(threads: nat, s: State, ok: bool)
    requires Settled(threads, s)
    ensures Settled(threads, Together(threads, s, Dial(ok)))
  {
    var s1 := Next(threads, s, RefillCheck);
    var s2 := Next(threads, s1, Dial(ok));
    NextKeepsInvariant(threads, s, RefillCheck);
    NextKeepsInvariant(threads, s1, Dial(ok));
    NextKeepsInvariant(threads, s2, RefillSend);
  }

  lemma OtherStaysSettled(threads: nat, s: State, a: Action)
    requires Settled(threads, s) && !a.CheckLen? && !a.Dial? && !a.SendBack? && !a.RefillCheck? && !a.RefillSend?
    ensures Settled(threads, Next(threads, s, a))
  {
    NextKeepsInvariant(threads, s, a);
  }

  lemma TogetherStaysSettled(threads: nat, s: State, a: Action)
    requires Settled(threads, s)
    ensures Settled(threads, Together(threads, s, a))
  {
    match a
    case CheckLen(p) => CheckAndSend(threads, s, p);
    case Dial(ok) => RefillOnce(threads, s, ok);
    case SendBack(p) =>
    case RefillCheck =>
    case RefillSend =>
    case _ => OtherStaysSettled(threads, s, a);
  }
}
