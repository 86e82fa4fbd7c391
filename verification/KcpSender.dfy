/**
 The set-up, one round of the refill loop, and one post of ff-http-to-kcp.go as they run by themselves,
 statement by statement, on the two channels. Each is a run of its own process in module KcpPool.
 */
module KcpSender {
  import opened Words
  import opened KcpPool

  /** The connections dialled next, in order. */
  function Numbers(from: Conn, n: nat): (s: seq<Conn>)
    ensures |s| == n
  {
    seq(n, i => from + i)
  }

  /** What a post that ends leaves in the pool when its k-th try got a connection that answered. */
  function PoolAfter(threads: nat, connBuf: seq<Conn>, k: nat, failed: bool): seq<Conn>
    requires k < |connBuf|
  {
    var rest := connBuf[k + 1..];
    if !failed && |rest| < threads - 1 then rest + [connBuf[k]] else rest
  }

  lemma CheckStep(threads: nat, s: State, p: nat)
    requires p < |s.posts| && s.posts[p].Checking?
    ensures var conn := s.posts[p].conn;
            Next(threads, s, CheckLen(p)) == At(s, p, if |s.connBuf| < threads - 1 then Sending(conn) else Closing(conn))
  {
  }

  lemma CloseStep(threads: nat, s: State, p: nat)
    requires p < |s.posts| && s.posts[p].Closing?
    ensures Next(threads, s, Close(p)) == At(s, p, Over).(closed := s.closed + {s.posts[p].conn})
  {
  }

  class Proxy {
    const threads: nat
    var connBuf: seq<Conn>
    var worker: seq<nat>
    var dialled: Conn         // how many connections there have been
    ghost var state: State    // the state of all processes
    ghost var log: seq<Action>  // its steps since `start`
    ghost var start: State

    ghost predicate Valid()
      reads this
    {
      && state.connBuf == connBuf && state.worker == worker && state.next == dialled
      && state == Run(threads, start, log)
    }

    /** Every dial succeeds, or the program ends. */
    constructor (threads: nat)
      ensures this.threads == threads && Valid() && state == Start(threads) && Invariant(threads, state)
    {
      this.threads := threads;
      connBuf, worker, dialled := [], [], 0;
      state, start, log := Start(threads), Start(threads), [];
      new;
      for i := 0 to threads
        invariant connBuf == worker == UpTo(i) && dialled == i
        invariant state == start == Start(threads) && log == []
      {
        connBuf, dialled := connBuf + [i], i + 1;
        worker := worker + [i];
      }
      StartInvariant(threads);
    }

    ghost method Mark()
      requires Valid()
      modifies this`log, this`start
      ensures Valid() && start == state && log == []
    {
      start, log := state, [];
    }

    ghost method Tick(a: Action)
      requires state == Run(threads, start, log)
      modifies this`state, this`log
      ensures state == Next(threads, old(state), a) && state == Run(threads, start, log)
    {
      log := RunExtends(threads, start, log, state, a);
      state := Next(threads, state, a);
    }

    /** One connection more. */
    method DialOne()
      requires Valid() && state.refill.Resting? && |connBuf| + |worker| <= threads
      modifies this
      ensures Valid() && start == old(start)
      ensures connBuf == old(connBuf) + [old(dialled)] && dialled == old(dialled) + 1 && worker == old(worker)
      ensures state.refill.Resting? && state.posts == old(state.posts)
    {
      Tick(RefillCheck);
      var conn := dialled;
      dialled := dialled + 1;
      Tick(Dial(true));
      connBuf := connBuf + [conn];
      Tick(RefillSend);
    }

    /** The inner loop of the refill goroutine: it dials until enough connections wait, or a dial fails;
        with nothing in between, none of its sends can block. */
    method Refill(dials: nat -> bool) returns (n: nat)
      requires Valid() && state.refill.Resting?
      modifies this
      ensures Valid() && start == old(state) && state.refill.Resting? && state.posts == old(state.posts)
      ensures worker == old(worker) && connBuf == old(connBuf) + Numbers(old(dialled), n)
      ensures forall i | 0 <= i < n :: dials(i)
      ensures |connBuf| + |worker| <= threads ==> !dials(n)
      ensures n > 0 ==> |connBuf| + |worker| <= threads + 1
    {
      Mark();
      n := 0;
      while |connBuf| + |worker| <= threads
        invariant Valid() && start == old(state) && state.refill.Resting? && state.posts == old(state.posts)
        invariant worker == old(worker) && dialled == old(dialled) + n && connBuf == old(connBuf) + Numbers(old(dialled), n)
        invariant forall i | 0 <= i < n :: dials(i)
        invariant n > 0 ==> |connBuf| + |worker| <= threads + 1
        decreases threads + 1 - |connBuf| - |worker|
      {
        if !dials(n) {
          break;
        }
        DialOne();
        n := n + 1;
      }
    }

    /** The post numbered p is here. */
    ghost predicate Is(p: nat, ph: Phase)
      reads this
    {
      Valid() && p < |state.posts| && state.posts[p] == ph
    }

    twostate predicate Alone(p: nat)
      reads this
    {
      && start == old(start)
      && |state.posts| == |old(state).posts|
      && forall q | 0 <= q < |state.posts| && q != p :: state.posts[q] == old(state).posts[q]
    }

    method Try(ghost p: nat, answers: bool) returns (conn: Conn)
      requires Is(p, WaitConn) && connBuf != []
      modifies this
      ensures conn == old(connBuf)[0] && connBuf == old(connBuf)[1..] && worker == old(worker)
      ensures Is(p, if answers then WaitWorker(conn) else WaitConn) && Alone(p)
    {
      conn := connBuf[0];
      connBuf := connBuf[1..];
      Tick(TakeConn(p));
      Tick(Ping(p, answers));
    }

    /** The `for` that closes connections until one answers; None when it would wait for a refill. */
    method Acquire(ghost p: nat, answers: nat -> bool) returns (conn: Option<Conn>, ghost k: nat)
      requires Is(p, WaitConn)
      modifies this
      ensures Alone(p) && worker == old(worker) && k <= |old(connBuf)|
      ensures forall i | 0 <= i < k :: !answers(i)
      ensures conn.None? ==> Is(p, WaitConn) && connBuf == [] && k == |old(connBuf)|
      ensures conn.Some? ==>
                && k < |old(connBuf)| && answers(k) && conn.value == old(connBuf)[k]
                && connBuf == old(connBuf)[k + 1..] && Is(p, WaitWorker(conn.value))
    {
      var i := 0;
      while connBuf != []
        invariant i <= |old(connBuf)| && connBuf == old(connBuf)[i..] && worker == old(worker)
        invariant Is(p, WaitConn) && Alone(p)
        invariant forall j | 0 <= j < i :: !answers(j)
        decreases |connBuf|
      {
        var c := Try(p, answers(i));
        if answers(i) {
          return Some(c), i;
        }
        i := i + 1;
      }
      return None, i;
    }

    /** Back into the pool, if it is not full enough. */
    method SendOrClose(ghost p: nat, conn: Conn)
      requires Is(p, Checking(conn))
      modifies this
      ensures Is(p, Over) && Alone(p) && worker == old(worker)
      ensures connBuf == old(connBuf) + if |old(connBuf)| < threads - 1 then [conn] else []
    {
      CheckStep(threads, state, p);
      Tick(CheckLen(p));
      if |connBuf| < threads - 1 {
        connBuf := connBuf + [conn];
        Tick(SendBack(p));
      } else {
        CloseStep(threads, state, p);
        Tick(Close(p));
      }
    }

    /** The deferred function of `post`. */
    method Release(ghost p: nat, conn: Conn, iw: nat, failed: bool)
      requires Is(p, Returning(conn, iw, failed)) && |worker| < threads
      modifies this
      ensures Is(p, Over) && Alone(p) && worker == old(worker) + [iw]
      ensures connBuf == old(connBuf) + if !failed && |old(connBuf)| < threads - 1 then [conn] else []
    {
      worker := worker + [iw];
      Tick(Action.Release(p));
      if failed {
        CloseStep(threads, state, p);
        Tick(Close(p));
      } else {
        SendOrClose(p, conn);
      }
    }

    method Serve(ghost p: nat, conn: Conn, failed: bool)
      requires Is(p, WaitWorker(conn)) && worker != [] && |worker| <= threads
      modifies this
      ensures Is(p, Over) && Alone(p) && worker == old(worker)[1..] + [old(worker)[0]]
      ensures connBuf == old(connBuf) + if !failed && |old(connBuf)| < threads - 1 then [conn] else []
    {
      var iw := worker[0];
      worker := worker[1..];
      Tick(TakeWorker(p));
      Tick(Finish(p, failed));
      Release(p, conn, iw, failed);
    }

    /** A post with nothing else happening. It ends unless no connection answers or no token is there,
        closes the connections that do not answer and its own if the transfer failed or the pool is full
        enough, and brings its token back. */
    method Post(answers: nat -> bool, failed: bool) returns (ended: bool, ghost k: nat)
      requires Valid() && Invariant(threads, state)
      modifies this
      ensures Valid() && Invariant(threads, state) && start == old(state)
      ensures |state.posts| == |old(state.posts)| + 1 && state.posts[..|old(state.posts)|] == old(state.posts)
      ensures ended <==> state.posts[|old(state.posts)|].Over?
      ensures ended <==> old(worker) != [] && exists i | 0 <= i < |old(connBuf)| :: answers(i)
      ensures ended ==>
                && k < |old(connBuf)| && answers(k) && (forall i | 0 <= i < k :: !answers(i))
                && connBuf == PoolAfter(threads, old(connBuf), k, failed)
                && worker == old(worker)[1..] + [old(worker)[0]]
    {
      Mark();
      ghost var p := |state.posts|;
      Tick(Arrive);
      var conn;
      conn, k := Acquire(p, answers);
      if conn.None? || worker == [] {
        ended := false;
      } else {
        DistinctBounded(worker, threads);
        Serve(p, conn.value, failed);
        ended := true;
      }
      RunKeepsInvariant(threads, start, log);
    }
  }
}
