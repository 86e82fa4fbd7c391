/**
 The stager's `post` and the unstager's directory loop as they run, statement by statement, on the
 files of one directory. Each is a run of its own process in the protocol of module Staging, so what
 holds of every interleaving there holds here, too.
 */
module StagingArea {
  import opened Words
  import opened FlowFile
  import opened Paths
  import opened Scanner
  import opened Staging

  ghost predicate OfPost(a: Action, id: Id) {
    (a.Begin? || a.Step?) && a.id == id
  }

  ghost predicate OfUnstager(a: Action) {
    a.List? || a.Open? || a.Send? || a.CloseRequest? || a.Retry? || a.Remove?
  }

  /** The program of a post once the current FlowFile is noted. */
  ghost function NextFile(p: Staging.Post): Staging.Post
    requires (p.pc.Verify? || p.pc.ScriptRmJson?) && p.pc.i < |p.request|
  {
    p.(pc := Write(p.pc.i + 1), attrSlice := p.attrSlice + [ListOf(p.request[p.pc.i])])
  }

  /** A post does not deliver anything. */
  lemma {:induction false} PostDeliversNothing(cfg: Config, w: World, actions: seq<Action>, id: Id)
    requires forall i | 0 <= i < |actions| :: OfPost(actions[i], id)
    ensures Run(cfg, w, actions).accepted == w.accepted
  {
    if actions != [] {
      PostDeliversNothing(cfg, w, actions[..|actions| - 1], id);
      StepAccepts(cfg, Run(cfg, w, actions[..|actions| - 1]), actions[|actions| - 1]);
    }
  }

  lemma StepAccepts(cfg: Config, w: World, a: Action)
    ensures w.accepted <= Next(cfg, w, a).accepted
    ensures a.Begin? || a.Step? ==> Next(cfg, w, a).accepted == w.accepted
  {
    if a.Step? && a.id in w.posts {
      match w.posts[a.id].pc
      case CreateDat =>
      case CreateTemp =>
      case Write(i) =>
      case Verify(i) =>
      case _ =>
    }
  }

  /** How an attempt ends, if it does. */
  datatype Outcome = Done | Failed | Blocked

  /** What the surroundings answer: the k-th file, network or library call of the t-th attempt. */
  type Answers = (nat, nat) -> bool

  /** The first k FlowFiles found go out: they do not lead upward, and their writes succeed. */
  predicate GoOut(content: seq<Found>, k: nat, env: nat -> bool)
    requires k <= |content|
  {
    k == 0 || (GoOut(content, k - 1, env) && !Upward(content[k - 1].attrs) && env(k))
  }

  lemma {:induction false} GoOutIff(content: seq<Found>, k: nat, env: nat -> bool)
    requires k <= |content|
    ensures GoOut(content, k, env) <==> forall i | 0 <= i < k :: !Upward(content[i].attrs) && env(1 + i)
  {
    if k > 0 {
      GoOutIff(content, k - 1, env);
    }
  }

  lemma {:induction false} GoOutEarlier(content: seq<Found>, k: nat, n: nat, env: nat -> bool)
    requires k <= n <= |content|
    ensures GoOut(content, n, env) ==> GoOut(content, k, env)
  {
    if k < n {
      GoOutEarlier(content, k, n - 1, env);
    }
  }

  /** Something has been accepted for this entry. */
  ghost predicate Taken(w: World, id: Id) {
    exists d <- w.accepted :: d.id == id
  }

  lemma TakenIsSentOut(w: World, id: Id)
    requires Invariant(w) && Taken(w, id)
    ensures SentOut(w, id)
  {
  }

  lemma OpenStep(cfg: Config, w: World, ok: bool)
    requires w.unstager.Opening? && w.unstager.todo != []
    ensures var todo, n := w.unstager.todo, w.unstager.tries;
            Next(cfg, w, Open(ok)) == w.(unstager :=
              if ok && todo[0] in w.dat then Sending(todo, n, w.lib.scan(w.dat[todo[0]].files), 0) else Retrying(todo, n))
  {
  }

  lemma SendStep(cfg: Config, w: World, ok: bool)
    requires w.unstager.Sending? && w.unstager.sent < |w.unstager.content|
    ensures var todo, n := w.unstager.todo, w.unstager.tries;
            Next(cfg, w, Send(ok)) == w.(unstager :=
              if ok && !w.lib.upward(w.unstager.content[w.unstager.sent].attrs)
              then Sending(todo, n, w.unstager.content, w.unstager.sent + 1) else Retrying(todo, n))
  {
  }

  lemma CloseStep(cfg: Config, w: World, close: Close)
    requires w.unstager.Sending? && w.unstager.sent == |w.unstager.content| && w.unstager.content != [] && w.unstager.todo != []
    ensures var todo, n, answer := w.unstager.todo, w.unstager.tries, Staging.Answer(cfg, close);
            Next(cfg, w, CloseRequest(close)) == w.(
              unstager := if NoError(answer) then RemoveJson(todo) else Retrying(todo, n),
              accepted := if answer == Accepted || answer == AcceptedButLost
                          then w.accepted + [Delivery(todo[0], w.unstager.content)] else w.accepted)
  {
  }

  lemma RetryStep(cfg: Config, w: World, handshake: bool)
    requires w.unstager.Retrying?
    ensures var todo, n := w.unstager.todo, w.unstager.tries;
            Next(cfg, w, Action.Retry(handshake)) == w.(unstager :=
              if n >= cfg.retries then Stopped else if handshake then Opening(todo, n + 1) else Retrying(todo, n + 1))
  {
  }

  lemma RemovalSteps(cfg: Config, w: World, ok: bool)
    ensures w.unstager.RemoveJson? && w.unstager.todo != [] ==>
      Next(cfg, w, Remove(ok)) == w.(unstager := RemoveDat(w.unstager.todo),
        json := if ok || !cfg.removeFails then w.json - {w.unstager.todo[0]} else w.json)
    ensures w.unstager.RemoveDat? && w.unstager.todo != [] ==>
      Next(cfg, w, Remove(ok)) == w.(unstager := NextEntry(w.unstager.todo), dat := w.dat - {w.unstager.todo[0]})
  {
  }

  lemma CreationSteps(cfg: Config, w: World, id: Id, ok: bool)
    requires id in w.posts
    ensures var w' := Next(cfg, w, Step(id, ok));
            && (w.posts[id].pc == CreateDat ==>
                  w' == if ok then Goto(w, id, CreateTemp).(dat := w.dat[id := Dat([], false)]) else Goto(w, id, Failing))
            && (w.posts[id].pc == CreateTemp ==>
                  w' == if ok then Goto(w, id, Write(0)).(temp := w.temp[id := None]) else Goto(w, id, Failing))
  {
  }

  lemma WriteStep(cfg: Config, w: World, id: Id, ok: bool)
    requires id in w.posts && w.posts[id].pc.Write? && w.posts[id].pc.i < |w.posts[id].request|
    ensures var p := w.posts[id];
            Next(cfg, w, Step(id, ok)) == w.(posts := w.posts[id := p.(pc := if ok then Verify(p.pc.i) else Failing)],
                                             dat := Append(w.dat, id, p.request[p.pc.i], ok))
  {
  }

  lemma AppendAt(dat: map<Id, Dat>, id: Id, f: File, ok: bool)
    requires id in dat
    ensures var after := Append(dat, id, f, ok);
            id in after && after[id] == if ok then dat[id].(files := dat[id].files + [f]) else dat[id].(torn := true)
  {
  }

  lemma RenameStep(cfg: Config, w: World, id: Id)
    requires id in w.posts && w.posts[id].pc == Rename && id in w.temp
    ensures var p := w.posts[id];
            Next(cfg, w, Step(id, true)) == w.(posts := w.posts[id := p.(pc := Ack)],
                                               json := w.json[id := w.temp[id]], temp := w.temp - {id})
  {
  }

  lemma CallNumbers(i: nat)
    ensures (2 + 2 * i) % 2 == 0 && (2 + 2 * i - 2) / 2 == i
    ensures (3 + 2 * i) % 2 == 1 && (3 + 2 * i - 1) / 2 == i + 1
  {
  }

  /** These calls succeed. */
  ghost predicate AllTrue(env: nat -> bool, from: nat, end: nat) {
    end <= from || (AllTrue(env, from, end - 1) && env(end - 1))
  }

  lemma {:induction false} AllTrueIff(env: nat -> bool, from: nat, end: nat)
    ensures AllTrue(env, from, end) <==> forall k | from <= k < end :: env(k)
  {
    if end > from {
      AllTrueIff(env, from, end - 1);
    }
  }

  lemma {:induction false} FromTwo(env: nat -> bool, end: nat)
    requires env(0) && env(1) && end >= 2 && AllTrue(env, 2, end)
    ensures AllTrue(env, 0, end)
  {
    if end > 2 {
      FromTwo(env, end - 1);
    } else {
      assert AllTrue(env, 0, 1);
    }
  }

  lemma TwoMore(env: nat -> bool, i: nat)
    requires AllTrue(env, 2, 2 + 2 * i)
    ensures env(2 + 2 * i) && env(3 + 2 * i) ==> AllTrue(env, 2, 2 + 2 * (i + 1))
    ensures !env(2 + 2 * i) ==> FirstFalse(env, 2, 2 + 2 * i)
    ensures env(2 + 2 * i) && !env(3 + 2 * i) ==> FirstFalse(env, 2, 3 + 2 * i)
  {
    assert env(2 + 2 * i) ==> AllTrue(env, 2, 3 + 2 * i);
  }

  /** This one does not, and those before it do. */
  ghost predicate FirstFalse(env: nat -> bool, from: nat, k: nat) {
    from <= k && !env(k) && AllTrue(env, from, k)
  }

  class Directory {
    const cfg: Config
    var dat: map<Id, Dat>
    var temp: map<Id, Option<seq<Listing>>>
    var json: map<Id, Option<seq<Listing>>>
    ghost var world: World    // the protocol state these files belong to
    ghost var log: seq<Action>  // its steps since `start`
    ghost var start: World

    /** A directory nobody has used. */
    constructor (cfg: Config)
      ensures this.cfg == cfg && Valid() && world == EMPTY
    {
      this.cfg := cfg;
      dat, temp, json := map[], map[], map[];
      world, start, log := EMPTY, EMPTY, [];
    }

    ghost predicate Valid()
      reads this
    {
      && world.dat == dat && world.temp == temp && world.json == json
      && world == Run(cfg, start, log) && world.lib == LIBRARY
    }

    ghost method Mark()
      requires Valid()
      modifies this`log, this`start
      ensures Valid() && start == world && log == []
    {
      start, log := world, [];
    }

    /** The statement just executed was this step of the protocol. */
    ghost method Tick(a: Action)
      requires world == Run(cfg, start, log)
      modifies this`world, this`log
      ensures world == Next(cfg, old(world), a) && log == old(log) + [a]
      ensures world == Run(cfg, start, log) && world.lib == old(world).lib
    {
      NextLibrary(cfg, world, a);
      world := Next(cfg, world, a);
      var more := RunExtends(cfg, start, log, old(world), a);
      log := log + [a];
    }

    ghost predicate LogOfPost(id: Id)
      reads this
    {
      forall i | 0 <= i < |log| :: OfPost(log[i], id)
    }

    // -------------------------------------------------------------- ff-stager

    /** The post `id` is at this place of its program. */
    ghost predicate At(id: Id, p: Staging.Post)
      reads this
    {
      Valid() && LogOfPost(id) && id in world.posts && world.posts[id] == p
    }

    /** What a post leaves of its own files when its k-th call is the first that fails. */
    twostate predicate Leftover(request: seq<File>, env: nat -> bool, k: nat, id: Id)
      reads this
    {
      if k == 0 then dat == old(dat) && temp == old(temp)
      else if k == 1 then id in dat && dat[id] == Dat([], false) && temp == old(temp)
      else LeftAt(request, k, id)
    }

    ghost predicate LeftAt(request: seq<File>, k: nat, id: Id)
      reads this
    {
      id in temp && LeftBy(request, k, id)
    }

    /** The .dat holds these FlowFiles, unless scripts remove it. */
    ghost predicate Has(id: Id, files: seq<File>, torn: bool)
      reads this
    {
      !cfg.scriptRm ==> id in dat && dat[id] == Dat(files, torn)
    }

    /** The .dat when call k, a write (even), a check (odd) or that of the listing (last), has failed. */
    ghost predicate LeftBy(request: seq<File>, k: nat, id: Id)
      reads this
    {
      if k >= 2 + 2 * |request| then Has(id, request, false)
      else if k < 2 then true
      else if k % 2 == 0 then Has(id, request[..(k - 2) / 2], true)
      else if cfg.rmPartial then id !in dat
      else Has(id, request[..(k - 1) / 2], false)
    }

    method CreateData(id: Id, ok: bool, ghost p: Staging.Post)
      requires At(id, p) && p.pc == CreateDat
      modifies this
      ensures At(id, p.(pc := if ok then CreateTemp else Failing)) && start == old(start)
      ensures temp == old(temp) && if ok then id in dat && dat[id] == Dat([], false) else dat == old(dat)
    {
      if ok {
        dat := dat[id := Dat([], false)];
      }
      CreationSteps(cfg, world, id, ok);
      Tick(Step(id, ok));
    }

    method CreateListing(id: Id, ok: bool, ghost p: Staging.Post)
      requires At(id, p) && p.pc == CreateTemp
      modifies this
      ensures At(id, p.(pc := if ok then Write(0) else Failing)) && start == old(start)
      ensures dat == old(dat) && if ok then id in temp && temp[id] == None else temp == old(temp)
    {
      if ok {
        temp := temp[id := None];
      }
      CreationSteps(cfg, world, id, ok);
      Tick(Step(id, ok));
    }

    method Store(id: Id, f: File, ok: bool, ghost p: Staging.Post)
      requires At(id, p) && p.pc.Write? && p.pc.i < |p.request| && f == p.request[p.pc.i]
      modifies this
      ensures At(id, p.(pc := if ok then Verify(p.pc.i) else Failing)) && start == old(start)
      ensures temp == old(temp) && dat == Append(old(dat), id, f, ok)
    {
      dat := Append(dat, id, f, ok);
      WriteStep(cfg, world, id, ok);
      Tick(Step(id, ok));
    }

    method Refuse(id: Id, ghost p: Staging.Post)
      requires At(id, p) && p.pc.Verify? && p.pc.i < |p.request|
      modifies this
      ensures At(id, p.(pc := if cfg.rmPartial then CleanDat else Failing)) && start == old(start)
      ensures dat == old(dat) && temp == old(temp)
    {
      Tick(Step(id, false));
    }

    /** os.Remove(outputDat), after a failed check or after the script. */
    method UnlinkData(id: Id, ghost p: Staging.Post)
      requires At(id, p) && (p.pc == CleanDat || p.pc.ScriptRmDat?)
      modifies this
      ensures At(id, p.(pc := if p.pc == CleanDat then CleanJson else ScriptRmJson(p.pc.i)))
      ensures id !in dat && temp == old(temp) && start == old(start)
    {
      dat := dat - {id};
      Tick(Step(id, true));
    }

    /** os.Remove(outputAttrs), likewise. */
    method UnlinkListing(id: Id, ghost p: Staging.Post)
      requires At(id, p) && (p.pc == CleanJson || (p.pc.ScriptRmJson? && p.pc.i < |p.request|))
      modifies this
      ensures At(id, if p.pc == CleanJson then p.(pc := Failing) else NextFile(p))
      ensures id !in json && dat == old(dat) && temp == old(temp) && start == old(start)
    {
      json := json - {id};
      Tick(Step(id, true));
    }

    method Confirm(id: Id, ghost p: Staging.Post)
      requires At(id, p) && p.pc.Verify? && p.pc.i < |p.request|
      modifies this
      ensures At(id, if cfg.scriptRm then p.(pc := ScriptRmDat(p.pc.i)) else NextFile(p))
      ensures dat == old(dat) && temp == old(temp) && start == old(start)
    {
      Tick(Step(id, true));
    }

    method EndOfScan(id: Id, ghost p: Staging.Post)
      requires At(id, p) && p.pc == Write(|p.request|)
      modifies this
      ensures At(id, p.(pc := Encode)) && dat == old(dat) && temp == old(temp) && start == old(start)
    {
      Tick(Step(id, true));
    }

    method EncodeListing(id: Id, attrSlice: seq<Listing>, ok: bool, ghost p: Staging.Post)
      requires At(id, p) && p.pc == Encode && p.attrSlice == attrSlice
      modifies this
      ensures At(id, p.(pc := if ok then Rename else Failing)) && start == old(start)
      ensures dat == old(dat) && if ok then id in temp && temp[id] == Some(attrSlice) else temp == old(temp)
    {
      if ok {
        temp := temp[id := Some(attrSlice)];
      }
      Tick(Step(id, ok));
    }

    method Commit(id: Id, ghost p: Staging.Post)
      requires At(id, p) && p.pc == Rename && id in temp
      modifies this
      ensures At(id, p.(pc := Ack)) && start == old(start)
      ensures id in json && json[id] == old(temp)[id] && id !in temp && dat == old(dat)
    {
      json, temp := json[id := temp[id]], temp - {id};
      RenameStep(cfg, world, id);
      Tick(Step(id, true));
    }

    method Respond(id: Id, ghost p: Staging.Post)
      requires At(id, p) && (p.pc == Ack || p.pc == Failing)
      modifies this
      ensures At(id, p.(pc := if p.pc == Ack then Acked else Refused)) && start == old(start)
      ensures dat == old(dat) && temp == old(temp) && json == old(json)
    {
      Tick(Step(id, true));
    }

    /** The check of a FlowFile failed. */
    method Reject(id: Id, ghost p: Staging.Post)
      requires At(id, p) && p.pc.Verify? && p.pc.i < |p.request|
      modifies this
      ensures At(id, p.(pc := Failing)) && start == old(start)
      ensures temp == old(temp) && if cfg.rmPartial then id !in dat else dat == old(dat)
    {
      Refuse(id, p);
      if cfg.rmPartial {
        UnlinkData(id, world.posts[id]);
        UnlinkListing(id, world.posts[id]);
      }
    }

    /** The check passed; the script may run, and its files be removed. */
    method Keep(id: Id, ghost p: Staging.Post)
      requires At(id, p) && p.pc.Verify? && p.pc.i < |p.request|
      modifies this
      ensures At(id, NextFile(p)) && temp == old(temp) && start == old(start)
      ensures if cfg.scriptRm then id !in dat else dat == old(dat)
    {
      Confirm(id, p);
      if cfg.scriptRm {
        UnlinkData(id, world.posts[id]);
        UnlinkListing(id, world.posts[id]);
      }
    }

    /** The body of the scan loop. */
    method ReceiveFile(id: Id, f: File, stored: bool, verified: bool, ghost p: Staging.Post, ghost files: seq<File>)
      returns (err: bool)
      requires Has(id, files, false)
      requires At(id, p) && p.pc.Write? && p.pc.i < |p.request| && f == p.request[p.pc.i]
      modifies this
      ensures At(id, if err then p.(pc := Failing) else NextFile(p.(pc := Verify(p.pc.i)))) && start == old(start)
      ensures temp == old(temp) && err == !(stored && verified)
      ensures if !stored then Has(id, files, true)
              else if !verified && cfg.rmPartial then id !in dat
              else Has(id, files + [f], false)
    {
      Store(id, f, stored, p);
      if id in old(dat) {
        AppendAt(old(dat), id, f, stored);
      }
      if !stored {
        return true;
      }
      if !verified {
        Reject(id, world.posts[id]);
        return true;
      }
      Keep(id, world.posts[id]);
      return false;
    }

    /** The first i FlowFiles are in the .dat and have been noted. */
    ghost predicate Received(id: Id, request: seq<File>, i: nat, notes: seq<Listing>)
      requires i <= |request|
      reads this
    {
      && At(id, Staging.Post(request, Write(i), notes)) && id in temp
      && Lists(notes, request[..i]) && Has(id, request[..i], false)
    }

    /** One turn of the scan loop. */
    method ReceiveNext(id: Id, request: seq<File>, i: nat, env: nat -> bool, attrSlice: seq<Listing>)
      returns (err: bool, notes: seq<Listing>, ghost k: nat)
      requires i < |request| && Received(id, request, i, attrSlice) && AllTrue(env, 2, 2 + 2 * i)
      modifies this
      ensures start == old(start)
      ensures if err then
                && At(id, Staging.Post(request, Failing, notes)) && id in temp
                && k < 2 + 2 * (i + 1) && FirstFalse(env, 2, k) && LeftBy(request, k, id)
              else
                Received(id, request, i + 1, notes) && AllTrue(env, 2, 2 + 2 * (i + 1))
    {
      err := ReceiveFile(id, request[i], env(2 + 2 * i), env(3 + 2 * i), world.posts[id], request[..i]);
      CallNumbers(i);
      TwoMore(env, i);
      notes, k := attrSlice, if env(2 + 2 * i) then 3 + 2 * i else 2 + 2 * i;
      if !err {
        notes := attrSlice + [ListOf(request[i])];
      }
    }

    /** The scan loop of `post`. */
    method ReceiveFiles(id: Id, request: seq<File>, env: nat -> bool)
      returns (err: bool, attrSlice: seq<Listing>, ghost k: nat)
      requires At(id, Staging.Post(request, Write(0), [])) && id in temp && Has(id, [], false)
      modifies this
      ensures start == old(start)
      ensures if err then
                && At(id, Staging.Post(request, Failing, attrSlice)) && id in temp
                && k < 2 + 2 * |request| && FirstFalse(env, 2, k) && LeftBy(request, k, id)
              else
                Received(id, request, |request|, attrSlice) && AllTrue(env, 2, 2 + 2 * |request|)
    {
      attrSlice, k := [], 0;
      for i := 0 to |request|
        invariant start == old(start) && Received(id, request, i, attrSlice) && AllTrue(env, 2, 2 + 2 * i)
      {
        err, attrSlice, k := ReceiveNext(id, request, i, env, attrSlice);
        if err {
          return;
        }
      }
      err := false;
    }

    method WriteListing(id: Id, request: seq<File>, attrSlice: seq<Listing>, ok: bool)
      requires At(id, Staging.Post(request, Write(|request|), attrSlice)) && id in temp && Has(id, request, false)
      modifies this
      ensures At(id, Staging.Post(request, if ok then Rename else Failing, attrSlice)) && start == old(start)
      ensures id in temp && Has(id, request, false)
    {
      EndOfScan(id, world.posts[id]);
      EncodeListing(id, attrSlice, ok, world.posts[id]);
    }

    /** With both files created: the scan loop and the listing. */
    method ReceiveBatch(id: Id, request: seq<File>, env: nat -> bool)
      returns (err: bool, ghost p: Staging.Post, ghost k: nat)
      requires At(id, Staging.Post(request, Write(0), [])) && id in temp
      requires Has(id, [], false)
      modifies this
      ensures At(id, p) && start == old(start)
      ensures p.request == request && p.pc == if err then Failing else Rename
      ensures !err ==> id in temp
      ensures if err then k < 3 + 2 * |request| && FirstFalse(env, 2, k) && LeftAt(request, k, id)
              else AllTrue(env, 2, 3 + 2 * |request|)
    {
      var attrSlice;
      err, attrSlice, k := ReceiveFiles(id, request, env);
      p := world.posts[id];
      if err {
        return;
      }
      assert request[..|request|] == request;
      k := 2 + 2 * |request|;
      WriteListing(id, request, attrSlice, env(2 + 2 * |request|));
      p := world.posts[id];
      err := !env(2 + 2 * |request|);
    }

    /** `post` up to its deferred function; err is what the function leaves in `err`. */
    method Receive(id: Id, request: seq<File>, env: nat -> bool)
      returns (err: bool, ghost p: Staging.Post, ghost k: nat)
      requires At(id, Staging.Post(request, CreateDat, []))
      modifies this
      ensures At(id, p) && start == old(start)
      ensures p.request == request && p.pc == if err then Failing else Rename
      ensures !err ==> id in temp
      ensures if err then k < 3 + 2 * |request| && FirstFalse(env, 0, k) && Leftover(request, env, k, id)
              else AllTrue(env, 0, 3 + 2 * |request|)
    {
      CreateData(id, env(0), Staging.Post(request, CreateDat, []));
      p := world.posts[id];
      if !env(0) {
        return true, p, 0;
      }
      CreateListing(id, env(1), p);
      p := world.posts[id];
      if !env(1) {
        return true, p, 1;
      }
      err, p, k := ReceiveBatch(id, request, env);
      FromTwo(env, if err then k else 3 + 2 * |request|);
    }

    /** The deferred function of `post`: commit and acknowledge, or refuse. */
    method Answer(id: Id, err: bool, ghost p: Staging.Post) returns (ok: bool)
      requires At(id, p) && p.pc == if err then Failing else Rename
      requires !err ==> id in temp
      modifies this
      ensures ok == !err && At(id, p.(pc := if ok then Acked else Refused)) && start == old(start)
      ensures dat == old(dat) && (err ==> temp == old(temp))
    {
      if !err {
        Commit(id, p);
      }
      Respond(id, world.posts[id]);
      return !err;
    }

    method Serve(id: Id, request: seq<File>, env: nat -> bool) returns (ok: bool, ghost k: nat)
      requires Valid() && id !in world.posts
      modifies this
      ensures start == old(world) && id in world.posts && At(id, world.posts[id]) && world.posts[id].request == request
      ensures world.posts[id].pc == if ok then Acked else Refused
      ensures if ok then AllTrue(env, 0, 3 + 2 * |request|)
              else k < 3 + 2 * |request| && FirstFalse(env, 0, k) && Leftover(request, env, k, id)
    {
      Mark();
      Tick(Begin(id, request));
      ghost var p;
      var err;
      err, p, k := Receive(id, request, env);
      ok := Answer(id, err, p);
    }

    /** One post from its first file-system call to its answer. It answers 200 exactly if every call and every
        check succeeds, and only when the batch is staged; when it does not the directory lists nothing of it,
        but what was written stays there: the .inprogress file always, the .dat unless the check failed and
        -rm-partial is set. */
    method Post(id: Id, request: seq<File>, env: nat -> bool) returns (ok: bool)
      requires Valid() && id !in world.posts
      modifies this
      ensures Valid() && start == old(world) && LogOfPost(id)
      ensures id in world.posts && world.posts[id].request == request
      ensures world.posts[id].pc == if ok then Acked else Refused
      ensures Careful(cfg) && Invariant(old(world)) ==>
                && Invariant(world)
                && if ok then id in json && json[id].Some? && Lists(json[id].value, request)
                              && id in dat && dat[id] == Dat(request, false)
                   else id !in json
      ensures ok <==> AllTrue(env, 0, 3 + 2 * |request|)
      ensures !ok ==> exists k | 0 <= k < 3 + 2 * |request| :: FirstFalse(env, 0, k) && Leftover(request, env, k, id)
    {
      ghost var k;
      ok, k := Serve(id, request, env);
      AllTrueIff(env, 0, 3 + 2 * |request|);
      if Careful(cfg) && Invariant(old(world)) {
        RunKeepsInvariant(cfg, start, log);
        PostDeliversNothing(cfg, start, log, id);
        NeverDelivered(old(world), world, id);
        ListingsList(request);
      }
    }

    // -------------------------------------------------------------- ff-unstager

    /** The unstager is at this place of its program; meanwhile nothing new is staged. */
    ghost predicate Reads(u: Unstager)
      reads this
    {
      Valid() && world.unstager == u && forall i | 0 <= i < |log| :: OfUnstager(log[i])
    }

    twostate predicate Advanced()
      reads this
    {
      && start == old(start)
      && world.posts == old(world).posts
      && old(world).accepted <= world.accepted
      && json.Keys <= old(json).Keys
    }

    twostate predicate Quiet()
      reads this
    {
      start == old(start) && json == old(json) && world.posts == old(world).posts && world.accepted == old(world).accepted
    }

    /** A step that changes nothing but where the unstager is. */
    ghost method Turn(u: Unstager, a: Action)
      requires Valid() && (forall i | 0 <= i < |log| :: OfUnstager(log[i])) && OfUnstager(a)
      requires Next(cfg, world, a) == world.(unstager := u)
      modifies this`world, this`log
      ensures Reads(u) && Quiet()
    {
      Tick(a);
    }

    /** What the scan finds of an entry is all that is sent of it. */
    method OpenData(ghost todo: seq<Id>, id: Id, ghost tries: nat, ok: bool) returns (content: Option<seq<Found>>)
      requires Reads(Opening(todo, tries)) && todo != [] && todo[0] == id
      modifies this
      ensures content == if ok && id in old(dat) then Some(Scanned(old(dat)[id].files)) else None
      ensures Reads(if content.Some? then Sending(todo, tries, content.value, 0) else Retrying(todo, tries)) && Quiet()
    {
      OpenStep(cfg, world, ok);
      Tick(Open(ok));
      if !ok || id !in dat {
        return None;
      }
      var found := ScanFile(EncodeAll(dat[id].files));
      content := Some(found);
    }

    /** One turn of the scan loop: a path that leads upward is an error, too. */
    method SendOne(ghost todo: seq<Id>, ghost tries: nat, content: seq<Found>, k: nat, ok: bool) returns (err: bool)
      requires Reads(Sending(todo, tries, content, k)) && k < |content|
      modifies this
      ensures err == (Upward(content[k].attrs) || !ok)
      ensures Reads(if err then Retrying(todo, tries) else Sending(todo, tries, content, k + 1)) && Quiet()
    {
      ghost var upward := Upward(content[k].attrs);
      SendStep(cfg, world, ok);
      Turn(if ok && !upward then Sending(todo, tries, content, k + 1) else Retrying(todo, tries), Send(ok));
      if Upward(content[k].attrs) {
        return true;
      }
      err := !ok;
    }

    /** The scan loop: it ends behind the last FlowFile found, or with the first error. */
    method SendAll(ghost todo: seq<Id>, ghost tries: nat, content: seq<Found>, env: nat -> bool) returns (err: bool)
      requires Reads(Sending(todo, tries, content, 0))
      modifies this
      ensures Reads(if err then Retrying(todo, tries) else Sending(todo, tries, content, |content|)) && Quiet()
      ensures !err <==> GoOut(content, |content|, env)
    {
      for k := 0 to |content|
        invariant Reads(Sending(todo, tries, content, k)) && Quiet()
        invariant GoOut(content, k, env)
      {
        err := SendOne(todo, tries, content, k, env(1 + k));
        if err {
          GoOutEarlier(content, k + 1, |content|, env);
          return;
        }
      }
      err := false;
    }

    /** `hw.Close`. Its error is that of the connection; the status of the answer is not looked at. */
    method CloseUp(ghost todo: seq<Id>, ghost tries: nat, ghost content: seq<Found>, close: Close) returns (err: bool)
      requires Reads(Sending(todo, tries, content, |content|)) && content != [] && todo != []
      modifies this
      ensures err == !NoError(Staging.Answer(cfg, close))
      ensures Reads(if err then Retrying(todo, tries) else RemoveJson(todo)) && Advanced()
      ensures !err && !cfg.declines ==> Taken(world, todo[0])
      ensures world.accepted == old(world).accepted +
                (if close == Accepted || close == AcceptedButLost || (close == Declined && !cfg.declines)
                 then [Delivery(todo[0], content)] else [])
    {
      CloseStep(cfg, world, close);
      Tick(CloseRequest(close));
      err := !NoError(Staging.Answer(cfg, close));
      if !err && !cfg.declines {
        assert Delivery(todo[0], content) in world.accepted;
      }
    }

    method RemoveListing(ghost todo: seq<Id>, id: Id, ok: bool)
      requires Reads(RemoveJson(todo)) && todo != [] && todo[0] == id
      modifies this
      ensures Reads(RemoveDat(todo)) && Advanced()
      ensures !cfg.removeFails ==> id !in json
      ensures world.accepted == old(world).accepted
    {
      if ok || !cfg.removeFails {
        json := json - {id};
      }
      RemovalSteps(cfg, world, ok);
      Tick(Remove(ok));
    }

    method RemoveData(ghost todo: seq<Id>, id: Id)
      requires Reads(RemoveDat(todo)) && todo != [] && todo[0] == id
      modifies this
      ensures Reads(NextEntry(todo)) && Advanced()
      ensures json == old(json) && world.accepted == old(world).accepted
    {
      dat := dat - {id};
      RemovalSteps(cfg, world, true);
      Tick(Remove(true));
    }

    /** An entry that has been processed without error: gone, if it can be removed, and what was found of
        it accepted downstream, if downstream never declines. */
    ghost predicate Processed(id: Id)
      reads this
    {
      (!cfg.declines ==> Taken(world, id)) && (!cfg.removeFails ==> id !in json)
    }

    /** `processFile`, one attempt; the removals are its deferred function. Without a FlowFile it hangs:
        `Close` waits for a goroutine that only the first write starts. */
    method ProcessFile(ghost todo: seq<Id>, id: Id, ghost tries: nat, env: nat -> bool, close: Close) returns (r: Outcome)
      requires Reads(Opening(todo, tries)) && todo != [] && todo[0] == id
      modifies this
      ensures Advanced()
      ensures r == Done ==> Reads(NextEntry(todo)) && Processed(id)
      ensures r == Failed ==> Reads(Retrying(todo, tries))
      ensures r == Blocked ==> Reads(Sending(todo, tries, [], 0))
      ensures r == Blocked ==> id in old(dat) && Scanned(old(dat)[id].files) == []
      ensures r == Done ==> id in old(dat) && Passes(LIBRARY, Scanned(old(dat)[id].files))
    {
      var fh := OpenData(todo, id, tries, env(0));
      if fh.None? {
        return Failed;
      }
      var content := fh.value;
      var err := SendAll(todo, tries, content, env);
      if err {
        return Failed;
      }
      GoOutIff(content, |content|, env);
      if content == [] {
        return Blocked;
      }
      err := CloseUp(todo, tries, content, close);
      if err {
        return Failed;
      }
      RemoveListing(todo, id, env(1 + |content|));
      RemoveData(todo, id);
      return Done;
    }

    method Wait(ghost todo: seq<Id>, i: nat, handshake: bool)
      requires Reads(Retrying(todo, i))
      modifies this
      ensures Reads(if i >= cfg.retries then Stopped else if handshake then Opening(todo, i + 1) else Retrying(todo, i + 1))
      ensures Quiet()
    {
      RetryStep(cfg, world, handshake);
      Tick(Action.Retry(handshake));
    }

    /** One turn of the retry loop: no attempt without a handshake. */
    method TryAgain(ghost todo: seq<Id>, id: Id, i: nat, env: nat -> bool, close: Close) returns (r: Outcome)
      requires Reads(Retrying(todo, i)) && i < cfg.retries && todo != [] && todo[0] == id
      modifies this
      ensures Advanced()
      ensures r == Done ==> Reads(NextEntry(todo)) && Processed(id)
      ensures r == Failed ==> Reads(Retrying(todo, i + 1))
      ensures r == Blocked ==> Reads(Sending(todo, i + 1, [], 0))
      ensures !env(0) ==> r == Failed
    {
      var handshake := env(0);
      Wait(todo, i, handshake);
      if !handshake {
        return Failed;
      }
      r := ProcessFile(todo, id, i + 1, (k: nat) => env(k + 1), close);
    }

    /** Attempts at one entry: the first, and after each failure another as long as -retries allows;
        giving up is fatal. */
    method ProcessEntry(ghost todo: seq<Id>, id: Id, env: Answers, closes: nat -> Close) returns (r: Outcome)
      requires Reads(Opening(todo, 1)) && todo != [] && todo[0] == id
      modifies this
      ensures Advanced()
      ensures r == Done ==> Reads(NextEntry(todo)) && Processed(id)
      ensures r == Failed ==> Reads(Stopped)
      ensures r == Blocked ==> exists n :: Reads(Sending(todo, n, [], 0))
    {
      r := ProcessFile(todo, id, 1, (k: nat) => env(0, k), closes(0));
      var i := 1;
      while r == Failed && i < cfg.retries
        invariant i >= 1 && Advanced()
        invariant r == Failed ==> Reads(Retrying(todo, i))
        invariant r == Done ==> Reads(NextEntry(todo)) && Processed(id)
        invariant r == Blocked ==> exists n :: Reads(Sending(todo, n, [], 0))
        decreases cfg.retries - i
      {
        r := TryAgain(todo, id, i, (k: nat) => env(i, k), closes(i));
        i := i + 1;
      }
      if r == Failed {
        Wait(todo, i, false);
      }
    }

    method ReadDir(entries: seq<Id>)
      requires Reads(Idle) && DirectoryListing(world, entries)
      modifies this
      ensures Reads(if entries == [] then Idle else Opening(entries, 1)) && Quiet()
    {
      Tick(List(entries));
    }

    /** One turn of the directory loop. When it ends, every entry it listed is gone from the directory, and
        what the scan finds of it has been accepted downstream, which is all of it exactly if it is found
        whole; it does not end at an entry in which no FlowFile is found. */
    method UnstageDirectory(entries: seq<Id>, env: nat -> Answers, closes: nat -> nat -> Close) returns (r: Outcome)
      requires Valid() && world.unstager == Idle && DirectoryListing(world, entries)
      modifies this
      ensures start == old(world) && world.posts == old(world).posts
      ensures r == Done ==> Reads(Idle)
      ensures r == Failed ==> Reads(Stopped)
      ensures r == Blocked ==> exists k, n | 0 <= k < |entries| :: Reads(Sending(entries[k..], n, [], 0))
      ensures Careful(cfg) && Invariant(old(world)) ==>
                && Invariant(world)
                && (r == Done ==> forall id <- entries :: SentOut(world, id) && id !in json)
                && (r == Done ==> forall id <- entries :: id in world.posts && (Delivered(world, id) <==> Whole(world.posts[id].request)))
                && (r == Blocked ==> exists id <- entries :: id in world.posts && Scanned(world.posts[id].request) == [])
    {
      Mark();
      ReadDir(entries);
      r := Done;
      for k := 0 to |entries|
        invariant start == old(world) && world.posts == old(world).posts && r == Done
        invariant Reads(if k == |entries| then Idle else Opening(entries[k..], 1))
        invariant forall j | 0 <= j < k :: Processed(entries[j])
      {
        assert entries[k..][0] == entries[k] && entries[k..][1..] == entries[k + 1..];
        r := ProcessEntry(entries[k..], entries[k], env(k), closes(k));
        if r != Done {
          break;
        }
      }
      if Careful(cfg) && Invariant(old(world)) {
        RunKeepsInvariant(cfg, start, log);
        Outcomes(world, entries, r);
      }
    }

    lemma Outcomes(w: World, entries: seq<Id>, r: Outcome)
      requires Invariant(w) && Careful(cfg) && w == world && w.lib == LIBRARY
      requires r == Done ==> forall j | 0 <= j < |entries| :: Processed(entries[j])
      requires r == Blocked ==> exists k, n | 0 <= k < |entries| :: w.unstager == Sending(entries[k..], n, [], 0)
      ensures r == Done ==> forall id <- entries :: SentOut(w, id) && id !in json
      ensures r == Done ==> forall id <- entries :: id in w.posts && (Delivered(w, id) <==> Whole(w.posts[id].request))
      ensures r == Blocked ==> exists id <- entries :: id in w.posts && Scanned(w.posts[id].request) == []
    {
      if r == Done {
        forall id <- entries
          ensures SentOut(w, id) && id !in json && (Delivered(w, id) <==> Whole(w.posts[id].request))
        {
          var j :| 0 <= j < |entries| && entries[j] == id;
          TakenIsSentOut(w, id);
          DeliveredIff(w, id);
        }
      }
      if r == Blocked {
        var k, n :| 0 <= k < |entries| && w.unstager == Sending(entries[k..], n, [], 0);
        assert entries[k] in entries && entries[k..][0] == entries[k];
      }
    }
  }

  lemma NeverDelivered(before: World, after: World, id: Id)
    requires Invariant(before) && Invariant(after) && id !in before.posts && id in after.posts
    requires after.accepted == before.accepted
    ensures after.posts[id].pc == Acked ==> Staged(after, id)
    ensures after.posts[id].pc == Refused ==> id !in after.json
  {
    assert IdFaithful(after, id);
    var d := Delivery(id, after.lib.scan(after.posts[id].request));
    assert d in before.accepted ==> SentOut(before, d.id);
  }
}
