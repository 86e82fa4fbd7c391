/** Runs that break the promises of the staging directory, and that they are all there are. */
module StagingLimits {
  import opened Words
  import opened FlowFile
  import opened Paths
  import opened Scanner
  import opened Staging

  /** These actions lead to w, and every batch posted in them is fs. */
  ghost predicate Leads(cfg: Config, fs: seq<File>, actions: seq<Action>, w: World) {
    Run(cfg, EMPTY, actions) == w && forall a <- actions :: a.Begin? ==> a.request == fs
  }

  lemma Then(cfg: Config, fs: seq<File>, actions: seq<Action>, w: World, a: Action) returns (more: seq<Action>)
    requires Leads(cfg, fs, actions, w) && (a.Begin? ==> a.request == fs)
    ensures Leads(cfg, fs, more, Next(cfg, w, a))
  {
    more := RunExtends(cfg, EMPTY, actions, w, a);
  }

  /** A post on its own, one successful step further. */
  lemma OneStep(cfg: Config, fs: seq<File>, actions: seq<Action>, w: World) returns (more: seq<Action>, w': World)
    requires Leads(cfg, fs, actions, w) && 0 in w.posts
    ensures Leads(cfg, fs, more, w') && w' == PostStep(cfg, w, 0, true)
  {
    more := Then(cfg, fs, actions, w, Step(0, true));
    w' := PostStep(cfg, w, 0, true);
  }

  /** A post has written and noted the first i of its FlowFiles. */
  function Writing(fs: seq<File>, i: nat): World
    requires i <= |fs|
  {
    var notes := Listings(fs[..i]);
    World(map[0 := Dat(fs[..i], false)], map[0 := None], map[], map[0 := Post(fs, Write(i), notes)], Idle, [], LIBRARY)
  }

  lemma Opened(cfg: Config, fs: seq<File>) returns (actions: seq<Action>)
    ensures Leads(cfg, fs, actions, Writing(fs, 0))
  {
    var w := EMPTY;
    actions := Then(cfg, fs, [], w, Begin(0, fs));
    w := Next(cfg, w, Begin(0, fs));
    actions, w := OneStep(cfg, fs, actions, w);
    actions, w := OneStep(cfg, fs, actions, w);
    assert fs[..0] == [] && Listings([]) == [];
    assert w == Writing(fs, 0);
  }

  lemma {:induction false} Written(cfg: Config, fs: seq<File>, i: nat) returns (actions: seq<Action>)
    requires !cfg.scriptRm && i <= |fs|
    ensures Leads(cfg, fs, actions, Writing(fs, i))
  {
    if i == 0 {
      actions := Opened(cfg, fs);
    } else {
      actions := Written(cfg, fs, i - 1);
      var w := Writing(fs, i - 1);
      ListingsExtend(fs, i - 1);
      actions, w := OneStep(cfg, fs, actions, w);
      actions, w := OneStep(cfg, fs, actions, w);
      assert w == Writing(fs, i);
    }
  }

  /** The batch is staged and acknowledged. */
  function Ready(fs: seq<File>, u: Unstager, accepted: seq<Delivery>): World {
    var notes := Listings(fs);
    World(map[0 := Dat(fs, false)], map[], map[0 := Some(notes)],
          map[0 := Post(fs, Acked, notes)], u, accepted, LIBRARY)
  }

  lemma Committing(cfg: Config, fs: seq<File>) returns (actions: seq<Action>)
    requires !cfg.scriptRm
    ensures Leads(cfg, fs, actions, Ready(fs, Idle, []))
  {
    actions := Written(cfg, fs, |fs|);
    var w := Writing(fs, |fs|);
    assert fs[..|fs|] == fs;
    actions, w := OneStep(cfg, fs, actions, w);
    actions, w := OneStep(cfg, fs, actions, w);
    actions := Acknowledging(cfg, fs, actions, w);
  }

  lemma Acknowledging(cfg: Config, fs: seq<File>, before: seq<Action>, w0: World) returns (actions: seq<Action>)
    requires Leads(cfg, fs, before, w0)
    requires w0 == World(map[0 := Dat(fs, false)], map[0 := Some(Listings(fs))], map[],
                         map[0 := Post(fs, Rename, Listings(fs))], Idle, [], LIBRARY)
    ensures Leads(cfg, fs, actions, Ready(fs, Idle, []))
  {
    var w;
    actions, w := OneStep(cfg, fs, before, w0);
    actions, w := OneStep(cfg, fs, actions, w);
    assert w == Ready(fs, Idle, []);
  }

  lemma Listed(cfg: Config, fs: seq<File>) returns (actions: seq<Action>)
    requires !cfg.scriptRm
    ensures Leads(cfg, fs, actions, Ready(fs, Opening([0], 1), []))
  {
    actions := Committing(cfg, fs);
    var w := Ready(fs, Idle, []);
    assert DirectoryListing(w, [0]);
    actions := Then(cfg, fs, actions, w, List([0]));
  }

  lemma OpenStep(cfg: Config, fs: seq<File>, found: seq<Found>)
    requires found == Scanned(fs)
    ensures Next(cfg, Ready(fs, Opening([0], 1), []), Open(true)) == Ready(fs, Sending([0], 1, found, 0), [])
  {
  }

  lemma SendStep(cfg: Config, fs: seq<File>, found: seq<Found>, k: nat)
    requires k < |found| && !Upward(found[k].attrs)
    ensures var w := Ready(fs, Sending([0], 1, found, k), []);
            Next(cfg, w, Send(true)) == Ready(fs, Sending([0], 1, found, k + 1), [])
  {
  }

  lemma {:induction false} Sent(cfg: Config, fs: seq<File>, found: seq<Found>, k: nat) returns (actions: seq<Action>)
    requires !cfg.scriptRm && found == Scanned(fs) && Level(LIBRARY, found, k)
    ensures Leads(cfg, fs, actions, Ready(fs, Sending([0], 1, found, k), []))
  {
    if k == 0 {
      actions := Listed(cfg, fs);
      OpenStep(cfg, fs, found);
      actions := Then(cfg, fs, actions, Ready(fs, Opening([0], 1), []), Open(true));
    } else {
      actions := Sent(cfg, fs, found, k - 1);
      SendStep(cfg, fs, found, k - 1);
      actions := Then(cfg, fs, actions, Ready(fs, Sending([0], 1, found, k - 1), []), Send(true));
    }
  }

  /** The answer has come: the .json is next. */
  function Answered(fs: seq<File>, found: seq<Found>, close: Close): World {
    Ready(fs, RemoveJson([0]), if close == Accepted then [Delivery(0, found)] else [])
  }

  lemma CloseStep(cfg: Config, fs: seq<File>, found: seq<Found>, close: Close)
    requires found != [] && Answer(cfg, close) == close && NoError(close)
    ensures Next(cfg, Ready(fs, Sending([0], 1, found, |found|), []), CloseRequest(close)) == Answered(fs, found, close)
  {
  }

  /** The request upstream is closed without error, with this answer. */
  lemma Closed(cfg: Config, fs: seq<File>, found: seq<Found>, close: Close) returns (actions: seq<Action>)
    requires !cfg.scriptRm && found == Scanned(fs) && Passes(LIBRARY, found)
    requires Answer(cfg, close) == close && NoError(close)
    ensures Leads(cfg, fs, actions, Answered(fs, found, close))
  {
    actions := Sent(cfg, fs, found, |found|);
    CloseStep(cfg, fs, found, close);
    actions := Then(cfg, fs, actions, Ready(fs, Sending([0], 1, found, |found|), []), CloseRequest(close));
  }

  /** An acknowledged batch that is gone from the directory. */
  ghost predicate Gone(fs: seq<File>, w: World, accepted: seq<Delivery>) {
    && 0 in w.posts && w.posts[0].request == fs && w.posts[0].pc == Acked
    && 0 !in w.json && 0 !in w.dat && w.accepted == accepted
  }

  lemma Removed(cfg: Config, fs: seq<File>, before: seq<Action>, accepted: seq<Delivery>)
    returns (actions: seq<Action>, w: World)
    requires Leads(cfg, fs, before, Ready(fs, RemoveJson([0]), accepted))
    ensures Leads(cfg, fs, actions, w) && Gone(fs, w, accepted)
  {
    w := Ready(fs, RemoveJson([0]), accepted);
    actions := Then(cfg, fs, before, w, Remove(true));
    w := w.(unstager := RemoveDat([0]), json := w.json - {0});
    actions := Then(cfg, fs, actions, w, Remove(true));
    w := Next(cfg, w, Remove(true));
  }

  // ---------------------------------------------------------------- losing runs

  /** A batch of one FlowFile without attributes and payload. */
  const SMALL: seq<File> := [File([], [])]

  lemma SmallPasses()
    ensures Passes(LIBRARY, Scanned(SMALL)) && Whole(SMALL)
  {
    NoneFull(SMALL);
  }

  lemma ScriptRan(cfg: Config) returns (actions: seq<Action>, w: World)
    requires cfg.scriptRm
    ensures Leads(cfg, SMALL, actions, w) && 0 in w.posts
    ensures w.posts[0].pc == Write(1) && |w.posts[0].request| == 1 && 0 in w.temp && 0 !in w.dat
  {
    actions := Opened(cfg, SMALL);
    w := Writing(SMALL, 0);
    actions, w := OneStep(cfg, SMALL, actions, w);
    actions, w := OneStep(cfg, SMALL, actions, w);
    assert w.posts[0].pc == ScriptRmDat(0) && 0 in w.temp;
    actions, w := OneStep(cfg, SMALL, actions, w);
    actions, w := OneStep(cfg, SMALL, actions, w);
  }

  /** With -script and -rm the data is gone before the batch is committed. */
  lemma ScriptRmLosesData(cfg: Config) returns (actions: seq<Action>, w: World)
    requires cfg.scriptRm
    ensures Leads(cfg, SMALL, actions, w) && 0 in w.json && 0 !in w.dat && !Safe(w)
  {
    actions, w := ScriptRan(cfg);
    actions, w := OneStep(cfg, SMALL, actions, w);
    actions, w := OneStep(cfg, SMALL, actions, w);
    actions, w := OneStep(cfg, SMALL, actions, w);
  }

  /** A .json that cannot be removed is left behind without its .dat. */
  lemma FailedRemovalLeavesListing(cfg: Config) returns (actions: seq<Action>, w: World)
    requires cfg.removeFails && !cfg.scriptRm
    ensures Leads(cfg, SMALL, actions, w) && 0 in w.json && 0 !in w.dat && !Safe(w)
  {
    SmallPasses();
    actions := Closed(cfg, SMALL, Scanned(SMALL), Accepted);
    actions, w := HalfRemoved(cfg, SMALL, actions, [Delivery(0, Scanned(SMALL))]);
  }

  lemma HalfRemoved(cfg: Config, fs: seq<File>, before: seq<Action>, accepted: seq<Delivery>)
    returns (actions: seq<Action>, w: World)
    requires cfg.removeFails && Leads(cfg, fs, before, Ready(fs, RemoveJson([0]), accepted))
    ensures Leads(cfg, fs, actions, w) && 0 in w.json && 0 !in w.dat
  {
    w := Ready(fs, RemoveJson([0]), accepted);
    actions := Then(cfg, fs, before, w, Remove(false));
    w := w.(unstager := RemoveDat([0]));
    actions := Then(cfg, fs, actions, w, Remove(true));
    w := Next(cfg, w, Remove(true));
  }

  /** An acknowledged batch that downstream answers with a status other than 200 is removed and lost. */
  lemma DeclinedIsLost(cfg: Config) returns (actions: seq<Action>, w: World)
    requires cfg.declines && !cfg.scriptRm
    ensures Leads(cfg, SMALL, actions, w) && Gone(SMALL, w, []) && !Safe(w)
  {
    SmallPasses();
    actions := Closed(cfg, SMALL, Scanned(SMALL), Declined);
    actions, w := Removed(cfg, SMALL, actions, []);
  }

  /** A batch that is not kept is acknowledged, and then removed after only what the scan finds of it has
      been accepted downstream. */
  lemma NotKeptIsLost(cfg: Config, fs: seq<File>) returns (actions: seq<Action>, w: World)
    requires !cfg.scriptRm && !Kept(fs)
    ensures Leads(cfg, fs, actions, w) && Gone(fs, w, [Delivery(0, Scanned(fs))]) && !Safe(w)
  {
    actions := Closed(cfg, fs, Scanned(fs), Accepted);
    actions, w := Removed(cfg, fs, actions, [Delivery(0, Scanned(fs))]);
  }

  /** A payload that is followed by other FlowFiles, and does not begin with an N: these are lost. */
  lemma FollowersAreLost(cfg: Config, fs: seq<File>) returns (actions: seq<Action>, w: World)
    requires !cfg.scriptRm && AllStorable(fs) && forall f <- fs :: !Upward(f.attrs)
    requires var k := FirstFull(fs); k + 1 < |fs| && fs[k].payload[0] != MAGIC[0]
    ensures Leads(cfg, fs, actions, w) && Gone(fs, w, [Delivery(0, AllFound(fs[..FirstFull(fs) + 1]))]) && !Safe(w)
  {
    TameScanned(fs, FirstFull(fs));
    HeadIsNotKept(fs, FirstFull(fs) + 1);
    actions, w := NotKeptIsLost(cfg, fs);
  }

  lemma HeadIsNotKept(fs: seq<File>, n: nat)
    requires 0 < n < |fs| && Scanned(fs) == AllFound(fs[..n]) && forall f <- fs :: !Upward(f.attrs)
    ensures !Kept(fs)
  {
    HeadPasses(fs, n);
    assert |AllFound(fs)| == |fs|;
  }

  lemma HeadPasses(fs: seq<File>, n: nat)
    requires 0 < n <= |fs| && forall f <- fs :: !Upward(f.attrs)
    ensures Passes(LIBRARY, AllFound(fs[..n]))
  {
    forall i | 0 <= i < n
      ensures !Upward(AllFound(fs[..n])[i].attrs)
    {
      assert fs[i] in fs;
    }
  }

  // ---------------------------------------------------------------- exactly when the promises are kept

  lemma LeadsPosted(cfg: Config, fs: seq<File>, actions: seq<Action>, w: World, allowed: seq<File> -> bool)
    requires Leads(cfg, fs, actions, w) && allowed(fs)
    ensures Posted(actions, allowed)
  {
  }

  /** With these batches the protocol keeps its promises in all runs. */
  ghost predicate AlwaysSafe(cfg: Config, allowed: seq<File> -> bool) {
    forall actions: seq<Action> | Posted(actions, allowed) :: Safe(Run(cfg, EMPTY, actions))
  }

  lemma CarelessIsUnsafe(cfg: Config, allowed: seq<File> -> bool)
    requires allowed(SMALL) && !Careful(cfg)
    ensures !AlwaysSafe(cfg, allowed)
  {
    var actions, w;
    if cfg.scriptRm {
      actions, w := ScriptRmLosesData(cfg);
    } else if cfg.removeFails {
      actions, w := FailedRemovalLeavesListing(cfg);
    } else {
      actions, w := DeclinedIsLost(cfg);
    }
    LeadsPosted(cfg, SMALL, actions, w, allowed);
  }

  /** The protocol keeps its promises in all runs with these batches exactly when scripts do not delete the
      staged files, removing a .json works, downstream never answers with a status other than 200, and each
      batch is found as it was posted, unless the unstager never gets past it. */
  lemma CommitProtocolSafeIff(cfg: Config, allowed: seq<File> -> bool)
    requires allowed(SMALL)
    ensures AlwaysSafe(cfg, allowed) <==> Careful(cfg) && forall fs | allowed(fs) :: Kept(fs)
  {
    if !Careful(cfg) {
      CarelessIsUnsafe(cfg, allowed);
    } else if fs :| allowed(fs) && !Kept(fs) {
      var actions, w := NotKeptIsLost(cfg, fs);
      LeadsPosted(cfg, fs, actions, w, allowed);
    } else {
      forall actions: seq<Action> | Posted(actions, allowed)
        ensures Safe(Run(cfg, EMPTY, actions))
      {
        assert Posted(actions, Kept);
        CommitProtocolSafe(cfg, actions);
      }
    }
  }

  /** Batches without payloads that begin with an N, and without paths that lead upward: they are all kept
      exactly if none but the last FlowFile of each has a payload. */
  lemma KeptIff(fs: seq<File>)
    requires AllStorable(fs) && forall f <- fs :: !Upward(f.attrs)
    requires forall f <- fs :: f.payload != [] ==> f.payload[0] != MAGIC[0]
    ensures Kept(fs) <==> forall i | 0 <= i < |fs| - 1 :: fs[i].payload == []
  {
    TameWholeIff(fs);
    var k := FirstFull(fs);
    if !Whole(fs) {
      assert k < |fs| by {
        if k == |fs| {
          NoneFull(fs);
        }
      }
      assert fs[k] in fs;
      TameScanned(fs, k);
      HeadPasses(fs, k + 1);
    }
  }
}
