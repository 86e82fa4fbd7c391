/**
 The staging directory as stager posts and the unstager share it (ff-stager.go:73-165,
 ff-unstager.go:52-149). A FlowFile is its attributes and payload, and a .dat is read back as module
 Scanner says. Every file-system call, answer and crash is one step.
 */
module Staging {
  import opened Words
  import opened FlowFile
  import opened Paths
  import opened Scanner

  type Id = nat  // the random uuid of one post, as `os.ReadDir` orders the names of its files

  /** An entry of the .json file: the attributes with "size" set. */
  datatype Listing = Listing(attrs: seq<Attribute>, size: nat)

  function ListOf(f: File): Listing {
    Listing(f.attrs, |f.payload|)
  }

  function Listings(fs: seq<File>): seq<Listing> {
    seq(|fs|, i requires 0 <= i < |fs| => ListOf(fs[i]))
  }

  /** Entry by entry, this lists the attributes and the payload sizes of these FlowFiles. */
  ghost predicate Lists(listing: seq<Listing>, fs: seq<File>) {
    && |listing| == |fs|
    && forall i | 0 <= i < |fs| :: listing[i].attrs == fs[i].attrs && listing[i].size == |fs[i].payload|
  }

  lemma ListingsList(fs: seq<File>)
    ensures Lists(Listings(fs), fs)
  {
  }

  /** A .dat file: whole FlowFiles, and perhaps the beginning of one more. */
  datatype Dat = Dat(files: seq<File>, torn: bool)

  /** The flags: -script with -rm, -rm-partial, -retries; whether removing a .json may fail; and whether
      downstream may answer with a status other than 200. */
  datatype Config = Config(scriptRm: bool, rmPartial: bool, retries: nat, removeFails: bool, declines: bool)

  /** Where a post is; `Dead` is a post cut off by a crash. */
  datatype Pc =
    | CreateDat | CreateTemp | Write(i: nat) | Verify(i: nat) | ScriptRmDat(i: nat) | ScriptRmJson(i: nat)
    | CleanDat | CleanJson | Encode | Rename | Ack | Failing | Acked | Refused | Dead

  datatype Post = Post(request: seq<File>, pc: Pc, attrSlice: seq<Listing>)

  /** What became of closing the upstream request. `Declined` is an answer other than 200, which `Close`
      returns without error; the last two are errors of the connection. */
  datatype Close = Accepted | Declined | Rejected | AcceptedButLost

  function Answer(cfg: Config, close: Close): Close {
    if close == Declined && !cfg.declines then Accepted else close
  }

  predicate NoError(close: Close) {
    close == Accepted || close == Declined
  }

  /** Where the unstager is in its directory loop; `todo` starts with the entry it is working on. */
  datatype Unstager =
    | Idle
    | Opening(todo: seq<Id>, tries: nat)
    | Sending(todo: seq<Id>, tries: nat, content: seq<Found>, sent: nat)
    | Retrying(todo: seq<Id>, tries: nat)
    | RemoveJson(todo: seq<Id>)
    | RemoveDat(todo: seq<Id>)
    | Stopped

  /** The FlowFiles of one request, once it is closed. Downstream may have some of a request that failed,
      too; what it makes of them is its own business. */
  datatype Delivery = Delivery(id: Id, files: seq<Found>)

  /** What the library finds in a .dat of whole FlowFiles, and which attributes lead upward. */
  datatype Library = Library(scan: seq<File> -> seq<Found>, upward: seq<Attribute> -> bool)

  /** `temp` and `json` hold None until the listing is completely written. */
  datatype World = World(
    dat: map<Id, Dat>,
    temp: map<Id, Option<seq<Listing>>>,
    json: map<Id, Option<seq<Listing>>>,
    posts: map<Id, Post>,
    unstager: Unstager,
    accepted: seq<Delivery>,  // what downstream has accepted, oldest first
    lib: Library)             // which never changes

  const LIBRARY := Library(Scanned, Upward)

  const EMPTY := World(map[], map[], map[], map[], Idle, [], LIBRARY)

  datatype Action =
    | Begin(id: Id, request: seq<File>)
    | Step(id: Id, ok: bool)
    | CrashStager
    | List(entries: seq<Id>)
    | Open(ok: bool)
    | Send(ok: bool)
    | CloseRequest(close: Close)
    | Retry(handshake: bool)
    | Remove(ok: bool)
    | CrashUnstager
    | Restart

  // ---------------------------------------------------------------- one step of a post

  function Goto(w: World, id: Id, pc: Pc): World
    requires id in w.posts
  {
    w.(posts := w.posts[id := w.posts[id].(pc := pc)])
  }

  /** The FlowFile is done with: note its attributes and go on to the next. */
  function Noted(w: World, id: Id, i: nat): World
    requires id in w.posts && i < |w.posts[id].request|
  {
    var p := w.posts[id];
    w.(posts := w.posts[id := p.(pc := Write(i + 1), attrSlice := p.attrSlice + [ListOf(p.request[i])])])
  }

  /** Appending goes through the open handle: a removed file stays removed. */
  function Append(dat: map<Id, Dat>, id: Id, f: File, ok: bool): map<Id, Dat> {
    if id !in dat then dat
    else if ok then dat[id := dat[id].(files := dat[id].files + [f])]
    else dat[id := dat[id].(torn := true)]
  }

  function PostStep(cfg: Config, w: World, id: Id, ok: bool): World
    requires id in w.posts
  {
    var p := w.posts[id];
    match p.pc
    case CreateDat =>
      if ok then Goto(w, id, CreateTemp).(dat := w.dat[id := Dat([], false)]) else Goto(w, id, Failing)
    case CreateTemp =>
      if ok then Goto(w, id, Write(0)).(temp := w.temp[id := None]) else Goto(w, id, Failing)
    case Write(i) =>
      if i >= |p.request| then Goto(w, id, Encode)
      else Goto(w, id, if ok then Verify(i) else Failing).(dat := Append(w.dat, id, p.request[i], ok))
    case Verify(i) =>
      if i >= |p.request| then w
      else if !ok then Goto(w, id, if cfg.rmPartial then CleanDat else Failing)
      else if cfg.scriptRm then Goto(w, id, ScriptRmDat(i))
      else Noted(w, id, i)
    case ScriptRmDat(i) => Goto(w, id, ScriptRmJson(i)).(dat := w.dat - {id})
    case ScriptRmJson(i) =>
      if i >= |p.request| then w else Noted(w, id, i).(json := w.json - {id})
    case CleanDat => Goto(w, id, CleanJson).(dat := w.dat - {id})
    case CleanJson => Goto(w, id, Failing).(json := w.json - {id})
    case Encode =>
      if ok then Goto(w, id, Rename).(temp := w.temp[id := Some(p.attrSlice)]) else Goto(w, id, Failing)
    case Rename =>
      if id !in w.temp then w
      else Goto(w, id, Ack).(json := w.json[id := w.temp[id]], temp := w.temp - {id})
    case Ack => Goto(w, id, Acked)
    case Failing => Goto(w, id, Refused)
    case Acked => w
    case Refused => w
    case Dead => w
  }

  predicate Over(pc: Pc) {
    pc == Acked || pc == Refused || pc == Dead
  }

  function Crashed(posts: map<Id, Post>): map<Id, Post> {
    map id | id in posts :: if Over(posts[id].pc) then posts[id] else posts[id].(pc := Dead)
  }

  // ---------------------------------------------------------------- one step of the unstager

  function NextEntry(todo: seq<Id>): Unstager {
    if |todo| <= 1 then Idle else Opening(todo[1..], 1)
  }

  ghost predicate Sorted(ids: seq<Id>) {
    forall i, j | 0 <= i < j < |ids| :: ids[i] < ids[j]
  }

  ghost predicate DirectoryListing(w: World, entries: seq<Id>) {
    Sorted(entries) && forall id :: id in entries <==> id in w.json
  }

  ghost function UnstagerStep(cfg: Config, w: World, a: Action): World {
    match (w.unstager, a)
    case (Idle, List(entries)) =>
      if !DirectoryListing(w, entries) then w
      else w.(unstager := if entries == [] then Idle else Opening(entries, 1))
    case (Opening(todo, n), Open(ok)) =>
      if todo != [] && ok && todo[0] in w.dat then w.(unstager := Sending(todo, n, w.lib.scan(w.dat[todo[0]].files), 0))
      else w.(unstager := Retrying(todo, n))
    case (Sending(todo, n, content, k), Send(ok)) =>
      if k >= |content| then w
      else if ok && !w.lib.upward(content[k].attrs) then w.(unstager := Sending(todo, n, content, k + 1))
      else w.(unstager := Retrying(todo, n))
    case (Sending(todo, n, content, k), CloseRequest(c)) =>
      if k < |content| || content == [] || todo == [] then w  // without a first write, Close never returns
      else
        var close := Answer(cfg, c);
        w.(unstager := if NoError(close) then RemoveJson(todo) else Retrying(todo, n),
           accepted := if close == Accepted || close == AcceptedButLost then w.accepted + [Delivery(todo[0], content)]
                       else w.accepted)
    case (Retrying(todo, n), Retry(handshake)) =>
      if n >= cfg.retries then w.(unstager := Stopped)  // log.Fatal
      else w.(unstager := if handshake then Opening(todo, n + 1) else Retrying(todo, n + 1))
    case (RemoveJson(todo), Remove(ok)) =>
      if todo == [] then w
      else w.(unstager := RemoveDat(todo), json := if ok || !cfg.removeFails then w.json - {todo[0]} else w.json)
    case (RemoveDat(todo), Remove(ok)) =>
      if todo == [] then w
      else w.(unstager := NextEntry(todo), dat := w.dat - {todo[0]})
    case (_, _) => w
  }

  /** A step that is not possible in w leaves w as it is. */
  ghost function Next(cfg: Config, w: World, a: Action): World {
    match a
    case Begin(id, request) =>
      if id in w.posts then w else w.(posts := w.posts[id := Post(request, CreateDat, [])])
    case Step(id, ok) => if id in w.posts then PostStep(cfg, w, id, ok) else w
    case CrashStager => w.(posts := Crashed(w.posts))
    case CrashUnstager => w.(unstager := Stopped)
    case Restart => if w.unstager.Stopped? then w.(unstager := Idle) else w
    case _ => UnstagerStep(cfg, w, a)
  }

  ghost function Run(cfg: Config, w: World, actions: seq<Action>): World {
    if actions == [] then w
    else Next(cfg, Run(cfg, w, actions[..|actions| - 1]), actions[|actions| - 1])
  }

  // ---------------------------------------------------------------- the commit protocol

  /** The batch is on disk, whole, and listed file by file. */
  ghost predicate Staged(w: World, id: Id) {
    && id in w.posts && id in w.json && id in w.dat
    && w.dat[id] == Dat(w.posts[id].request, false)
    && w.json[id] == Some(Listings(w.posts[id].request))
  }

  /** The .json says of every FlowFile of the batch, in order, which attributes and what size it has. */
  ghost predicate Described(w: World, id: Id) {
    id in w.posts && id in w.json && w.json[id].Some? && Lists(w.json[id].value, w.posts[id].request)
  }

  lemma StagedIsDescribed(w: World, id: Id)
    requires Staged(w, id)
    ensures Described(w, id)
  {
    ListingsList(w.posts[id].request);
  }

  /** Downstream has accepted the batch as it was posted. */
  ghost predicate Delivered(w: World, id: Id) {
    id in w.posts && Delivery(id, AllFound(w.posts[id].request)) in w.accepted
  }

  /** Downstream has accepted what is found of the batch. */
  ghost predicate SentOut(w: World, id: Id) {
    id in w.posts && Delivery(id, w.lib.scan(w.posts[id].request)) in w.accepted
  }

  /** What a reader of the directory and the sender of an acknowledged batch may rely on. */
  ghost predicate Safe(w: World) {
    && (forall id <- w.json :: Staged(w, id) && Described(w, id))
    && (forall id <- w.posts :: w.posts[id].pc == Acked ==> Staged(w, id) || Delivered(w, id))
    && (forall d <- w.accepted :: Delivered(w, d.id) && d.files == AllFound(w.posts[d.id].request))
  }

  /** The unstager gets past an entry in which it finds FlowFiles, and none that leads upward. */
  predicate Passes(lib: Library, found: seq<Found>) {
    found != [] && Level(lib, found, |found|)
  }

  /** The first k do not lead upward. */
  predicate Level(lib: Library, found: seq<Found>, k: nat) {
    k <= |found| && forall i | 0 <= i < k :: !lib.upward(found[i].attrs)
  }

  /** A post that has not committed is invisible and has written what its position says. */
  ghost predicate InProgress(w: World, id: Id, n: nat)
    requires id in w.posts
  {
    var p := w.posts[id];
    && n <= |p.request|
    && id !in w.json && id in w.temp && id in w.dat && w.dat[id] == Dat(p.request[..n], false)
  }

  ghost predicate PostFaithful(w: World, id: Id)
    requires id in w.posts
  {
    var p := w.posts[id];
    match p.pc
    case CreateDat => id !in w.json && p.attrSlice == []
    case CreateTemp => id !in w.json && id in w.dat && w.dat[id] == Dat([], false) && p.attrSlice == []
    case Write(i) => InProgress(w, id, i) && p.attrSlice == Listings(p.request[..i])
    case Verify(i) => i < |p.request| && InProgress(w, id, i + 1) && p.attrSlice == Listings(p.request[..i])
    case ScriptRmDat(_) => false
    case ScriptRmJson(_) => false
    case CleanDat => id !in w.json
    case CleanJson => id !in w.json
    case Encode => InProgress(w, id, |p.request|) && p.attrSlice == Listings(p.request)
    case Rename => InProgress(w, id, |p.request|) && w.temp[id] == Some(Listings(p.request))
    case Ack => Staged(w, id) || SentOut(w, id)
    case Failing => id !in w.json
    case Acked => Staged(w, id) || SentOut(w, id)
    case Refused => id !in w.json
    case Dead => true
  }

  /** The entries still to do are staged; the one whose .json is gone has been delivered. */
  ghost predicate UnstagerFaithful(w: World) {
    match w.unstager
    case Idle => true
    case Stopped => true
    case Opening(todo, _) => Distinct(todo) && todo != [] && forall id <- todo :: id in w.json
    case Retrying(todo, _) => Distinct(todo) && todo != [] && forall id <- todo :: id in w.json
    case Sending(todo, _, content, k) =>
      && Distinct(todo) && todo != [] && (forall id <- todo :: id in w.json)
      && todo[0] in w.posts && content == w.lib.scan(w.posts[todo[0]].request)
      && Level(w.lib, content, k)
    case RemoveJson(todo) =>
      Distinct(todo) && todo != [] && (forall id <- todo :: id in w.json) && SentOut(w, todo[0])
    case RemoveDat(todo) =>
      && Distinct(todo) && todo != [] && (forall id <- todo[1..] :: id in w.json)
      && todo[0] !in w.json && SentOut(w, todo[0])
      && todo[0] in w.posts && Committed(w.posts[todo[0]].pc)
  }

  predicate Committed(pc: Pc) {
    pc == Ack || pc == Acked || pc == Dead
  }

  ghost predicate Invariant(w: World) {
    && (forall id :: IdFaithful(w, id))
    && (forall d <- w.accepted :: SentOut(w, d.id) && d.files == w.lib.scan(w.posts[d.id].request) && Passes(w.lib, d.files))
    && UnstagerFaithful(w)
  }

  ghost predicate Careful(cfg: Config) {
    !cfg.scriptRm && !cfg.removeFails && !cfg.declines
  }

  lemma ListingsExtend(fs: seq<File>, i: nat)
    requires i < |fs|
    ensures Listings(fs[..i + 1]) == Listings(fs[..i]) + [ListOf(fs[i])]
    ensures fs[..i + 1] == fs[..i] + [fs[i]]
  {
  }

  // ---------------------------------------------------------------- steps of posts

  /** Nothing about this id differs. */
  ghost predicate SameAt(w: World, w': World, id: Id) {
    && (id in w.posts <==> id in w'.posts) && (id in w.posts ==> w'.posts[id] == w.posts[id])
    && (id in w.json <==> id in w'.json) && (id in w.json ==> w'.json[id] == w.json[id])
    && (id in w.dat <==> id in w'.dat) && (id in w.dat ==> w'.dat[id] == w.dat[id])
    && (id in w.temp <==> id in w'.temp) && (id in w.temp ==> w'.temp[id] == w.temp[id])
  }

  lemma FaithfulFrame(w: World, w': World, id: Id)
    requires SameAt(w, w', id) && w.accepted <= w'.accepted && w'.lib == w.lib
    ensures SentOut(w, id) ==> SentOut(w', id)
    ensures Staged(w, id) <==> Staged(w', id)
    ensures id in w.posts && PostFaithful(w, id) ==> PostFaithful(w', id)
  {
  }

  /** What must hold of one id. */
  ghost predicate IdFaithful(w: World, id: Id) {
    && (id in w.json ==> Staged(w, id) && Committed(w.posts[id].pc))
    && (id in w.posts ==> PostFaithful(w, id))
  }

  lemma StepFaithful(cfg: Config, w: World, id: Id, ok: bool)
    requires Careful(cfg) && id in w.posts && IdFaithful(w, id)
    ensures IdFaithful(PostStep(cfg, w, id, ok), id)
  {
    var p := w.posts[id];
    match p.pc
    case Write(i) =>
      if i < |p.request| {
        ListingsExtend(p.request, i);
      } else {
        assert p.request[..i] == p.request;
      }
    case Verify(i) => ListingsExtend(p.request, i);
    case CreateTemp => assert p.request[..0] == [];
    case Encode => assert p.request[..|p.request|] == p.request;
    case Rename => assert p.request[..|p.request|] == p.request;
    case _ =>
  }

  lemma StepSameListings(cfg: Config, w: World, id: Id, ok: bool, x: Id)
    requires id in w.posts && x != id
    ensures var w' := PostStep(cfg, w, id, ok);
            && (x in w.posts <==> x in w'.posts) && (x in w.posts ==> w'.posts[x] == w.posts[x])
            && (x in w.json <==> x in w'.json) && (x in w.json ==> w'.json[x] == w.json[x])
  {
    match w.posts[id].pc
    case CreateDat =>
    case CreateTemp =>
    case Write(i) =>
    case Verify(i) =>
    case ScriptRmDat(i) =>
    case ScriptRmJson(i) =>
    case CleanDat =>
    case CleanJson =>
    case Encode =>
    case Rename =>
    case Ack =>
    case Failing =>
    case Acked =>
    case Refused =>
    case Dead =>
  }

  lemma StepSameData(cfg: Config, w: World, id: Id, ok: bool, x: Id)
    requires id in w.posts && x != id
    ensures var w' := PostStep(cfg, w, id, ok);
            && (x in w.dat <==> x in w'.dat) && (x in w.dat ==> w'.dat[x] == w.dat[x])
            && (x in w.temp <==> x in w'.temp) && (x in w.temp ==> w'.temp[x] == w.temp[x])
  {
    match w.posts[id].pc
    case CreateDat =>
    case CreateTemp =>
    case Write(i) =>
    case Verify(i) =>
    case ScriptRmDat(i) =>
    case ScriptRmJson(i) =>
    case CleanDat =>
    case CleanJson =>
    case Encode =>
    case Rename =>
    case Ack =>
    case Failing =>
    case Acked =>
    case Refused =>
    case Dead =>
  }

  /** A post touches its own files only. */
  lemma StepSameAt(cfg: Config, w: World, id: Id, ok: bool, x: Id)
    requires id in w.posts && x != id
    ensures SameAt(w, PostStep(cfg, w, id, ok), x)
  {
    StepSameListings(cfg, w, id, ok, x);
    StepSameData(cfg, w, id, ok, x);
  }

  /** A post never takes a listing away, and a committed one does not add any. */
  lemma StepKeepsListing(cfg: Config, w: World, id: Id, ok: bool)
    requires Careful(cfg) && id in w.posts && IdFaithful(w, id)
    ensures var w' := PostStep(cfg, w, id, ok);
            && w'.accepted == w.accepted && w'.unstager == w.unstager && w'.lib == w.lib
            && id in w'.posts && w'.posts[id].request == w.posts[id].request
            && (Committed(w.posts[id].pc) ==> Committed(w'.posts[id].pc) && w'.json == w.json)
            && (id in w.json ==> id in w'.json)
  {
    match w.posts[id].pc
    case CreateDat =>
    case CreateTemp =>
    case Write(i) =>
    case Verify(i) =>
    case ScriptRmDat(i) =>
    case ScriptRmJson(i) =>
    case CleanDat =>
    case CleanJson =>
    case Encode =>
    case Rename =>
    case Ack =>
    case Failing =>
    case Acked =>
    case Refused =>
    case Dead =>
  }

  lemma PostKeepsInvariant(cfg: Config, w: World, id: Id, ok: bool)
    requires Careful(cfg) && id in w.posts && Invariant(w)
    ensures Invariant(PostStep(cfg, w, id, ok))
  {
    var w' := PostStep(cfg, w, id, ok);
    assert IdFaithful(w, id);
    StepFaithful(cfg, w, id, ok);
    StepKeepsListing(cfg, w, id, ok);
    forall x | x != id
      ensures SameAt(w, w', x)
    {
      StepSameAt(cfg, w, id, ok, x);
    }
    OneIdChanged(w, w', id);
  }

  lemma OneIdChanged(w: World, w': World, id: Id)
    requires Invariant(w) && w'.accepted == w.accepted && w'.unstager == w.unstager && w'.lib == w.lib
    requires forall x | x != id :: SameAt(w, w', x)
    requires IdFaithful(w', id)
    requires id in w.posts ==> id in w'.posts && w'.posts[id].request == w.posts[id].request
    requires id in w.posts && Committed(w.posts[id].pc) ==> Committed(w'.posts[id].pc) && (id in w.json <==> id in w'.json)
    requires id in w.json ==> id in w'.json
    ensures Invariant(w')
  {
    forall x
      ensures IdFaithful(w', x)
      ensures x in w.posts ==> x in w'.posts && w'.posts[x].request == w.posts[x].request
      ensures x in w.posts && Committed(w.posts[x].pc) ==> Committed(w'.posts[x].pc) && (x in w.json <==> x in w'.json)
      ensures x in w.json ==> x in w'.json
    {
      assert IdFaithful(w, x);
      if x != id {
        assert SameAt(w, w', x);
        FaithfulFrame(w, w', x);
      }
    }
    StagedMeansUnstager(w, w');
  }

  /** The unstager's expectations survive as long as listings stay and the rest only grows. */
  lemma StagedMeansUnstager(w: World, w': World)
    requires UnstagerFaithful(w) && w'.unstager == w.unstager && w'.accepted == w.accepted && w'.lib == w.lib
    requires forall x :: x in w.posts ==> x in w'.posts && w'.posts[x].request == w.posts[x].request
    requires forall x :: x in w.posts && Committed(w.posts[x].pc) ==> Committed(w'.posts[x].pc) && (x in w.json <==> x in w'.json)
    requires forall x :: x in w.json ==> x in w'.json
    ensures UnstagerFaithful(w')
  {
  }

  lemma BeginKeepsInvariant(w: World, id: Id, request: seq<File>)
    requires Invariant(w) && id !in w.posts
    ensures Invariant(w.(posts := w.posts[id := Post(request, CreateDat, [])]))
  {
    assert IdFaithful(w, id);
    OneIdChanged(w, w.(posts := w.posts[id := Post(request, CreateDat, [])]), id);
  }

  lemma CrashKeepsInvariant(w: World)
    requires Invariant(w)
    ensures Invariant(w.(posts := Crashed(w.posts)))
  {
    var w' := w.(posts := Crashed(w.posts));
    forall x
      ensures IdFaithful(w', x)
    {
      assert IdFaithful(w, x);
    }
    StagedMeansUnstager(w, w');
  }

  /** A post that has been cut off takes no further step, and its files are not listed. */
  lemma {:induction false} DeadStays(cfg: Config, w: World, actions: seq<Action>, id: Id)
    requires id in w.posts && w.posts[id].pc == Dead && id !in w.json
    ensures var t := Run(cfg, w, actions);
            && id in t.posts && t.posts[id] == w.posts[id] && id !in t.json
            && (id in t.temp <==> id in w.temp) && (id in w.temp ==> t.temp[id] == w.temp[id])
  {
    if actions != [] {
      DeadStays(cfg, w, actions[..|actions| - 1], id);
      DeadStep(cfg, Run(cfg, w, actions[..|actions| - 1]), actions[|actions| - 1], id);
    }
  }

  lemma DeadStep(cfg: Config, w: World, a: Action, id: Id)
    requires id in w.posts && w.posts[id].pc == Dead && id !in w.json
    ensures var t := Next(cfg, w, a);
            && id in t.posts && t.posts[id] == w.posts[id] && id !in t.json
            && (id in t.temp <==> id in w.temp) && (id in w.temp ==> t.temp[id] == w.temp[id])
  {
    if a.Step? && a.id in w.posts && a.id != id {
      StepSameAt(cfg, w, a.id, a.ok, id);
    }
  }

  /** A crash before the rename is final: whatever happens afterwards, the batch is never listed nor
      acknowledged, and its .inprogress file stays where it is. */
  lemma CutOffIsNeverListed(cfg: Config, w: World, actions: seq<Action>, id: Id)
    requires id in w.posts && !Over(w.posts[id].pc) && id !in w.json
    ensures var t := Run(cfg, Next(cfg, w, CrashStager), actions);
            && id in t.posts && t.posts[id].pc != Acked && id !in t.json
            && (id in t.temp <==> id in w.temp) && (id in w.temp ==> t.temp[id] == w.temp[id])
  {
    DeadStays(cfg, Next(cfg, w, CrashStager), actions, id);
  }

  // ---------------------------------------------------------------- steps of the unstager

  lemma AcceptKeepsInvariant(w: World, w': World, id: Id)
    requires Invariant(w) && id in w.posts
    requires w'.dat == w.dat && w'.temp == w.temp && w'.json == w.json && w'.posts == w.posts
    requires w'.lib == w.lib && Passes(w.lib, w.lib.scan(w.posts[id].request))
    requires w'.accepted == w.accepted + [Delivery(id, w.lib.scan(w.posts[id].request))]
    requires UnstagerFaithful(w')
    ensures Invariant(w')
  {
    forall x
      ensures IdFaithful(w', x)
    {
      assert IdFaithful(w, x);
      FaithfulFrame(w, w', x);
    }
    assert Delivery(id, w.lib.scan(w.posts[id].request)) in w'.accepted;
    forall d <- w'.accepted
      ensures SentOut(w', d.id) && d.files == w'.lib.scan(w'.posts[d.id].request) && Passes(w'.lib, d.files)
    {
      if d in w.accepted {
        FaithfulFrame(w, w', d.id);
      }
    }
  }

  lemma RemoveJsonKeepsInvariant(w: World, todo: seq<Id>)
    requires Invariant(w) && w.unstager == RemoveJson(todo)
    ensures Invariant(w.(unstager := RemoveDat(todo), json := w.json - {todo[0]}))
  {
    var w' := w.(unstager := RemoveDat(todo), json := w.json - {todo[0]});
    forall x
      ensures IdFaithful(w', x)
    {
      assert IdFaithful(w, x);
      if x != todo[0] {
        FaithfulFrame(w, w', x);
      }
    }
    forall id <- todo[1..]
      ensures id in w'.json
    {
      assert id in todo && id != todo[0];
    }
    assert todo[0] in todo && IdFaithful(w, todo[0]);
  }

  lemma RemoveDatKeepsInvariant(w: World, todo: seq<Id>)
    requires Invariant(w) && w.unstager == RemoveDat(todo)
    ensures Invariant(w.(unstager := NextEntry(todo), dat := w.dat - {todo[0]}))
  {
    var w' := w.(unstager := NextEntry(todo), dat := w.dat - {todo[0]});
    forall x
      ensures IdFaithful(w', x)
    {
      assert IdFaithful(w, x);
      if x != todo[0] {
        FaithfulFrame(w, w', x);
      }
    }
  }

  lemma LevelGrows(lib: Library, found: seq<Found>, k: nat)
    requires k < |found| && Level(lib, found, k) && !lib.upward(found[k].attrs)
    ensures Level(lib, found, k + 1)
  {
  }

  lemma SendKeepsInvariant(cfg: Config, w: World, a: Action)
    requires Invariant(w) && w.unstager.Sending? && w.unstager.sent < |w.unstager.content|
    ensures Invariant(UnstagerStep(cfg, w, a))
  {
    var todo, n, content, k := w.unstager.todo, w.unstager.tries, w.unstager.content, w.unstager.sent;
    var w' := UnstagerStep(cfg, w, a);
    if w'.unstager.Sending? && w'.unstager.sent == k + 1 {
      LevelGrows(w.lib, content, k);
      OnlyMoved(w, w.(unstager := Sending(todo, n, content, k + 1)));
    } else if w' != w {
      OnlyMoved(w, w.(unstager := Retrying(todo, n)));
    }
  }

  lemma CloseKeepsInvariant(cfg: Config, w: World, a: Action)
    requires Careful(cfg) && Invariant(w) && w.unstager.Sending? && w.unstager.sent == |w.unstager.content|
    ensures Invariant(UnstagerStep(cfg, w, a))
  {
    var w' := UnstagerStep(cfg, w, a);
    var todo, content := w.unstager.todo, w.unstager.content;
    if w'.accepted != w.accepted {
      assert Delivery(todo[0], content) in w'.accepted;
      AcceptKeepsInvariant(w, w', todo[0]);
    } else {
      OnlyMoved(w, w');
    }
  }

  lemma OpeningKeepsInvariant(cfg: Config, w: World, a: Action)
    requires Invariant(w) && w.unstager.Opening?
    ensures Invariant(UnstagerStep(cfg, w, a))
  {
    var todo := w.unstager.todo;
    assert todo[0] in todo && IdFaithful(w, todo[0]);
    OnlyMoved(w, UnstagerStep(cfg, w, a));
  }

  lemma UnstagerKeepsInvariant(cfg: Config, w: World, a: Action)
    requires Careful(cfg) && Invariant(w)
    ensures Invariant(UnstagerStep(cfg, w, a))
  {
    match w.unstager
    case RemoveJson(todo) => if a.Remove? { RemoveJsonKeepsInvariant(w, todo); }
    case RemoveDat(todo) => if a.Remove? { RemoveDatKeepsInvariant(w, todo); }
    case Sending(_, _, content, k) =>
      if k < |content| {
        SendKeepsInvariant(cfg, w, a);
      } else {
        CloseKeepsInvariant(cfg, w, a);
      }
    case Opening(_, _) => OpeningKeepsInvariant(cfg, w, a);
    case _ => OnlyMoved(w, UnstagerStep(cfg, w, a));
  }

  lemma OnlyMoved(w: World, w': World)
    requires Invariant(w) && w' == w.(unstager := w'.unstager) && UnstagerFaithful(w')
    ensures Invariant(w')
  {
    forall x
      ensures IdFaithful(w', x)
    {
      assert IdFaithful(w, x);
      FaithfulFrame(w, w', x);
    }
  }

  lemma NextKeepsInvariant(cfg: Config, w: World, a: Action)
    requires Careful(cfg) && Invariant(w)
    ensures Invariant(Next(cfg, w, a))
  {
    match a
    case Begin(id, request) => if id !in w.posts { BeginKeepsInvariant(w, id, request); }
    case Step(id, ok) => if id in w.posts { PostKeepsInvariant(cfg, w, id, ok); }
    case CrashStager => CrashKeepsInvariant(w);
    case CrashUnstager => OnlyMoved(w, w.(unstager := Stopped));
    case Restart => if w.unstager.Stopped? { OnlyMoved(w, w.(unstager := Idle)); }
    case _ => UnstagerKeepsInvariant(cfg, w, a);
  }

  lemma {:induction false} RunKeepsInvariant(cfg: Config, w: World, actions: seq<Action>)
    requires Careful(cfg) && Invariant(w)
    ensures Invariant(Run(cfg, w, actions))
  {
    if actions != [] {
      RunKeepsInvariant(cfg, w, actions[..|actions| - 1]);
      NextKeepsInvariant(cfg, Run(cfg, w, actions[..|actions| - 1]), actions[|actions| - 1]);
    }
  }

  /** A batch that the unstager can get past is found as it was posted. */
  predicate Kept(fs: seq<File>) {
    Passes(LIBRARY, Scanned(fs)) ==> Whole(fs)
  }

  /** All batches posted are of this kind. */
  ghost predicate Posted(actions: seq<Action>, allowed: seq<File> -> bool) {
    forall a <- actions :: a.Begin? ==> allowed(a.request)
  }

  /** The requests are those that were posted. */
  lemma NextRequests(cfg: Config, w: World, a: Action, id: Id)
    requires id in Next(cfg, w, a).posts
    ensures var request := Next(cfg, w, a).posts[id].request;
            (id in w.posts && w.posts[id].request == request) || a == Begin(id, request)
  {
    if a.Step? && a.id in w.posts {
      PostRequests(cfg, w, a.id, a.ok);
    }
  }

  lemma PostRequests(cfg: Config, w: World, id: Id, ok: bool)
    requires id in w.posts
    ensures PostStep(cfg, w, id, ok).lib == w.lib
    ensures var posts := PostStep(cfg, w, id, ok).posts;
            posts.Keys == w.posts.Keys && forall x <- posts :: posts[x].request == w.posts[x].request
  {
    match w.posts[id].pc
    case CreateDat =>
    case CreateTemp =>
    case Write(i) =>
    case Verify(i) =>
    case ScriptRmDat(i) =>
    case ScriptRmJson(i) =>
    case CleanDat =>
    case CleanJson =>
    case Encode =>
    case Rename =>
    case Ack =>
    case Failing =>
    case Acked =>
    case Refused =>
    case Dead =>
  }

  ghost predicate AllAllowed(w: World, allowed: seq<File> -> bool) {
    forall id <- w.posts :: allowed(w.posts[id].request)
  }

  lemma NextAllowed(cfg: Config, w: World, a: Action, allowed: seq<File> -> bool)
    requires AllAllowed(w, allowed) && (a.Begin? ==> allowed(a.request))
    ensures AllAllowed(Next(cfg, w, a), allowed)
  {
    var w' := Next(cfg, w, a);
    forall id <- w'.posts
      ensures allowed(w'.posts[id].request)
    {
      NextRequests(cfg, w, a, id);
      if id in w.posts && w.posts[id].request == w'.posts[id].request {
        assert allowed(w.posts[id].request);
      }
    }
  }

  lemma {:induction false} RequestsArePosted(cfg: Config, actions: seq<Action>, allowed: seq<File> -> bool)
    requires Posted(actions, allowed)
    ensures AllAllowed(Run(cfg, EMPTY, actions), allowed)
  {
    if actions != [] {
      var init, a := actions[..|actions| - 1], actions[|actions| - 1];
      assert forall b <- init :: b in actions;
      assert a in actions;
      RequestsArePosted(cfg, init, allowed);
      NextAllowed(cfg, Run(cfg, EMPTY, init), a, allowed);
    }
  }

  lemma {:induction false} LibraryStays(cfg: Config, w: World, actions: seq<Action>)
    ensures Run(cfg, w, actions).lib == w.lib
  {
    if actions != [] {
      LibraryStays(cfg, w, actions[..|actions| - 1]);
      NextLibrary(cfg, Run(cfg, w, actions[..|actions| - 1]), actions[|actions| - 1]);
    }
  }

  lemma NextLibrary(cfg: Config, w: World, a: Action)
    ensures Next(cfg, w, a).lib == w.lib
  {
    if a.Step? && a.id in w.posts {
      PostRequests(cfg, w, a.id, a.ok);
    }
  }

  /** Commit protocol: in every state of every interleaving of posts, unstager steps, failures and
      crashes, each .json has its .dat with exactly the listed FlowFiles; what was acknowledged is
      staged, or what the scan finds of it has been accepted downstream; and nothing else is ever accepted. */
  lemma CommitProtocolScans(cfg: Config, actions: seq<Action>)
    requires Careful(cfg)
    ensures var w := Run(cfg, EMPTY, actions);
            && Invariant(w)
            && (forall id <- w.json :: Staged(w, id) && Described(w, id))
            && (forall id <- w.posts :: w.posts[id].pc == Acked ==> Staged(w, id) || SentOut(w, id))
            && (forall d <- w.accepted :: d.id in w.posts && d.files == Scanned(w.posts[d.id].request))
  {
    RunKeepsInvariant(cfg, EMPTY, actions);
    LibraryStays(cfg, EMPTY, actions);
    var w := Run(cfg, EMPTY, actions);
    forall id <- w.posts
      ensures w.posts[id].pc == Acked ==> Staged(w, id) || SentOut(w, id)
    {
      assert IdFaithful(w, id);
    }
    forall id <- w.json
      ensures Staged(w, id) && Described(w, id)
    {
      assert IdFaithful(w, id);
      StagedIsDescribed(w, id);
    }
  }

  /** What was accepted is what was found, so a batch is delivered exactly if it is sent out and whole. */
  lemma DeliveredIff(w: World, id: Id)
    requires Invariant(w) && id in w.posts && w.lib == LIBRARY
    ensures Delivered(w, id) <==> SentOut(w, id) && Whole(w.posts[id].request)
    ensures SentOut(w, id) ==> Passes(LIBRARY, Scanned(w.posts[id].request))
  {
  }

  /** With batches that are kept, what was acknowledged is staged or has been accepted downstream as it
      was posted. */
  lemma CommitProtocolSafe(cfg: Config, actions: seq<Action>)
    requires Careful(cfg) && Posted(actions, Kept)
    ensures Safe(Run(cfg, EMPTY, actions))
  {
    CommitProtocolScans(cfg, actions);
    RequestsArePosted(cfg, actions, Kept);
    LibraryStays(cfg, EMPTY, actions);
    var w := Run(cfg, EMPTY, actions);
    forall id <- w.posts | SentOut(w, id)
      ensures Delivered(w, id) && Whole(w.posts[id].request)
    {
      DeliveredIff(w, id);
    }
  }

  /** One more step of a run that has come to w. */
  lemma RunExtends(cfg: Config, start: World, actions: seq<Action>, w: World, a: Action) returns (more: seq<Action>)
    requires Run(cfg, start, actions) == w
    ensures Run(cfg, start, more) == Next(cfg, w, a)
    ensures more == actions + [a]
  {
    more := actions + [a];
    assert more[..|more| - 1] == actions;
  }
}
