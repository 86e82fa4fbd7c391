/** The deduplication loop of ff-sender.go (99-117) and what a receiver makes of the files it lets through. */
module Dedup {
  import opened Words
  import Ports

  datatype Content = Content(checksumType: string, checksum: string, size: nat)

  /** A FlowFile about to be sent; link is its "target" attribute when its "kind" is "link". */
  datatype File = File(path: string, content: Content, link: Option<string>)

  /** filepath.Rel: from a directory to a file. */
  type Rel = (string, string) -> Option<string>

  // ---------------------------------------------------------------- the key

  function Escaped(c: char): string {
    if c == '"' || c == '\\' then ['\\', c] else [c]
  }

  function Body(s: string): string {
    if s == "" then "" else Escaped(s[0]) + Body(s[1..])
  }

  /** %q */
  function Quoted(s: string): string {
    "\"" + Body(s) + "\""
  }

  function Key(f: Content): string {
    Quoted(f.checksumType) + Quoted(f.checksum) + Ports.Itoa(f.size)
  }

  lemma EndsAt(a: string, x: string)
    ensures (Body(a) + "\"" + x)[0] == '"' <==> a == ""
  {
  }

  lemma NextChar(a: string, x: string)
    requires a != ""
    ensures var n := |Escaped(a[0])|;
            Escaped(a[0]) <= Body(a) + "\"" + x && (Body(a) + "\"" + x)[n..] == Body(a[1..]) + "\"" + x
  {
    assert Body(a) + "\"" + x == Escaped(a[0]) + (Body(a[1..]) + "\"" + x);
  }

  lemma EscapesDiffer(c: char, d: char, whole: string)
    requires Escaped(c) <= whole && Escaped(d) <= whole
    ensures c == d
  {
    assert whole[0] == Escaped(c)[0] == Escaped(d)[0];
    assert |Escaped(c)| == 2 ==> whole[1] == c;
    assert |Escaped(d)| == 2 ==> whole[1] == d;
  }

  /** The end of a quoted string can be told. */
  lemma {:induction false} BodyEnds(a: string, x: string, b: string, y: string)
    requires Body(a) + "\"" + x == Body(b) + "\"" + y
    ensures a == b && x == y
    decreases |a|
  {
    var whole := Body(a) + "\"" + x;
    EndsAt(a, x);
    EndsAt(b, y);
    if a == "" {
      assert x == whole[1..] && y == whole[1..];
    } else {
      NextChar(a, x);
      NextChar(b, y);
      EscapesDiffer(a[0], b[0], whole);
      BodyEnds(a[1..], x, b[1..], y);
      assert a == [a[0]] + a[1..] && b == [b[0]] + b[1..];
    }
  }

  lemma QuotedEnds(a: string, x: string, b: string, y: string)
    requires Quoted(a) + x == Quoted(b) + y
    ensures a == b && x == y
  {
    assert (Quoted(a) + x)[1..] == Body(a) + "\"" + x;
    assert (Quoted(b) + y)[1..] == Body(b) + "\"" + y;
    BodyEnds(a, x, b, y);
  }

  /** Two keys agree exactly when checksum type, checksum and size do: the text built
      from the three loses nothing, whatever characters the attributes hold. */
  lemma KeyIsExact(f: Content, g: Content)
    ensures Key(f) == Key(g) <==> f == g
  {
    if Key(f) == Key(g) {
      var x, y := Quoted(f.checksum) + Ports.Itoa(f.size), Quoted(g.checksum) + Ports.Itoa(g.size);
      assert Key(f) == Quoted(f.checksumType) + x && Key(g) == Quoted(g.checksumType) + y;
      QuotedEnds(f.checksumType, x, g.checksumType, y);
      QuotedEnds(f.checksum, Ports.Itoa(f.size), g.checksum, Ports.Itoa(g.size));
      Ports.DigitsItoa(f.size);
      Ports.DigitsItoa(g.size);
    }
  }

  // ---------------------------------------------------------------- the loop

  /** path.Split: the directory with its slash. */
  function Dir(p: string): string {
    if p == "" || p[|p| - 1] == '/' then p else Dir(p[..|p| - 1])
  }

  /** The index of the first file with the content of file i. */
  function First(files: seq<File>, i: nat): (j: nat)
    requires i < |files|
    ensures j <= i && files[j].content == files[i].content
    ensures forall k | 0 <= k < j :: files[k].content != files[i].content
  {
    FirstFrom(files, i, 0)
  }

  function FirstFrom(files: seq<File>, i: nat, k: nat): (j: nat)
    requires k <= i < |files| && forall l | 0 <= l < k :: files[l].content != files[i].content
    ensures j <= i && files[j].content == files[i].content
    ensures forall l | 0 <= l < j :: files[l].content != files[i].content
    decreases i - k
  {
    if files[k].content == files[i].content then k else FirstFrom(files, i, k + 1)
  }

  /** What becomes of file i: a link to the first file with its content, if there is an earlier one and it
      can be named from the directory of file i. */
  function Sent(files: seq<File>, rel: Rel, i: nat): File
    requires i < |files|
  {
    var j := First(files, i);
    var fp := rel(Dir(files[i].path), files[j].path);
    if j < i && fp.Some? then files[i].(link := fp, content := files[i].content.(size := 0)) else files[i]
  }

  method Split(p: string) returns (dn: string)
    ensures dn == Dir(p)
  {
    var n: nat := |p|;
    assert p[..n] == p;
    while n > 0 && p[n - 1] != '/'
      invariant n <= |p| && Dir(p[..n]) == Dir(p)
    {
      assert p[..n][..n - 1] == p[..n - 1];
      n := n - 1;
    }
    return p[..n];
  }

  lemma SameFirst(files: seq<File>, i: nat, j: nat)
    requires i < |files| && j < |files| && files[i].content == files[j].content
    ensures First(files, i) == First(files, j)
  {
  }

  ghost function Noted(seen: map<string, string>, key: string, p: string): map<string, string> {
    if key in seen then seen else seen[key := p]
  }

  /** seenChecksums after n files. */
  ghost function SeenAfter(files: seq<File>, n: nat): map<string, string>
    requires n <= |files|
  {
    if n == 0 then map[] else Noted(SeenAfter(files, n - 1), Key(files[n - 1].content), files[n - 1].path)
  }

  ghost predicate Holds(seen: map<string, string>, key: string, there: bool, p: string) {
    (key in seen <==> there) && (key in seen ==> seen[key] == p)
  }

  lemma NotedHolds(seen: map<string, string>, key: string, there: bool, p: string, k: string, q: string)
    requires Holds(seen, key, there, p) && (k == key && !there ==> p == q)
    ensures Holds(Noted(seen, k, q), key, there || k == key, p)
  {
  }

  /** seenChecksums holds the path of the first file with each key. */
  lemma {:induction false} SeenIsFirst(files: seq<File>, n: nat, i: nat)
    requires n <= |files| && i < |files|
    ensures Holds(SeenAfter(files, n), Key(files[i].content), First(files, i) < n, files[First(files, i)].path)
  {
    if n > 0 {
      var m, j := n - 1, First(files, i);
      SeenIsFirst(files, m, i);
      KeyIsExact(files[m].content, files[i].content);
      NotedHolds(SeenAfter(files, m), Key(files[i].content), j < m, files[j].path, Key(files[m].content), files[m].path);
    }
  }

  /** The body of the loop over content with -dedup, for file i. */
  method LinkOrNote(c: File, seenChecksums: map<string, string>, rel: Rel, ghost files: seq<File>, ghost i: nat)
      returns (d: File, seen: map<string, string>)
    requires i < |files| && files[i] == c && seenChecksums == SeenAfter(files, i)
    ensures d == Sent(files, rel, i) && seen == SeenAfter(files, i + 1)
  {
    SeenIsFirst(files, i, i);
    var ckval := Key(c.content);
    d, seen := c, seenChecksums;
    if ckval in seenChecksums {
      var dn := Split(c.path);
      var fp := rel(dn, seenChecksums[ckval]);
      if fp.Some? {
        d := c.(link := fp, content := c.content.(size := 0));
      }
    } else {
      seen := seenChecksums[ckval := c.path];
    }
  }

  /** The loop over content with -dedup. */
  method Deduplicate(content: array<File>, rel: Rel)
    modifies content
    ensures forall i | 0 <= i < content.Length :: content[i] == Sent(old(content[..]), rel, i)
  {
    ghost var files := content[..];
    var seenChecksums: map<string, string> := map[];
    for i := 0 to content.Length
      invariant content[i..] == files[i..]
      invariant forall k | 0 <= k < i :: content[k] == Sent(files, rel, k)
      invariant seenChecksums == SeenAfter(files, i)
    {
      assert content[i] == content[i..][0] == files[i];
      var d, seen := LinkOrNote(content[i], seenChecksums, rel, files, i);
      content[i], seenChecksums := d, seen;
      assert content[i + 1..] == files[i..][1..];
    }
  }

  // ---------------------------------------------------------------- what the links mean

  ghost predicate Regular(files: seq<File>) {
    forall i | 0 <= i < |files| :: files[i].link == None
  }

  /** A link carries no bytes, and keeps path, checksum type and checksum of what it stands for. */
  ghost predicate EmptyLink(link: File, f: File) {
    && link.content.size == 0 && link.path == f.path
    && link.content.checksumType == f.content.checksumType && link.content.checksum == f.content.checksum
  }

  /** Links never chain: a link is made exactly when an earlier file has the same content and can be named,
      and what it names is the first such file, which is itself sent as content and unchanged. */
  lemma LinksReachContent(files: seq<File>, rel: Rel, i: nat)
    requires Regular(files) && i < |files|
    ensures var j := First(files, i);
            && Sent(files, rel, j) == files[j]
            && (Sent(files, rel, i).link.Some? <==> j < i && rel(Dir(files[i].path), files[j].path).Some?)
            && (Sent(files, rel, i).link.Some? ==> Sent(files, rel, i).link == rel(Dir(files[i].path), files[j].path))
            && (Sent(files, rel, i).link.None? ==> Sent(files, rel, i) == files[i])
            && (Sent(files, rel, i).link.Some? ==> EmptyLink(Sent(files, rel, i), files[i]))
  {
    SameFirst(files, First(files, i), i);
  }

  /** filepath.Rel inverts joining, and here never fails. */
  ghost predicate Relates(rel: Rel, join: (string, string) -> string) {
    forall dn, p :: Named(rel, join, dn, p)
  }

  ghost predicate Named(rel: Rel, join: (string, string) -> string, dn: string, p: string) {
    rel(dn, p).Some? && join(dn, rel(dn, p).value) == p
  }

  /** With a Rel that never fails each content is sent exactly once, the bytes of it, too. */
  lemma EachContentOnce(files: seq<File>, rel: Rel, join: (string, string) -> string, i: nat, j: nat)
    requires Regular(files) && Relates(rel, join) && i < |files| && j < |files|
    ensures Sent(files, rel, First(files, i)).link.None?
    ensures Sent(files, rel, i).link.None? && Sent(files, rel, j).link.None? && files[i].content == files[j].content ==> i == j
    ensures files[i].content == files[j].content && Sent(files, rel, i).content.size > 0 && Sent(files, rel, j).content.size > 0
            ==> i == j
  {
    LinksReachContent(files, rel, i);
    LinksReachContent(files, rel, j);
    assert Named(rel, join, Dir(files[i].path), files[First(files, i)].path);
    assert Named(rel, join, Dir(files[j].path), files[First(files, j)].path);
    if files[i].content == files[j].content {
      SameFirst(files, i, j);
    }
  }

  function SizesSent(files: seq<File>, rel: Rel, n: nat): nat
    requires n <= |files|
  {
    if n == 0 then 0 else SizesSent(files, rel, n - 1) + Sent(files, rel, n - 1).content.size
  }

  ghost function Contents(files: seq<File>, n: nat): set<Content>
    requires n <= |files|
  {
    set i | 0 <= i < n :: files[i].content
  }

  ghost function SizesOf(contents: set<Content>): nat {
    if contents == {} then 0
    else
      var c :| c in contents;
      c.size + SizesOf(contents - {c})
  }

  lemma {:induction false} SizesOfWithout(contents: set<Content>, c: Content)
    requires c in contents
    ensures SizesOf(contents) == c.size + SizesOf(contents - {c})
  {
    var d :| d in contents && SizesOf(contents) == d.size + SizesOf(contents - {d});
    if d != c {
      SizesOfWithout(contents - {d}, c);
      SizesOfWithout(contents - {c}, d);
      assert contents - {d} - {c} == contents - {c} - {d};
    }
  }

  lemma ContentsExtend(files: seq<File>, n: nat)
    requires n < |files|
    ensures Contents(files, n + 1) == Contents(files, n) + {files[n].content}
    ensures files[n].content in Contents(files, n) <==> First(files, n) < n
  {
  }

  /** What is sent has as many bytes as the distinct contents together. */
  lemma {:induction false} BytesSent(files: seq<File>, rel: Rel, join: (string, string) -> string, n: nat)
    requires Regular(files) && Relates(rel, join) && n <= |files|
    ensures SizesSent(files, rel, n) == SizesOf(Contents(files, n))
  {
    if n == 0 {
      assert Contents(files, 0) == {};
    } else {
      var i := n - 1;
      BytesSent(files, rel, join, i);
      LinksReachContent(files, rel, i);
      assert Named(rel, join, Dir(files[i].path), files[First(files, i)].path);
      ContentsExtend(files, i);
      if First(files, i) == i {
        SizesOfWithout(Contents(files, n), files[i].content);
        assert Contents(files, n) - {files[i].content} == Contents(files, i);
      } else {
        assert Contents(files, n) == Contents(files, i);
      }
    }
  }

  /** The receiver gets one file. A link to a taken path fails, which is ignored; `os.Create` goes through
      a link that is there already, and fails if it leads to itself. */
  function Deliver(join: (string, string) -> string, tree: map<string, File>, f: File): map<string, File> {
    if f.link.Some? then
      if f.path in tree then tree else tree[f.path := f]
    else if f.path !in tree || tree[f.path].link.None? then tree[f.path := f]
    else
      var target := join(Dir(f.path), tree[f.path].link.value);
      if target == f.path then tree else tree[target := f]
  }

  /** What a receiver has after some deliveries, each the number of a file; any file may come at any
      time, and more than once. */
  function Tree(files: seq<File>, rel: Rel, join: (string, string) -> string, order: seq<nat>): map<string, File>
    requires forall k | 0 <= k < |order| :: order[k] < |files|
  {
    if order == [] then map[]
    else
      var n := |order| - 1;
      Deliver(join, Tree(files, rel, join, order[..n]), Sent(files, rel, order[n]))
  }

  /** Reading a path, through a link if need be, yields a file with this content. */
  ghost predicate Reads(tree: map<string, File>, join: (string, string) -> string, p: string, content: Content) {
    p in tree &&
    var f := tree[p];
    if f.link.None? then f.content == content
    else
      var target := join(Dir(p), f.link.value);
      target in tree && tree[target].link.None? && tree[target].content == content
  }

  /** Content that arrives is what is then read at its path, unless a link there leads to itself; and only the
      file it is written to changes. */
  lemma CreateReadsIff(join: (string, string) -> string, tree: map<string, File>, f: File)
    requires f.link.None?
    ensures var t, linked := Deliver(join, tree, f), f.path in tree && tree[f.path].link.Some?;
            var target := if linked then join(Dir(f.path), tree[f.path].link.value) else f.path;
            && (Reads(t, join, f.path, f.content) <==> !linked || target != f.path)
            && forall p <- tree | p != target :: p in t && t[p] == tree[p]
  {
  }

  ghost predicate AllDelivered(files: seq<File>, order: seq<nat>) {
    && (forall k | 0 <= k < |order| :: order[k] < |files|)
    && (forall i: nat | i < |files| :: i in order)
  }

  ghost predicate Preserved(files: seq<File>, join: (string, string) -> string, tree: map<string, File>) {
    forall i | 0 <= i < |files| :: Reads(tree, join, files[i].path, files[i].content)
  }

  /** No file that is the first with its content is listed a second time. */
  ghost predicate FirstsListedOnce(files: seq<File>) {
    forall i, j | 0 <= i < j < |files| && First(files, i) == i :: files[i].path != files[j].path
  }

  /** A path is a file: listed twice it has the same checksum and size. */
  ghost predicate PathsDetermineContent(files: seq<File>) {
    forall i, j | 0 <= i < j < |files| && files[i].path == files[j].path :: files[i].content == files[j].content
  }

  /** Files found on disk, and ways between all of them. */
  ghost predicate Listed(files: seq<File>, rel: Rel, join: (string, string) -> string) {
    Regular(files) && PathsDetermineContent(files) && Relates(rel, join)
  }

  lemma SameContent(files: seq<File>, i: nat, j: nat)
    requires PathsDetermineContent(files) && i < |files| && j < |files| && files[i].path == files[j].path
    ensures files[i].content == files[j].content && First(files, i) == First(files, j)
  {
    SameFirst(files, i, j);
  }

  /** A file of the list that was sent and has this path. */
  ghost predicate From(files: seq<File>, rel: Rel, p: string, f: File) {
    exists o: nat :: IsSent(files, rel, o, p, f)
  }

  ghost predicate IsSent(files: seq<File>, rel: Rel, o: nat, p: string, f: File) {
    o < |files| && files[o].path == p && Sent(files, rel, o) == f
  }

  ghost predicate AllFrom(files: seq<File>, rel: Rel, tree: map<string, File>) {
    forall p <- tree :: From(files, rel, p, tree[p])
  }

  /** A link names the first file with the same content. */
  lemma LinkTarget(files: seq<File>, rel: Rel, join: (string, string) -> string, o: nat)
    requires Listed(files, rel, join) && o < |files|
    ensures First(files, First(files, o)) == First(files, o)
    ensures Sent(files, rel, First(files, o)) == files[First(files, o)]
    ensures var f := Sent(files, rel, o);
            && (f.link.None? <==> First(files, o) == o)
            && (f.link.Some? ==> join(Dir(files[o].path), f.link.value) == files[First(files, o)].path)
  {
    LinksReachContent(files, rel, o);
    SameFirst(files, First(files, o), o);
    assert Named(rel, join, Dir(files[o].path), files[First(files, o)].path);
  }

  /** Where content meets a link of its own path, the link leads to itself. */
  lemma ContentOnLink(files: seq<File>, rel: Rel, join: (string, string) -> string, tree: map<string, File>, i: nat)
    requires Listed(files, rel, join) && AllFrom(files, rel, tree) && i < |files| && First(files, i) == i
    requires files[i].path in tree && tree[files[i].path].link.Some?
    ensures join(Dir(files[i].path), tree[files[i].path].link.value) == files[i].path
  {
    var p := files[i].path;
    assert From(files, rel, p, tree[p]);
    var o: nat :| IsSent(files, rel, o, p, tree[p]);
    SameContent(files, o, i);
    LinkTarget(files, rel, join, o);
  }

  lemma DeliverShape(files: seq<File>, rel: Rel, join: (string, string) -> string, tree: map<string, File>, i: nat)
    requires Listed(files, rel, join) && AllFrom(files, rel, tree) && i < |files|
    ensures var p, f := files[i].path, Sent(files, rel, i);
            var t := Deliver(join, tree, f);
            f.path == p && ((t == tree && p in tree) || t == tree[p := f])
  {
    LinkTarget(files, rel, join, i);
    var p := files[i].path;
    if Sent(files, rel, i).link.None? && p in tree && tree[p].link.Some? {
      ContentOnLink(files, rel, join, tree, i);
    }
  }

  lemma FromExtends(files: seq<File>, rel: Rel, tree: map<string, File>, p: string, f: File)
    requires AllFrom(files, rel, tree) && From(files, rel, p, f)
    ensures AllFrom(files, rel, tree[p := f])
  {
  }

  lemma DeliverKeepsFrom(files: seq<File>, rel: Rel, join: (string, string) -> string, tree: map<string, File>, i: nat)
    requires Listed(files, rel, join) && AllFrom(files, rel, tree) && i < |files|
    ensures var t := Deliver(join, tree, Sent(files, rel, i));
            && AllFrom(files, rel, t)
            && tree.Keys + {files[i].path} == t.Keys
            && forall p <- tree :: p == files[i].path || t[p] == tree[p]
  {
    var p, f := files[i].path, Sent(files, rel, i);
    DeliverShape(files, rel, join, tree, i);
    assert From(files, rel, p, f) by {
      assert IsSent(files, rel, i, p, f);
    }
    FromExtends(files, rel, tree, p, f);
  }

  /** Content, once there, stays. */
  ghost predicate ContentThere(files: seq<File>, tree: map<string, File>, j: nat)
    requires j < |files|
  {
    files[j].path in tree && tree[files[j].path] == files[j]
  }

  lemma ContentStays(files: seq<File>, rel: Rel, join: (string, string) -> string,
                     tree: map<string, File>, i: nat, j: nat)
    requires Listed(files, rel, join) && AllFrom(files, rel, tree) && i < |files|
    requires j < |files| && First(files, j) == j && ContentThere(files, tree, j)
    ensures ContentThere(files, Deliver(join, tree, Sent(files, rel, i)), j)
  {
    DeliverKeepsFrom(files, rel, join, tree, i);
    if files[i].path == files[j].path {
      SameContent(files, i, j);
      LinkTarget(files, rel, join, i);
    }
  }

  lemma ContentArrives(files: seq<File>, rel: Rel, join: (string, string) -> string, tree: map<string, File>, j: nat)
    requires Listed(files, rel, join) && AllFrom(files, rel, tree)
    requires FirstsListedOnce(files)
    requires j < |files| && First(files, j) == j
    ensures ContentThere(files, Deliver(join, tree, Sent(files, rel, j)), j)
  {
    LinkTarget(files, rel, join, j);
    var p := files[j].path;
    if p in tree {
      assert From(files, rel, p, tree[p]);
      var o: nat :| IsSent(files, rel, o, p, tree[p]);
      SameContent(files, o, j);
    }
  }

  lemma {:induction false} TreeFrom(files: seq<File>, rel: Rel, join: (string, string) -> string, order: seq<nat>)
    requires Listed(files, rel, join) && forall k | 0 <= k < |order| :: order[k] < |files|
    ensures AllFrom(files, rel, Tree(files, rel, join, order))
  {
    if order != [] {
      var n := |order| - 1;
      TreeFrom(files, rel, join, order[..n]);
      DeliverKeepsFrom(files, rel, join, Tree(files, rel, join, order[..n]), order[n]);
    }
  }

  lemma {:induction false} PathComes(files: seq<File>, rel: Rel, join: (string, string) -> string, order: seq<nat>, i: nat)
    requires Listed(files, rel, join) && (forall k | 0 <= k < |order| :: order[k] < |files|) && i in order
    ensures files[i].path in Tree(files, rel, join, order)
  {
    var n := |order| - 1;
    var tree := Tree(files, rel, join, order[..n]);
    TreeFrom(files, rel, join, order[..n]);
    DeliverKeepsFrom(files, rel, join, tree, order[n]);
    if order[n] != i {
      PathComes(files, rel, join, order[..n], i);
    }
  }

  lemma {:induction false} ContentComes(files: seq<File>, rel: Rel, join: (string, string) -> string,
                                        order: seq<nat>, j: nat)
    requires Listed(files, rel, join) && FirstsListedOnce(files)
    requires (forall k | 0 <= k < |order| :: order[k] < |files|) && j in order && First(files, j) == j
    ensures ContentThere(files, Tree(files, rel, join, order), j)
  {
    var n := |order| - 1;
    var tree := Tree(files, rel, join, order[..n]);
    TreeFrom(files, rel, join, order[..n]);
    if order[n] == j {
      ContentArrives(files, rel, join, tree, j);
    } else {
      ContentComes(files, rel, join, order[..n], j);
      ContentStays(files, rel, join, tree, order[n], j);
    }
  }

  lemma PathReads(files: seq<File>, rel: Rel, join: (string, string) -> string, order: seq<nat>, i: nat)
    requires Listed(files, rel, join) && FirstsListedOnce(files)
    requires AllDelivered(files, order) && i < |files|
    ensures Reads(Tree(files, rel, join, order), join, files[i].path, files[i].content)
  {
    var p, tree := files[i].path, Tree(files, rel, join, order);
    assert i in order;
    TreeFrom(files, rel, join, order);
    PathComes(files, rel, join, order, i);
    assert From(files, rel, p, tree[p]);
    var o: nat :| IsSent(files, rel, o, p, tree[p]);
    SameContent(files, o, i);
    LinkTarget(files, rel, join, o);
    var j := First(files, o);
    assert j in order;
    ContentComes(files, rel, join, order, j);
  }

  lemma LinkOutlives(files: seq<File>, rel: Rel, join: (string, string) -> string, tree: map<string, File>, j: nat, o: nat)
    requires Listed(files, rel, join) && AllFrom(files, rel, tree) && j < |files| && o < |files|
    requires First(files, j) < j && files[First(files, j)].path == files[j].path
    requires files[j].path in tree && tree[files[j].path] == Sent(files, rel, j)
    ensures var t := Deliver(join, tree, Sent(files, rel, o));
            files[j].path in t && t[files[j].path] == Sent(files, rel, j)
  {
    DeliverKeepsFrom(files, rel, join, tree, o);
    LinkTarget(files, rel, join, j);
    if files[o].path == files[j].path {
      SameContent(files, o, j);
      LinkTarget(files, rel, join, o);
    }
  }

  /** A repeated first file whose link comes before it. */
  lemma {:induction false} LinkStays(files: seq<File>, rel: Rel, join: (string, string) -> string, j: nat, order: seq<nat>)
    requires Listed(files, rel, join) && forall k | 0 <= k < |order| :: order[k] < |files|
    requires j < |files| && First(files, j) < j && files[First(files, j)].path == files[j].path
    requires order != [] && order[0] == j
    ensures var tree := Tree(files, rel, join, order);
            files[j].path in tree && tree[files[j].path] == Sent(files, rel, j)
  {
    var n := |order| - 1;
    var tree := Tree(files, rel, join, order[..n]);
    if n == 0 {
      LinkTarget(files, rel, join, j);
    } else {
      LinkStays(files, rel, join, j, order[..n]);
      TreeFrom(files, rel, join, order[..n]);
      LinkOutlives(files, rel, join, tree, j, order[n]);
    }
  }

  lemma RepeatedFirstIsLost(files: seq<File>, rel: Rel, join: (string, string) -> string, i: nat, j: nat)
    requires Listed(files, rel, join)
    requires i < j < |files| && First(files, i) == i && files[i].path == files[j].path
    ensures var order := [j] + UpTo(|files|);
            AllDelivered(files, order) && !Preserved(files, join, Tree(files, rel, join, order))
  {
    var rest := UpTo(|files|);
    SameContent(files, i, j);
    LinkStays(files, rel, join, j, [j] + rest);
    forall k: nat | k < |files|
      ensures k in [j] + rest
    {
      assert ([j] + rest)[k + 1] == k;
    }
    LinkTarget(files, rel, join, j);
    assert !Reads(Tree(files, rel, join, [j] + rest), join, files[j].path, files[j].content);
  }

  /** Sending links instead of repeated content keeps every path's content, whatever the order of the
      deliveries, exactly when no file that is the first with its content is listed again, as happens when
      the arguments overlap: then its path may become a link to itself. */
  lemma ContentKeptIff(files: seq<File>, rel: Rel, join: (string, string) -> string)
    requires Listed(files, rel, join)
    ensures (forall order | AllDelivered(files, order) :: Preserved(files, join, Tree(files, rel, join, order)))
       <==> FirstsListedOnce(files)
  {
    if FirstsListedOnce(files) {
      forall order, i: nat | AllDelivered(files, order) && i < |files|
        ensures Reads(Tree(files, rel, join, order), join, files[i].path, files[i].content)
      {
        PathReads(files, rel, join, order, i);
      }
    } else {
      var i, j :| 0 <= i < j < |files| && First(files, i) == i && files[i].path == files[j].path;
      RepeatedFirstIsLost(files, rel, join, i, j);
    }
  }
}
