/** Port ranges, source/destination pairing and the worker channel (lib-udp.go:14-47,
    ff-http-to-udp.go:155-166, 365-427). */
module Ports {
  import opened Words

  // ---------------------------------------------------------------- text

  function IndexOfChar(s: string, c: char): (i: nat)
    ensures i <= |s| && (forall k | 0 <= k < i :: s[k] != c) && (i < |s| ==> s[i] == c)
  {
    if s == [] || s[0] == c then 0 else IndexOfChar(s[1..], c) + 1
  }

  /** `strings.Split` for a one-character separator. */
  function Split(s: string, c: char): (parts: seq<string>)
    ensures parts != []
    decreases |s|
  {
    var i := IndexOfChar(s, c);
    if i == |s| then [s] else [s[..i]] + Split(s[i + 1..], c)
  }

  function Join(parts: seq<string>, c: char): string {
    if parts == [] then "" else if |parts| == 1 then parts[0] else parts[0] + [c] + Join(parts[1..], c)
  }

  predicate IsDigit(c: char) {
    '0' <= c <= '9'
  }

  predicate AllDigits(s: string) {
    forall i | 0 <= i < |s| :: IsDigit(s[i])
  }

  function Digits(s: string): nat
    requires AllDigits(s)
  {
    if s == "" then 0 else 10 * Digits(s[..|s| - 1]) + (s[|s| - 1] as int - '0' as int)
  }

  /** `strconv.Atoi`: an optional sign, digits, and a value that fits 64 bits. */
  function Atoi(s: string): Option<int> {
    var signed := s != "" && (s[0] == '+' || s[0] == '-');
    var digits := if signed then s[1..] else s;
    if digits == "" || !AllDigits(digits) then None
    else
      var v: int := if signed && s[0] == '-' then 0 - Digits(digits) else Digits(digits);
      if -TWO_63 <= v < TWO_63 then Some(v) else None
  }

  /** One comma-separated item: a port or a range; anything else is fatal. */
  function Item(s: string): Option<set<int>> {
    var pts := Split(s, '-');
    if |pts| == 1 then
      match Atoi(pts[0]) case None => None case Some(p) => Some({p})
    else if |pts| == 2 then
      match Atoi(pts[0])
      case None => None
      case Some(st) => match Atoi(pts[1]) case None => None case Some(en) => Some(Span(st, en))
    else None
  }

  function Union(items: seq<string>): Option<set<int>> {
    if items == [] then Some({})
    else match Union(items[..|items| - 1])
      case None => None
      case Some(s) => match Item(items[|items| - 1]) case None => None case Some(x) => Some(s + x)
  }

  predicate InRange(p: int) {
    1024 < p < 65536
  }

  lemma {:induction false} UnionFatal(items: seq<string>, k: nat)
    requires k < |items| && (Union(items[..k]).None? || Item(items[k]).None?)
    ensures Union(items).None?
    decreases |items|
  {
    if k < |items| - 1 {
      var init := items[..|items| - 1];
      assert init[..k] == items[..k];
      UnionFatal(init, k);
    } else {
      assert items[..k] == items[..|items| - 1];
    }
  }

  // ---------------------------------------------------------------- what is well-formed

  /** An optional sign and at least one digit. */
  ghost predicate IsNumber(s: string, sign: string, digits: string) {
    s == sign + digits && (sign == "" || sign == "+" || sign == "-") && digits != "" && AllDigits(digits)
  }

  ghost predicate Denotes(s: string, v: int) {
    exists sign, digits :: IsNumber(s, sign, digits) && v == Signed(sign, digits)
  }

  function Signed(sign: string, digits: string): int
    requires AllDigits(digits)
  {
    var n: int := Digits(digits);
    if sign == "-" then -n else n
  }

  /** `Atoi` reads exactly the signed numbers that 64 bits can hold. */
  lemma AtoiIff(s: string, v: int)
    ensures Atoi(s) == Some(v) <==> Denotes(s, v) && -TWO_63 <= v < TWO_63
  {
    var sign, digits := Parts(s);
    if Denotes(s, v) {
      var g, d :| IsNumber(s, g, d) && v == Signed(g, d);
      PartsOnly(s, g, d, sign, digits);
    }
  }

  lemma Parts(s: string) returns (sign: string, digits: string)
    ensures s == sign + digits && (sign == "" || sign == "+" || sign == "-")
    ensures sign == "" && s != "" ==> s[0] != '+' && s[0] != '-'
    ensures IsNumber(s, sign, digits) <==> digits != "" && AllDigits(digits)
    ensures forall v :: Atoi(s) == Some(v) <==> IsNumber(s, sign, digits) && v == Signed(sign, digits) && -TWO_63 <= v < TWO_63
  {
    if s != "" && (s[0] == '+' || s[0] == '-') {
      sign, digits := [s[0]], s[1..];
    } else {
      sign, digits := "", s;
    }
  }

  lemma PartsOnly(s: string, g: string, d: string, sign: string, digits: string)
    requires IsNumber(s, g, d)
    requires s == sign + digits && (sign == "" || sign == "+" || sign == "-")
    requires sign == "" && s != "" ==> s[0] != '+' && s[0] != '-'
    ensures sign == g && digits == d
  {
    assert IsDigit(d[0]) && s[|g|] == d[0];
    assert s[|sign|..] == digits && s[|g|..] == d;
    assert g != "" ==> s[0] == g[0];
    assert sign != "" ==> s[0] == sign[0];
  }

  /** One number, or two with a dash between them. */
  ghost predicate ItemIs(s: string, ports: set<int>) {
    || ('-' !in s && exists p :: Denotes64(s, p) && ports == {p})
    || exists i :: DashAt(s, i, ports)
  }

  ghost predicate Denotes64(s: string, v: int) {
    Denotes(s, v) && -TWO_63 <= v < TWO_63
  }

  ghost predicate DashAt(s: string, i: int, ports: set<int>) {
    && 0 <= i < |s| && s[i] == '-' && '-' !in s[..i] && '-' !in s[i + 1..]
    && exists st, en :: Denotes64(s[..i], st) && Denotes64(s[i + 1..], en) && ports == Span(st, en)
  }

  lemma SplitNone(s: string, c: char)
    requires c !in s
    ensures Split(s, c) == [s]
  {
    SplitFirst(s, "", c);
  }

  lemma SplitOnce(s: string, c: char, i: nat)
    requires i < |s| && s[i] == c && c !in s[..i]
    ensures Split(s, c) == [s[..i]] + Split(s[i + 1..], c)
  {
    SplitFirst(s[..i], s[i + 1..], c);
    assert s == s[..i] + [c] + s[i + 1..];
  }

  lemma SplitTwo(s: string, c: char)
    requires c in s
    ensures |Split(s, c)| >= 2
  {
  }

  /** Exactly what an item of a specification may be: anything else, a second dash among it, is fatal. */
  lemma ItemIff(s: string, ports: set<int>)
    ensures Item(s) == Some(ports) <==> ItemIs(s, ports)
  {
    if '-' !in s {
      SplitNone(s, '-');
      forall p
        ensures Atoi(s) == Some(p) <==> Denotes64(s, p)
      {
        AtoiIff(s, p);
      }
    } else {
      var i := IndexOfChar(s, '-');
      assert '-' !in s[..i];
      SplitOnce(s, '-', i);
      if '-' !in s[i + 1..] {
        SplitNone(s[i + 1..], '-');
        assert Split(s, '-') == [s[..i], s[i + 1..]];
        TwoNumbers(s, i, ports);
        assert forall j | DashAt(s, j, ports) :: j == i;
      } else {
        SplitTwo(s[i + 1..], '-');
        assert forall j | 0 <= j < |s| && s[j] == '-' && '-' !in s[..j] :: j == i;
      }
    }
  }

  lemma TwoNumbers(s: string, i: nat, ports: set<int>)
    requires i < |s| && s[i] == '-' && '-' !in s[..i] && '-' !in s[i + 1..]
    ensures var a, b := Atoi(s[..i]), Atoi(s[i + 1..]);
            DashAt(s, i, ports) <==> a.Some? && b.Some? && ports == Span(a.value, b.value)
  {
    forall v
      ensures Atoi(s[..i]) == Some(v) <==> Denotes64(s[..i], v)
      ensures Atoi(s[i + 1..]) == Some(v) <==> Denotes64(s[i + 1..], v)
    {
      AtoiIff(s[..i], v);
      AtoiIff(s[i + 1..], v);
    }
    var a, b := Atoi(s[..i]), Atoi(s[i + 1..]);
    if DashAt(s, i, ports) {
      var st, en :| Denotes64(s[..i], st) && Denotes64(s[i + 1..], en) && ports == Span(st, en);
      assert a == Some(st) && b == Some(en);
    } else if a.Some? && b.Some? {
      assert Denotes64(s[..i], a.value) && Denotes64(s[i + 1..], b.value);
    }
  }

  method AddRange(outVal: set<int>, from: int, en: int) returns (all: set<int>)
    ensures all == outVal + Span(from, en)
  {
    all := outVal;
    var st := from;
    while st <= en
      invariant from <= st <= Max(from, en + 1)
      invariant all == outVal + Span(from, st - 1)
    {
      all := all + {st};
      st := st + 1;
    }
    assert Span(from, st - 1) == Span(from, en);
  }

  lemma Inhabited(s: set<int>)
    requires s != {}
    ensures exists p :: p in s
  {
    assert (forall p :: p !in s) ==> s == {};
  }

  method Listed(all: set<int>) returns (out: Option<seq<int>>)
    ensures out.Some? <==> forall p <- all :: 1024 < p < 65536
    ensures out.Some? ==> Distinct(out.value) && forall p :: p in out.value <==> p in all
  {
    var outVal: set<int> := all;
    var ports: seq<int> := [];
    while outVal != {}
      invariant outVal <= all && Distinct(ports)
      invariant forall p :: p in ports <==> p in all && p !in outVal
      invariant forall p <- ports :: InRange(p)
      decreases |outVal|
    {
      Inhabited(outVal);
      var k :| k in outVal;  // map iteration order is unspecified
      if !InRange(k) {
        return None;
      }
      ports := ports + [k];
      outVal := outVal - {k};
    }
    return Some(ports);
  }

  /** The ports of a specification in any order, each once; None is `log.Fatal`. */
  method HypenRange(r: string) returns (out: Option<seq<int>>)
    ensures var ports := Union(Split(r, ','));
            && (out.Some? <==> ports.Some? && forall p <- ports.value :: 1024 < p < 65536)
            && (out.Some? ==> Distinct(out.value) && forall p :: p in out.value <==> p in ports.value)
  {
    var outVal: set<int> := {};
    var items := Split(r, ',');
    for i := 0 to |items|
      invariant Union(items[..i]) == Some(outVal)
    {
      assert items[..i + 1][..i] == items[..i];
      var pts := Split(items[i], '-');
      if |pts| == 1 {
        var p := Atoi(pts[0]);
        if p.None? {
          UnionFatal(items, i);
          return None;
        }
        outVal := outVal + {p.value};
      } else if |pts| == 2 {
        var lo, hi := Atoi(pts[0]), Atoi(pts[1]);
        if lo.None? || hi.None? {
          UnionFatal(items, i);
          return None;
        }
        outVal := AddRange(outVal, lo.value, hi.value);
      } else {
        UnionFatal(items, i);
        return None;
      }
    }
    assert items[..|items|] == items;
    out := Listed(outVal);
  }

  // ---------------------------------------------------------------- writing a specification

  datatype Range = Port(p: nat) | FromTo(st: nat, en: nat)

  function PortsOf(r: Range): set<int> {
    match r case Port(p) => {p} case FromTo(st, en) => Span(st, en)
  }

  function AllPorts(rs: seq<Range>): set<int> {
    if rs == [] then {} else AllPorts(rs[..|rs| - 1]) + PortsOf(rs[|rs| - 1])
  }

  function Itoa(n: nat): (s: string)
    ensures s != "" && AllDigits(s)
  {
    var d := [(('0' as int) + n % 10) as char];
    if n < 10 then d else Itoa(n / 10) + d
  }

  function Write(r: Range): string {
    match r case Port(p) => Itoa(p) case FromTo(st, en) => Itoa(st) + "-" + Itoa(en)
  }

  function Texts(rs: seq<Range>): (ts: seq<string>)
    ensures |ts| == |rs|
  {
    seq(|rs|, i requires 0 <= i < |rs| => Write(rs[i]))
  }

  predicate Small(r: Range) {
    match r case Port(p) => p < TWO_63 case FromTo(st, en) => st < TWO_63 && en < TWO_63
  }

  lemma {:induction false} DigitsItoa(n: nat)
    ensures Digits(Itoa(n)) == n
  {
    var s := Itoa(n);
    if n < 10 {
      assert s[..|s| - 1] == "";
    } else {
      DigitsItoa(n / 10);
      assert s[..|s| - 1] == Itoa(n / 10);
    }
  }

  lemma AtoiItoa(n: nat)
    requires n < TWO_63
    ensures Atoi(Itoa(n)) == Some(n)
  {
    DigitsItoa(n);
    assert Itoa(n)[0] in Itoa(n);
  }

  lemma SplitFirst(a: string, rest: string, c: char)
    requires c !in a
    ensures Split(a, c) == [a]
    ensures Split(a + [c] + rest, c) == [a] + Split(rest, c)
  {
    var s := a + [c] + rest;
    var i := IndexOfChar(s, c);
    assert s[|a|] == c && forall k | 0 <= k < |a| :: s[k] == a[k];
    assert i == |a|;
    assert s[..i] == a && s[i + 1..] == rest;
    var j := IndexOfChar(a, c);
    assert j == |a|;
  }

  lemma NumbersHoldNoSeparator(n: nat, c: char)
    requires !IsDigit(c)
    ensures c !in Itoa(n)
  {
  }

  lemma ItemOfNumber(p: nat)
    requires p < TWO_63
    ensures Item(Itoa(p)) == Some({p})
  {
    NumbersHoldNoSeparator(p, '-');
    SplitFirst(Itoa(p), "", '-');
    AtoiItoa(p);
  }

  lemma ItemOfRange(st: nat, en: nat)
    requires st < TWO_63 && en < TWO_63
    ensures Item(Itoa(st) + ['-'] + Itoa(en)) == Some(Span(st, en))
  {
    NumbersHoldNoSeparator(st, '-');
    NumbersHoldNoSeparator(en, '-');
    SplitFirst(Itoa(en), "", '-');
    SplitFirst(Itoa(st), Itoa(en), '-');
    AtoiItoa(st);
    AtoiItoa(en);
    assert Split(Itoa(st) + ['-'] + Itoa(en), '-') == [Itoa(st), Itoa(en)];
  }

  lemma ItemOfWrite(r: Range)
    requires Small(r)
    ensures ',' !in Write(r) && Item(Write(r)) == Some(PortsOf(r))
  {
    match r
    case Port(p) =>
      NumbersHoldNoSeparator(p, ',');
      ItemOfNumber(p);
    case FromTo(st, en) =>
      NumbersHoldNoSeparator(st, ',');
      NumbersHoldNoSeparator(en, ',');
      ItemOfRange(st, en);
  }

  lemma {:induction false} SplitJoin(parts: seq<string>, c: char)
    requires parts != [] && forall p <- parts :: c !in p
    ensures Split(Join(parts, c), c) == parts
  {
    if |parts| == 1 {
      SplitFirst(parts[0], "", c);
    } else {
      assert forall p <- parts[1..] :: p in parts;
      SplitJoin(parts[1..], c);
      SplitFirst(parts[0], Join(parts[1..], c), c);
    }
  }

  lemma {:induction false} UnionOfTexts(rs: seq<Range>)
    requires forall r <- rs :: Small(r)
    ensures Union(Texts(rs)) == Some(AllPorts(rs))
  {
    if rs != [] {
      var init := rs[..|rs| - 1];
      assert forall r <- init :: r in rs;
      UnionOfTexts(init);
      assert Texts(rs)[..|rs| - 1] == Texts(init);
      assert rs[|rs| - 1] in rs;
      ItemOfWrite(rs[|rs| - 1]);
    }
  }

  /** A written specification means the union of its ranges. */
  lemma SpecificationRoundTrip(rs: seq<Range>)
    requires rs != [] && forall r <- rs :: Small(r)
    ensures Union(Split(Join(Texts(rs), ','), ',')) == Some(AllPorts(rs))
  {
    forall t <- Texts(rs)
      ensures ',' !in t
    {
      var i :| 0 <= i < |rs| && Texts(rs)[i] == t;
      assert rs[i] in rs;
      ItemOfWrite(rs[i]);
    }
    SplitJoin(Texts(rs), ',');
    UnionOfTexts(rs);
  }

  // ---------------------------------------------------------------- pairing

  datatype Worker = Worker(src: int, dst: int)

  /** No two workers share a source or a destination port. */
  ghost predicate OneToOne(ws: seq<Worker>) {
    forall i, j | 0 <= i < j < |ws| :: ws[i].src != ws[j].src && ws[i].dst != ws[j].dst
  }

  lemma {:induction false} DistinctCount(s: seq<int>, ports: set<int>)
    requires Distinct(s) && forall p :: p in s <==> p in ports
    ensures |s| == |ports|
  {
    if s == [] {
      assert forall p | p in ports :: p in s;
    } else {
      var p := s[|s| - 1];
      var init := s[..|s| - 1];
      assert forall q :: q in s <==> q in init || q == p;
      DistinctCount(init, ports - {p});
    }
  }

  ghost predicate Usable(spec: string) {
    var ports := Union(Split(spec, ','));
    ports.Some? && forall p <- ports.value :: 1024 < p < 65536
  }

  /** What the system answers for a port: `ResolveUDPAddr` and, for a source, `ListenUDP`. */
  type Answers = int -> bool

  ghost predicate AllGood(ports: set<int>, good: Answers) {
    forall p <- ports :: good(p)
  }

  /** The workers of these ports, in order; None ends the program. */
  method PairUp(srcPorts: seq<int>, dstPorts: seq<int>, listens: Answers, resolves: Answers) returns (workers: Option<seq<Worker>>)
    requires Distinct(srcPorts) && Distinct(dstPorts) && |srcPorts| == |dstPorts|
    ensures workers.Some? <==> (forall p <- srcPorts :: listens(p)) && (forall p <- dstPorts :: resolves(p))
    ensures workers.Some? ==>
      var ws := workers.value;
      && OneToOne(ws)
      && (forall p :: p in srcPorts <==> exists w <- ws :: w.src == p)
      && (forall p :: p in dstPorts <==> exists w <- ws :: w.dst == p)
  {
    var ws := [];
    for i := 0 to |srcPorts|
      invariant |ws| == i
      invariant forall k | 0 <= k < i :: ws[k] == Worker(srcPorts[k], dstPorts[k])
      invariant forall k | 0 <= k < i :: listens(srcPorts[k]) && resolves(dstPorts[k])
    {
      if !listens(srcPorts[i]) || !resolves(dstPorts[i]) {
        var src, dst := srcPorts[i], dstPorts[i];
        assert src in srcPorts && dst in dstPorts && !(listens(src) && resolves(dst));
        return None;
      }
      ws := ws + [Worker(srcPorts[i], dstPorts[i])];
    }
    forall p
      ensures p in srcPorts <==> exists w <- ws :: w.src == p
      ensures p in dstPorts <==> exists w <- ws :: w.dst == p
    {
      if p in srcPorts {
        var i :| 0 <= i < |ws| && srcPorts[i] == p;
        assert ws[i] in ws;
      }
      if p in dstPorts {
        var i :| 0 <= i < |ws| && dstPorts[i] == p;
        assert ws[i] in ws;
      }
    }
    workers := Some(ws);
  }

  ghost function PortSet(spec: string): set<int>
    requires Usable(spec)
  {
    Union(Split(spec, ',')).value
  }

  /** `setupUDP`: whatever order the two port lists come in, they are matched one-to-one; the program
      ends if a list is malformed, the lists differ in length, or the system refuses one of the ports. */
  method SetupUDP(srcSpec: string, dstSpec: string, listens: Answers, resolves: Answers) returns (workers: Option<seq<Worker>>)
    ensures workers.Some? <==>
      && Usable(srcSpec) && Usable(dstSpec) && |PortSet(srcSpec)| == |PortSet(dstSpec)|
      && AllGood(PortSet(srcSpec), listens) && AllGood(PortSet(dstSpec), resolves)
    ensures workers.Some? ==>
      && OneToOne(workers.value)
      && (forall p :: p in PortSet(srcSpec) <==> exists w <- workers.value :: w.src == p)
      && (forall p :: p in PortSet(dstSpec) <==> exists w <- workers.value :: w.dst == p)
  {
    var srcPorts := HypenRange(srcSpec);
    var dstPorts := HypenRange(dstSpec);
    if srcPorts.None? || dstPorts.None? {
      return None;
    }
    DistinctCount(srcPorts.value, PortSet(srcSpec));
    DistinctCount(dstPorts.value, PortSet(dstSpec));
    if |srcPorts.value| != |dstPorts.value| {
      return None;
    }
    workers := PairUp(srcPorts.value, dstPorts.value, listens, resolves);
  }

  // ---------------------------------------------------------------- workers as tokens

  type PostId = nat

  datatype Sent = Sent(dst: int, post: PostId)

  /** The worker channel, who holds a worker, which posts are over, and all datagrams so far. */
  datatype Pool = Pool(workers: seq<Worker>, held: map<PostId, Worker>, over: set<PostId>, log: seq<Sent>)

  /** What any post may do next; a step that would block leaves the state unchanged. */
  datatype Action = Acquire(post: PostId) | Send(post: PostId) | Release(post: PostId)

  function Next(s: Pool, a: Action): Pool {
    match a
    case Acquire(p) =>
      if s.workers == [] || p in s.held || p in s.over then s
      else s.(workers := s.workers[1..], held := s.held[p := s.workers[0]])
    case Send(p) =>
      if p in s.held then s.(log := s.log + [Sent(s.held[p].dst, p)]) else s
    case Release(p) =>
      if p in s.held then s.(workers := s.workers + [s.held[p]], held := s.held - {p}, over := s.over + {p}) else s
  }

  function Run(s: Pool, as_: seq<Action>): Pool {
    if as_ == [] then s else Next(Run(s, as_[..|as_| - 1]), as_[|as_| - 1])
  }

  /** Two posts never hold workers that send to the same port. */
  ghost predicate Exclusive(s: Pool) {
    && OneToOne(s.workers)
    && (forall p, q | p in s.held && q in s.held && p != q :: s.held[p].dst != s.held[q].dst && s.held[p].src != s.held[q].src)
    && (forall p, i | p in s.held && 0 <= i < |s.workers| :: s.held[p].dst != s.workers[i].dst && s.held[p].src != s.workers[i].src)
  }

  /** Between two datagrams of one post, nobody else sends to their port. */
  ghost predicate NotInterleaved(log: seq<Sent>) {
    forall i, j, k | 0 <= i < j < k < |log| && log[i] == log[k] && log[j].dst == log[i].dst :: log[j] == log[i]
  }

  ghost predicate PoolInvariant(s: Pool) {
    && Exclusive(s)
    && s.held.Keys !! s.over
    && NotInterleaved(s.log)
    && (forall i | 0 <= i < |s.log| :: s.log[i].post in s.over || (s.log[i].post in s.held && s.held[s.log[i].post].dst == s.log[i].dst))
    && (forall i, j | 0 <= i < j < |s.log| && s.log[i].dst == s.log[j].dst && s.log[i].post != s.log[j].post ::
          s.log[i].post in s.over)
  }

  lemma AcquireKeepsInvariant(s: Pool, p: PostId)
    requires PoolInvariant(s)
    ensures PoolInvariant(Next(s, Acquire(p)))
  {
  }

  lemma SendKeepsInvariant(s: Pool, p: PostId)
    requires PoolInvariant(s) && p in s.held
    ensures PoolInvariant(Next(s, Send(p)))
  {
    var t := Next(s, Send(p));
    var n := |s.log|;
    assert t.log[n] == Sent(s.held[p].dst, p);
    forall i, j, k | 0 <= i < j < k < |t.log| && t.log[i] == t.log[k] && t.log[j].dst == t.log[i].dst
      ensures t.log[j] == t.log[i]
    {
      assert s.log[i] == t.log[i] && s.log[j] == t.log[j];
    }
  }

  lemma ReleaseKeepsInvariant(s: Pool, p: PostId)
    requires PoolInvariant(s) && p in s.held
    ensures PoolInvariant(Next(s, Release(p)))
  {
    var t := Next(s, Release(p));
    assert forall q :: q in t.held <==> q in s.held && q != p;
  }

  lemma NextKeepsInvariant(s: Pool, a: Action)
    requires PoolInvariant(s)
    ensures PoolInvariant(Next(s, a))
  {
    match a
    case Acquire(p) => AcquireKeepsInvariant(s, p);
    case Send(p) => if p in s.held { SendKeepsInvariant(s, p); }
    case Release(p) => if p in s.held { ReleaseKeepsInvariant(s, p); }
  }

  /** Every worker waits or is held, and nobody else is there. */
  ghost predicate Conserved(ws: seq<Worker>, s: Pool) {
    forall w :: w in ws <==> w in s.workers || Holder(s, w)
  }

  ghost predicate Holder(s: Pool, w: Worker) {
    exists p :: p in s.held && s.held[p] == w
  }

  lemma NextConserves(ws: seq<Worker>, s: Pool, a: Action)
    requires PoolInvariant(s) && Conserved(ws, s)
    ensures Conserved(ws, Next(s, a))
  {
    var t := Next(s, a);
    forall w
      ensures w in s.workers || Holder(s, w) <==> w in t.workers || Holder(t, w)
    {
      if Holder(s, w) {
        var p :| p in s.held && s.held[p] == w;
        assert p in t.held ==> t.held[p] == w;
      }
      if Holder(t, w) {
        var p :| p in t.held && t.held[p] == w;
        assert p in s.held ==> s.held[p] == w;
      }
      if a.Acquire? && t != s {
        assert s.workers == [s.workers[0]] + s.workers[1..];
        assert t.held[a.post] == s.workers[0];
      }
    }
  }

  /** In every run of any number of posts over one-to-one workers, ports are never shared, no worker is lost,
      and the datagrams on a port come in whole transfers, one after the other. */
  lemma {:induction false} PortsNeverInterleave(ws: seq<Worker>, actions: seq<Action>)
    requires OneToOne(ws)
    ensures var s := Run(Pool(ws, map[], {}, []), actions); PoolInvariant(s) && Conserved(ws, s)
  {
    if actions != [] {
      var before := Run(Pool(ws, map[], {}, []), actions[..|actions| - 1]);
      PortsNeverInterleave(ws, actions[..|actions| - 1]);
      NextKeepsInvariant(before, actions[|actions| - 1]);
      NextConserves(ws, before, actions[|actions| - 1]);
    }
  }

  function Sends(p: PostId, n: nat): seq<Action> {
    seq(n, _ => Send(p))
  }

  lemma {:induction false} AfterSends(s: Pool, p: PostId, n: nat)
    requires p in s.held
    ensures Run(s, Sends(p, n)) == s.(log := s.log + seq(n, _ => Sent(s.held[p].dst, p)))
  {
    if n > 0 {
      AfterSends(s, p, n - 1);
      assert Sends(p, n)[..n - 1] == Sends(p, n - 1);
    }
  }

  /** A post that finds a worker waiting gets the first of them, sends to its port, and puts it back behind
      the others; a post that finds none, or is over, does nothing. */
  lemma PostServed(s: Pool, p: PostId, n: nat)
    requires p !in s.held
    ensures var t := Next(Run(Next(s, Acquire(p)), Sends(p, n)), Release(p));
            if s.workers == [] || p in s.over then t.workers == s.workers && t.held == s.held && t.log == s.log
            else
              && t.workers == s.workers[1..] + [s.workers[0]] && t.held == s.held && t.over == s.over + {p}
              && t.log == s.log + seq(n, _ => Sent(s.workers[0].dst, p))
  {
    var s1 := Next(s, Acquire(p));
    if p in s1.held {
      AfterSends(s1, p, n);
      assert s1.held - {p} == s.held;
    } else {
      NothingSent(s1, p, n);
    }
  }

  lemma {:induction false} NothingSent(s: Pool, p: PostId, n: nat)
    requires p !in s.held
    ensures Run(s, Sends(p, n)) == s
  {
    if n > 0 {
      NothingSent(s, p, n - 1);
      assert Sends(p, n)[..n - 1] == Sends(p, n - 1);
    }
  }
}
