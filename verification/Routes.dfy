/** Which routes may be announced: allowed ones whose network address lies in no
    prohibited network. */
module Routes {
  import opened Types

  /** A network: the leading bits its addresses share. */
  datatype Net = Net(v4: bool, bits: seq<bool>)

  predicate Contains(n: Net, a: IP) {
    n.v4 == a.V4? && n.bits <= a.bits
  }

  function Zeros(n: nat): seq<bool> {
    seq(n, _ => false)
  }

  type ShortNet = n: Net | |n.bits| <= if n.v4 then 32 else 128 witness Net(true, [])

  /** The network address: the shared bits followed by zeros. */
  function Base(n: ShortNet): (a: IP)
    ensures Contains(n, a)
  {
    if n.v4 then V4(n.bits + Zeros(32 - |n.bits|)) else V6(n.bits + Zeros(128 - |n.bits|))
  }

  /** CIDR parsing: a route without attributes or with too long a prefix is refused. */
  function Parse(r: Option<RouteId>): Option<ShortNet> {
    match r
    case None => None
    case Some(id) =>
      if id.prefixLen <= |id.prefix.bits| then Some(Net(id.prefix.V4?, id.prefix.bits[..id.prefixLen])) else None
  }

  // ----- What a route stands for, bit by bit -------------------------------------------

  /** The prefix is no longer than an address of its family. */
  predicate Fits(r: RouteId) {
    r.prefixLen <= if r.prefix.V4? then 32 else 128
  }

  /** a and b are of one family and agree on their first n bits. */
  predicate SamePrefix(a: IP, b: IP, n: nat)
    requires n <= |b.bits|
  {
    a.V4? == b.V4? && forall i :: 0 <= i < n ==> a.bits[i] == b.bits[i]
  }

  /** A route parses exactly if its prefix fits, and stands for the addresses that agree
      with it on the prefix. */
  lemma ParseMeaning(r: RouteId)
    ensures Parse(None) == None && (Parse(Some(r)).Some? <==> Fits(r))
    ensures Fits(r) ==> forall a: IP :: Contains(Parse(Some(r)).value, a) <==> SamePrefix(a, r.prefix, r.prefixLen)
  {
    if Fits(r) {
      var n := Parse(Some(r)).value;
      forall a: IP ensures Contains(n, a) <==> SamePrefix(a, r.prefix, r.prefixLen) {
        if a.V4? == r.prefix.V4? {
          assert n.bits <= a.bits <==> n.bits == a.bits[..r.prefixLen];
          assert forall i :: 0 <= i < r.prefixLen ==> n.bits[i] == r.prefix.bits[i] && a.bits[..r.prefixLen][i] == a.bits[i];
        }
      }
    }
  }

  /** Its network address is the prefix with all later bits zero. */
  lemma BaseMeaning(r: RouteId)
    requires Fits(r)
    ensures var b := Base(Parse(Some(r)).value);
            b.V4? == r.prefix.V4? && forall i :: 0 <= i < |b.bits| ==> b.bits[i] == (i < r.prefixLen && r.prefix.bits[i])
  {
  }

  /** The network address of r agrees with p on p's prefix. */
  predicate Blocks(p: RouteId, r: RouteId) {
    && Fits(p) && p.prefix.V4? == r.prefix.V4?
    && forall i :: 0 <= i < p.prefixLen ==> p.prefix.bits[i] == (i < r.prefixLen && r.prefix.bits[i])
  }

  predicate BlockedBy(p: Option<RouteId>, r: RouteId) {
    p.Some? && Blocks(p.value, r)
  }

  /** The two routes are to one network. */
  predicate SameNetwork(a: RouteId, b: RouteId) {
    && a.prefix.V4? == b.prefix.V4? && a.prefixLen == b.prefixLen
    && forall i :: 0 <= i < a.prefixLen && i < |a.prefix.bits| && i < |b.prefix.bits| ==> a.prefix.bits[i] == b.prefix.bits[i]
  }

  lemma CoversIffBlocks(p: Option<RouteId>, r: RouteId)
    requires Fits(r)
    ensures Covers(p, Base(Parse(Some(r)).value)) <==> BlockedBy(p, r)
  {
    BaseMeaning(r);
    if p.Some? {
      ParseMeaning(p.value);
    }
  }

  lemma SameNetIffSameNetwork(a: RouteId, b: RouteId)
    requires Fits(a) && Fits(b)
    ensures Parse(Some(a)) == Parse(Some(b)) <==> SameNetwork(a, b)
  {
    var m, n := Parse(Some(a)).value, Parse(Some(b)).value;
    assert m.bits == n.bits <==> a.prefixLen == b.prefixLen && forall i :: 0 <= i < a.prefixLen ==> m.bits[i] == n.bits[i];
    assert forall i :: 0 <= i < a.prefixLen ==> m.bits[i] == a.prefix.bits[i];
    assert forall i :: 0 <= i < b.prefixLen ==> n.bits[i] == b.prefix.bits[i];
  }

  // ----- Networks are nested or disjoint ------------------------------------------------

  ghost predicate Overlap(a: ShortNet, b: ShortNet) {
    exists x: IP :: Contains(a, x) && Contains(b, x)
  }

  predicate Inside(a: Net, b: Net) {
    a.v4 == b.v4 && b.bits <= a.bits
  }

  /** Section 3.1 of RFC 4632: two prefixes share an address only if one is inside the
      other. */
  lemma NestedOrDisjoint(a: ShortNet, b: ShortNet)
    ensures Overlap(a, b) <==> Inside(a, b) || Inside(b, a)
  {
    if x: IP :| Contains(a, x) && Contains(b, x) {
      assert a.bits == x.bits[..|a.bits|] && b.bits == x.bits[..|b.bits|];
      if |a.bits| <= |b.bits| {
        assert a.bits == b.bits[..|a.bits|];
      } else {
        assert b.bits == a.bits[..|b.bits|];
      }
    }
    if Inside(a, b) {
      assert Contains(a, Base(a)) && b.bits == a.bits[..|b.bits|] == Base(a).bits[..|b.bits|];
    }
    if Inside(b, a) {
      assert Contains(b, Base(b)) && a.bits == b.bits[..|a.bits|] == Base(b).bits[..|a.bits|];
    }
  }

  /** A network whose base address a prohibited one does not contain is disjoint from it,
      except exactly when the prohibited one is a longer prefix inside it. */
  lemma DisjointUnlessLonger(a: ShortNet, p: ShortNet)
    requires !Contains(p, Base(a))
    ensures Overlap(a, p) <==> Inside(p, a) && |p.bits| > |a.bits|
    ensures |p.bits| <= |a.bits| ==> !Overlap(a, p)
  {
    NestedOrDisjoint(a, p);
    if |p.bits| <= |a.bits| {
      assert Base(a).bits[..|p.bits|] == a.bits[..|p.bits|];
    }
  }

  // ----- Filtering ----------------------------------------------------------------------

  datatype Verdict = Refused | Covered | Clear

  /** Walks the prohibited routes until one covers the address or does not parse. */
  function Scan(a: IP, ps: seq<Option<RouteId>>): Verdict {
    if ps == [] then Clear
    else match Parse(ps[0])
      case None => Refused
      case Some(n) => if Contains(n, a) then Covered else Scan(a, ps[1..])
  }

  ghost predicate Covers(p: Option<RouteId>, a: IP) {
    Parse(p).Some? && Contains(Parse(p).value, a)
  }

  lemma {:induction false} ScanMeaning(a: IP, ps: seq<Option<RouteId>>)
    ensures Scan(a, ps) == Covered ==> exists p <- ps :: Covers(p, a)
    ensures Scan(a, ps) == Clear <==> forall p <- ps :: Parse(p).Some? && !Covers(p, a)
    ensures Scan(a, ps) == Refused <==>
            exists k :: 0 <= k < |ps| && Parse(ps[k]).None? && forall j :: 0 <= j < k ==> !Covers(ps[j], a)
  {
    if ps != [] {
      ScanMeaning(a, ps[1..]);
      var rest := ps[1..];
      assert forall p :: p in ps <==> p == ps[0] || p in rest;
      assert ps[0] in ps;
      if Parse(ps[0]).Some? && !Covers(ps[0], a) {
        if Scan(a, rest) == Refused {
          var k :| 0 <= k < |rest| && Parse(rest[k]).None? && forall j :: 0 <= j < k ==> !Covers(rest[j], a);
          forall j | 0 <= j < k + 1 ensures !Covers(ps[j], a) {
            if j > 0 {
              assert ps[j] == rest[j - 1];
            }
          }
          assert Parse(ps[k + 1]).None?;
        }
        if k :| 0 <= k < |ps| && Parse(ps[k]).None? && forall j :: 0 <= j < k ==> !Covers(ps[j], a) {
          assert Parse(rest[k - 1]).None?;
          forall j | 0 <= j < k - 1 ensures !Covers(rest[j], a) {
            assert rest[j] == ps[j + 1];
          }
        }
      }
    }
  }

  function NetOf(r: Route): Option<ShortNet> {
    Parse(Some(r.id))
  }

  /** Position i is the first allowed route of its network, and no prohibited network
      contains the network's address. */
  ghost predicate Kept(allowed: seq<Route>, ps: seq<Option<RouteId>>, i: nat)
    requires i < |allowed|
  {
    && NetOf(allowed[i]).Some?
    && (forall p <- ps :: !Covers(p, Base(NetOf(allowed[i]).value)))
    && (forall j :: 0 <= j < i ==> NetOf(allowed[j]) != NetOf(allowed[i]))
  }

  ghost function KeptRoutes(allowed: seq<Route>, ps: seq<Option<RouteId>>, k: nat): seq<Route>
    requires k <= |allowed|
  {
    if k == 0 then []
    else KeptRoutes(allowed, ps, k - 1) + if Kept(allowed, ps, k - 1) then [allowed[k - 1]] else []
  }

  /** An allowed route that makes the whole generation fail. */
  predicate Spoils(r: Route, ps: seq<Option<RouteId>>) {
    NetOf(r).None? || Scan(Base(NetOf(r).value), ps) == Refused
  }

  ghost predicate Generates(allowed: seq<Route>, ps: seq<Option<RouteId>>) {
    forall a <- allowed :: !Spoils(a, ps)
  }

  /** nets are the networks of the routes kept among the first k. */
  ghost predicate KeptNets(allowed: seq<Route>, ps: seq<Option<RouteId>>, k: nat, nets: set<ShortNet>)
    requires k <= |allowed|
  {
    && (forall n <- nets :: exists j :: 0 <= j < k && Kept(allowed, ps, j) && NetOf(allowed[j]) == Some(n))
    && (forall j :: 0 <= j < k && Kept(allowed, ps, j) ==> NetOf(allowed[j]).value in nets)
  }

  /** A clear route is new to the kept networks exactly when no earlier one has its own. */
  lemma NewNet(allowed: seq<Route>, ps: seq<Option<RouteId>>, i: nat, nets: set<ShortNet>)
    requires i < |allowed| && NetOf(allowed[i]).Some? && KeptNets(allowed, ps, i, nets)
    ensures Scan(Base(NetOf(allowed[i]).value), ps) == Clear ==> (NetOf(allowed[i]).value !in nets <==> Kept(allowed, ps, i))
    ensures Scan(Base(NetOf(allowed[i]).value), ps) == Covered ==> !Kept(allowed, ps, i)
    ensures KeptRoutes(allowed, ps, i + 1) ==
            KeptRoutes(allowed, ps, i) + if Kept(allowed, ps, i) then [allowed[i]] else []
    ensures KeptNets(allowed, ps, i + 1, if Kept(allowed, ps, i) then nets + {NetOf(allowed[i]).value} else nets)
  {
    var n := NetOf(allowed[i]).value;
    ScanMeaning(Base(n), ps);
    if Scan(Base(n), ps) == Clear && !Kept(allowed, ps, i) {
      var j := FirstWith(allowed, Some(n), i);
      assert Kept(allowed, ps, j);
    }
  }

  /** Position i has a route that fits, no prohibited route blocks it, and none before it is
      to its network. */
  ghost predicate IsAnnounced(allowed: seq<Route>, ps: seq<Option<RouteId>>, i: nat)
    requires i < |allowed|
  {
    && Fits(allowed[i].id)
    && (forall p <- ps :: !BlockedBy(p, allowed[i].id))
    && (forall j :: 0 <= j < i ==> !(Fits(allowed[j].id) && SameNetwork(allowed[j].id, allowed[i].id)))
  }

  lemma KeptIffAnnounced(allowed: seq<Route>, ps: seq<Option<RouteId>>, i: nat)
    requires i < |allowed|
    ensures Kept(allowed, ps, i) <==> IsAnnounced(allowed, ps, i)
  {
    var r := allowed[i].id;
    ParseMeaning(r);
    if Fits(r) {
      forall p | p in ps ensures Covers(p, Base(NetOf(allowed[i]).value)) <==> BlockedBy(p, r) {
        CoversIffBlocks(p, r);
      }
      forall j | 0 <= j < i ensures NetOf(allowed[j]) == NetOf(allowed[i]) <==> Fits(allowed[j].id) && SameNetwork(allowed[j].id, r) {
        ParseMeaning(allowed[j].id);
        if Fits(allowed[j].id) {
          SameNetIffSameNetwork(allowed[j].id, r);
        }
      }
    }
  }

  /** js are the announced positions among the first k, in order, and rs the routes there. */
  ghost predicate Selects(allowed: seq<Route>, ps: seq<Option<RouteId>>, k: nat, js: seq<nat>, rs: seq<Route>)
    requires k <= |allowed|
  {
    && |js| == |rs| && (forall x, y :: 0 <= x < y < |js| ==> js[x] < js[y])
    && (forall x :: 0 <= x < |js| ==> js[x] < k && IsAnnounced(allowed, ps, js[x]) && rs[x] == allowed[js[x]])
    && (forall i: nat :: i < k && IsAnnounced(allowed, ps, i) ==> i in js)
  }

  /** rs are exactly the announced routes among the first k, in order. */
  ghost predicate IsSelection(allowed: seq<Route>, ps: seq<Option<RouteId>>, k: nat, rs: seq<Route>)
    requires k <= |allowed|
  {
    exists js: seq<nat> :: Selects(allowed, ps, k, js, rs)
  }

  lemma SelectsOneMore(allowed: seq<Route>, ps: seq<Option<RouteId>>, k: nat, js: seq<nat>, rs: seq<Route>)
    requires k < |allowed| && IsAnnounced(allowed, ps, k) && Selects(allowed, ps, k, js, rs)
    ensures IsSelection(allowed, ps, k + 1, rs + [allowed[k]])
  {
    var more: seq<nat>, routes := js + [k], rs + [allowed[k]];
    forall i: nat | i < k + 1 && IsAnnounced(allowed, ps, i) ensures i in more {
      if i < k {
        assert i in js;
      } else {
        assert more[|js|] == k;
      }
    }
    assert Selects(allowed, ps, k + 1, more, routes);
  }

  lemma SelectsNoMore(allowed: seq<Route>, ps: seq<Option<RouteId>>, k: nat, js: seq<nat>, rs: seq<Route>)
    requires k < |allowed| && !IsAnnounced(allowed, ps, k) && Selects(allowed, ps, k, js, rs)
    ensures IsSelection(allowed, ps, k + 1, rs)
  {
    assert Selects(allowed, ps, k + 1, js, rs);
  }

  lemma NothingSelected(allowed: seq<Route>, ps: seq<Option<RouteId>>)
    ensures IsSelection(allowed, ps, 0, [])
  {
    assert Selects(allowed, ps, 0, [], []);
  }

  lemma SelectionGrows(allowed: seq<Route>, ps: seq<Option<RouteId>>, k: nat, had: seq<Route>)
    requires k < |allowed| && IsSelection(allowed, ps, k, had)
    ensures IsSelection(allowed, ps, k + 1, had + if Kept(allowed, ps, k) then [allowed[k]] else [])
  {
    KeptIffAnnounced(allowed, ps, k);
    var js: seq<nat> :| Selects(allowed, ps, k, js, had);
    if Kept(allowed, ps, k) {
      SelectsOneMore(allowed, ps, k, js, had);
    } else {
      SelectsNoMore(allowed, ps, k, js, had);
      assert had + [] == had;
    }
  }

  lemma {:induction false} KeptIsSelection(allowed: seq<Route>, ps: seq<Option<RouteId>>, k: nat)
    requires k <= |allowed|
    ensures IsSelection(allowed, ps, k, KeptRoutes(allowed, ps, k))
  {
    if k == 0 {
      NothingSelected(allowed, ps);
    } else {
      KeptIsSelection(allowed, ps, k - 1);
      SelectionGrows(allowed, ps, k - 1, KeptRoutes(allowed, ps, k - 1));
    }
  }

  /** r does not fit, or is met by a prohibited route without a readable network before one
      that blocks it. */
  ghost predicate FailsOn(r: Route, ps: seq<Option<RouteId>>) {
    || !Fits(r.id)
    || exists k :: 0 <= k < |ps| && !(ps[k].Some? && Fits(ps[k].value)) && forall j :: 0 <= j < k ==> !BlockedBy(ps[j], r.id)
  }

  lemma SpoilsIffFailsOn(r: Route, ps: seq<Option<RouteId>>)
    ensures Spoils(r, ps) <==> FailsOn(r, ps)
  {
    ParseMeaning(r.id);
    if Fits(r.id) {
      ScanMeaning(Base(NetOf(r).value), ps);
      forall k | 0 <= k < |ps|
        ensures Parse(ps[k]).Some? <==> ps[k].Some? && Fits(ps[k].value)
        ensures Covers(ps[k], Base(NetOf(r).value)) <==> BlockedBy(ps[k], r.id)
      {
        CoversIffBlocks(ps[k], r.id);
        if ps[k].Some? {
          ParseMeaning(ps[k].value);
        }
      }
    }
  }

  ghost predicate NoneFails(allowed: seq<Route>, ps: seq<Option<RouteId>>) {
    forall a <- allowed :: !FailsOn(a, ps)
  }

  lemma GeneratesMeaning(allowed: seq<Route>, ps: seq<Option<RouteId>>)
    ensures Generates(allowed, ps) <==> NoneFails(allowed, ps)
  {
    forall a | a in allowed ensures Spoils(a, ps) <==> FailsOn(a, ps) {
      SpoilsIffFailsOn(a, ps);
    }
  }

  lemma {:induction false} FirstWith(allowed: seq<Route>, n: Option<ShortNet>, i: nat) returns (j: nat)
    requires i < |allowed| && exists k :: 0 <= k < i && NetOf(allowed[k]) == n
    ensures j < i && NetOf(allowed[j]) == n && forall k :: 0 <= k < j ==> NetOf(allowed[k]) != n
  {
    j := 0;
    while NetOf(allowed[j]) != n
      invariant j < i && forall k :: 0 <= k < j ==> NetOf(allowed[k]) != n
      decreases i - j
    {
      if j + 1 == i {
        assert false;
      }
      j := j + 1;
    }
  }

  /** Keeps, in order, the first allowed route of each network whose address is in no
      prohibited network, and no others; fails exactly when some allowed route does not
      parse, or meets an unparsable prohibited one before one that covers it. */
  method GenerateRoutes(allowed: seq<Route>, ps: seq<Option<RouteId>>) returns (r: Option<seq<Route>>)
    ensures r.Some? <==> NoneFails(allowed, ps)
    ensures r.Some? ==> IsSelection(allowed, ps, |allowed|, r.value)
    ensures r.Some? <==> Generates(allowed, ps)
    ensures r.Some? ==> r.value == KeptRoutes(allowed, ps, |allowed|)
  {
    GeneratesMeaning(allowed, ps);
    KeptIsSelection(allowed, ps, |allowed|);
    var result: seq<Route> := [];
    var nets: set<ShortNet> := {};
    for i := 0 to |allowed|
      invariant Generates(allowed[..i], ps)
      invariant result == KeptRoutes(allowed, ps, i)
      invariant KeptNets(allowed, ps, i, nets)
    {
      assert allowed[i] in allowed && allowed[..i + 1] == allowed[..i] + [allowed[i]];
      var net := NetOf(allowed[i]);
      if net.None? {
        assert Spoils(allowed[i], ps);
        return None;
      }
      var verdict := ScanLoop(Base(net.value), ps);
      if verdict == Refused {
        assert Spoils(allowed[i], ps);
        return None;
      }
      assert !Spoils(allowed[i], ps);
      NewNet(allowed, ps, i, nets);
      if verdict == Clear && net.value !in nets {
        assert Kept(allowed, ps, i);
        result := result + [allowed[i]];
        nets := nets + {net.value};
      } else {
        assert !Kept(allowed, ps, i);
      }
    }
    assert allowed[..|allowed|] == allowed;
    r := Some(result);
  }

  method ScanLoop(a: IP, ps: seq<Option<RouteId>>) returns (v: Verdict)
    ensures v == Scan(a, ps)
  {
    for i := 0 to |ps|
      invariant Scan(a, ps) == Scan(a, ps[i..])
    {
      assert ps[i..][1..] == ps[i + 1..];
      var n := Parse(ps[i]);
      if n.None? {
        return Refused;
      }
      if Contains(n.value, a) {
        return Covered;
      }
    }
    return Clear;
  }

  // ----- When generation succeeds ------------------------------------------------------

  /** One prohibited route that does not parse silences everybody: a generation that
      succeeds all the same announces nothing. */
  lemma {:induction false} UnparsedAnnouncesNothing(allowed: seq<Route>, ps: seq<Option<RouteId>>, p: Option<RouteId>, k: nat)
    requires p in ps && Parse(p).None? && Generates(allowed, ps) && k <= |allowed|
    ensures KeptRoutes(allowed, ps, k) == []
  {
    if k > 0 {
      UnparsedAnnouncesNothing(allowed, ps, p, k - 1);
      var a := allowed[k - 1];
      assert a in allowed && !Spoils(a, ps);
      ScanMeaning(Base(NetOf(a).value), ps);
    }
  }

  ghost predicate Reorders(ps: seq<Option<RouteId>>, qs: seq<Option<RouteId>>) {
    multiset(qs) == multiset(ps)
  }

  ghost predicate Readable(allowed: seq<Route>) {
    forall a <- allowed :: NetOf(a).Some?
  }

  predicate Parses(p: Option<RouteId>) {
    Parse(p).Some?
  }

  ghost predicate AllParse(allowed: seq<Route>, ps: seq<Option<RouteId>>) {
    Readable(allowed) && (allowed == [] || forall p <- ps :: Parses(p))
  }

  ghost predicate AllCovered(allowed: seq<Route>, ps: seq<Option<RouteId>>) {
    forall a <- allowed :: NetOf(a).Some? && exists p <- ps :: Covers(p, Base(NetOf(a).value))
  }

  /** Some order works: everything parses, or every allowed route is covered. */
  ghost predicate CanGenerate(allowed: seq<Route>, ps: seq<Option<RouteId>>) {
    AllParse(allowed, ps) || AllCovered(allowed, ps)
  }

  lemma AllParseGenerates(allowed: seq<Route>, ps: seq<Option<RouteId>>)
    requires AllParse(allowed, ps)
    ensures Generates(allowed, ps)
  {
    forall a | a in allowed ensures !Spoils(a, ps) {
      forall k | 0 <= k < |ps| ensures Parse(ps[k]).Some? {
        assert Parses(ps[k]);
      }
      ScanMeaning(Base(NetOf(a).value), ps);
    }
  }

  lemma GeneratesOnlyIf(allowed: seq<Route>, ps: seq<Option<RouteId>>)
    requires Generates(allowed, ps)
    ensures CanGenerate(allowed, ps)
  {
    forall a | a in allowed
      ensures NetOf(a).Some?
      ensures (forall p <- ps :: Parses(p)) || exists p <- ps :: Covers(p, Base(NetOf(a).value))
    {
      assert !Spoils(a, ps);
      ScanMeaning(Base(NetOf(a).value), ps);
    }
  }

  /** With the routes that parse in front every covered route is found covered. */
  lemma ParsedFirst(allowed: seq<Route>, good: seq<Option<RouteId>>, bad: seq<Option<RouteId>>)
    requires AllCovered(allowed, good + bad)
    requires (forall p <- good :: Parses(p)) && (forall p <- bad :: !Parses(p))
    ensures Generates(allowed, good + bad)
  {
    var ps := good + bad;
    forall a | a in allowed ensures !Spoils(a, ps) {
      var x := Base(NetOf(a).value);
      ScanMeaning(x, ps);
      var p :| p in ps && Covers(p, x);
      assert p in good by {
        assert Parses(p);
      }
      var j :| 0 <= j < |good| && good[j] == p;
      forall k | 0 <= k < |ps| && Parse(ps[k]).None? ensures exists i :: 0 <= i < k && Covers(ps[i], x) {
        assert k < |good| ==> Parses(good[k]);
        assert ps[j] == p;
      }
    }
  }

  /** With one that does not parse in front no allowed route gets through. */
  lemma UnparsedFirst(allowed: seq<Route>, ps: seq<Option<RouteId>>)
    requires allowed != [] && ps != [] && Parse(ps[0]).None?
    ensures !Generates(allowed, ps)
  {
    assert allowed[0] in allowed && Spoils(allowed[0], ps);
  }

  function Sift<T(!new)>(xs: seq<T>, f: T -> bool, keep: bool): (r: seq<T>)
    ensures forall x :: x in r <==> x in xs && f(x) == keep
  {
    if xs == [] then []
    else
      var rest, x := Sift(xs[..|xs| - 1], f, keep), xs[|xs| - 1];
      assert xs == xs[..|xs| - 1] + [x];
      if f(x) == keep then rest + [x] else rest
  }

  lemma {:induction false} SiftSplits<T(!new)>(xs: seq<T>, f: T -> bool, front: bool)
    ensures multiset(Sift(xs, f, front) + Sift(xs, f, !front)) == multiset(xs)
  {
    if xs != [] {
      SiftSplits(xs[..|xs| - 1], f, front);
      assert xs == xs[..|xs| - 1] + [xs[|xs| - 1]];
    }
  }

  lemma SameMembers<T(!new)>(xs: seq<T>, ys: seq<T>)
    requires multiset(xs) == multiset(ys)
    ensures forall x :: x in xs <==> x in ys
  {
    assert forall x :: x in xs <==> x in multiset(xs);
    assert forall x :: x in ys <==> x in multiset(ys);
  }

  /** Prohibited routes come in the arbitrary order of a map. Generation succeeds in every
      order if and only if every allowed route parses and, where there is one, every
      prohibited route parses too. */
  lemma SucceedsInEveryOrder(allowed: seq<Route>, ps: seq<Option<RouteId>>)
    ensures (forall qs :: Reorders(ps, qs) ==> Generates(allowed, qs)) <==> AllParse(allowed, ps)
  {
    if AllParse(allowed, ps) {
      forall qs | Reorders(ps, qs) ensures Generates(allowed, qs) {
        SameMembers(ps, qs);
        AllParseGenerates(allowed, qs);
      }
    } else if Readable(allowed) {
      var bad := Sift(ps, Parses, false);
      var qs := bad + Sift(ps, Parses, true);
      SiftSplits(ps, Parses, false);
      var p :| p in ps && !Parses(p);
      assert p in bad && qs[0] in bad;
      UnparsedFirst(allowed, qs);
      assert Reorders(ps, qs);
    } else {
      var a :| a in allowed && NetOf(a).None?;
      assert Spoils(a, ps) && Reorders(ps, ps);
    }
  }

  /** It succeeds in some order if and only if, besides, every prohibited route parses or
      every allowed one is covered. So with a balancer that has no BGP attributes, a single
      allowed route in nobody's network makes every order fail. */
  lemma SucceedsInSomeOrder(allowed: seq<Route>, ps: seq<Option<RouteId>>)
    ensures (exists qs :: Reorders(ps, qs) && Generates(allowed, qs)) <==> CanGenerate(allowed, ps)
  {
    if qs :| Reorders(ps, qs) && Generates(allowed, qs) {
      SameMembers(ps, qs);
      GeneratesOnlyIf(allowed, qs);
    }
    if AllParse(allowed, ps) {
      AllParseGenerates(allowed, ps);
      assert Reorders(ps, ps);
    } else if AllCovered(allowed, ps) {
      var good, bad := Sift(ps, Parses, true), Sift(ps, Parses, false);
      SiftSplits(ps, Parses, true);
      SameMembers(ps, good + bad);
      ParsedFirst(allowed, good, bad);
      assert Reorders(ps, good + bad);
    }
  }

  /** 255.255.255.255/32 and 255.0.0.0/8. */
  const HOST_ROUTE := Route(RouteId(1, 2, "c", V4(seq(32, _ => true)), 32), 0)

  const WIDE_ROUTE := RouteId(1, 2, "c", V4(seq(32, i => i < 8)), 8)

  /** Success can depend on the order: behind the network that covers it, a balancer without
      attributes does no harm; in front of it, everything fails. And without that network
      everything fails always. */
  lemma OrderDecides()
    ensures Generates([HOST_ROUTE], [Some(WIDE_ROUTE), None]) && KeptRoutes([HOST_ROUTE], [Some(WIDE_ROUTE), None], 1) == []
    ensures !Generates([HOST_ROUTE], [None, Some(WIDE_ROUTE)]) && !Generates([HOST_ROUTE], [None])
  {
    var ps := [Some(WIDE_ROUTE), None];
    CoversIffBlocks(ps[0], HOST_ROUTE.id);
    assert Covers(ps[0], Base(NetOf(HOST_ROUTE).value));
    assert Scan(Base(NetOf(HOST_ROUTE).value), ps) == Covered;
    UnparsedAnnouncesNothing([HOST_ROUTE], ps, None, 1);
    UnparsedFirst([HOST_ROUTE], [None, Some(WIDE_ROUTE)]);
    UnparsedFirst([HOST_ROUTE], [None]);
  }
}
