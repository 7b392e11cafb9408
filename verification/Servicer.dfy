/** The servicer: one data plane state out of what all balancers publish. Every balancer is
    read twice, once for services and routes and once for the link addresses, each time in
    an arbitrary order. */
module Servicer {
  import opened Types
  import opened Balancer
  import opened Routes

  const LOOPBACK := "lo"

  datatype Config = Config(route: Option<Route>, limit: real)

  /** A balancer as the first reading found it. */
  datatype Reading = Reading(config: Config, pub: Published)

  function RouteIdOf(c: Config): Option<RouteId> {
    match c.route
    case None => None
    case Some(r) => Some(r.id)
  }

  /** Past its initial state, with something alive and enough of it, and something to
      announce. */
  predicate Announces(x: Reading) {
    x.config.route.Some? && !x.pub.initialState && x.pub.aliveRatio > 0.0 && x.pub.aliveRatio >= x.config.limit
  }

  /** Past its initial state, with something alive and at least as much as its limit asks. */
  ghost predicate IsReady(x: Reading) {
    !x.pub.initialState && 0.0 < x.pub.aliveRatio && x.config.limit <= x.pub.aliveRatio
  }

  lemma AnnouncesIffReady(x: Reading)
    ensures Announces(x) <==> x.config.route.Some? && IsReady(x)
  {
  }

  // ----- Services: one per mark ---------------------------------------------------------

  function MarkOf(b: BalancerState): nat {
    if b.service.attributes.Fwmark? then b.service.attributes.mark else 0
  }

  function Marks(bs: seq<BalancerState>): (r: set<nat>)
    ensures forall m :: m in r <==> m > 0 && exists b <- bs :: MarkOf(b) == m
  {
    set b | b in bs && MarkOf(b) > 0 :: MarkOf(b)
  }

  function AllStates(xs: seq<Reading>): seq<BalancerState> {
    if xs == [] then [] else AllStates(xs[..|xs| - 1]) + xs[|xs| - 1].pub.states
  }

  /** Drops every fwmark service whose mark an earlier one has. */
  function Merge(bs: seq<BalancerState>): seq<BalancerState> {
    if bs == [] then []
    else
      var rest, b := Merge(bs[..|bs| - 1]), bs[|bs| - 1];
      if MarkOf(b) > 0 && MarkOf(b) in Marks(rest) then rest else rest + [b]
  }

  lemma MergeSnoc(bs: seq<BalancerState>, b: BalancerState)
    ensures Merge(bs + [b]) == if MarkOf(b) > 0 && MarkOf(b) in Marks(Merge(bs)) then Merge(bs) else Merge(bs) + [b]
  {
    assert (bs + [b])[..|bs|] == bs;
  }

  lemma MarksSnoc(bs: seq<BalancerState>, b: BalancerState)
    ensures Marks(bs + [b]) == Marks(bs) + if MarkOf(b) > 0 then {MarkOf(b)} else {}
  {
    assert forall x :: x in bs + [b] <==> x in bs || x == b;
  }

  lemma MergeOne(bs: seq<BalancerState>, b: BalancerState)
    ensures var had, m := Merge(bs), MarkOf(b);
            if m == 0 || m !in Marks(had)
            then Merge(bs + [b]) == had + [b] && Marks(had + [b]) == (if m > 0 then Marks(had) + {m} else Marks(had))
            else Merge(bs + [b]) == had
  {
    MergeSnoc(bs, b);
    MarksSnoc(Merge(bs), b);
  }

  /** Merging invents nothing and loses no mark. */
  lemma {:induction false} MergeMarks(bs: seq<BalancerState>)
    ensures Marks(Merge(bs)) == Marks(bs)
    ensures forall b <- Merge(bs) :: b in bs
  {
    if bs != [] {
      var ini, b := bs[..|bs| - 1], bs[|bs| - 1];
      assert bs == ini + [b];
      MergeMarks(ini);
      MarksSnoc(ini, b);
      MarksSnoc(Merge(ini), b);
    }
  }

  ghost predicate OnePerMark(bs: seq<BalancerState>) {
    forall i, j | 0 <= i < j < |bs| :: SharesMark(bs[i], bs[j]) ==> bs[i].service.attributes.mark == 0
  }

  ghost predicate SharesMark(a: BalancerState, b: BalancerState) {
    && a.service.attributes.Fwmark? && b.service.attributes.Fwmark?
    && a.service.attributes.mark == b.service.attributes.mark
  }

  /** Merging keeps exactly one service per mark ... */
  lemma {:induction false} MergeOnePerMark(bs: seq<BalancerState>)
    ensures OnePerMark(Merge(bs))
  {
    if bs != [] {
      var ini, b := bs[..|bs| - 1], bs[|bs| - 1];
      MergeOnePerMark(ini);
      var rest := Merge(ini);
      forall i | 0 <= i < |rest| && MarkOf(rest[i]) > 0 ensures MarkOf(rest[i]) in Marks(rest) {
        assert rest[i] in rest;
      }
    }
  }

  /** ... and every other service as often as it occurs. */
  lemma {:induction false} MergeKeepsUnmarked(bs: seq<BalancerState>, x: BalancerState)
    requires MarkOf(x) == 0
    ensures multiset(Merge(bs))[x] == multiset(bs)[x]
  {
    if bs != [] {
      var ini, b := bs[..|bs| - 1], bs[|bs| - 1];
      assert bs == ini + [b];
      MergeKeepsUnmarked(ini, x);
    }
  }

  // ----- Routes -------------------------------------------------------------------------

  function Allowed(xs: seq<Reading>): (r: seq<Route>)
    ensures forall a :: a in r <==> exists x <- xs :: Announces(x) && x.config.route == Some(a)
  {
    if xs == [] then []
    else
      var x := xs[|xs| - 1];
      var rest := Allowed(xs[..|xs| - 1]);
      assert xs == xs[..|xs| - 1] + [x];
      if Announces(x) then rest + [x.config.route.value] else rest
  }

  function Prohibited(xs: seq<Reading>): (r: seq<Option<RouteId>>)
    ensures forall p :: p in r <==> exists x <- xs :: !Announces(x) && RouteIdOf(x.config) == p
  {
    if xs == [] then []
    else
      var x := xs[|xs| - 1];
      var rest := Prohibited(xs[..|xs| - 1]);
      assert xs == xs[..|xs| - 1] + [x];
      if Announces(x) then rest else rest + [RouteIdOf(x.config)]
  }

  lemma {:induction false} KeptIsKept(allowed: seq<Route>, ps: seq<Option<RouteId>>, k: nat, r: Route)
    requires k <= |allowed| && r in KeptRoutes(allowed, ps, k)
    ensures exists i :: 0 <= i < k && allowed[i] == r && Kept(allowed, ps, i)
  {
    if Kept(allowed, ps, k - 1) && r == allowed[k - 1] {
    } else {
      KeptIsKept(allowed, ps, k - 1, r);
    }
  }

  /** The network address of r is in the network of a balancer that is not ready. */
  ghost predicate HeldBack(xs: seq<Reading>, r: RouteId) {
    exists x <- xs :: !IsReady(x) && x.config.route.Some? && Blocks(x.config.route.value.id, r)
  }

  /** What an announced route guarantees: it is the route of a ready balancer that has an
      upstream with weight, and no balancer that is not ready holds it back. */
  ghost predicate SafeToAnnounce(xs: seq<Reading>, r: Route) {
    && (exists x <- xs ::
          && x.config.route == Some(r) && IsReady(x)
          && x.pub.states != [] && exists u <- x.pub.states[0].upstreams :: u.weight != 0)
    && Fits(r.id) && !HeldBack(xs, r.id)
  }

  /** Conversely the network of every ready balancer is announced, unless it is held back. */
  ghost predicate NoneForgotten(xs: seq<Reading>, rs: seq<Route>) {
    forall x <- xs :: IsReady(x) && x.config.route.Some? ==>
      || HeldBack(xs, x.config.route.value.id)
      || exists q <- rs :: SameNetwork(q.id, x.config.route.value.id)
  }

  lemma HeldBackIfBlocked(xs: seq<Reading>, p: Option<RouteId>, r: RouteId)
    requires p in Prohibited(xs) && BlockedBy(p, r)
    ensures HeldBack(xs, r)
  {
    var y :| y in xs && !Announces(y) && RouteIdOf(y.config) == p;
    AnnouncesIffReady(y);
  }

  lemma {:induction false} KeptIn(allowed: seq<Route>, ps: seq<Option<RouteId>>, k: nat, i: nat)
    requires i < k <= |allowed| && Kept(allowed, ps, i)
    ensures allowed[i] in KeptRoutes(allowed, ps, k)
  {
    if i < k - 1 {
      KeptIn(allowed, ps, k - 1, i);
    }
  }

  /** The first allowed route to a network that is not held back is kept. */
  lemma FirstIsKept(allowed: seq<Route>, ps: seq<Option<RouteId>>, r: Route)
    requires r in allowed && Fits(r.id) && forall p <- ps :: !BlockedBy(p, r.id)
    ensures exists q <- KeptRoutes(allowed, ps, |allowed|) :: SameNetwork(q.id, r.id)
  {
    var i :| 0 <= i < |allowed| && allowed[i] == r;
    ParseMeaning(r.id);
    var j := i;
    if exists k :: 0 <= k < i && NetOf(allowed[k]) == NetOf(r) {
      j := FirstWith(allowed, NetOf(r), i);
    }
    forall p | p in ps ensures !Covers(p, Base(NetOf(allowed[j]).value)) {
      CoversIffBlocks(p, r.id);
    }
    assert Kept(allowed, ps, j);
    KeptIn(allowed, ps, |allowed|, j);
    ParseMeaning(allowed[j].id);
    SameNetIffSameNetwork(allowed[j].id, r.id);
  }

  lemma AllReadyAnnounced(xs: seq<Reading>)
    requires Generates(Allowed(xs), Prohibited(xs))
    ensures NoneForgotten(xs, KeptRoutes(Allowed(xs), Prohibited(xs), |Allowed(xs)|))
  {
    var allowed, ps := Allowed(xs), Prohibited(xs);
    forall x | x in xs && IsReady(x) && x.config.route.Some? && !HeldBack(xs, x.config.route.value.id)
      ensures exists q <- KeptRoutes(allowed, ps, |allowed|) :: SameNetwork(q.id, x.config.route.value.id)
    {
      var r := x.config.route.value;
      AnnouncesIffReady(x);
      assert r in allowed && !Spoils(r, ps);
      ParseMeaning(r.id);
      forall p | p in ps ensures !BlockedBy(p, r.id) {
        if BlockedBy(p, r.id) {
          HeldBackIfBlocked(xs, p, r.id);
        }
      }
      FirstIsKept(allowed, ps, r);
    }
  }

  /** For every set of balancers read in every order. */
  lemma AnnouncementIsSafe(xs: seq<Reading>, r: Route)
    requires forall x <- xs :: Sound(x.pub)
    requires r in KeptRoutes(Allowed(xs), Prohibited(xs), |Allowed(xs)|)
    ensures SafeToAnnounce(xs, r)
  {
    var allowed, ps := Allowed(xs), Prohibited(xs);
    KeptIsKept(allowed, ps, |allowed|, r);
    var i :| 0 <= i < |allowed| && allowed[i] == r && Kept(allowed, ps, i);
    assert r in allowed;
    ParseMeaning(r.id);
    var x :| x in xs && Announces(x) && x.config.route == Some(r);
    AnnouncesIffReady(x);
    assert Sound(x.pub) && x.pub.states != [];
    RatioMeaning(x.pub.states[0].upstreams);
    forall y | y in xs && !IsReady(y) && y.config.route.Some? ensures !Blocks(y.config.route.value.id, r.id) {
      AnnouncesIffReady(y);
      assert RouteIdOf(y.config) in ps;
      CoversIffBlocks(RouteIdOf(y.config), r.id);
    }
  }

  // ----- Link addresses -----------------------------------------------------------------

  function VipOf(b: BalancerState): Option<IP> {
    match b.service.attributes
    case Tcp(a, _) => Some(a)
    case Udp(a, _) => Some(a)
    case Fwmark(_, _) => None
  }

  ghost function Vips(pubs: seq<Published>): set<IP> {
    set p, b | p in pubs && b in p.states && VipOf(b).Some? :: VipOf(b).value
  }

  /** links lists each address of vips once, on the loopback. */
  ghost predicate ListsVips(links: seq<LinkAddress>, vips: set<IP>) {
    && (forall i, j :: 0 <= i < j < |links| ==> links[i].address != links[j].address)
    && (forall l <- links :: l.link == LOOPBACK && l.address in vips)
    && (forall a <- vips :: LinkAddress(LOOPBACK, a) in links)
  }

  /** b serves the address a. */
  ghost predicate Serves(b: BalancerState, a: IP) {
    (b.service.attributes.Tcp? || b.service.attributes.Udp?) && b.service.attributes.address == a
  }

  /** links has exactly the addresses some published service serves, each once and on "lo". */
  ghost predicate LinksServed(links: seq<LinkAddress>, pubs: seq<Published>) {
    && (forall i, j :: 0 <= i < j < |links| ==> links[i].address != links[j].address)
    && (forall l <- links :: l.link == "lo" && exists p <- pubs, b <- p.states :: Serves(b, l.address))
    && (forall p <- pubs, b <- p.states, a: IP :: Serves(b, a) ==> LinkAddress("lo", a) in links)
  }

  lemma ListedAreServed(links: seq<LinkAddress>, pubs: seq<Published>)
    requires ListsVips(links, Vips(pubs))
    ensures LinksServed(links, pubs)
  {
    forall l | l in links ensures exists p <- pubs, b <- p.states :: Serves(b, l.address) {
      var p, b :| p in pubs && b in p.states && VipOf(b) == Some(l.address);
      assert Serves(b, l.address);
    }
    forall p, b, a: IP | p in pubs && b in p.states && Serves(b, a) ensures LinkAddress("lo", a) in links {
      assert VipOf(b) == Some(a) && a in Vips(pubs);
    }
  }

  /** The check for link addresses listed twice. */
  predicate Duplicates(links: seq<LinkAddress>) {
    exists i, j :: 0 <= i < j < |links| && links[i].address == links[j].address
  }

  predicate ValidUpstream(u: Upstream) {
    u.hostname != "" && (u.port != 0 || u.forward == Tunnel)
  }

  predicate ValidBalancer(b: BalancerState) {
    b.name != "" && forall u <- b.upstreams :: ValidUpstream(u)
  }

  /** What validation asks of every balancer of a state. */
  ghost predicate WellFormed(bs: seq<BalancerState>) {
    && (forall b <- bs :: b.name != "")
    && (forall b <- bs, u <- b.upstreams :: u.hostname != "" && (u.port == 0 ==> u.forward == Tunnel))
  }

  lemma ValidIffWellFormed(bs: seq<BalancerState>)
    ensures (forall b <- bs :: ValidBalancer(b)) <==> WellFormed(bs)
  {
  }

  /** A fwmark service has no port, so validation takes it only when it tunnels. */
  lemma FwmarkServiceValid(mark: nat, u: Upstream, weightUp: nat)
    ensures WellFormed([FwmarkService(mark, u, weightUp)]) <==> u.hostname != "" && u.forward == Tunnel
  {
    var b := FwmarkService(mark, u, weightUp);
    assert b.upstreams[0] in b.upstreams && b in [b];
    assert forall v <- b.upstreams :: v == b.upstreams[0];
  }

  /** So one balancer that masquerades and has fwmarks on makes every generation fail, as
      long as no tunnelling balancer has a service for the same mark. */
  lemma MasqueradingRefused(xs: seq<Reading>, x: Reading, mark: nat, u: Upstream, weightUp: nat)
    requires x in xs && FwmarkService(mark, u, weightUp) in x.pub.states && mark > 0 && u.forward == Masq
    requires forall b <- AllStates(xs) :: SharesMark(b, FwmarkService(mark, u, weightUp)) ==> !WellFormed([b])
    ensures !WellFormed(Merge(AllStates(xs)))
  {
    var all, s := AllStates(xs), FwmarkService(mark, u, weightUp);
    InAllStates(xs, x, s);
    MergeMarks(all);
    assert MarkOf(s) == mark && mark in Marks(Merge(all));
    var b :| b in Merge(all) && MarkOf(b) == mark;
    assert SharesMark(b, s) && b in [b];
    ValidIffWellFormed([b]);
    ValidIffWellFormed(Merge(all));
  }

  lemma {:induction false} InAllStates(xs: seq<Reading>, x: Reading, b: BalancerState)
    requires x in xs && b in x.pub.states
    ensures b in AllStates(xs)
  {
    if x != xs[|xs| - 1] {
      assert xs == xs[..|xs| - 1] + [xs[|xs| - 1]];
      InAllStates(xs[..|xs| - 1], x, b);
    }
  }

  // ----- The servicer -------------------------------------------------------------------

  class Servicer {
    var state: Option<DataPlaneState>
    var initialState: bool
    var initPending: bool
    var initCalls: nat

    /** The handler to call after initialisation is called at most once, and not before all
        balancers had state. */
    ghost predicate Valid()
      reads this
    {
      initCalls <= 1 && (initCalls == 1 ==> !initPending && !initialState)
    }

    constructor (hasInitHandler: bool)
      ensures Valid() && state.None? && initialState && initCalls == 0 && initPending == hasInitHandler
    {
      state, initialState, initPending, initCalls := None, true, hasInitHandler, 0;
    }

    /** What the data plane's answer to a state brings about. */
    method ApplyDataPlaneState(accepted: bool)
      requires Valid()
      modifies this`initPending, this`initCalls
      ensures Valid() && (initCalls == old(initCalls) + 1 <==> accepted && !initialState && old(initPending))
      ensures initCalls == old(initCalls) || initCalls == old(initCalls) + 1
      ensures initPending <==> old(initPending) && initCalls == old(initCalls)
    {
      if accepted && !initialState && initPending {
        initCalls := initCalls + 1;
        initPending := false;
      }
    }

    /** A tick sends the last good state again. */
    method OnTick(accepted: bool) returns (sent: Option<DataPlaneState>)
      requires Valid()
      modifies this`initPending, this`initCalls
      ensures Valid() && sent == state && initCalls >= old(initCalls)
      ensures sent.Some? && accepted && !initialState ==> !initPending
    {
      sent := state;
      if sent.Some? {
        ApplyDataPlaneState(accepted);
      }
    }

    method MergeInto(ghost before: seq<BalancerState>, had: seq<BalancerState>, marks: set<nat>, bs: seq<BalancerState>)
      returns (r: seq<BalancerState>, seen: set<nat>)
      requires had == Merge(before) && marks == Marks(had)
      ensures r == Merge(before + bs) && seen == Marks(r)
    {
      r, seen := had, marks;
      assert before + bs[..0] == before;
      for j := 0 to |bs|
        invariant r == Merge(before + bs[..j]) && seen == Marks(r)
      {
        MergeOne(before + bs[..j], bs[j]);
        assert before + bs[..j + 1] == before + bs[..j] + [bs[j]];
        var m := MarkOf(bs[j]);
        if m == 0 || m !in seen {
          r := r + [bs[j]];
          if m > 0 {
            seen := seen + {m};
          }
        }
      }
      assert before + bs[..|bs|] == before + bs;
    }

    method MergeStates(xs: seq<Reading>) returns (r: seq<BalancerState>)
      ensures r == Merge(AllStates(xs))
    {
      r := [];
      var seen: set<nat> := {};
      for i := 0 to |xs|
        invariant r == Merge(AllStates(xs[..i])) && seen == Marks(r)
      {
        assert xs[..i + 1][..i] == xs[..i];
        var bs := xs[i].pub.states;
        ghost var before := AllStates(xs[..i]);
        r, seen := MergeInto(before, r, seen, bs);
      }
      assert xs[..|xs|] == xs;
    }

    method SplitRoutes(xs: seq<Reading>) returns (allowed: seq<Route>, ps: seq<Option<RouteId>>, stateless: nat)
      ensures allowed == Allowed(xs) && ps == Prohibited(xs)
      ensures stateless == 0 <==> forall x <- xs :: x.pub.states != []
    {
      allowed, ps, stateless := [], [], 0;
      for i := 0 to |xs|
        invariant allowed == Allowed(xs[..i]) && ps == Prohibited(xs[..i])
        invariant stateless == 0 <==> forall x <- xs[..i] :: x.pub.states != []
      {
        assert xs[..i + 1][..i] == xs[..i] && xs[..i + 1] == xs[..i] + [xs[i]];
        var x := xs[i];
        if |x.pub.states| == 0 {
          assert x in xs[..i + 1];
          stateless := stateless + 1;
        }
        if Announces(x) {
          allowed := allowed + [x.config.route.value];
        } else {
          ps := ps + [RouteIdOf(x.config)];
        }
      }
      assert xs[..|xs|] == xs;
    }

    method CollectVips(pubs: seq<Published>) returns (vips: set<IP>)
      ensures vips == Vips(pubs)
    {
      vips := {};
      for i := 0 to |pubs|
        invariant vips == Vips(pubs[..i])
      {
        var bs := pubs[i].states;
        ghost var before := vips;
        for j := 0 to |bs|
          invariant vips == before + Vips([Published(bs[..j], 0.0, true)])
        {
          var vip := VipOf(bs[j]);
          VipsSnoc(bs[..j], bs[j]);
          assert bs[..j + 1] == bs[..j] + [bs[j]];
          if vip.Some? {
            vips := vips + {vip.value};
          }
        }
        assert bs[..|bs|] == bs;
        VipsGrow(pubs[..i], pubs[i]);
        assert pubs[..i + 1] == pubs[..i] + [pubs[i]];
      }
      assert pubs[..|pubs|] == pubs;
    }

    method GenerateLinkAddrs(pubs: seq<Published>) returns (links: seq<LinkAddress>)
      ensures LinksServed(links, pubs)
    {
      var vips := CollectVips(pubs);
      links := [];
      var todo := vips;
      while todo != {}
        invariant todo <= vips && ListsVips(links, vips - todo)
      {
        var a :| a in todo;
        ListsSnoc(links, vips - todo, a);
        assert vips - todo + {a} == vips - (todo - {a});
        links := links + [LinkAddress(LOOPBACK, a)];
        todo := todo - {a};
      }
      assert vips - {} == vips;
      ListedAreServed(links, pubs);
    }

    lemma ListsSnoc(links: seq<LinkAddress>, vips: set<IP>, a: IP)
      requires ListsVips(links, vips) && a !in vips
      ensures ListsVips(links + [LinkAddress(LOOPBACK, a)], vips + {a})
    {
      var l := LinkAddress(LOOPBACK, a);
      assert forall x :: x in links + [l] <==> x in links || x == l;
      forall i | 0 <= i < |links| ensures links[i].address != a {
        assert links[i] in links;
      }
    }

    lemma VipsSnoc(bs: seq<BalancerState>, b: BalancerState)
      ensures Vips([Published(bs + [b], 0.0, true)]) ==
              Vips([Published(bs, 0.0, true)]) + if VipOf(b).Some? then {VipOf(b).value} else {}
    {
      var p, q := Published(bs + [b], 0.0, true), Published(bs, 0.0, true);
      assert p in [p] && q in [q];
      assert forall x :: x in bs + [b] <==> x in bs || x == b;
    }

    lemma VipsGrow(pubs: seq<Published>, p: Published)
      ensures Vips(pubs + [p]) == Vips(pubs) + Vips([Published(p.states, 0.0, true)])
    {
      var q := Published(p.states, 0.0, true);
      assert q in [q] && p in pubs + [p];
      assert forall x :: x in pubs + [p] <==> x in pubs || x == p;
    }

    /** Builds the state out of two readings. It is refused when a route does not parse or a
        balancer is malformed, never because an address is listed twice. */
    method GenerateDataPlaneState(xs: seq<Reading>, again: seq<Published>) returns (r: Option<DataPlaneState>)
      modifies this`initialState
      ensures r.Some? <==> NoneFails(Allowed(xs), Prohibited(xs)) && WellFormed(Merge(AllStates(xs)))
      ensures r.Some? ==>
                && r.value.balancers == Merge(AllStates(xs))
                && r.value.routes == KeptRoutes(Allowed(xs), Prohibited(xs), |Allowed(xs)|)
                && NoneForgotten(xs, r.value.routes) && LinksServed(r.value.links, again)
      ensures initialState <==> old(initialState) && !(r.Some? && forall x <- xs :: x.pub.states != [])
    {
      var balancers := MergeStates(xs);
      var allowed, ps, stateless := SplitRoutes(xs);
      var routes := GenerateRoutes(allowed, ps);
      if routes.None? {
        return None;
      }
      AllReadyAnnounced(xs);
      ValidIffWellFormed(balancers);
      var links := GenerateLinkAddrs(again);
      if (exists b <- balancers :: !ValidBalancer(b)) || Duplicates(links) {
        return None;
      }
      if stateless == 0 {
        initialState := false;
      }
      r := Some(DataPlaneState(balancers, routes.value, links));
    }

    /** A balancer update: when generation fails nothing is sent and the last good state
        stays for the next tick; otherwise the new state is kept and sent, and every route
        in it is safe to announce. */
    method OnBalancerUpdate(xs: seq<Reading>, again: seq<Published>, accepted: bool) returns (sent: Option<DataPlaneState>)
      requires Valid() && forall x <- xs :: Sound(x.pub)
      modifies this
      ensures Valid() && initCalls >= old(initCalls) && (initialState ==> old(initialState))
      ensures if sent.Some? then state == sent else state == old(state) && initCalls == old(initCalls)
      ensures sent.Some? <==> NoneFails(Allowed(xs), Prohibited(xs)) && WellFormed(Merge(AllStates(xs)))
      ensures sent.Some? ==>
                && (forall r <- sent.value.routes :: SafeToAnnounce(xs, r)) && NoneForgotten(xs, sent.value.routes)
                && sent.value.balancers == Merge(AllStates(xs)) && LinksServed(sent.value.links, again)
    {
      sent := GenerateDataPlaneState(xs, again);
      if sent.Some? {
        state := sent;
        forall r | r in sent.value.routes ensures SafeToAnnounce(xs, r) {
          AnnouncementIsSafe(xs, r);
        }
        ApplyDataPlaneState(accepted);
      }
    }
  }
}
