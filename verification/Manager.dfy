/** The data plane manager: reads the modules, diffs them against the desired state and
    issues the calls that close the gap, in an order that never exposes traffic to a
    service that is not there. */
module Manager {
  import opened Types
  import opened Comparable
  import opened Reconcile
  import opened Plan
  import opened Attempts

  const DEFAULT_NAME := "default"

  /** What a shutdown reconciles towards. */
  const NOTHING := Desired(map[], map[], {})

  /** The service cache ignores the address family of a fwmark service. */
  function CacheKey(a: Attributes): Attributes {
    if a.Fwmark? then Fwmark(Inet, a.mark) else a
  }

  function HostOf(hosts: map<IP, string>, a: IP): string {
    if a in hosts then hosts[a] else DEFAULT_NAME
  }

  function ListedUpstream(k: RealKey, v: Real, hosts: map<IP, string>): Upstream {
    Upstream(k.address, k.port, HostOf(hosts, k.address), v.weight, v.forward)
  }

  /** Every upstream is named, and one address has one name. */
  ghost predicate HostsConsistent(bs: seq<BalancerState>) {
    forall b, c, u, v :: b in bs && c in bs && u in b.upstreams && v in c.upstreams && u.address == v.address ==>
      u.hostname == v.hostname != ""
  }

  function CacheHosts(hosts: map<IP, string>, ups: seq<Upstream>): map<IP, string> {
    if ups == [] then hosts
    else
      var u, rest := ups[|ups| - 1], CacheHosts(hosts, ups[..|ups| - 1]);
      if u.hostname == "" then rest else rest[u.address := u.hostname]
  }

  function CacheAllHosts(hosts: map<IP, string>, bs: seq<BalancerState>): map<IP, string> {
    if bs == [] then hosts
    else CacheHosts(CacheAllHosts(hosts, bs[..|bs| - 1]), bs[|bs| - 1].upstreams)
  }

  function CacheNames(names: map<Attributes, string>, bs: seq<BalancerState>): map<Attributes, string> {
    if bs == [] then names
    else
      var b := bs[|bs| - 1];
      CacheNames(names, bs[..|bs| - 1])[CacheKey(b.service.attributes) := b.name]
  }

  function NameOf(names: map<Attributes, string>, a: Attributes): string {
    if CacheKey(a) in names then names[CacheKey(a)] else DEFAULT_NAME
  }

  /** What the cache does not tell apart: fwmark services of one mark, and nothing else. */
  lemma CacheKeyExact(a: Attributes, b: Attributes)
    ensures CacheKey(a) == CacheKey(b) <==> a == b || (a.Fwmark? && b.Fwmark? && a.mark == b.mark)
  {
  }

  /** ups names the address a at position j and at no later one. */
  ghost predicate NamesLast(ups: seq<Upstream>, j: nat, a: IP) {
    && j < |ups| && ups[j].address == a && ups[j].hostname != ""
    && forall k :: j < k < |ups| && ups[k].address == a ==> ups[k].hostname == ""
  }

  ghost predicate NamesNowhere(ups: seq<Upstream>, a: IP) {
    forall u <- ups :: u.address == a ==> u.hostname == ""
  }

  lemma {:induction false} CacheHostsOld(hosts: map<IP, string>, ups: seq<Upstream>, a: IP)
    requires NamesNowhere(ups, a)
    ensures var r := CacheHosts(hosts, ups); (a in r <==> a in hosts) && (a in r ==> r[a] == hosts[a])
  {
    if ups != [] {
      assert ups[|ups| - 1] in ups && forall u <- ups[..|ups| - 1] :: u in ups;
      CacheHostsOld(hosts, ups[..|ups| - 1], a);
    }
  }

  lemma {:induction false} CacheHostsLast(hosts: map<IP, string>, ups: seq<Upstream>, j: nat, a: IP)
    requires NamesLast(ups, j, a)
    ensures var r := CacheHosts(hosts, ups); a in r && r[a] == ups[j].hostname
  {
    var m := |ups| - 1;
    if j < m {
      assert ups[m].address == a ==> ups[m].hostname == "";
      CacheHostsLast(hosts, ups[..m], j, a);
    }
  }

  /** The balancers from position i on do not name the address a. */
  ghost predicate NotNamedFrom(bs: seq<BalancerState>, i: nat, a: IP) {
    forall k :: i <= k < |bs| ==> NamesNowhere(bs[k].upstreams, a)
  }

  lemma NotNamedPrefix(bs: seq<BalancerState>, i: nat, a: IP)
    requires i < |bs|
    ensures NotNamedFrom(bs, i, a) <==> NotNamedFrom(bs[..|bs| - 1], i, a) && NamesNowhere(bs[|bs| - 1].upstreams, a)
  {
  }

  /** An update leaves the name of an address that the state does not name ... */
  lemma {:induction false} CacheKeepsOld(hosts: map<IP, string>, bs: seq<BalancerState>, a: IP)
    requires NotNamedFrom(bs, 0, a)
    ensures var r := CacheAllHosts(hosts, bs); (a in r <==> a in hosts) && (a in r ==> r[a] == hosts[a])
  {
    if bs != [] {
      NotNamedPrefix(bs, 0, a);
      CacheKeepsOld(hosts, bs[..|bs| - 1], a);
      CacheHostsOld(CacheAllHosts(hosts, bs[..|bs| - 1]), bs[|bs| - 1].upstreams, a);
    }
  }

  /** ... and gives every other one the last name it has there. */
  lemma {:induction false} CacheKeepsLast(hosts: map<IP, string>, bs: seq<BalancerState>, i: nat, j: nat, a: IP)
    requires i < |bs| && NamesLast(bs[i].upstreams, j, a) && NotNamedFrom(bs, i + 1, a)
    ensures var r := CacheAllHosts(hosts, bs); a in r && r[a] == bs[i].upstreams[j].hostname
  {
    var m := |bs| - 1;
    if i < m {
      NotNamedPrefix(bs, i + 1, a);
      CacheKeepsLast(hosts, bs[..m], i, j, a);
      CacheHostsOld(CacheAllHosts(hosts, bs[..m]), bs[m].upstreams, a);
    } else {
      CacheHostsLast(CacheAllHosts(hosts, bs[..m]), bs[m].upstreams, j, a);
    }
  }

  ghost predicate NotCachedFrom(bs: seq<BalancerState>, i: nat, k: Attributes) {
    forall l :: i <= l < |bs| ==> CacheKey(bs[l].service.attributes) != k
  }

  /** A service gets the name of the last balancer with its key, and keeps its old one if
      there is none. */
  lemma {:induction false} CacheKeepsLastName(names: map<Attributes, string>, bs: seq<BalancerState>, i: nat, k: Attributes)
    requires i <= |bs| && NotCachedFrom(bs, i, k) && (i > 0 ==> CacheKey(bs[i - 1].service.attributes) == k)
    ensures var r := CacheNames(names, bs);
            if i > 0 then k in r && r[k] == bs[i - 1].name else (k in r <==> k in names) && (k in r ==> r[k] == names[k])
  {
    if i < |bs| {
      CacheKeepsLastName(names, bs[..|bs| - 1], i, k);
    }
  }

  /** Services the cache does not tell apart have one name. */
  ghost predicate NamesConsistent(bs: seq<BalancerState>) {
    forall b, c | b in bs && c in bs :: CacheKey(b.service.attributes) == CacheKey(c.service.attributes) ==> b.name == c.name
  }

  /** After an update of the cache, the name of a service is its own, if the state gives
      services the cache does not tell apart one name. */
  lemma {:induction false} CacheGivesNameBack(names: map<Attributes, string>, bs: seq<BalancerState>, b: BalancerState)
    requires NamesConsistent(bs) && b in bs
    ensures NameOf(CacheNames(names, bs), b.service.attributes) == b.name
  {
    var ini, last := bs[..|bs| - 1], bs[|bs| - 1];
    assert last in bs && forall x <- ini :: x in bs;
    if CacheKey(b.service.attributes) != CacheKey(last.service.attributes) {
      assert bs == ini + [last] && b in ini;
      CacheGivesNameBack(names, ini, b);
    }
  }

  /** One balancer's upstreams leave an address with its name, if they or the cache give it
      that name and they give it no other. */
  lemma {:induction false} CacheHostsKeep(hosts: map<IP, string>, ups: seq<Upstream>, a: IP, host: string)
    requires host != "" && forall v <- ups :: v.address == a ==> v.hostname == host
    requires HostOf(hosts, a) == host || exists v <- ups :: v.address == a
    ensures HostOf(CacheHosts(hosts, ups), a) == host
  {
    if ups != [] {
      var ini, last := ups[..|ups| - 1], ups[|ups| - 1];
      assert ups == ini + [last];
      if last.address != a {
        CacheHostsKeep(hosts, ini, a, host);
      }
    }
  }

  /** After an update of the cache, the name of an upstream's address is the upstream's own,
      if the state names it and names no address twice. */
  lemma {:induction false} CacheGivesBack(hosts: map<IP, string>, bs: seq<BalancerState>, b: BalancerState, u: Upstream)
    requires HostsConsistent(bs) && b in bs && u in b.upstreams
    ensures HostOf(CacheAllHosts(hosts, bs), u.address) == u.hostname
  {
    var ini, last := bs[..|bs| - 1], bs[|bs| - 1];
    assert bs == ini + [last] && last in bs && forall x <- ini :: x in bs;
    if u !in last.upstreams {
      assert b in ini;
      CacheGivesBack(hosts, ini, b, u);
    }
    CacheHostsKeep(CacheAllHosts(hosts, ini), last.upstreams, u.address, u.hostname);
  }

  /** A changed balancer: what is there is its old side, what is wanted its new one. */
  ghost predicate PairFits(n: Desired, w: World, p: ChangedPair<BalancerState>) {
    var s := p.newItem.service;
    && s in w.ipvs && w.ipvs[s] == RealsOf(p.oldItem.upstreams)
    && s in n.services && n.services[s] == RealsOf(p.newItem.upstreams)
  }

  ghost predicate SameHosts(p: ChangedPair<BalancerState>) {
    forall x, y :: x in p.oldItem.upstreams && y in p.newItem.upstreams && x.address == y.address ==> x.hostname == y.hostname
  }

  /** w is o with the services of bs brought to their desired reals. */
  ghost predicate Updated(n: Desired, o: World, bs: seq<BalancerState>, w: World) {
    && w == o.(ipvs := w.ipvs) && w.ipvs.Keys == o.ipvs.Keys
    && Services(bs) <= n.services.Keys
    && forall s <- w.ipvs :: w.ipvs[s] == if s in Services(bs) then n.services[s] else o.ipvs[s]
  }

  lemma UpdatedFits(n: Desired, o: World, news: seq<BalancerState>, i: nat, w: World, p: ChangedPair<BalancerState>)
    requires i < |news| && DistinctKeys(news, BalancerKey) && p.newItem == news[i]
    requires Updated(n, o, news[..i], w) && PairFits(n, o, p)
    ensures PairFits(n, w, p)
  {
    assert news[i].service !in Services(news[..i]);
  }

  lemma UpdatedStep(n: Desired, o: World, news: seq<BalancerState>, i: nat, w: World, w': World)
    requires i < |news| && news[i].service in o.ipvs && news[i].service in n.services
    requires Updated(n, o, news[..i], w) && w' == WithReals(w, news[i].service, n.services[news[i].service])
    ensures Updated(n, o, news[..i + 1], w')
  {
    assert news[..i + 1] == news[..i] + [news[i]];
    KeysSnoc(news[..i], news[i], BalancerKey);
  }

  // ----- What the three diffs say about the modules ------------------------------------

  ghost predicate RoutesFit(n: Desired, w: World, d: Diff<Route>) {
    && DistinctKeys(d.deleted, RouteKey) && KeysOf(d.deleted, RouteKey) == w.bgp.Keys - n.routes.Keys
    && DistinctKeys(d.added, RouteKey) && KeysOf(d.added, RouteKey) == n.routes.Keys - w.bgp.Keys
    && forall r <- d.added :: r.id in n.routes && n.routes[r.id] == r.holdMs
  }

  ghost predicate LinksFit(n: Desired, w: World, d: Diff<LinkAddress>) {
    && DistinctKeys(d.deleted, LinkKey) && LinkSet(d.deleted) == w.Links() - n.links
    && DistinctKeys(d.added, LinkKey) && LinkSet(d.added) == n.links - w.Links()
  }

  ghost predicate ServicesFit(n: Desired, w: World, d: Diff<BalancerState>) {
    && AllNew(w.ipvs.Keys, d.added) && Services(d.added) == n.services.Keys - w.ipvs.Keys && AllWanted(n, d.added)
    && DistinctKeys(d.deleted, BalancerKey) && Services(d.deleted) == w.ipvs.Keys - n.services.Keys
    && DistinctKeys(NewItems(d.changed), BalancerKey) && (forall p <- d.changed :: PairFits(n, w, p))
    && forall s :: s in w.ipvs && s in n.services && s !in Services(NewItems(d.changed)) ==> w.ipvs[s] == n.services[s]
  }

  lemma RoutesFitDiff(st: DataPlaneState, w: World, rs: seq<Route>, d: Diff<Route>)
    requires KeysOf(rs, RouteKey) == w.bgp.Keys
    requires IsDiff(KeyGen(rs, RouteKey), KeyGen(st.routes, RouteKey), RouteKey, RouteEqual, d)
    ensures RoutesFit(View(st), w, d)
  {
    var o, m := KeyGen(rs, RouteKey), KeyGen(st.routes, RouteKey);
    DiffKeys(o, m, RouteKey, RouteEqual, d);
    assert o.Keys == w.bgp.Keys;
  }

  lemma LinksFitDiff(st: DataPlaneState, w: World, ls: seq<LinkAddress>, d: Diff<LinkAddress>)
    requires LinkSet(ls) == w.Links()
    requires IsDiff(KeyGen(ls, LinkKey), KeyGen(st.links, LinkKey), LinkKey, LinkEqual, d)
    ensures LinksFit(View(st), w, d)
  {
    var o, m := KeyGen(ls, LinkKey), KeyGen(st.links, LinkKey);
    DiffKeys(o, m, LinkKey, LinkEqual, d);
    assert o.Keys == LinkSet(ls) && m.Keys == LinkSet(st.links);
    assert KeysOf(d.deleted, LinkKey) == LinkSet(d.deleted) && KeysOf(d.added, LinkKey) == LinkSet(d.added);
  }

  ghost predicate Listed(w: World, bs: seq<BalancerState>) {
    && DistinctKeys(bs, BalancerKey) && Services(bs) == w.ipvs.Keys
    && forall b <- bs :: b.service in w.ipvs && RealsOf(b.upstreams) == w.ipvs[b.service]
  }

  lemma ServicesFitDiff(st: DataPlaneState, w: World, bs: seq<BalancerState>, d: Diff<BalancerState>)
    requires Listed(w, bs)
    requires IsDiff(KeyGen(bs, BalancerKey), KeyGen(st.balancers, BalancerKey), BalancerKey, BalancerEqual, d)
    ensures ServicesFit(View(st), w, d)
  {
    var n := View(st);
    var o, m := KeyGen(bs, BalancerKey), KeyGen(st.balancers, BalancerKey);
    assert o.Keys == w.ipvs.Keys && m.Keys == n.services.Keys;
    DiffKeys(o, m, BalancerKey, BalancerEqual, d);
    forall b | b in d.added ensures b.service in n.services && n.services[b.service] == RealsOf(b.upstreams) {
      assert m[b.service] == b;
    }
    forall p | p in d.changed ensures PairFits(n, w, p) {
      ChangedPairFits(st, w, bs, d, p);
    }
    forall s | s in w.ipvs && s in n.services && s !in Services(NewItems(d.changed)) ensures w.ipvs[s] == n.services[s] {
      assert s in o && s in m && BalancerEqual(o[s], m[s]);
    }
  }

  lemma ChangedPairFits(st: DataPlaneState, w: World, bs: seq<BalancerState>, d: Diff<BalancerState>, p: ChangedPair<BalancerState>)
    requires Listed(w, bs) && p in d.changed
    requires IsDiff(KeyGen(bs, BalancerKey), KeyGen(st.balancers, BalancerKey), BalancerKey, BalancerEqual, d)
    ensures PairFits(View(st), w, p) && p.oldItem in bs && p.newItem in st.balancers
  {
    PairKeyed(bs, st.balancers, BalancerKey, BalancerEqual, d, p);
  }

  /** Nothing to report means nothing to do. */
  lemma NothingChanged(n: Desired, w: World, bd: Diff<BalancerState>, rd: Diff<Route>, ld: Diff<LinkAddress>)
    requires ServicesFit(n, w, bd) && RoutesFit(n, w, rd) && LinksFit(n, w, ld)
    requires !bd.IsChanged() && !rd.IsChanged() && !ld.IsChanged()
    ensures Converged(n, w)
  {
    assert Services(bd.added) == {} && Services(bd.deleted) == {} && Services(NewItems(bd.changed)) == {};
    assert KeysOf(rd.added, RouteKey) == {} && KeysOf(rd.deleted, RouteKey) == {};
    assert LinkSet(ld.added) == {} && LinkSet(ld.deleted) == {};
  }

  ghost predicate RouteAdds(n: Desired, w: World, added: seq<Route>) {
    && DistinctKeys(added, RouteKey) && KeysOf(added, RouteKey) == n.routes.Keys - w.bgp.Keys
    && forall r <- added :: r.id in n.routes && n.routes[r.id] == r.holdMs
  }

  ghost predicate Addable(w: World, bs: seq<BalancerState>) {
    UniqueReals(bs) && ClashFree(w.ipvs.Keys, Services(bs))
  }

  /** Adding the new services gives every desired service a place; the ones that were there
      still have their old reals. */
  lemma NewServicesWanted(n: Desired, bs: seq<BalancerState>)
    requires AllWanted(n, bs)
    ensures NewServices(bs).Keys == Services(bs)
    ensures forall s <- NewServices(bs) :: s in n.services && NewServices(bs)[s] == n.services[s]
  {
    NewServicesKeys(bs);
    forall s | s in NewServices(bs) ensures s in n.services && NewServices(bs)[s] == n.services[s] {
      assert KeyGen(bs, BalancerKey)[s] in bs;
    }
  }

  /** Every desired service is there, at its desired reals or about to be brought to them,
      and the others are those to delete. */
  ghost predicate Placed(n: Desired, w: World, d: Diff<BalancerState>) {
    && n.services.Keys <= w.ipvs.Keys && w.ipvs.Keys - n.services.Keys == Services(d.deleted)
    && DistinctKeys(NewItems(d.changed), BalancerKey) && (forall p <- d.changed :: PairFits(n, w, p))
    && forall s :: s in n.services && s !in Services(NewItems(d.changed)) ==> w.ipvs[s] == n.services[s]
  }

  lemma PlacedWith(n: Desired, w: World, more: map<Service, Reals>, d: Diff<BalancerState>)
    requires ServicesFit(n, w, d) && more.Keys == n.services.Keys - w.ipvs.Keys
    requires forall s <- more :: more[s] == n.services[s]
    ensures Placed(n, w.(ipvs := w.ipvs + more), d)
  {
    var w' := w.(ipvs := w.ipvs + more);
    assert w'.ipvs.Keys - n.services.Keys == w.ipvs.Keys - n.services.Keys;
    forall p | p in d.changed ensures PairFits(n, w', p) {
      assert PairFits(n, w, p);
    }
  }

  lemma AfterAdding(n: Desired, w: World, d: Diff<BalancerState>)
    requires ServicesFit(n, w, d)
    ensures var w' := Exec(w, AddBalancerCalls(d.added));
            w' == w.(ipvs := w'.ipvs) && Placed(n, w', d)
  {
    AddBalancersExec(w, d.added);
    NewServicesWanted(n, d.added);
    PlacedWith(n, w, NewServices(d.added), d);
  }

  lemma AfterUpdating(n: Desired, o: World, w: World, d: Diff<BalancerState>)
    requires o.ipvs.Keys >= n.services.Keys && n.links <= o.Links() && Updated(n, o, NewItems(d.changed), w)
    requires forall s :: s in n.services && s !in Services(NewItems(d.changed)) ==> o.ipvs[s] == n.services[s]
    ensures Ready(n, w)
  {
  }

  // ----- The phases after the new services are in ---------------------------------------

  ghost predicate Clean(n: Desired, w: World, cs: seq<Call>) {
    SafeRun(n, w, cs) && NoRefresh(w, cs)
  }

  lemma LinksUp(n: Desired, w: World, d: Diff<LinkAddress>)
    requires w.bgp.Keys <= n.routes.Keys && n.services.Keys <= w.ipvs.Keys && LinksFit(n, w, d)
    ensures Clean(n, w, AddLinkCalls(d.added))
    ensures var w' := Exec(w, AddLinkCalls(d.added));
            w'.ipvs == w.ipvs && w'.bgp == w.bgp && n.links <= w'.Links() && w'.Links() - n.links == LinkSet(d.deleted)
  {
    AddLinksSafe(n, w, d.added);
    AddLinksExec(w, d.added);
    NoUpdateNoRefresh(w, AddLinkCalls(d.added));
    assert Exec(w, AddLinkCalls(d.added)).Links() == w.Links() + LinkSet(d.added);
  }

  lemma RoutesUp(n: Desired, w: World, added: seq<Route>)
    requires Ready(n, w) && w.bgp.Keys <= n.routes.Keys && RouteAdds(n, w, added)
    ensures Clean(n, w, AdvertiseCalls(added))
    ensures var w' := Exec(w, AdvertiseCalls(added));
            SameBut(w, w') && Ready(n, w') && w'.bgp.Keys == n.routes.Keys
  {
    AdvertiseSafe(n, w, added);
    AdvertiseExec(w, added);
    NoUpdateNoRefresh(w, AdvertiseCalls(added));
  }

  lemma ServicesDown(n: Desired, w: World, gone: seq<BalancerState>)
    requires Ready(n, w) && w.bgp.Keys == n.routes.Keys
    requires DistinctKeys(gone, BalancerKey) && Services(gone) == w.ipvs.Keys - n.services.Keys
    ensures Clean(n, w, DelServiceCalls(gone))
    ensures var w' := Exec(w, DelServiceCalls(gone));
            w' == w.(ipvs := w'.ipvs) && Ready(n, w') && w'.ipvs.Keys == n.services.Keys
  {
    DelServicesSafe(n, w, gone);
    DelServicesExec(w, gone);
    NoUpdateNoRefresh(w, DelServiceCalls(gone));
  }

  lemma LinksDown(n: Desired, w: World, links: seq<LinkAddress>)
    requires Ready(n, w) && w.bgp.Keys == n.routes.Keys && w.ipvs.Keys == n.services.Keys
    requires DistinctKeys(links, LinkKey) && LinkSet(links) == w.Links() - n.links
    ensures Clean(n, w, DelLinkCalls(links)) && Converged(n, Exec(w, DelLinkCalls(links)))
  {
    DelLinksSafe(n, w, links);
    DelLinksExec(w, links);
    NoUpdateNoRefresh(w, DelLinkCalls(links));
    assert Exec(w, DelLinkCalls(links)).Links() == w.Links() - LinkSet(links);
  }

  /** The services the diff adds are those missing, each with the balancer that wants it. */
  ghost predicate AddsMissing(st: DataPlaneState, w: World, added: seq<BalancerState>) {
    Lists(added, KeyGen(st.balancers, BalancerKey), Missing(View(st), w), BalancerKey)
  }

  lemma AddedAreMissing(st: DataPlaneState, w: World, bs: seq<BalancerState>, d: Diff<BalancerState>)
    requires Listed(w, bs)
    requires IsDiff(KeyGen(bs, BalancerKey), KeyGen(st.balancers, BalancerKey), BalancerKey, BalancerEqual, d)
    ensures AddsMissing(st, w, d.added)
  {
    var o, m := KeyGen(bs, BalancerKey), KeyGen(st.balancers, BalancerKey);
    assert o.Keys == w.ipvs.Keys && Missing(View(st), w) == m.Keys - o.Keys;
  }

  lemma ApplicableIffAddable(st: DataPlaneState, w: World, added: seq<BalancerState>)
    requires AddsMissing(st, w, added)
    ensures Services(added) == Missing(View(st), w)
    ensures Applicable(w, st) <==> Addable(w, added)
  {
    var m := KeyGen(st.balancers, BalancerKey);
    ListsKeys(added, m, Missing(View(st), w), BalancerKey);
    forall b | b in added ensures b.service in Doubled(st, w) <==> !DistinctKeys(b.upstreams, UpstreamKey) {
      UniqueNotDoubled(st, w, added, b);
    }
    assert forall s <- Doubled(st, w) :: m[s] in added && m[s].service == s;
  }

  lemma PairMatches(hosts: map<IP, string>, bs: seq<BalancerState>, p: ChangedPair<BalancerState>)
    requires HostsConsistent(bs) && p.newItem in bs
    requires forall u <- p.oldItem.upstreams :: u.hostname == HostOf(CacheAllHosts(hosts, bs), u.address)
    ensures SameHosts(p)
  {
    forall y | y in p.newItem.upstreams ensures HostOf(CacheAllHosts(hosts, bs), y.address) == y.hostname {
      CacheGivesBack(hosts, bs, p.newItem, y);
    }
  }

  lemma CacheMatches(hosts: map<IP, string>, st: DataPlaneState, w: World, bs: seq<BalancerState>, d: Diff<BalancerState>)
    requires Listed(w, bs) && HostsConsistent(st.balancers)
    requires IsDiff(KeyGen(bs, BalancerKey), KeyGen(st.balancers, BalancerKey), BalancerKey, BalancerEqual, d)
    requires forall b <- bs, u <- b.upstreams :: u.hostname == HostOf(CacheAllHosts(hosts, st.balancers), u.address)
    ensures forall p <- d.changed :: SameHosts(p)
  {
    forall p | p in d.changed ensures SameHosts(p) {
      assert p.oldItem in bs && p.newItem in st.balancers by {
        ChangedPairFits(st, w, bs, d, p);
      }
      PairMatches(hosts, st.balancers, p);
    }
  }

  lemma SameUpstreams(a: seq<Upstream>, b: seq<Upstream>)
    requires RealsOf(a) == RealsOf(b)
    requires forall x, y :: x in a && y in b && x.address == y.address ==> x.hostname == y.hostname
    ensures KeyGen(a, UpstreamKey) == KeyGen(b, UpstreamKey)
  {
    var o, m := KeyGen(a, UpstreamKey), KeyGen(b, UpstreamKey);
    RealsKeys(a);
    RealsKeys(b);
    forall k | k in o ensures o[k] == m[k] {
      assert RealsOf(a)[k] == RealOf(o[k]) && RealsOf(b)[k] == RealOf(m[k]);
      assert o[k] in a && m[k] in b && UpstreamKey(o[k]) == k == UpstreamKey(m[k]);
    }
  }

  /** Name and hostnames are those the caches give. */
  ghost predicate NamedBy(hosts: map<IP, string>, names: map<Attributes, string>, b: BalancerState) {
    b.name == NameOf(names, b.service.attributes) && forall u <- b.upstreams :: u.hostname == HostOf(hosts, u.address)
  }

  lemma ReadsBackOne(hosts: map<IP, string>, names: map<Attributes, string>, bs: seq<BalancerState>, x: BalancerState, y: BalancerState)
    requires HostsConsistent(bs) && NamesConsistent(bs) && y in bs
    requires x.service == y.service && RealsOf(x.upstreams) == RealsOf(y.upstreams)
    requires NamedBy(CacheAllHosts(hosts, bs), CacheNames(names, bs), x)
    ensures BalancerEqual(x, y)
  {
    CacheGivesNameBack(names, bs, y);
    PairMatches(hosts, bs, ChangedPair(x, y));
    SameUpstreams(x.upstreams, y.upstreams);
  }

  /** Balancers read from a converged kernel have the services and reals of the desired ones. */
  lemma ConvergedKeys(st: DataPlaneState, w: World, bs: seq<BalancerState>)
    requires Listed(w, bs) && View(st).services == w.ipvs
    ensures var o, m := KeyGen(bs, BalancerKey), KeyGen(st.balancers, BalancerKey);
            && o.Keys == m.Keys
            && forall s <- o :: s in m && o[s] in bs && m[s] in st.balancers && o[s].service == s == m[s].service
                                && RealsOf(o[s].upstreams) == RealsOf(m[s].upstreams)
  {
    var o, m := KeyGen(bs, BalancerKey), KeyGen(st.balancers, BalancerKey);
    assert o.Keys == w.ipvs.Keys == m.Keys;
    forall s | s in o ensures RealsOf(o[s].upstreams) == RealsOf(m[s].upstreams) {
      assert o[s] in bs && View(st).services[s] == RealsOf(m[s].upstreams);
    }
  }

  /** What the manager reads back from a converged kernel, through caches filled from the
      desired state, is what was desired: every balancer compares equal, name and all. */
  lemma ReadsBackEqual(hosts: map<IP, string>, names: map<Attributes, string>, st: DataPlaneState, w: World, bs: seq<BalancerState>)
    requires Listed(w, bs) && Converged(View(st), w)
    requires HostsConsistent(st.balancers) && NamesConsistent(st.balancers)
    requires forall b <- bs :: NamedBy(CacheAllHosts(hosts, st.balancers), CacheNames(names, st.balancers), b)
    ensures SameMaps(KeyGen(bs, BalancerKey), KeyGen(st.balancers, BalancerKey), BalancerEqual)
  {
    var o, m := KeyGen(bs, BalancerKey), KeyGen(st.balancers, BalancerKey);
    ConvergedKeys(st, w, bs);
    forall s | s in o ensures BalancerEqual(o[s], m[s]) {
      ReadsBackOne(hosts, names, st.balancers, o[s], m[s]);
    }
  }

  lemma HoldsFit(n: Desired, w: World, rs: seq<Route>)
    requires KeysOf(rs, RouteKey) == w.bgp.Keys - n.routes.Keys
    requires forall r <- rs :: r.id in w.bgp && r.holdMs == w.bgp[r.id]
    ensures LongestHold(n, w, MaxHold(rs))
  {
    forall r | r in w.bgp && r !in n.routes ensures w.bgp[r] <= MaxHold(rs) {
      assert r in KeysOf(rs, RouteKey);
      var x :| x in rs && x.id == r;
    }
    if MaxHold(rs) > 0 {
      var x :| x in rs && x.holdMs == MaxHold(rs);
      assert x.id in KeysOf(rs, RouteKey);
    }
  }

  lemma DrainsRoutes(n: Desired, o: World, rs: seq<Route>, rest: seq<Call>)
    requires var first := WithdrawCalls(rs) + WaitCall(MaxHold(rs)); SafeRun(n, o, first + rest)
    requires LongestHold(n, o, MaxHold(rs)) && forall c <- rest :: !c.Withdraw? && !c.Wait?
    ensures DrainShape(n, o, WithdrawCalls(rs) + WaitCall(MaxHold(rs)) + rest)
  {
    assert DrainsFirst(n, o, WithdrawCalls(rs), MaxHold(rs), rest);
  }

  /** However far the new services got. */
  lemma AddedSoFar(n: Desired, w: World, bs: seq<BalancerState>, k: nat)
    requires w.bgp.Keys <= n.routes.Keys && AllNew(w.ipvs.Keys, bs) && AllWanted(n, bs)
    requires k <= |AddBalancerCalls(bs)| && LegalRun(w, AddBalancerCalls(bs)[..k])
    ensures var done := AddBalancerCalls(bs)[..k];
            OrderlyRun(n, w, done) && NoRefresh(w, done) && (Addable(w, bs) ==> SafeRun(n, w, done))
  {
    var cs := AddBalancerCalls(bs);
    assert forall c <- cs[..k] :: c in cs;
    AddsWanted(n, bs);
    LegalAddsOrderly(n, w, cs[..k]);
    NoUpdateNoRefresh(w, cs[..k]);
    if Addable(w, bs) {
      AddBalancersLegal(w, bs);
      AddBalancersSafe(n, w, bs);
      RunPrefix(n, w, cs, k);
    }
  }

  lemma RefusedThere(w: World, bs: seq<BalancerState>, k: nat)
    requires AllNew(w.ipvs.Keys, bs) && k < |AddBalancerCalls(bs)|
    requires LegalRun(w, AddBalancerCalls(bs)[..k]) && !LegalRun(w, AddBalancerCalls(bs)[..k + 1])
    ensures !Addable(w, bs)
    ensures ClashFree(w.ipvs.Keys, Services(bs)) ==> Stuck(w, bs, Exec(w, AddBalancerCalls(bs)[..k]))
  {
    AddBalancersLegal(w, bs);
    if LegalRun(w, AddBalancerCalls(bs)) {
      LegalPrefix(w, AddBalancerCalls(bs), k + 1);
    }
    if ClashFree(w.ipvs.Keys, Services(bs)) {
      var i := RefusedAtRepeat(w, bs, k);
    }
  }

  lemma StuckSince(o: World, mid: World, bs: seq<BalancerState>, w: World)
    requires mid.ipvs == o.ipvs
    ensures Stuck(mid, bs, w) ==> Stuck(o, bs, w)
  {
    if i :| StuckAt(mid, bs, i, w) {
      assert StuckAt(o, bs, i, w);
    }
  }

  /** Withdrawals and the wait, then the rest, are one run. */
  lemma AppendInstall(n: Desired, o: World, rs: seq<Route>, rest: seq<Call>, addable: bool)
    requires var first := WithdrawCalls(rs) + WaitCall(MaxHold(rs));
             && SafeRun(n, o, first) && OrderlyRun(n, Exec(o, first), rest)
             && (addable ==> SafeRun(n, Exec(o, first), rest))
    requires forall c <- rest :: !c.Withdraw? && !c.Wait?
    ensures var first := WithdrawCalls(rs) + WaitCall(MaxHold(rs));
            && Exec(o, first + rest) == Exec(Exec(o, first), rest) && OrderlyRun(n, o, first + rest)
            && (NoRefresh(o, first) && NoRefresh(Exec(o, first), rest) ==> NoRefresh(o, first + rest))
            && (addable ==> SafeRun(n, o, first + rest))
            && (addable && LongestHold(n, o, MaxHold(rs)) ==> DrainShape(n, o, first + rest))
  {
    var first := WithdrawCalls(rs) + WaitCall(MaxHold(rs));
    ExecAppend(o, first, rest);
    NoRefreshAppend(o, first, rest);
    SafeIsOrderly(n, o, first);
    OrderlyAppend(n, o, first, rest);
    if addable {
      RunAppend(n, o, first, rest);
      if LongestHold(n, o, MaxHold(rs)) {
        DrainsRoutes(n, o, rs, rest);
      }
    }
  }

  lemma StuckLeavesFewer(st: DataPlaneState, o: World, bs: seq<BalancerState>, w: World)
    requires AddsMissing(st, o, bs)
    ensures Stuck(o, bs, w) ==> OneFewer(st, o, w)
  {
    if i :| StuckAt(o, bs, i, w) {
      StuckSettlesOne(st, o, bs, i, w);
    }
  }

  /** All attempts together: one safe run, as many mutating calls as items it settled. */
  ghost predicate RetriedSafely(n: Desired, o: World, done: seq<Call>) {
    && SafeRun(n, o, done) && Between(n, o, Exec(o, done))
    && Mutations(o, done) <= |Gap(n, o)|
    && (Mutations(o, done) == |Gap(n, o)| <==> Converged(n, Exec(o, done)))
  }

  /** i failed attempts cost at least a module failure or a service listing a real twice
      each; without Failures() exactly the latter. */
  predicate Spent(i: nat, atFirst: nat, left: nat, failed: int) {
    left <= atFirst && i + left <= atFirst + failed && (failed == 0 ==> i + left == atFirst)
  }

  lemma RetriesSnoc(n: Desired, w: World, runs: seq<seq<Call>>, cs: seq<Call>)
    ensures Flatten(runs + [cs]) == Flatten(runs) + cs
    ensures Retries(n, w, runs) && SafeRun(n, Exec(w, Flatten(runs)), cs) ==> Retries(n, w, runs + [cs])
  {
    assert (runs + [cs])[..|runs|] == runs;
  }

  lemma FewerDoubled(st: DataPlaneState, w: World, cs: seq<Call>)
    requires OrderlyRun(View(st), w, cs)
    ensures |Doubled(st, Exec(w, cs))| <= |Doubled(st, w)|
    ensures OneFewer(st, w, Exec(w, cs)) ==> |Doubled(st, Exec(w, cs))| + 1 == |Doubled(st, w)|
  {
    RunKeepsApplicable(st, w, cs);
    SmallerSet(Doubled(st, Exec(w, cs)), Doubled(st, w));
  }

  lemma SmallerSet(a: set<Service>, b: set<Service>)
    requires a <= b
    ensures |a| <= |b|
    ensures (exists s :: s in b && a == b - {s}) ==> |a| + 1 == |b|
  {
    assert b == a + (b - a);
  }

  // ----- Module outcomes ----------------------------------------------------------------

  /** The failures among the first n module calls. */
  ghost function Failed(outcomes: nat -> bool, n: nat): nat {
    if n == 0 then 0 else Failed(outcomes, n - 1) + if outcomes(n - 1) then 0 else 1
  }

  /** The module calls from number a up to, not including, b all succeed. */
  ghost predicate AllWell(outcomes: nat -> bool, a: nat, b: nat) {
    forall i :: a <= i < b ==> outcomes(i)
  }

  lemma {:induction false} NoneFailedIffAllWell(outcomes: nat -> bool, a: nat, b: nat)
    requires a <= b
    ensures Failed(outcomes, a) <= Failed(outcomes, b)
    ensures Failed(outcomes, a) == Failed(outcomes, b) <==> AllWell(outcomes, a, b)
  {
    if a < b {
      NoneFailedIffAllWell(outcomes, a, b - 1);
    }
  }

  /** The module calls one call takes: one for what it does, unless it is only a wait or an
      address that is in or out of the table already, and one before it for the session or
      the look-up. */
  function Cost(w: World, c: Call): nat {
    match c
    case Wait(_) => 0
    case Advertise(_, _) => 2
    case AddLink(a) => if a in w.table then 1 else 2
    case DelLink(a) => if a in w.table then 2 else 1
    case _ => 1
  }

  /** Issues calls to modules that fail whenever outcomes says so. */
  class Manager {
    var w: World
    var hosts: map<IP, string>
    var names: map<Attributes, string>
    var shutdownOnce: bool
    const outcomes: nat -> bool
    var calls: nat

    /** How many of the module calls so far failed. */
    ghost function Failures(): nat
      reads this
    {
      Failed(outcomes, calls)
    }

    constructor (w: World, outcomes: nat -> bool)
      ensures this.w == w && hosts == map[] && names == map[] && this.outcomes == outcomes
      ensures !shutdownOnce && calls == 0
    {
      this.w, this.outcomes := w, outcomes;
      hosts, names, shutdownOnce, calls := map[], map[], false, 0;
    }

    // ----- Module calls ----------------------------------------------------------------

    /** The next module call and how it comes out. */
    method Attempt() returns (ok: bool)
      modifies this`calls
      ensures calls == old(calls) + 1 && ok == outcomes(old(calls))
      ensures Failures() == old(Failures()) + if ok then 0 else 1
    {
      ok := outcomes(calls);
      calls := calls + 1;
    }

    /** One call: a BGP session is initialised before a route is advertised, an address is
        looked up before it is added or deleted, and waiting needs no module. It has its
        effect if and only if every module call it takes succeeds and the kernel accepts it,
        and otherwise none. */
    method Issue(c: Call) returns (ok: bool)
      modifies this`w, this`calls
      ensures w == if ok then Apply(old(w), c) else old(w)
      ensures ok <==> Legal(old(w), c) && AllWell(outcomes, old(calls), old(calls) + Cost(old(w), c))
      ensures calls >= old(calls) && (ok ==> calls == old(calls) + Cost(old(w), c))
      ensures ok ==> Failures() == old(Failures())
      ensures !ok ==> Failures() > old(Failures()) || !Legal(old(w), c)
      ensures Failures() >= old(Failures())
    {
      ok := true;
      if c.Advertise? || c.AddLink? || c.DelLink? {
        ok := Attempt();
      }
      if ok && !c.Wait? && !(c.AddLink? && c.a in w.table) && !(c.DelLink? && c.a !in w.table) {
        ok := Attempt();
      }
      if ok {
        ok := Legal(w, c);
        if ok {
          w := Apply(w, c);
        }
      }
    }

    /** Issues calls in order and gives up at the first one that fails. */
    method Run(cs: seq<Call>) returns (ok: bool, done: seq<Call>)
      modifies this`w, this`calls
      ensures calls >= old(calls)
      ensures done <= cs && w == Exec(old(w), done) && LegalRun(old(w), done)
      ensures ok ==> done == cs && Failures() == old(Failures())
      ensures !ok ==> |done| < |cs| && (Failures() > old(Failures()) || !LegalRun(old(w), cs[..|done| + 1]))
      ensures Failures() >= old(Failures())
    {
      done := [];
      for i := 0 to |cs|
        invariant done == cs[..i] && w == Exec(old(w), done)
        invariant LegalRun(old(w), done) && Failures() == old(Failures()) && calls >= old(calls)
      {
        assert cs[..i + 1] == done + [cs[i]];
        LegalSnoc(old(w), done, cs[i]);
        ExecSnoc(old(w), done, cs[i]);
        ok := Issue(cs[i]);
        if !ok {
          return;
        }
        done := done + [cs[i]];
      }
      ok := true;
    }

    method RunSafe(ghost n: Desired, cs: seq<Call>) returns (ok: bool, done: seq<Call>)
      requires SafeRun(n, w, cs)
      modifies this`w, this`calls
      ensures calls >= old(calls)
      ensures done <= cs && w == Exec(old(w), done) && SafeRun(n, old(w), done)
      ensures if ok then done == cs && Failures() == old(Failures()) else Failures() > old(Failures())
      ensures NoRefresh(old(w), cs) ==> NoRefresh(old(w), done)
      ensures forall c <- done :: c in cs
    {
      SafeIsLegal(n, w, cs);
      ok, done := Run(cs);
      assert done == cs[..|done|];
      if !ok {
        LegalPrefix(old(w), cs, |done| + 1);
      }
      RunPrefix(n, old(w), cs, |done|);
      assert cs == done + cs[|done|..];
      NoRefreshAppend(old(w), done, cs[|done|..]);
    }

    // ----- Reading the modules ---------------------------------------------------------

    method ListReals(reals: Reals) returns (ups: seq<Upstream>)
      ensures RealsOf(ups) == reals
      ensures forall u <- ups :: u.hostname == HostOf(hosts, u.address)
    {
      ups := [];
      var todo := reals.Keys;
      while todo != {}
        invariant todo <= reals.Keys
        invariant RealsOf(ups) == map k | k in reals && k !in todo :: reals[k]
        invariant forall u <- ups :: u.hostname == HostOf(hosts, u.address)
      {
        var k :| k in todo;
        var u := ListedUpstream(k, reals[k], hosts);
        RealsSnoc(ups, u);
        ups := ups + [u];
        todo := todo - {k};
      }
    }

    ghost predicate ListsServices(bs: seq<BalancerState>, ss: set<Service>)
      reads this
    {
      && DistinctKeys(bs, BalancerKey) && Services(bs) == ss && ss <= w.ipvs.Keys
      && (forall b <- bs :: b.service in w.ipvs && RealsOf(b.upstreams) == w.ipvs[b.service])
      && (forall b <- bs :: NamedBy(hosts, names, b))
    }

    lemma ListsOneMore(bs: seq<BalancerState>, ss: set<Service>, b: BalancerState)
      requires ListsServices(bs, ss) && b.service !in ss && b.service in w.ipvs
      requires RealsOf(b.upstreams) == w.ipvs[b.service] && NamedBy(hosts, names, b)
      ensures ListsServices(bs + [b], ss + {b.service})
    {
      KeysSnoc(bs, b, BalancerKey);
      assert forall x :: x in bs + [b] <==> x in bs || x == b;
      assert forall x <- bs :: x.service in Services(bs);
    }

    method GetBalancers() returns (ok: bool, bs: seq<BalancerState>)
      modifies this`calls
      ensures calls >= old(calls)
      ensures if ok then Failures() == old(Failures()) else Failures() > old(Failures())
      ensures ok ==> ListsServices(bs, w.ipvs.Keys)
    {
      bs := [];
      ok := Attempt();
      if !ok {
        return;
      }
      var todo := w.ipvs.Keys;
      while todo != {}
        invariant todo <= w.ipvs.Keys && Failures() == old(Failures()) && calls >= old(calls)
        invariant ListsServices(bs, w.ipvs.Keys - todo)
      {
        var s :| s in todo;
        var name := NameOf(names, s.attributes);
        ok := Attempt();
        if !ok {
          return;
        }
        var ups := ListReals(w.ipvs[s]);
        var b := BalancerState(name, s, ups);
        ListsOneMore(bs, w.ipvs.Keys - todo, b);
        assert w.ipvs.Keys - todo + {s} == w.ipvs.Keys - (todo - {s});
        bs := bs + [b];
        todo := todo - {s};
      }
      assert w.ipvs.Keys - {} == w.ipvs.Keys;
      ok := true;
    }

    /** rs lists the routes ids, each with the remembered hold time, else the module's own. */
    ghost predicate ListsRoutes(rs: seq<Route>, ids: set<RouteId>)
      reads this
    {
      && DistinctKeys(rs, RouteKey) && KeysOf(rs, RouteKey) == ids && ids <= w.bgp.Keys
      && forall r <- rs :: r.id in w.bgp && r.holdMs == if r.id.prefix in w.holds then w.holds[r.id.prefix] else w.bgp[r.id]
    }

    method ListRoutes() returns (ok: bool, rs: seq<Route>)
      modifies this`calls
      ensures calls >= old(calls)
      ensures if ok then Failures() == old(Failures()) else Failures() > old(Failures())
      ensures ok ==> ListsRoutes(rs, w.bgp.Keys)
    {
      rs := [];
      ok := Attempt();
      if !ok {
        return;
      }
      var todo := w.bgp.Keys;
      while todo != {}
        invariant todo <= w.bgp.Keys && Failures() == old(Failures()) && calls >= old(calls)
        invariant ListsRoutes(rs, w.bgp.Keys - todo)
      {
        var r :| r in todo;
        var x := Route(r, if r.prefix in w.holds then w.holds[r.prefix] else w.bgp[r]);
        KeysSnoc(rs, x, RouteKey);
        assert forall y <- rs :: y.id in KeysOf(rs, RouteKey);
        assert w.bgp.Keys - todo + {r} == w.bgp.Keys - (todo - {r});
        rs := rs + [x];
        todo := todo - {r};
      }
      assert w.bgp.Keys - {} == w.bgp.Keys;
    }

    method ListLinks() returns (ok: bool, ls: seq<LinkAddress>)
      modifies this`calls
      ensures calls >= old(calls)
      ensures if ok then Failures() == old(Failures()) else Failures() > old(Failures())
      ensures ok ==> DistinctKeys(ls, LinkKey) && LinkSet(ls) == w.Links()
    {
      ls := [];
      ok := true;
      var todo := w.tracked;
      while todo != {}
        invariant todo <= w.tracked && Failures() == old(Failures()) && calls >= old(calls) && ok
        invariant DistinctKeys(ls, LinkKey) && LinkSet(ls) == (w.tracked - todo) * w.table
      {
        var l :| l in todo;
        ok := Attempt();
        if !ok {
          return;
        }
        if l in w.table {
          LinkSetSnoc(ls, l);
          assert forall y <- ls :: y in LinkSet(ls);
          ls := ls + [l];
        }
        todo := todo - {l};
      }
    }

    /** Remembers the names of the desired state before it is compared. */
    method UpdateCache(bs: seq<BalancerState>)
      modifies this`hosts, this`names
      ensures hosts == CacheAllHosts(old(hosts), bs) && names == CacheNames(old(names), bs)
    {
      for i := 0 to |bs|
        invariant hosts == CacheAllHosts(old(hosts), bs[..i]) && names == CacheNames(old(names), bs[..i])
      {
        var b := bs[i];
        assert bs[..i + 1][..i] == bs[..i];
        names := names[CacheKey(b.service.attributes) := b.name];
        for j := 0 to |b.upstreams|
          invariant hosts == CacheHosts(CacheAllHosts(old(hosts), bs[..i]), b.upstreams[..j])
          invariant names == CacheNames(old(names), bs[..i + 1])
        {
          var u := b.upstreams[j];
          assert b.upstreams[..j + 1][..j] == b.upstreams[..j];
          if u.hostname != "" {
            hosts := hosts[u.address := u.hostname];
          }
        }
        assert b.upstreams[..|b.upstreams|] == b.upstreams;
      }
      assert bs[..|bs|] == bs;
    }

    // ----- Reconciliation --------------------------------------------------------------

    method UpdateBalancer(ghost n: Desired, p: ChangedPair<BalancerState>) returns (ok: bool, done: seq<Call>)
      requires PairFits(n, w, p) && w.bgp.Keys <= n.routes.Keys && n.links <= w.Links()
      modifies this`w, this`calls
      ensures calls >= old(calls)
      ensures w == Exec(old(w), done) && SafeRun(n, old(w), done)
      ensures if ok then Failures() == old(Failures()) else Failures() > old(Failures())
      ensures ok ==> w == WithReals(old(w), p.newItem.service, n.services[p.newItem.service])
      ensures SameHosts(p) ==> NoRefresh(old(w), done)
      ensures forall c <- done :: c.AddReal? || c.UpdateReal? || c.DelReal?
    {
      var a, b, s := p.oldItem.upstreams, p.newItem.upstreams, p.newItem.service;
      var d := CompareArrays(a, b, UpstreamKey, UpstreamEqual);
      ChangeExec(w, s, a, b, d);
      done := [];
      ok := true;
      if d.IsChanged() {
        ChangeSafe(n, w, s, a, b, d);
        if SameHosts(p) {
          ChangeFresh(w, s, a, b, d);
        }
        ok, done := RunSafe(n, ChangeCalls(s, d));
      } else {
        assert ChangeCalls(s, d) == [];
      }
    }

    method UpdateBalancers(ghost n: Desired, pairs: seq<ChangedPair<BalancerState>>) returns (ok: bool, done: seq<Call>)
      requires DistinctKeys(NewItems(pairs), BalancerKey) && forall p <- pairs :: PairFits(n, w, p)
      requires w.bgp.Keys <= n.routes.Keys && n.links <= w.Links()
      modifies this`w, this`calls
      ensures calls >= old(calls)
      ensures w == Exec(old(w), done) && SafeRun(n, old(w), done)
      ensures if ok then Failures() == old(Failures()) else Failures() > old(Failures())
      ensures ok ==> Updated(n, old(w), NewItems(pairs), w)
      ensures (forall p <- pairs :: SameHosts(p)) ==> NoRefresh(old(w), done)
      ensures forall c <- done :: c.AddReal? || c.UpdateReal? || c.DelReal?
    {
      done := [];
      ok := true;
      ghost var news := NewItems(pairs);
      for i := 0 to |pairs|
        invariant w == Exec(old(w), done) && SafeRun(n, old(w), done)
        invariant ok && Failures() == old(Failures()) && calls >= old(calls)
        invariant Updated(n, old(w), news[..i], w)
        invariant (forall p <- pairs :: SameHosts(p)) ==> NoRefresh(old(w), done)
        invariant forall c <- done :: c.AddReal? || c.UpdateReal? || c.DelReal?
      {
        var p := pairs[i];
        assert p in pairs;
        UpdatedFits(n, old(w), news, i, w, p);
        var cs;
        label L:
        ok, cs := UpdateBalancer(n, p);
        RunAppend(n, old(w), done, cs);
        NoRefreshAppend(old(w), done, cs);
        done := done + cs;
        if !ok {
          return;
        }
        UpdatedStep(n, old(w), news, i, old@L(w), w);
      }
      assert news[..|pairs|] == news;
    }

    /** Runs one more list of calls after those in before, which led from o to here. */
    method Phase(ghost n: Desired, ghost o: World, before: seq<Call>, cs: seq<Call>) returns (ok: bool, done: seq<Call>)
      requires w == Exec(o, before) && SafeRun(n, o, before) && Clean(n, w, cs)
      modifies this`w, this`calls
      ensures calls >= old(calls)
      ensures w == Exec(o, done) && SafeRun(n, o, done) && (NoRefresh(o, before) ==> NoRefresh(o, done))
      ensures ok ==> w == Exec(old(w), cs)
      ensures if ok then Failures() == old(Failures()) else Failures() > old(Failures())
      ensures forall c <- done :: c in before || c in cs
    {
      var d;
      ok, d := RunSafe(n, cs);
      RunAppend(n, o, before, d);
      NoRefreshAppend(o, before, d);
      done := before + d;
    }

    /** Routes up, then obsolete services down, then obsolete addresses down. */
    method Finish(ghost n: Desired, ghost o: World, before: seq<Call>, added: seq<Route>, gone: seq<BalancerState>, links: seq<LinkAddress>)
      returns (ok: bool, done: seq<Call>)
      requires w == Exec(o, before) && SafeRun(n, o, before) && Ready(n, w)
      requires w.bgp.Keys <= n.routes.Keys && RouteAdds(n, w, added)
      requires DistinctKeys(gone, BalancerKey) && Services(gone) == w.ipvs.Keys - n.services.Keys
      requires DistinctKeys(links, LinkKey) && LinkSet(links) == w.Links() - n.links
      modifies this`w, this`calls
      ensures calls >= old(calls)
      ensures w == Exec(o, done) && SafeRun(n, o, done) && (NoRefresh(o, before) ==> NoRefresh(o, done))
      ensures ok ==> Converged(n, w)
      ensures if ok then Failures() == old(Failures()) else Failures() > old(Failures())
      ensures forall c <- done :: c in before || c.Advertise? || Deletes(c)
    {
      RoutesUp(n, w, added);
      ok, done := Phase(n, o, before, AdvertiseCalls(added));
      if ok {
        ServicesDown(n, w, gone);
        ok, done := Phase(n, o, done, DelServiceCalls(gone));
      }
      if ok {
        LinksDown(n, w, links);
        ok, done := Phase(n, o, done, DelLinkCalls(links));
      }
    }

    /** Addresses up and changed balancers brought to their new reals. */
    method Refit(ghost n: Desired, ghost o: World, before: seq<Call>, bd: Diff<BalancerState>, ld: Diff<LinkAddress>)
      returns (ok: bool, done: seq<Call>)
      requires w == Exec(o, before) && SafeRun(n, o, before)
      requires w.bgp.Keys <= n.routes.Keys && Placed(n, w, bd) && LinksFit(n, w, ld)
      modifies this`w, this`calls
      ensures calls >= old(calls)
      ensures w == Exec(o, done) && SafeRun(n, o, done)
      ensures NoRefresh(o, before) && (forall p <- bd.changed :: SameHosts(p)) ==> NoRefresh(o, done)
      ensures if ok then Failures() == old(Failures()) else Failures() > old(Failures())
      ensures ok ==> Ready(n, w) && w.bgp == old(w).bgp
      ensures ok ==> w.ipvs.Keys - n.services.Keys == Services(bd.deleted) && w.Links() - n.links == LinkSet(ld.deleted)
      ensures forall c <- done :: c in before || c.AddLink? || c.AddReal? || c.UpdateReal? || c.DelReal?
    {
      LinksUp(n, w, ld);
      ok, done := Phase(n, o, before, AddLinkCalls(ld.added));
      if ok {
        ghost var w1 := w;
        var cs;
        ok, cs := UpdateBalancers(n, bd.changed);
        RunAppend(n, o, done, cs);
        NoRefreshAppend(o, done, cs);
        done := done + cs;
        if ok {
          AfterUpdating(n, w1, w, bd);
        }
      }
    }

    /** New balancers in: the only phase the kernel itself can refuse. */
    method AddBalancers(ghost n: Desired, bd: Diff<BalancerState>) returns (ok: bool, done: seq<Call>)
      requires w.bgp.Keys <= n.routes.Keys && ServicesFit(n, w, bd)
      modifies this`w, this`calls
      ensures calls >= old(calls)
      ensures w == Exec(old(w), done) && OrderlyRun(n, old(w), done) && NoRefresh(old(w), done)
      ensures Addable(old(w), bd.added) ==> SafeRun(n, old(w), done)
      ensures ok ==> w == Exec(old(w), AddBalancerCalls(bd.added)) && Addable(old(w), bd.added) && Failures() == old(Failures())
      ensures !ok ==> Failures() > old(Failures()) || !Addable(old(w), bd.added)
      ensures !ok && Failures() == old(Failures()) && ClashFree(old(w).ipvs.Keys, Services(bd.added)) ==> Stuck(old(w), bd.added, w)
      ensures Failures() >= old(Failures())
      ensures forall c <- done :: c.AddService? || c.AddReal?
    {
      var cs := AddBalancerCalls(bd.added);
      AddBalancersLegal(w, bd.added);
      ok, done := Run(cs);
      assert done == cs[..|done|] && forall c <- done :: c in cs;
      AddedSoFar(n, old(w), bd.added, |done|);
      if !ok && Failures() == old(Failures()) {
        RefusedThere(old(w), bd.added, |done|);
      }
    }

    /** Everything after the withdrawals. */
    method Install(ghost n: Desired, bd: Diff<BalancerState>, added: seq<Route>, ld: Diff<LinkAddress>)
      returns (ok: bool, done: seq<Call>)
      requires w.bgp.Keys <= n.routes.Keys
      requires ServicesFit(n, w, bd) && RouteAdds(n, w, added) && LinksFit(n, w, ld)
      modifies this`w, this`calls
      ensures calls >= old(calls)
      ensures w == Exec(old(w), done) && OrderlyRun(n, old(w), done)
      ensures if Addable(old(w), bd.added) then SafeRun(n, old(w), done) else forall c <- done :: IsEarly(c)
      ensures (forall p <- bd.changed :: SameHosts(p)) ==> NoRefresh(old(w), done)
      ensures ok ==> Converged(n, w) && Addable(old(w), bd.added) && Failures() == old(Failures())
      ensures !ok ==> Failures() > old(Failures()) || !Addable(old(w), bd.added)
      ensures !ok && Failures() == old(Failures()) && ClashFree(old(w).ipvs.Keys, Services(bd.added)) ==> Stuck(old(w), bd.added, w)
      ensures Failures() >= old(Failures())
      ensures forall c <- done :: !c.Withdraw? && !c.Wait?
    {
      AfterAdding(n, w, bd);
      ok, done := AddBalancers(n, bd);
      if ok {
        ok, done := Refit(n, old(w), done, bd, ld);
        if ok {
          ok, done := Finish(n, old(w), done, added, bd.deleted, ld.deleted);
        }
        SafeIsOrderly(n, old(w), done);
      }
    }

    method LongestHoldOf(rs: seq<Route>) returns (ms: nat)
      ensures ms == MaxHold(rs)
    {
      ms := 0;
      for i := 0 to |rs|
        invariant ms == MaxHold(rs[..i])
      {
        assert rs[..i + 1][..i] == rs[..i];
        if rs[i].holdMs > ms {
          ms := rs[i].holdMs;
        }
      }
      assert rs[..|rs|] == rs;
    }

    /** Withdraws routes, then waits for the longest hold time among them. */
    method WithdrawRoutes(ghost n: Desired, rs: seq<Route>) returns (ok: bool, done: seq<Call>)
      requires DistinctKeys(rs, RouteKey) && KeysOf(rs, RouteKey) <= w.bgp.Keys - n.routes.Keys
      modifies this`w, this`calls
      ensures calls >= old(calls)
      ensures w == Exec(old(w), done) && SafeRun(n, old(w), done) && NoRefresh(old(w), done)
      ensures if ok then Failures() == old(Failures()) else Failures() > old(Failures())
      ensures ok ==> done == WithdrawCalls(rs) + WaitCall(MaxHold(rs))
      ensures ok ==> SameBut(old(w), w) && w.bgp.Keys == old(w).bgp.Keys - KeysOf(rs, RouteKey)
      ensures !ok ==> forall c <- done :: c.Withdraw?
    {
      WithdrawSafe(n, w, rs);
      NoUpdateNoRefresh(w, WithdrawCalls(rs));
      ok, done := RunSafe(n, WithdrawCalls(rs));
      if ok {
        var ms := LongestHoldOf(rs);
        if ms > 0 {
          RunSnoc(n, old(w), done, Wait(ms));
          NoRefreshSnoc(old(w), done, Wait(ms));
          w := Apply(w, Wait(ms));
          done := done + [Wait(ms)];
        } else {
          assert done + WaitCall(ms) == done;
        }
      }
    }

    /** Closes the gap three diffs report: withdraw and wait, then install the rest. */
    method ApplyDiffs(ghost n: Desired, bd: Diff<BalancerState>, rd: Diff<Route>, ld: Diff<LinkAddress>)
      returns (ok: bool, done: seq<Call>)
      requires ServicesFit(n, w, bd) && RoutesFit(n, w, rd) && LinksFit(n, w, ld)
      modifies this`w, this`calls
      ensures calls >= old(calls)
      ensures w == Exec(old(w), done) && OrderlyRun(n, old(w), done)
      ensures if Addable(old(w), bd.added) then SafeRun(n, old(w), done) else forall c <- done :: IsEarly(c)
      ensures (forall p <- bd.changed :: SameHosts(p)) ==> NoRefresh(old(w), done)
      ensures ok ==> Converged(n, w) && Addable(old(w), bd.added) && Failures() == old(Failures())
      ensures !ok ==> Failures() > old(Failures()) || !Addable(old(w), bd.added)
      ensures !ok && Failures() == old(Failures()) && ClashFree(old(w).ipvs.Keys, Services(bd.added)) ==> Stuck(old(w), bd.added, w)
      ensures Failures() >= old(Failures())
      ensures Addable(old(w), bd.added) && LongestHold(n, old(w), MaxHold(rd.deleted)) ==> DrainShape(n, old(w), done)
      ensures rd.deleted == [] ==> forall c <- done :: !c.Wait?
    {
      ok, done := WithdrawRoutes(n, rd.deleted);
      SafeIsOrderly(n, old(w), done);
      if ok {
        assert ServicesFit(n, w, bd) && LinksFit(n, w, ld) && Addable(w, bd.added) == Addable(old(w), bd.added);
        ghost var mid := w;
        var rest;
        ok, rest := Install(n, bd, rd.added, ld);
        StuckSince(old(w), mid, bd.added, w);
        AppendInstall(n, old(w), rd.deleted, rest, Addable(old(w), bd.added));
        done := done + rest;
      }
    }

    method GetState() returns (ok: bool, st: DataPlaneState)
      modifies this`calls
      ensures calls >= old(calls)
      ensures if ok then Failures() == old(Failures()) else Failures() > old(Failures())
      ensures ok ==> ListsServices(st.balancers, w.ipvs.Keys) && ListsRoutes(st.routes, w.bgp.Keys)
      ensures ok ==> DistinctKeys(st.links, LinkKey) && LinkSet(st.links) == w.Links()
    {
      st := DataPlaneState([], [], []);
      var bs;
      ok, bs := GetBalancers();
      if ok {
        var rs;
        ok, rs := ListRoutes();
        if ok {
          var ls;
          ok, ls := ListLinks();
          st := DataPlaneState(bs, rs, ls);
        }
      }
    }

    /** Brings the modules to the desired state. Whatever fails, no call widens the gap and
        the promised order holds throughout; it succeeds only when converged, and without a
        module failure exactly when the kernel can take the new services. If it can, every
        call is safe. If it cannot, only withdrawals and additions were made, and unless two
        services clash one service fewer stands in the way of the next attempt. From a
        converged state with consistent hostnames no call is made at all. */
    method SetState(st: DataPlaneState) returns (ok: bool, done: seq<Call>)
      modifies this
      ensures shutdownOnce == old(shutdownOnce) && calls >= old(calls)
      ensures shutdownOnce ==> !ok && done == []
      ensures w == Exec(old(w), done) && OrderlyRun(View(st), old(w), done)
      ensures Gap(View(st), w) <= Gap(View(st), old(w)) && Ordered(View(st), old(w), w)
      ensures if Applicable(old(w), st) then SafeRun(View(st), old(w), done) else forall c <- done :: IsEarly(c)
      ensures ok ==> Converged(View(st), w)
      ensures !shutdownOnce ==> (ok <==> Applicable(old(w), st) && AllWell(outcomes, old(calls), calls))
      ensures !shutdownOnce && !ok && AllWell(outcomes, old(calls), calls) && NoClash(View(st), old(w)) ==> OneFewer(st, old(w), w)
      ensures HostsConsistent(st.balancers) ==> NoRefresh(old(w), done)
      ensures HostsConsistent(st.balancers) && Converged(View(st), old(w)) ==> done == []
      ensures Applicable(old(w), st) && ValidWorld(old(w)) ==> DrainShape(View(st), old(w), done)
    {
      done := [];
      if shutdownOnce {
        return false, [];
      }
      UpdateCache(st.balancers);
      var cur;
      ok, cur := GetState();
      if ok {
        ok, done := Converge(st, cur, old(hosts));
        OrderlyRunKeeps(View(st), old(w), done);
      }
      NoneFailedIffAllWell(outcomes, old(calls), calls);
    }

    /** Applies a state over and over until an attempt succeeds, as the control plane does on
        every tick. If the kernel can take the new services, all attempts together are one
        safe run that makes as many mutating calls as the gap has items, and no more. A real
        listed twice costs one attempt per service; a clash is never resolved; and each
        attempt beyond those needs a module failure to fail. */
    method Reapply(st: DataPlaneState, attempts: nat) returns (ok: bool, done: seq<Call>)
      modifies this
      ensures shutdownOnce == old(shutdownOnce) && calls >= old(calls)
      ensures w == Exec(old(w), done) && OrderlyRun(View(st), old(w), done)
      ensures Gap(View(st), w) <= Gap(View(st), old(w)) && Ordered(View(st), old(w), w) && KeysBetween(View(st), old(w), w)
      ensures ok ==> Converged(View(st), w)
      ensures Applicable(old(w), st) ==> RetriedSafely(View(st), old(w), done)
      ensures !NoClash(View(st), old(w)) ==> !ok && !NoClash(View(st), w)
      ensures !shutdownOnce && NoClash(View(st), old(w)) ==>
              ok || attempts <= |Doubled(st, old(w))| + (Failures() - old(Failures()))
      ensures !shutdownOnce && AllWell(outcomes, old(calls), calls) ==>
              (ok <==> NoClash(View(st), old(w)) && attempts > |Doubled(st, old(w))|)
    {
      ok, done := false, [];
      ghost var n, runs := View(st), [];
      var i := 0;
      while i < attempts && !ok
        invariant i <= attempts && shutdownOnce == old(shutdownOnce) && Failures() >= old(Failures()) && calls >= old(calls)
        invariant w == Exec(old(w), done) && OrderlyRun(n, old(w), done) && done == Flatten(runs)
        invariant Applicable(old(w), st) ==> Retries(n, old(w), runs)
        invariant ok ==> Converged(n, w) && NoClash(n, old(w))
        invariant !ok && !shutdownOnce && NoClash(n, old(w)) ==>
                  Spent(i, |Doubled(st, old(w))|, |Doubled(st, w)|, Failures() - old(Failures()))
        invariant ok && Failures() == old(Failures()) && calls >= old(calls) ==> i == |Doubled(st, old(w))| + 1
      {
        RunKeepsClash(n, old(w), done);
        RunKeepsApplicable(st, old(w), done);
        ghost var before, from := w, calls;
        var cs;
        ok, cs := SetState(st);
        NoneFailedIffAllWell(outcomes, from, calls);
        OrderlyAppend(n, old(w), done, cs);
        ExecAppend(old(w), done, cs);
        RetriesSnoc(n, old(w), runs, cs);
        FewerDoubled(st, before, cs);
        runs := runs + [cs];
        done := done + cs;
        i := i + 1;
      }
      NoneFailedIffAllWell(outcomes, old(calls), calls);
      OrderlyRunKeeps(n, old(w), done);
      OrderlyRunStaysBetween(n, old(w), done);
      RunKeepsClash(n, old(w), done);
      if Applicable(old(w), st) {
        RetriesConverge(n, old(w), runs);
      }
    }

    /** Compares what was read with what is wanted and applies the difference, if any. */
    method Converge(st: DataPlaneState, cur: DataPlaneState, ghost was: map<IP, string>) returns (ok: bool, done: seq<Call>)
      requires ListsServices(cur.balancers, w.ipvs.Keys) && ListsRoutes(cur.routes, w.bgp.Keys)
      requires DistinctKeys(cur.links, LinkKey) && LinkSet(cur.links) == w.Links()
      requires hosts == CacheAllHosts(was, st.balancers)
      modifies this`w, this`calls
      ensures calls >= old(calls)
      ensures w == Exec(old(w), done) && OrderlyRun(View(st), old(w), done) && Failures() >= old(Failures())
      ensures if Applicable(old(w), st) then SafeRun(View(st), old(w), done) else forall c <- done :: IsEarly(c)
      ensures ok ==> Converged(View(st), w) && Failures() == old(Failures())
      ensures Failures() == old(Failures()) ==> (ok <==> Applicable(old(w), st))
      ensures Failures() == old(Failures()) && !ok && NoClash(View(st), old(w)) ==> OneFewer(st, old(w), w)
      ensures HostsConsistent(st.balancers) ==> NoRefresh(old(w), done)
      ensures HostsConsistent(st.balancers) && Converged(View(st), old(w)) ==> done == []
      ensures Applicable(old(w), st) && ValidWorld(old(w)) ==> DrainShape(View(st), old(w), done)
    {
      var bd, rd, ld := Compare(st, cur, was);
      ok, done := ApplyIfChanged(View(st), bd, rd, ld);
      StuckLeavesFewer(st, old(w), bd.added, w);
    }

    method ApplyIfChanged(ghost n: Desired, bd: Diff<BalancerState>, rd: Diff<Route>, ld: Diff<LinkAddress>)
      returns (ok: bool, done: seq<Call>)
      requires ServicesFit(n, w, bd) && RoutesFit(n, w, rd) && LinksFit(n, w, ld)
      modifies this`w, this`calls
      ensures calls >= old(calls)
      ensures w == Exec(old(w), done) && OrderlyRun(n, old(w), done) && Failures() >= old(Failures())
      ensures if Addable(old(w), bd.added) then SafeRun(n, old(w), done) else forall c <- done :: IsEarly(c)
      ensures ok ==> Converged(n, w) && Failures() == old(Failures())
      ensures Failures() == old(Failures()) ==> (ok <==> Addable(old(w), bd.added))
      ensures !ok && Failures() == old(Failures()) && ClashFree(old(w).ipvs.Keys, Services(bd.added)) ==> Stuck(old(w), bd.added, w)
      ensures (forall p <- bd.changed :: SameHosts(p)) ==> NoRefresh(old(w), done) && (Converged(n, old(w)) ==> done == [])
      ensures Addable(old(w), bd.added) && LongestHold(n, old(w), MaxHold(rd.deleted)) ==> DrainShape(n, old(w), done)
    {
      if !bd.IsChanged() && !rd.IsChanged() && !ld.IsChanged() {
        NothingChanged(n, w, bd, rd, ld);
        NothingAdded(n, w, bd, rd);
        return true, [];
      }
      ok, done := ApplyDiffs(n, bd, rd, ld);
      if Converged(n, old(w)) && forall p <- bd.changed :: SameHosts(p) {
        NothingAdded(n, old(w), bd, rd);
        ConvergedRunIsEmpty(n, old(w), done);
      }
    }

    method Compare(st: DataPlaneState, cur: DataPlaneState, ghost was: map<IP, string>)
      returns (bd: Diff<BalancerState>, rd: Diff<Route>, ld: Diff<LinkAddress>)
      requires ListsServices(cur.balancers, w.ipvs.Keys) && ListsRoutes(cur.routes, w.bgp.Keys)
      requires LinkSet(cur.links) == w.Links() && hosts == CacheAllHosts(was, st.balancers)
      ensures ServicesFit(View(st), w, bd) && RoutesFit(View(st), w, rd) && LinksFit(View(st), w, ld)
      ensures AddsMissing(st, w, bd.added)
      ensures Services(bd.added) == Missing(View(st), w) && (Applicable(w, st) <==> Addable(w, bd.added))
      ensures HostsConsistent(st.balancers) ==> forall p <- bd.changed :: SameHosts(p)
      ensures ValidWorld(w) ==> LongestHold(View(st), w, MaxHold(rd.deleted))
    {
      bd := CompareArrays(cur.balancers, st.balancers, BalancerKey, BalancerEqual);
      rd := CompareArrays(cur.routes, st.routes, RouteKey, RouteEqual);
      ld := CompareArrays(cur.links, st.links, LinkKey, LinkEqual);
      FitsAll(st, cur, was, bd, rd, ld);
    }

    lemma FitsAll(st: DataPlaneState, cur: DataPlaneState, was: map<IP, string>, bd: Diff<BalancerState>, rd: Diff<Route>, ld: Diff<LinkAddress>)
      requires ListsServices(cur.balancers, w.ipvs.Keys) && ListsRoutes(cur.routes, w.bgp.Keys)
      requires LinkSet(cur.links) == w.Links() && hosts == CacheAllHosts(was, st.balancers)
      requires IsDiff(KeyGen(cur.balancers, BalancerKey), KeyGen(st.balancers, BalancerKey), BalancerKey, BalancerEqual, bd)
      requires IsDiff(KeyGen(cur.routes, RouteKey), KeyGen(st.routes, RouteKey), RouteKey, RouteEqual, rd)
      requires IsDiff(KeyGen(cur.links, LinkKey), KeyGen(st.links, LinkKey), LinkKey, LinkEqual, ld)
      ensures ServicesFit(View(st), w, bd) && RoutesFit(View(st), w, rd) && LinksFit(View(st), w, ld)
      ensures AddsMissing(st, w, bd.added)
      ensures Services(bd.added) == Missing(View(st), w) && (Applicable(w, st) <==> Addable(w, bd.added))
      ensures HostsConsistent(st.balancers) ==> forall p <- bd.changed :: SameHosts(p)
      ensures ValidWorld(w) ==> LongestHold(View(st), w, MaxHold(rd.deleted))
    {
      assert Listed(w, cur.balancers);
      ServicesFitDiff(st, w, cur.balancers, bd);
      RoutesFitDiff(st, w, cur.routes, rd);
      LinksFitDiff(st, w, cur.links, ld);
      AddedAreMissing(st, w, cur.balancers, bd);
      ApplicableIffAddable(st, w, bd.added);
      if HostsConsistent(st.balancers) {
        CacheMatches(was, st, w, cur.balancers, bd);
      }
      if ValidWorld(w) {
        DeletedHolds(cur.routes, st.routes, rd);
        HoldsFit(View(st), w, rd.deleted);
      }
    }

    /** Takes everything down in the order of a reconciliation towards nothing, once. */
    method Shutdown() returns (ok: bool, done: seq<Call>)
      modifies this
      ensures shutdownOnce && calls >= old(calls)
      ensures old(shutdownOnce) ==> ok && done == []
      ensures w == Exec(old(w), done) && SafeRun(NOTHING, old(w), done)
      ensures !old(shutdownOnce) ==> (ok <==> AllWell(outcomes, old(calls), calls))
      ensures !old(shutdownOnce) && ok ==> Converged(NOTHING, w)
      ensures ValidWorld(old(w)) ==> DrainShape(NOTHING, old(w), done)
    {
      done := [];
      if shutdownOnce {
        return true, [];
      }
      shutdownOnce := true;
      var cur;
      ok, cur := GetState();
      if ok {
        if ValidWorld(w) {
          HoldsFit(NOTHING, w, cur.routes);
        }
        ok, done := TakeDown(cur.routes, cur.balancers, cur.links);
      }
      NoneFailedIffAllWell(outcomes, old(calls), calls);
    }

    /** Withdraws all routes and waits, then deletes all services and addresses. */
    method TakeDown(rs: seq<Route>, bs: seq<BalancerState>, links: seq<LinkAddress>) returns (ok: bool, done: seq<Call>)
      requires DistinctKeys(rs, RouteKey) && KeysOf(rs, RouteKey) == w.bgp.Keys
      requires DistinctKeys(bs, BalancerKey) && Services(bs) == w.ipvs.Keys
      requires DistinctKeys(links, LinkKey) && LinkSet(links) == w.Links()
      modifies this`w, this`calls
      ensures calls >= old(calls)
      ensures w == Exec(old(w), done) && SafeRun(NOTHING, old(w), done)
      ensures if ok then Failures() == old(Failures()) && Converged(NOTHING, w) else Failures() > old(Failures())
      ensures LongestHold(NOTHING, old(w), MaxHold(rs)) ==> DrainShape(NOTHING, old(w), done)
    {
      ok, done := WithdrawRoutes(NOTHING, rs);
      if !ok {
        return;
      }
      ghost var mid := w;
      var rest;
      ok, rest := Finish(NOTHING, w, [], [], bs, links);
      SafeIsOrderly(NOTHING, mid, rest);
      AppendInstall(NOTHING, old(w), rs, rest, true);
      done := done + rest;
    }

    lemma DeletedHolds(rs: seq<Route>, wanted: seq<Route>, d: Diff<Route>)
      requires ValidWorld(w) && ListsRoutes(rs, w.bgp.Keys)
      requires IsDiff(KeyGen(rs, RouteKey), KeyGen(wanted, RouteKey), RouteKey, RouteEqual, d)
      ensures forall r <- d.deleted :: r.id in w.bgp && r.holdMs == w.bgp[r.id]
    {
      forall r | r in d.deleted ensures r in rs {
        assert KeyGen(rs, RouteKey)[r.id] == r;
      }
    }
  }

  lemma NothingAdded(n: Desired, w: World, bd: Diff<BalancerState>, rd: Diff<Route>)
    requires Converged(n, w) && ServicesFit(n, w, bd) && RoutesFit(n, w, rd)
    ensures rd.deleted == [] && Addable(w, bd.added)
  {
    KeysEmpty(rd.deleted, RouteKey);
    KeysEmpty(bd.added, BalancerKey);
  }
}
