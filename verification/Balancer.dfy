/** A balancer turns health snapshots into a published state: weights, the alive ratio,
    the initial-state latch, the failsafe and the fwmark services for health checks. */
module Balancer {
  import opened Types
  import opened Text
  import opened FwmarkPool
  import opened SharedFwmarks

  const DEFAULT_WEIGHT_UP: nat := 1000

  /** One host of a health snapshot. */
  datatype Health = Health(host: string, port: nat, enabled: bool, healthy: bool)

  datatype Published = Published(states: seq<BalancerState>, aliveRatio: real, initialState: bool)

  function Alive(ups: seq<Upstream>): (n: nat)
    ensures n <= |ups|
    ensures n == 0 <==> forall u <- ups :: u.weight == 0
    ensures n == |ups| <==> forall u <- ups :: u.weight != 0
  {
    if ups == [] then 0
    else
      var rest := Alive(ups[..|ups| - 1]);
      if ups[|ups| - 1].weight != 0 then rest + 1 else rest
  }

  function Share(some: nat, all: nat): real
    requires some <= all
  {
    if some == 0 then 0.0 else some as real / all as real
  }

  function Ratio(ups: seq<Upstream>): real {
    Share(Alive(ups), |ups|)
  }

  /** The positions with weight. */
  ghost function WithWeight(ups: seq<Upstream>): set<nat> {
    set i: nat | i < |ups| && ups[i].weight != 0
  }

  lemma {:induction false} AliveCounts(ups: seq<Upstream>)
    ensures Alive(ups) == |WithWeight(ups)|
  {
    if ups != [] {
      var m := |ups| - 1;
      AliveCounts(ups[..m]);
      WithWeightInit(ups);
    }
  }

  lemma WithWeightInit(ups: seq<Upstream>)
    requires ups != []
    ensures var m := |ups| - 1;
            WithWeight(ups) == (if ups[m].weight != 0 then WithWeight(ups[..m]) + {m} else WithWeight(ups[..m])) && m !in WithWeight(ups[..m])
  {
    var m := |ups| - 1;
    forall i: nat ensures i in WithWeight(ups) <==> i in WithWeight(ups[..m]) || (i == m && ups[m].weight != 0) {
    }
  }

  lemma Fraction(a: real, n: real)
    requires 0.0 < a <= n
    ensures 0.0 < a / n <= 1.0
    ensures a / n == 1.0 <==> a == n
  {
    var q := a / n;
    assert q * n == a;
    assert q <= 0.0 ==> q * n <= 0.0;
    assert q > 1.0 ==> q * n > n;
  }

  lemma RatioMeaning(ups: seq<Upstream>)
    ensures 0.0 <= Ratio(ups) <= 1.0
    ensures Ratio(ups) > 0.0 <==> exists u <- ups :: u.weight != 0
    ensures Ratio(ups) == 1.0 <==> ups != [] && forall u <- ups :: u.weight != 0
  {
    if Alive(ups) > 0 {
      Fraction(Alive(ups) as real, |ups| as real);
    }
  }

  /** The ratio is the share of positions with weight. */
  lemma RatioCounts(ups: seq<Upstream>)
    ensures WithWeight(ups) != {} ==> ups != [] && Ratio(ups) == |WithWeight(ups)| as real / |ups| as real
    ensures WithWeight(ups) == {} ==> Ratio(ups) == 0.0
  {
    AliveCounts(ups);
    if ups == [] {
      assert WithWeight(ups) == {};
    }
  }

  function UpstreamFor(h: Health, ip: IP, weightUp: nat, forward: ForwardMethod): Upstream {
    Upstream(ip, h.port, h.host, if h.healthy then weightUp else 0, forward)
  }

  /** The upstreams of a snapshot: its enabled hosts, in order, resolved. One host that does
      not resolve spoils the whole list. */
  function Upstreams(hs: seq<Health>, dns: string -> Option<IP>, weightUp: nat, forward: ForwardMethod): Option<seq<Upstream>> {
    if hs == [] then Some([])
    else
      var h := hs[|hs| - 1];
      match Upstreams(hs[..|hs| - 1], dns, weightUp, forward)
      case None => None
      case Some(ups) =>
        if !h.enabled then Some(ups)
        else match dns(h.host)
          case None => None
          case Some(ip) => Some(ups + [UpstreamFor(h, ip, weightUp, forward)])
  }

  lemma {:induction false} UpstreamsPrefix(hs: seq<Health>, k: nat, dns: string -> Option<IP>, weightUp: nat, forward: ForwardMethod)
    requires k <= |hs| && Upstreams(hs[..k], dns, weightUp, forward).None?
    ensures Upstreams(hs, dns, weightUp, forward).None?
    decreases |hs|
  {
    if k < |hs| {
      assert hs[..|hs| - 1][..k] == hs[..k];
      UpstreamsPrefix(hs[..|hs| - 1], k, dns, weightUp, forward);
    } else {
      assert hs[..k] == hs;
    }
  }

  // ----- What a snapshot asks for --------------------------------------------------------

  function EnabledHosts(hs: seq<Health>): (r: seq<Health>)
    ensures forall h :: h in r <==> h in hs && h.enabled
  {
    if hs == [] then []
    else
      var rest, h := EnabledHosts(hs[..|hs| - 1]), hs[|hs| - 1];
      assert hs == hs[..|hs| - 1] + [h];
      if h.enabled then rest + [h] else rest
  }

  ghost predicate AllResolve(hs: seq<Health>, dns: string -> Option<IP>) {
    forall h <- hs :: h.enabled ==> dns(h.host).Some?
  }

  ghost predicate AnyHealthy(hs: seq<Health>) {
    exists h <- hs :: h.enabled && h.healthy
  }

  /** u is the host h where it resolves to. */
  ghost predicate Reaches(u: Upstream, h: Health, dns: string -> Option<IP>, forward: ForwardMethod) {
    u.hostname == h.host && u.port == h.port && dns(h.host) == Some(u.address) && u.forward == forward
  }

  /** ups are the enabled hosts, in order, where they resolve to; one has the weight
      weightUp if it is healthy, or if rescued, and none otherwise. */
  ghost predicate ServesHosts(ups: seq<Upstream>, hs: seq<Health>, dns: string -> Option<IP>, weightUp: nat, forward: ForwardMethod, rescued: bool) {
    && |ups| == |EnabledHosts(hs)|
    && forall i :: 0 <= i < |ups| ==>
         && Reaches(ups[i], EnabledHosts(hs)[i], dns, forward)
         && ups[i].weight == if EnabledHosts(hs)[i].healthy || rescued then weightUp else 0
  }

  /** A snapshot resolves exactly if every enabled host does, and then its upstreams serve
      those hosts, with weight exactly where they are healthy. */
  lemma {:induction false} UpstreamsMeaning(hs: seq<Health>, dns: string -> Option<IP>, weightUp: nat, forward: ForwardMethod)
    ensures var r := Upstreams(hs, dns, weightUp, forward);
            (r.Some? <==> AllResolve(hs, dns)) && (r.Some? ==> ServesHosts(r.value, hs, dns, weightUp, forward, false))
  {
    if hs != [] {
      var ini, h := hs[..|hs| - 1], hs[|hs| - 1];
      assert hs == ini + [h] && forall x :: x in hs <==> x in ini || x == h;
      UpstreamsMeaning(ini, dns, weightUp, forward);
    }
  }

  /** With a weight to give, something is alive exactly if an enabled host is healthy. */
  lemma AliveIffHealthy(ups: seq<Upstream>, hs: seq<Health>, dns: string -> Option<IP>, weightUp: nat, forward: ForwardMethod)
    requires weightUp != 0 && ServesHosts(ups, hs, dns, weightUp, forward, false)
    ensures (exists u <- ups :: u.weight != 0) <==> AnyHealthy(hs)
    ensures Ratio(ups) > 0.0 <==> AnyHealthy(hs)
  {
    RatioMeaning(ups);
    var es := EnabledHosts(hs);
    if h :| h in hs && h.enabled && h.healthy {
      var i :| 0 <= i < |es| && es[i] == h;
      assert ups[i] in ups && ups[i].weight == weightUp;
    }
    if u :| u in ups && u.weight != 0 {
      var i :| 0 <= i < |ups| && ups[i] == u;
      assert es[i] in es && es[i].healthy;
    }
  }

  /** Putting everything up when nothing is healthy rescues the hosts. */
  lemma RescueServes(ups: seq<Upstream>, hs: seq<Health>, dns: string -> Option<IP>, weightUp: nat, forward: ForwardMethod, wasInitial: bool)
    requires weightUp != 0 && ServesHosts(ups, hs, dns, weightUp, forward, false)
    ensures ServesHosts(if Failsafe(wasInitial, ups) then AllUp(ups, weightUp) else ups, hs, dns, weightUp, forward,
                        !wasInitial && !AnyHealthy(hs))
  {
    AliveIffHealthy(ups, hs, dns, weightUp, forward);
    RatioMeaning(ups);
    if AnyHealthy(hs) || wasInitial {
      assert !Failsafe(wasInitial, ups);
    } else if ups != [] {
      assert Failsafe(wasInitial, ups);
    }
  }

  function AllUp(ups: seq<Upstream>, weightUp: nat): (r: seq<Upstream>)
    ensures |r| == |ups| && forall i :: 0 <= i < |r| ==> r[i] == ups[i].(weight := weightUp)
  {
    seq(|ups|, i requires 0 <= i < |ups| => ups[i].(weight := weightUp))
  }

  function Addresses(ups: seq<Upstream>): (r: seq<IP>)
    ensures |r| == |ups| && forall i :: 0 <= i < |r| ==> r[i] == ups[i].address
  {
    seq(|ups|, i requires 0 <= i < |ups| => ups[i].address)
  }

  /** The service that health-checks one upstream through its mark; always weighted up. */
  function FwmarkService(mark: nat, u: Upstream, weightUp: nat): BalancerState {
    BalancerState(
      "fwmark" + Decimal(mark),
      Service(Fwmark(FamilyOf(u.address), mark), RR, []),
      [Upstream(u.address, 0, u.hostname, weightUp, u.forward)])
  }

  /** b checks the upstream u through mark: one real, without a port, with weight. */
  ghost predicate ChecksThrough(b: BalancerState, mark: nat, u: Upstream, weightUp: nat) {
    && b.service.attributes.Fwmark? && b.service.attributes.mark == mark
    && (b.service.attributes.family == Inet6 <==> u.address.V6?)
    && b.service.scheduler == RR && b.service.flags == []
    && b.name == "fwmark" + Decimal(mark)
    && |b.upstreams| == 1
    && b.upstreams[0].address == u.address && b.upstreams[0].hostname == u.hostname
    && b.upstreams[0].forward == u.forward && b.upstreams[0].port == 0 && b.upstreams[0].weight == weightUp
  }

  /** The upstreams that have a mark. */
  function Marked(used: map<IP, Lease>, ups: seq<Upstream>): (r: seq<Upstream>)
    ensures (forall u <- ups :: u.address in used) ==> r == ups
    ensures forall u :: u in r <==> u in ups && u.address in used
  {
    if ups == [] then []
    else
      var rest, u := Marked(used, ups[..|ups| - 1]), ups[|ups| - 1];
      assert ups == ups[..|ups| - 1] + [u];
      if u.address in used then rest + [u] else rest
  }

  /** bs are the services that check the upstreams with a mark, in order, each through the
      mark its address has. */
  ghost predicate ChecksMarked(bs: seq<BalancerState>, used: map<IP, Lease>, ups: seq<Upstream>, weightUp: nat) {
    && |bs| == |Marked(used, ups)|
    && forall i :: 0 <= i < |bs| ==> ChecksThrough(bs[i], used[Marked(used, ups)[i].address].mark, Marked(used, ups)[i], weightUp)
  }

  /** Fwmark services of the upstreams that have a mark. */
  function FwmarkServices(used: map<IP, Lease>, ups: seq<Upstream>, weightUp: nat): seq<BalancerState> {
    if ups == [] then []
    else
      var u, rest := ups[|ups| - 1], FwmarkServices(used, ups[..|ups| - 1], weightUp);
      if u.address in used then rest + [FwmarkService(used[u.address].mark, u, weightUp)] else rest
  }

  lemma {:induction false} ServicesCheckMarked(used: map<IP, Lease>, ups: seq<Upstream>, weightUp: nat)
    ensures ChecksMarked(FwmarkServices(used, ups, weightUp), used, ups, weightUp)
  {
    if ups != [] {
      ServicesCheckMarked(used, ups[..|ups| - 1], weightUp);
    }
  }

  /** Everything is down although something was once alive. */
  ghost predicate Failsafe(wasInitial: bool, ups: seq<Upstream>) {
    !wasInitial && Ratio(ups) == 0.0 && ups != []
  }

  // ----- The latch and the failsafe over whole runs -------------------------------------

  /** One update: the resolved upstreams, if all hosts resolved, and the weight in force. */
  datatype Round = Round(ups: Option<seq<Upstream>>, weightUp: nat)

  /** The latch and the upstreams published last, if any were. */
  datatype Shown = Shown(initial: bool, ups: Option<seq<Upstream>>)

  ghost function Feed(s: Shown, r: Round): Shown {
    match r.ups
    case None => s
    case Some(ups) =>
      Shown(s.initial && Ratio(ups) == 0.0, Some(if Failsafe(s.initial, ups) then AllUp(ups, r.weightUp) else ups))
  }

  ghost function Life(rs: seq<Round>): Shown {
    if rs == [] then Shown(true, None) else Feed(Life(rs[..|rs| - 1]), rs[|rs| - 1])
  }

  /** Some update before the k-th was published and had an upstream alive. */
  ghost predicate EverAlive(rs: seq<Round>, k: nat)
    requires k <= |rs|
  {
    exists j :: 0 <= j < k && rs[j].ups.Some? && exists u <- rs[j].ups.value :: u.weight != 0
  }

  ghost predicate LastPublished(rs: seq<Round>, k: nat) {
    k < |rs| && rs[k].ups.Some? && forall j :: k < j < |rs| ==> rs[j].ups.None?
  }

  /** What the k-th update must show: its own weights, unless nothing is alive in it and
      something was before. */
  ghost function Expected(rs: seq<Round>, k: nat): seq<Upstream>
    requires k < |rs| && rs[k].ups.Some?
  {
    var ups := rs[k].ups.value;
    if (forall u <- ups :: u.weight == 0) && EverAlive(rs, k) then AllUp(ups, rs[k].weightUp) else ups
  }

  lemma EverAliveStep(rs: seq<Round>)
    requires rs != []
    ensures var m := |rs| - 1;
            && (EverAlive(rs[..m], m) <==> EverAlive(rs, m))
            && (EverAlive(rs, m + 1) <==> EverAlive(rs, m) || (rs[m].ups.Some? && Ratio(rs[m].ups.value) > 0.0))
  {
    var m := |rs| - 1;
    assert forall j :: 0 <= j < m ==> rs[..m][j] == rs[j];
    if rs[m].ups.Some? {
      RatioMeaning(rs[m].ups.value);
    }
  }

  lemma ExpectedPrefix(rs: seq<Round>, m: nat, k: nat)
    requires k < m <= |rs| && rs[k].ups.Some?
    ensures Expected(rs[..m], k) == Expected(rs, k)
  {
    assert forall j :: 0 <= j < m ==> rs[..m][j] == rs[j];
    assert EverAlive(rs[..m], k) <==> EverAlive(rs, k);
  }

  lemma FeedShows(rs: seq<Round>)
    requires rs != [] && rs[|rs| - 1].ups.Some?
    requires Life(rs[..|rs| - 1]).initial <==> !EverAlive(rs, |rs| - 1)
    ensures Life(rs).ups == Some(Expected(rs, |rs| - 1))
  {
    var m := |rs| - 1;
    var ups := rs[m].ups.value;
    RatioMeaning(ups);
    if ups == [] {
      assert AllUp(ups, rs[m].weightUp) == ups;
    }
  }

  lemma {:induction false} LatchIsEverAlive(rs: seq<Round>)
    ensures Life(rs).initial <==> !EverAlive(rs, |rs|)
    ensures Life(rs).ups.None? <==> forall r <- rs :: r.ups.None?
  {
    if rs != [] {
      var m := |rs| - 1;
      LatchIsEverAlive(rs[..m]);
      EverAliveStep(rs);
      assert rs == rs[..m] + [rs[m]] && rs[m] in rs;
      if rs[m].ups.Some? {
        RatioMeaning(rs[m].ups.value);
      }
    }
  }

  lemma {:induction false} LastIsShown(rs: seq<Round>, k: nat)
    requires LastPublished(rs, k)
    ensures Life(rs).ups == Some(Expected(rs, k))
  {
    var m := |rs| - 1;
    if k == m {
      LatchIsEverAlive(rs[..m]);
      EverAliveStep(rs);
      FeedShows(rs);
    } else {
      assert LastPublished(rs[..m], k);
      LastIsShown(rs[..m], k);
      ExpectedPrefix(rs, m, k);
    }
  }

  /** After any sequence of updates, with any failures to resolve and any changes of weight:
      the latch is open exactly if something was ever alive, nothing is published exactly if
      nothing ever resolved, and what is published is the last update that did, with all
      upstreams up exactly when none is alive in it and one was before. */
  lemma LifeMeetsTrace(rs: seq<Round>)
    ensures Life(rs).initial <==> !EverAlive(rs, |rs|)
    ensures Life(rs).ups.None? <==> forall r <- rs :: r.ups.None?
    ensures forall k: nat :: LastPublished(rs, k) ==> Life(rs).ups == Some(Expected(rs, k))
  {
    LatchIsEverAlive(rs);
    forall k: nat | LastPublished(rs, k) ensures Life(rs).ups == Some(Expected(rs, k)) {
      LastIsShown(rs, k);
    }
  }

  /** One update as it comes in: a health snapshot, what its hosts resolve to and the weight
      in force. */
  datatype Snapshot = Snapshot(hs: seq<Health>, dns: string -> Option<IP>, weightUp: nat)

  ghost function RoundsOf(ss: seq<Snapshot>, forward: ForwardMethod): (rs: seq<Round>)
    ensures |rs| == |ss|
    ensures forall i :: 0 <= i < |rs| ==> rs[i] == Round(Upstreams(ss[i].hs, ss[i].dns, ss[i].weightUp, forward), ss[i].weightUp)
  {
    seq(|ss|, i requires 0 <= i < |ss| => Round(Upstreams(ss[i].hs, ss[i].dns, ss[i].weightUp, forward), ss[i].weightUp))
  }

  /** Some snapshot before the k-th resolved and had an enabled host healthy. */
  ghost predicate EverHealthy(ss: seq<Snapshot>, k: nat)
    requires k <= |ss|
  {
    exists j :: 0 <= j < k && AllResolve(ss[j].hs, ss[j].dns) && AnyHealthy(ss[j].hs)
  }

  ghost predicate LastResolved(ss: seq<Snapshot>, k: nat) {
    k < |ss| && AllResolve(ss[k].hs, ss[k].dns) && forall j :: k < j < |ss| ==> !AllResolve(ss[j].hs, ss[j].dns)
  }

  lemma RoundMeaning(s: Snapshot, forward: ForwardMethod)
    requires s.weightUp != 0
    ensures var ups := Upstreams(s.hs, s.dns, s.weightUp, forward);
            && (ups.Some? <==> AllResolve(s.hs, s.dns))
            && (ups.Some? ==> ServesHosts(ups.value, s.hs, s.dns, s.weightUp, forward, false))
            && (ups.Some? ==> ((exists u <- ups.value :: u.weight != 0) <==> AnyHealthy(s.hs)))
  {
    UpstreamsMeaning(s.hs, s.dns, s.weightUp, forward);
    if AllResolve(s.hs, s.dns) {
      AliveIffHealthy(Upstreams(s.hs, s.dns, s.weightUp, forward).value, s.hs, s.dns, s.weightUp, forward);
    }
  }

  lemma EverHealthyIsAlive(ss: seq<Snapshot>, forward: ForwardMethod, k: nat)
    requires k <= |ss| && forall s <- ss :: s.weightUp != 0
    ensures EverAlive(RoundsOf(ss, forward), k) <==> EverHealthy(ss, k)
  {
    var rs := RoundsOf(ss, forward);
    forall j | 0 <= j < k
      ensures rs[j].ups.Some? <==> AllResolve(ss[j].hs, ss[j].dns)
      ensures rs[j].ups.Some? ==> ((exists u <- rs[j].ups.value :: u.weight != 0) <==> AnyHealthy(ss[j].hs))
    {
      RoundMeaning(ss[j], forward);
    }
  }

  /** Over any sequence of snapshots: the latch is open exactly if an enabled host was ever
      healthy in one that resolved, and what is published serves the hosts of the last one
      that did, all up exactly when none of them is healthy and one was before. */
  lemma LifeOfHosts(ss: seq<Snapshot>, forward: ForwardMethod)
    requires forall s <- ss :: s.weightUp != 0
    ensures Life(RoundsOf(ss, forward)).initial <==> !EverHealthy(ss, |ss|)
    ensures forall k: nat :: LastResolved(ss, k) ==>
              var ups := Life(RoundsOf(ss, forward)).ups;
              ups.Some? && ServesHosts(ups.value, ss[k].hs, ss[k].dns, ss[k].weightUp, forward,
                                       !AnyHealthy(ss[k].hs) && EverHealthy(ss, k))
  {
    var rs := RoundsOf(ss, forward);
    LifeMeetsTrace(rs);
    EverHealthyIsAlive(ss, forward, |ss|);
    forall k: nat | LastResolved(ss, k)
      ensures LastPublished(rs, k) && ServesHosts(Expected(rs, k), ss[k].hs, ss[k].dns, ss[k].weightUp, forward,
                                                  !AnyHealthy(ss[k].hs) && EverHealthy(ss, k))
    {
      forall j | 0 <= j < |ss| ensures rs[j].ups.Some? <==> AllResolve(ss[j].hs, ss[j].dns) {
        RoundMeaning(ss[j], forward);
      }
      RoundMeaning(ss[k], forward);
      EverHealthyIsAlive(ss, forward, k);
    }
  }

  // ----- Marks --------------------------------------------------------------------------

  /** The fwmark services of a balancer check its upstreams, one each, through the marks it
      read for them; and in a pool that lost no mark, different addresses through different
      marks. */
  lemma ChecksAreServices(pool: Pool, ups: seq<Upstream>, checks: seq<Check>, weightUp: nat, marks: set<nat>)
    requires Checks(pool, Addresses(ups), checks) && Conserves(pool, marks)
    ensures var r := FwmarkServices(pool.used, ups, weightUp);
            && |r| == |ups| == |checks|
            && (forall i :: 0 <= i < |r| ==> ChecksThrough(r[i], checks[i].mark, ups[i], weightUp))
            && (forall i, j :: 0 <= i < |r| && 0 <= j < |r| && ups[i].address != ups[j].address ==>
                  r[i].service.attributes.mark != r[j].service.attributes.mark)
  {
    ChecksMarks(pool, ups, checks);
    ServicesCheckMarked(pool.used, ups, weightUp);
    var r := FwmarkServices(pool.used, ups, weightUp);
    forall i | 0 <= i < |r| ensures ChecksThrough(r[i], checks[i].mark, ups[i], weightUp) {
      assert Marked(pool.used, ups)[i] == ups[i];
    }
  }

  /** Every upstream has a mark, the one read for it. */
  lemma ChecksMarks(pool: Pool, ups: seq<Upstream>, checks: seq<Check>)
    requires Checks(pool, Addresses(ups), checks)
    ensures |checks| == |ups| && Marked(pool.used, ups) == ups
    ensures forall i :: 0 <= i < |ups| ==> ups[i].address in pool.used && pool.used[ups[i].address].mark == checks[i].mark
  {
    forall i: nat | i < |ups|
      ensures ups[i].address in pool.used && pool.used[ups[i].address].mark == checks[i].mark
    {
      ChecksMark(pool, ups, checks, i);
    }
    assert forall u <- ups :: u.address in pool.used;
  }

  lemma ChecksMark(pool: Pool, ups: seq<Upstream>, checks: seq<Check>, i: nat)
    requires Checks(pool, Addresses(ups), checks) && i < |ups|
    ensures ups[i].address in pool.used && pool.used[ups[i].address].mark == checks[i].mark
  {
    assert Addresses(ups)[i] == ups[i].address;
  }

  lemma OpsSnoc(xs: seq<IP>, a: IP, ys: seq<IP>)
    ensures Missing(xs + [a], ys) == if a in ys then Missing(xs, ys) else Missing(xs, ys) + [a]
    ensures a !in ys ==> Allocates(Missing(xs + [a], ys)) == Allocates(Missing(xs, ys)) + [Allocate(a)]
    ensures a !in ys ==> Releases(Missing(xs + [a], ys)) == Releases(Missing(xs, ys)) + [Release(a)]
  {
    assert (xs + [a])[..|xs|] == xs;
  }

  /** What every published state promises, whatever the history. */
  ghost predicate Sound(p: Published) {
    if p.states == [] then p.initialState && p.aliveRatio == 0.0
    else
      var ups := p.states[0].upstreams;
      && p.aliveRatio == Ratio(ups)
      && (p.initialState ==> forall u <- ups :: u.weight == 0)
      && (!p.initialState && ups != [] ==> exists u <- ups :: u.weight != 0)
  }

  class Balancer {
    const name: string
    const service: Service
    const forward: ForwardMethod
    const fwmarks: FwmarkPool.Manager
    const enableFwmarks: bool
    var weightUp: nat
    var initialState: bool
    var state: Published

    ghost predicate Valid()
      reads this
    {
      weightUp != 0 && Sound(state) && state.initialState == initialState
    }

    constructor (name: string, service: Service, forward: ForwardMethod, weight: nat, enableFwmarks: bool, fwmarks: FwmarkPool.Manager)
      ensures Valid() && initialState && state.states == []
      ensures this.name == name && this.service == service && this.forward == forward
      ensures this.enableFwmarks == enableFwmarks && this.fwmarks == fwmarks
      ensures weightUp == if weight == 0 then 1000 else weight
    {
      this.name, this.service, this.forward, this.enableFwmarks, this.fwmarks := name, service, forward, enableFwmarks, fwmarks;
      weightUp := if weight == 0 then DEFAULT_WEIGHT_UP else weight;
      initialState := true;
      state := Published([], 0.0, true);
    }

    /** The weight of healthy upstreams out of a new configuration; a regeneration is asked
        for exactly when it differs. */
    method UpdateWeight(weight: nat) returns (wake: bool)
      requires Valid()
      modifies this`weightUp
      ensures Valid() && weightUp == (if weight == 0 then 1000 else weight)
      ensures wake <==> weightUp != old(weightUp)
    {
      var w := if weight == 0 then DEFAULT_WEIGHT_UP else weight;
      wake := weightUp != w;
      weightUp := w;
    }

    ghost function Now(): Shown
      reads this
    {
      Shown(initialState, if state.states == [] then None else Some(state.states[0].upstreams))
    }

    /** The addresses the published main service has marks for. */
    function PublishedAddresses(): seq<IP>
      reads this
    {
      if state.states == [] then [] else Addresses(state.states[0].upstreams)
    }

    method Resolve(hs: seq<Health>, dns: string -> Option<IP>) returns (r: Option<seq<Upstream>>)
      ensures r == Upstreams(hs, dns, weightUp, forward)
    {
      var ups: seq<Upstream> := [];
      for i := 0 to |hs|
        invariant Upstreams(hs[..i], dns, weightUp, forward) == Some(ups)
      {
        assert hs[..i + 1][..i] == hs[..i];
        if hs[i].enabled {
          match dns(hs[i].host) {
            case None =>
              UpstreamsPrefix(hs, i + 1, dns, weightUp, forward);
              return None;
            case Some(ip) =>
              ups := ups + [UpstreamFor(hs[i], ip, weightUp, forward)];
          }
        }
      }
      assert hs[..|hs|] == hs;
      r := Some(ups);
    }

    method CountAlive(ups: seq<Upstream>) returns (alive: nat)
      ensures alive == Alive(ups)
    {
      alive := 0;
      for i := 0 to |ups|
        invariant alive == Alive(ups[..i])
      {
        assert ups[..i + 1][..i] == ups[..i];
        if ups[i].weight != 0 {
          alive := alive + 1;
        }
      }
      assert ups[..|ups|] == ups;
    }

    method AliveUpstreamsRatio(ups: seq<Upstream>) returns (r: real)
      ensures r == Ratio(ups)
    {
      var alive := CountAlive(ups);
      r := Share(alive, |ups|);
    }

    method AllocateNew(older: seq<IP>, next: seq<IP>)
      modifies fwmarks
      ensures fwmarks.Value() == Run(old(fwmarks.Value()), Allocates(Missing(next, older)))
    {
      for i := 0 to |next|
        invariant fwmarks.Value() == Run(old(fwmarks.Value()), Allocates(Missing(next[..i], older)))
      {
        assert next[..i + 1] == next[..i] + [next[i]];
        OpsSnoc(next[..i], next[i], older);
        if next[i] !in older {
          RunSnoc(old(fwmarks.Value()), Allocates(Missing(next[..i], older)), Allocate(next[i]));
          var _ := fwmarks.AllocateFwmark(next[i]);
        }
      }
      assert next[..|next|] == next;
    }

    method ReleaseGone(older: seq<IP>, next: seq<IP>)
      modifies fwmarks
      ensures fwmarks.Value() == Run(old(fwmarks.Value()), Releases(Missing(older, next)))
    {
      for i := 0 to |older|
        invariant fwmarks.Value() == Run(old(fwmarks.Value()), Releases(Missing(older[..i], next)))
      {
        assert older[..i + 1] == older[..i] + [older[i]];
        OpsSnoc(older[..i], older[i], next);
        if older[i] !in next {
          RunSnoc(old(fwmarks.Value()), Releases(Missing(older[..i], next)), Release(older[i]));
          var _ := fwmarks.ReleaseFwmark(older[i]);
        }
      }
      assert older[..|older|] == older;
    }

    /** Allocates marks for addresses that are new and releases those of addresses gone. */
    method ManageFwmarkAllocations(next: seq<IP>)
      modifies fwmarks
      ensures fwmarks.Value() == Run(old(fwmarks.Value()), Ops(PublishedAddresses(), next))
    {
      var older := PublishedAddresses();
      AllocateNew(older, next);
      ReleaseGone(older, next);
      RunAppend(old(fwmarks.Value()), Allocates(Missing(next, older)), Releases(Missing(older, next)));
    }

    method GenerateFwmarkServices(ups: seq<Upstream>) returns (r: seq<BalancerState>)
      ensures ChecksMarked(r, fwmarks.used, ups, weightUp)
    {
      r := [];
      for i := 0 to |ups|
        invariant r == FwmarkServices(fwmarks.used, ups[..i], weightUp)
      {
        assert ups[..i + 1][..i] == ups[..i];
        var mark := fwmarks.GetAllocatedFwmark(ups[i].address);
        if mark.Some? {
          r := r + [FwmarkService(mark.value, ups[i], weightUp)];
        }
      }
      assert ups[..|ups|] == ups;
      ServicesCheckMarked(fwmarks.used, ups, weightUp);
    }

    /** Leaves the initial state once anything is alive, and puts everything up when, past
        that, nothing is. */
    method Weigh(ups: seq<Upstream>) returns (r: seq<Upstream>, ratio: real)
      requires weightUp != 0
      modifies this`initialState
      ensures initialState <==> old(initialState) && Ratio(ups) == 0.0
      ensures r == if Failsafe(old(initialState), ups) then AllUp(ups, weightUp) else ups
      ensures ratio == Ratio(r) && Addresses(r) == Addresses(ups)
      ensures Failsafe(old(initialState), ups) ==> ratio == 1.0
      ensures initialState ==> forall u <- r :: u.weight == 0
      ensures !initialState && r != [] ==> exists u <- r :: u.weight != 0
    {
      r := ups;
      ratio := AliveUpstreamsRatio(ups);
      RatioMeaning(ups);
      if initialState && ratio > 0.0 {
        initialState := false;
      }
      if !initialState && ratio == 0.0 && |ups| > 0 {
        r := AllUp(ups, weightUp);
        ratio := AliveUpstreamsRatio(r);
        RatioMeaning(r);
        assert r[0] in r;
      }
    }

    /** The main service of the published state serves the hosts of a snapshot, and the other
        services check its upstreams. */
    ghost predicate Publishes(hs: seq<Health>, dns: string -> Option<IP>, rescued: bool)
      reads this, fwmarks
    {
      && state.states != [] && state.states[0].name == name && state.states[0].service == service
      && ServesHosts(state.states[0].upstreams, hs, dns, weightUp, forward, rescued)
      && if enableFwmarks then ChecksMarked(state.states[1..], fwmarks.used, state.states[0].upstreams, weightUp)
         else state.states[1..] == []
    }

    /** The upstreams of a snapshot, weighed. */
    method Evaluate(hs: seq<Health>, dns: string -> Option<IP>) returns (r: Option<seq<Upstream>>, ratio: real)
      requires weightUp != 0
      modifies this`initialState
      ensures r.Some? <==> AllResolve(hs, dns)
      ensures initialState <==> old(initialState) && !(r.Some? && AnyHealthy(hs))
      ensures Feed(Shown(old(initialState), None), Round(Upstreams(hs, dns, weightUp, forward), weightUp)) ==
              Shown(initialState, r)
      ensures r.Some? ==>
                && ServesHosts(r.value, hs, dns, weightUp, forward, !old(initialState) && !AnyHealthy(hs))
                && ratio == Ratio(r.value)
                && (initialState ==> forall u <- r.value :: u.weight == 0)
                && (!initialState && r.value != [] ==> exists u <- r.value :: u.weight != 0)
    {
      UpstreamsMeaning(hs, dns, weightUp, forward);
      r := Resolve(hs, dns);
      if r.None? {
        return None, 0.0;
      }
      ghost var resolved := r.value;
      AliveIffHealthy(resolved, hs, dns, weightUp, forward);
      RescueServes(resolved, hs, dns, weightUp, forward, initialState);
      RatioMeaning(resolved);
      var ups;
      ups, ratio := Weigh(r.value);
      r := Some(ups);
    }

    /** Publishes the state of a snapshot, unless an enabled host does not resolve. Every
        upstream has weight exactly if its host is healthy, except that once any was ever
        healthy none healthy means all up. */
    method UpdateState(hs: seq<Health>, dns: string -> Option<IP>) returns (published: bool)
      requires Valid()
      modifies this`initialState, this`state, fwmarks
      ensures Valid() && (initialState ==> old(initialState))
      ensures published <==> AllResolve(hs, dns)
      ensures initialState <==> old(initialState) && !(published && AnyHealthy(hs))
      ensures Now() == Feed(old(Now()), Round(Upstreams(hs, dns, weightUp, forward), weightUp))
      ensures !published ==> state == old(state) && fwmarks.Value() == old(fwmarks.Value())
      ensures published ==> Publishes(hs, dns, !old(initialState) && !AnyHealthy(hs))
      ensures published ==>
                fwmarks.Value() == if enableFwmarks
                                   then Run(old(fwmarks.Value()), Ops(old(PublishedAddresses()), PublishedAddresses()))
                                   else old(fwmarks.Value())
    {
      var ups, ratio := Evaluate(hs, dns);
      if ups.None? {
        return false;
      }
      var fw: seq<BalancerState> := [];
      if enableFwmarks {
        ManageFwmarkAllocations(Addresses(ups.value));
        fw := GenerateFwmarkServices(ups.value);
      }
      state := Published([BalancerState(name, service, ups.value)] + fw, ratio, initialState);
      return true;
    }
  }
}
