/** The calls a reconciliation issues, phase by phase, as lists computed from a diff, and
    why each phase is safe in the state the earlier ones leave. */
module Plan {
  import opened Types
  import opened Comparable
  import opened Reconcile

  // ----- Comparator keys and the view they give of a state -----------------------------

  function UpstreamKey(u: Upstream): RealKey {
    RealKey(u.address, u.port)
  }

  function RealOf(u: Upstream): Real {
    Real(u.weight, u.forward)
  }

  function BalancerKey(b: BalancerState): Service {
    b.service
  }

  function RouteKey(r: Route): RouteId {
    r.id
  }

  function LinkKey(l: LinkAddress): LinkAddress {
    l
  }

  predicate UpstreamEqual(a: Upstream, b: Upstream) {
    a == b
  }

  predicate BalancerEqual(a: BalancerState, b: BalancerState) {
    a.name == b.name && KeyGen(a.upstreams, UpstreamKey) == KeyGen(b.upstreams, UpstreamKey)
  }

  predicate RouteEqual(a: Route, b: Route) {
    a.id == b.id
  }

  predicate LinkEqual(a: LinkAddress, b: LinkAddress) {
    a == b
  }

  function RealsOf(ups: seq<Upstream>): Reals {
    map k | k in KeyGen(ups, UpstreamKey) :: RealOf(KeyGen(ups, UpstreamKey)[k])
  }

  function View(st: DataPlaneState): Desired {
    Desired(
      map s | s in KeyGen(st.balancers, BalancerKey) :: RealsOf(KeyGen(st.balancers, BalancerKey)[s].upstreams),
      map r | r in KeyGen(st.routes, RouteKey) :: KeyGen(st.routes, RouteKey)[r].holdMs,
      set l | l in st.links)
  }

  lemma RealsSnoc(ups: seq<Upstream>, u: Upstream)
    ensures RealsOf(ups + [u]) == RealsOf(ups)[UpstreamKey(u) := RealOf(u)]
  {
    KeyGenSnoc(ups, u, UpstreamKey);
  }

  // ----- Reals of one service ----------------------------------------------------------

  function AddRealCalls(s: Service, ups: seq<Upstream>): (cs: seq<Call>)
    ensures forall c <- cs :: c.AddReal?
  {
    if ups == [] then []
    else
      var u := ups[|ups| - 1];
      AddRealCalls(s, ups[..|ups| - 1]) + [AddReal(s, UpstreamKey(u), RealOf(u))]
  }

  function UpdateRealCalls(s: Service, ups: seq<Upstream>): (cs: seq<Call>)
    ensures forall c <- cs :: c.UpdateReal?
  {
    if ups == [] then []
    else
      var u := ups[|ups| - 1];
      UpdateRealCalls(s, ups[..|ups| - 1]) + [UpdateReal(s, UpstreamKey(u), RealOf(u))]
  }

  function DelRealCalls(s: Service, ups: seq<Upstream>): (cs: seq<Call>)
    ensures forall c <- cs :: c.DelReal?
  {
    if ups == [] then []
    else
      var u := ups[|ups| - 1];
      DelRealCalls(s, ups[..|ups| - 1]) + [DelReal(s, UpstreamKey(u))]
  }

  ghost function WithReals(w: World, s: Service, rs: Reals): World {
    w.(ipvs := w.ipvs[s := rs])
  }

  lemma ApplyReal(w: World, s: Service, rs: Reals, k: RealKey, v: Real)
    ensures Apply(WithReals(w, s, rs), AddReal(s, k, v)) == WithReals(w, s, rs[k := v])
    ensures Apply(WithReals(w, s, rs), UpdateReal(s, k, v)) == WithReals(w, s, rs[k := v])
    ensures Apply(WithReals(w, s, rs), DelReal(s, k)) == WithReals(w, s, rs - {k})
    ensures s in w.ipvs ==> WithReals(w, s, w.ipvs[s]) == w
  {
    assert w.ipvs[s := rs][s := rs[k := v]] == w.ipvs[s := rs[k := v]];
    assert w.ipvs[s := rs][s := rs - {k}] == w.ipvs[s := rs - {k}];
    if s in w.ipvs {
      assert w.ipvs[s := w.ipvs[s]] == w.ipvs;
    }
  }

  lemma MergePut<K, V>(a: map<K, V>, b: map<K, V>, k: K, v: V)
    ensures (a + b)[k := v] == a + b[k := v]
    ensures a + map[] == a
  {
  }

  lemma RealsInit(ups: seq<Upstream>)
    requires ups != []
    ensures RealsOf(ups) == RealsOf(ups[..|ups| - 1])[UpstreamKey(ups[|ups| - 1]) := RealOf(ups[|ups| - 1])]
  {
  }

  lemma {:induction false} AddRealsExec(w: World, s: Service, ups: seq<Upstream>)
    requires s in w.ipvs
    ensures Exec(w, AddRealCalls(s, ups)) == WithReals(w, s, w.ipvs[s] + RealsOf(ups))
  {
    if ups == [] {
      MergePut(w.ipvs[s], map[], RealKey(V4(seq(32, _ => false)), 0), Real(0, Tunnel));
      ApplyReal(w, s, w.ipvs[s], RealKey(V4(seq(32, _ => false)), 0), Real(0, Tunnel));
    } else {
      var m := |ups| - 1;
      var k, v := UpstreamKey(ups[m]), RealOf(ups[m]);
      AddRealsExec(w, s, ups[..m]);
      RealsInit(ups);
      ExecSnoc(w, AddRealCalls(s, ups[..m]), AddReal(s, k, v));
      ApplyReal(w, s, w.ipvs[s] + RealsOf(ups[..m]), k, v);
      MergePut(w.ipvs[s], RealsOf(ups[..m]), k, v);
    }
  }

  lemma NewKey(ups: seq<Upstream>, u: Upstream)
    requires DistinctKeys(ups, UpstreamKey)
    ensures UpstreamKey(u) !in RealsOf(ups) <==> DistinctKeys(ups + [u], UpstreamKey)
  {
    if UpstreamKey(u) in RealsOf(ups) {
      var x := KeyGen(ups, UpstreamKey)[UpstreamKey(u)];
      var i :| 0 <= i < |ups| && ups[i] == x;
      assert (ups + [u])[i] == x && (ups + [u])[|ups|] == u;
    } else {
      forall i | 0 <= i < |ups| ensures UpstreamKey(ups[i]) != UpstreamKey(u) {
        assert ups[i] in ups;
      }
    }
  }

  /** The kernel takes one more new real exactly when the list so far does not name it. */
  lemma AddRealStep(w: World, s: Service, ups: seq<Upstream>, u: Upstream)
    requires s in w.ipvs && UpstreamKey(u) !in w.ipvs[s]
    requires DistinctKeys(ups, UpstreamKey)
    ensures var w1 := Exec(w, AddRealCalls(s, ups));
            && s in w1.ipvs && w1.bgp == w.bgp
            && (Legal(w1, AddReal(s, UpstreamKey(u), RealOf(u))) <==> DistinctKeys(ups + [u], UpstreamKey))
  {
    AddRealsExec(w, s, ups);
    NewKey(ups, u);
    assert UpstreamKey(u) in w.ipvs[s] + RealsOf(ups) <==> UpstreamKey(u) in RealsOf(ups);
  }

  /** The kernel takes a raw list of new reals exactly when it names none twice. */
  lemma {:induction false} AddRealsLegal(w: World, s: Service, ups: seq<Upstream>)
    requires s in w.ipvs
    requires forall u <- ups :: UpstreamKey(u) !in w.ipvs[s]
    ensures LegalRun(w, AddRealCalls(s, ups)) <==> DistinctKeys(ups, UpstreamKey)
  {
    if ups != [] {
      var m := |ups| - 1;
      var ini, u := ups[..m], ups[m];
      assert ups == ini + [u] && u in ups;
      AddRealsLegal(w, s, ini);
      LegalSnoc(w, AddRealCalls(s, ini), AddReal(s, UpstreamKey(u), RealOf(u)));
      if DistinctKeys(ini, UpstreamKey) {
        AddRealStep(w, s, ini, u);
      }
    }
  }

  ghost predicate Wanted(n: Desired, s: Service, ups: seq<Upstream>) {
    forall u <- ups :: Lookup(n.services, s, UpstreamKey(u)) == Some(RealOf(u))
  }

  lemma {:induction false} AddRealsSafe(n: Desired, w: World, s: Service, ups: seq<Upstream>)
    requires s in w.ipvs && w.bgp.Keys <= n.routes.Keys && Wanted(n, s, ups)
    requires LegalRun(w, AddRealCalls(s, ups))
    ensures SafeRun(n, w, AddRealCalls(s, ups))
  {
    if ups != [] {
      var m := |ups| - 1;
      var ini, u := ups[..m], ups[m];
      var c := AddReal(s, UpstreamKey(u), RealOf(u));
      LegalSnoc(w, AddRealCalls(s, ini), c);
      assert u in ups;
      AddRealsExec(w, s, ini);
      AddRealsSafe(n, w, s, ini);
      RunSnoc(n, w, AddRealCalls(s, ini), c);
      assert Lookup(n.services, s, c.k) == Some(c.v);
    }
  }

  lemma {:induction false} UpdateRealsExec(w: World, s: Service, ups: seq<Upstream>)
    requires s in w.ipvs
    ensures Exec(w, UpdateRealCalls(s, ups)) == WithReals(w, s, w.ipvs[s] + RealsOf(ups))
  {
    if ups == [] {
      MergePut(w.ipvs[s], map[], RealKey(V4(seq(32, _ => false)), 0), Real(0, Tunnel));
      ApplyReal(w, s, w.ipvs[s], RealKey(V4(seq(32, _ => false)), 0), Real(0, Tunnel));
    } else {
      var m := |ups| - 1;
      var k, v := UpstreamKey(ups[m]), RealOf(ups[m]);
      UpdateRealsExec(w, s, ups[..m]);
      RealsInit(ups);
      ExecSnoc(w, UpdateRealCalls(s, ups[..m]), UpdateReal(s, k, v));
      ApplyReal(w, s, w.ipvs[s] + RealsOf(ups[..m]), k, v);
      MergePut(w.ipvs[s], RealsOf(ups[..m]), k, v);
    }
  }

  lemma UpdateRealSafe(n: Desired, w: World, s: Service, more: Reals, u: Upstream)
    requires s in w.ipvs && s in n.services && w.bgp.Keys <= n.routes.Keys && n.links <= w.Links()
    requires n.services[s].Keys <= w.ipvs[s].Keys
    requires Lookup(n.services, s, UpstreamKey(u)) == Some(RealOf(u))
    ensures Safe(n, WithReals(w, s, w.ipvs[s] + more), UpdateReal(s, UpstreamKey(u), RealOf(u)))
  {
  }

  lemma {:induction false} UpdateRealsSafe(n: Desired, w: World, s: Service, ups: seq<Upstream>)
    requires s in w.ipvs && s in n.services && w.bgp.Keys <= n.routes.Keys && n.links <= w.Links()
    requires n.services[s].Keys <= w.ipvs[s].Keys
    requires Wanted(n, s, ups)
    ensures SafeRun(n, w, UpdateRealCalls(s, ups))
  {
    if ups != [] {
      var m := |ups| - 1;
      assert ups[m] in ups && forall u <- ups[..m] :: u in ups;
      UpdateRealsSafe(n, w, s, ups[..m]);
      UpdateRealsExec(w, s, ups[..m]);
      UpdateRealSafe(n, w, s, RealsOf(ups[..m]), ups[m]);
      RunSnoc(n, w, UpdateRealCalls(s, ups[..m]), UpdateReal(s, UpstreamKey(ups[m]), RealOf(ups[m])));
    }
  }

  lemma {:induction false} UpdateRealsFresh(w: World, s: Service, ups: seq<Upstream>)
    requires s in w.ipvs && DistinctKeys(ups, UpstreamKey)
    requires forall u <- ups :: Lookup(w.ipvs, s, UpstreamKey(u)) != Some(RealOf(u))
    ensures NoRefresh(w, UpdateRealCalls(s, ups))
  {
    if ups != [] {
      var m := |ups| - 1;
      assert ups == ups[..m] + [ups[m]] && ups[m] in ups;
      UpdateRealsFresh(w, s, ups[..m]);
      UpdateRealsExec(w, s, ups[..m]);
      NewKey(ups[..m], ups[m]);
      NoRefreshSnoc(w, UpdateRealCalls(s, ups[..m]), UpdateReal(s, UpstreamKey(ups[m]), RealOf(ups[m])));
    }
  }

  lemma {:induction false} DelRealsExec(w: World, s: Service, ups: seq<Upstream>)
    requires s in w.ipvs
    ensures Exec(w, DelRealCalls(s, ups)) == WithReals(w, s, w.ipvs[s] - KeysOf(ups, UpstreamKey))
  {
    if ups == [] {
      assert w.ipvs[s] - KeysOf(ups, UpstreamKey) == w.ipvs[s];
      ApplyReal(w, s, w.ipvs[s], RealKey(V4(seq(32, _ => false)), 0), Real(0, Tunnel));
    } else {
      var m := |ups| - 1;
      var k := UpstreamKey(ups[m]);
      DelRealsExec(w, s, ups[..m]);
      ExecSnoc(w, DelRealCalls(s, ups[..m]), DelReal(s, k));
      ApplyReal(w, s, w.ipvs[s] - KeysOf(ups[..m], UpstreamKey), k, Real(0, Tunnel));
      KeysSnoc(ups[..m], ups[m], UpstreamKey);
      assert ups == ups[..m] + [ups[m]];
      assert w.ipvs[s] - (KeysOf(ups[..m], UpstreamKey) + {k}) == (w.ipvs[s] - KeysOf(ups[..m], UpstreamKey)) - {k};
    }
  }

  lemma DelRealSafe(n: Desired, w: World, s: Service, gone: set<RealKey>, k: RealKey)
    requires s in w.ipvs && s in n.services && w.bgp.Keys <= n.routes.Keys && n.links <= w.Links()
    requires Within(n.services[s], w.ipvs[s]) && gone !! n.services[s].Keys
    requires k in w.ipvs[s] && k !in n.services[s] && k !in gone
    ensures Safe(n, WithReals(w, s, w.ipvs[s] - gone), DelReal(s, k))
  {
    assert Within(n.services[s], w.ipvs[s] - gone);
  }

  lemma {:induction false} DelRealsSafe(n: Desired, w: World, s: Service, ups: seq<Upstream>)
    requires s in w.ipvs && s in n.services && w.bgp.Keys <= n.routes.Keys && n.links <= w.Links()
    requires Within(n.services[s], w.ipvs[s])
    requires DistinctKeys(ups, UpstreamKey)
    requires forall u <- ups :: UpstreamKey(u) in w.ipvs[s] && UpstreamKey(u) !in n.services[s]
    ensures SafeRun(n, w, DelRealCalls(s, ups))
  {
    if ups != [] {
      var m := |ups| - 1;
      var ini, k := ups[..m], UpstreamKey(ups[m]);
      assert ups[m] in ups;
      forall x | x in ini ensures UpstreamKey(x) != k && x in ups {
        var i :| 0 <= i < m && ini[i] == x;
      }
      DelRealsSafe(n, w, s, ini);
      DelRealsExec(w, s, ini);
      DelRealSafe(n, w, s, KeysOf(ini, UpstreamKey), k);
      RunSnoc(n, w, DelRealCalls(s, ini), DelReal(s, k));
    }
  }

  // ----- New services ------------------------------------------------------------------

  function AddOneCalls(b: BalancerState): (cs: seq<Call>)
    ensures forall c <- cs :: c.AddService? || c.AddReal?
  {
    [AddService(b.service)] + AddRealCalls(b.service, b.upstreams)
  }

  function AddBalancerCalls(bs: seq<BalancerState>): (cs: seq<Call>)
    ensures forall c <- cs :: c.AddService? || c.AddReal?
  {
    if bs == [] then [] else AddBalancerCalls(bs[..|bs| - 1]) + AddOneCalls(bs[|bs| - 1])
  }

  ghost predicate UniqueReals(bs: seq<BalancerState>) {
    forall b <- bs :: DistinctKeys(b.upstreams, UpstreamKey)
  }

  function NewServices(bs: seq<BalancerState>): map<Service, Reals> {
    map s | s in KeyGen(bs, BalancerKey) :: RealsOf(KeyGen(bs, BalancerKey)[s].upstreams)
  }

  ghost function Services(bs: seq<BalancerState>): set<Service> {
    KeysOf(bs, BalancerKey)
  }

  ghost predicate AllNew(ipvs: set<Service>, bs: seq<BalancerState>) {
    DistinctKeys(bs, BalancerKey) && Services(bs) !! ipvs
  }

  lemma AllNewSnoc(ipvs: set<Service>, bs: seq<BalancerState>, b: BalancerState)
    requires AllNew(ipvs, bs + [b])
    ensures AllNew(ipvs, bs) && b.service !in Services(bs) && b.service !in ipvs
    ensures Services(bs + [b]) == Services(bs) + {b.service}
  {
    var all := bs + [b];
    assert all[|bs|] == b && forall i :: 0 <= i < |bs| ==> all[i] == bs[i];
    KeysSnoc(bs, b, BalancerKey);
    forall x | x in bs ensures x.service != b.service {
      var i :| 0 <= i < |bs| && bs[i] == x;
      assert all[i] == x;
    }
  }

  lemma NewServicesKeys(bs: seq<BalancerState>)
    ensures NewServices(bs).Keys == Services(bs)
  {
  }

  lemma NewServicesSnoc(bs: seq<BalancerState>, b: BalancerState)
    ensures NewServices(bs + [b]) == NewServices(bs)[b.service := RealsOf(b.upstreams)]
  {
    KeyGenSnoc(bs, b, BalancerKey);
  }

  lemma AddOneExec(w: World, b: BalancerState)
    ensures Exec(w, AddOneCalls(b)) == WithReals(w, b.service, RealsOf(b.upstreams))
  {
    var c := AddService(b.service);
    ExecAppend(w, [c], AddRealCalls(b.service, b.upstreams));
    ExecSnoc(w, [], c);
    assert [] + [c] == [c];
    assert Apply(w, c) == WithReals(w, b.service, map[]);
    AddRealsExec(Apply(w, c), b.service, b.upstreams);
    assert map[] + RealsOf(b.upstreams) == RealsOf(b.upstreams);
    WriteTwice(w, b.service, map[], RealsOf(b.upstreams));
  }

  lemma {:induction false} AddBalancersExec(w: World, bs: seq<BalancerState>)
    ensures Exec(w, AddBalancerCalls(bs)) == w.(ipvs := w.ipvs + NewServices(bs))
  {
    if bs == [] {
      assert w.ipvs + NewServices(bs) == w.ipvs;
    } else {
      var m := |bs| - 1;
      var ini, b := bs[..m], bs[m];
      assert bs == ini + [b];
      AddBalancersExec(w, ini);
      ExecAppend(w, AddBalancerCalls(ini), AddOneCalls(b));
      AddOneExec(Exec(w, AddBalancerCalls(ini)), b);
      NewServicesSnoc(ini, b);
      MergePut(w.ipvs, NewServices(ini), b.service, RealsOf(b.upstreams));
    }
  }

  lemma AddOneLegal(w: World, b: BalancerState)
    requires b.service !in w.ipvs
    ensures LegalRun(w, AddOneCalls(b)) <==>
            (forall t <- w.ipvs :: t.attributes != b.service.attributes) && DistinctKeys(b.upstreams, UpstreamKey)
  {
    var c := AddService(b.service);
    LegalAppend(w, [c], AddRealCalls(b.service, b.upstreams));
    LegalSnoc(w, [], c);
    ExecSnoc(w, [], c);
    assert [] + [c] == [c];
    AddRealsLegal(Apply(w, c), b.service, b.upstreams);
  }

  lemma ClashFreeGrow(ipvs: set<Service>, added: set<Service>, s: Service)
    requires s !in ipvs && s !in added
    ensures ClashFree(ipvs, added + {s}) <==>
            ClashFree(ipvs, added) && forall t <- ipvs + added :: t.attributes != s.attributes
  {
  }

  lemma UniqueSnoc(bs: seq<BalancerState>, b: BalancerState)
    ensures UniqueReals(bs + [b]) <==> UniqueReals(bs) && DistinctKeys(b.upstreams, UpstreamKey)
  {
    assert forall x :: x in bs + [b] <==> x in bs || x == b;
  }

  /** The kernel takes all new services exactly when none names a real twice and none
      shares a kernel name. */
  lemma {:induction false} AddBalancersLegal(w: World, bs: seq<BalancerState>)
    requires AllNew(w.ipvs.Keys, bs)
    ensures LegalRun(w, AddBalancerCalls(bs)) <==> UniqueReals(bs) && ClashFree(w.ipvs.Keys, Services(bs))
  {
    if bs != [] {
      var m := |bs| - 1;
      var ini, b := bs[..m], bs[m];
      assert bs == ini + [b];
      AllNewSnoc(w.ipvs.Keys, ini, b);
      AddBalancersLegal(w, ini);
      LegalAppend(w, AddBalancerCalls(ini), AddOneCalls(b));
      var w1 := Exec(w, AddBalancerCalls(ini));
      assert w1.ipvs.Keys == w.ipvs.Keys + Services(ini) by {
        AddBalancersExec(w, ini);
        NewServicesKeys(ini);
      }
      AddOneLegal(w1, b);
      ClashFreeGrow(w.ipvs.Keys, Services(ini), b.service);
      UniqueSnoc(ini, b);
    }
  }

  ghost predicate AllWanted(n: Desired, bs: seq<BalancerState>) {
    forall b <- bs :: b.service in n.services && n.services[b.service] == RealsOf(b.upstreams)
  }

  lemma DistinctWanted(n: Desired, s: Service, ups: seq<Upstream>)
    requires DistinctKeys(ups, UpstreamKey) && s in n.services && n.services[s] == RealsOf(ups)
    ensures Wanted(n, s, ups)
  {
    forall u | u in ups ensures Lookup(n.services, s, UpstreamKey(u)) == Some(RealOf(u)) {
      DistinctGet(ups, u, UpstreamKey);
    }
  }

  lemma AddOneSafe(n: Desired, w: World, b: BalancerState)
    requires w.bgp.Keys <= n.routes.Keys && DistinctKeys(b.upstreams, UpstreamKey)
    requires b.service in n.services && n.services[b.service] == RealsOf(b.upstreams)
    requires LegalRun(w, AddOneCalls(b))
    ensures SafeRun(n, w, AddOneCalls(b))
  {
    var c := AddService(b.service);
    var rs := AddRealCalls(b.service, b.upstreams);
    LegalAppend(w, [c], rs);
    LegalSnoc(w, [], c);
    RunSnoc(n, w, [], c);
    assert [] + [c] == [c];
    DistinctWanted(n, b.service, b.upstreams);
    AddRealsSafe(n, Apply(w, c), b.service, b.upstreams);
    RunAppend(n, w, [c], rs);
  }

  lemma AddBalancersSafeSnoc(n: Desired, w: World, ini: seq<BalancerState>, b: BalancerState)
    requires w.bgp.Keys <= n.routes.Keys && DistinctKeys(b.upstreams, UpstreamKey)
    requires b.service in n.services && n.services[b.service] == RealsOf(b.upstreams)
    requires SafeRun(n, w, AddBalancerCalls(ini)) && LegalRun(Exec(w, AddBalancerCalls(ini)), AddOneCalls(b))
    ensures SafeRun(n, w, AddBalancerCalls(ini) + AddOneCalls(b))
  {
    var cs, one := AddBalancerCalls(ini), AddOneCalls(b);
    assert Exec(w, cs).bgp == w.bgp by {
      AddBalancersExec(w, ini);
    }
    AddOneSafe(n, Exec(w, cs), b);
    RunAppend(n, w, cs, one);
  }

  lemma {:induction false} AddBalancersSafe(n: Desired, w: World, bs: seq<BalancerState>)
    requires w.bgp.Keys <= n.routes.Keys && AllWanted(n, bs) && UniqueReals(bs)
    requires LegalRun(w, AddBalancerCalls(bs))
    ensures SafeRun(n, w, AddBalancerCalls(bs))
  {
    if bs != [] {
      var m := |bs| - 1;
      var ini, b := bs[..m], bs[m];
      assert bs == ini + [b] && b in bs && forall x <- ini :: x in bs;
      LegalAppend(w, AddBalancerCalls(ini), AddOneCalls(b));
      AddBalancersSafe(n, w, ini);
      AddBalancersSafeSnoc(n, w, ini, b);
    }
  }

  // ----- Changed services --------------------------------------------------------------

  function ChangeCalls(s: Service, d: Diff<Upstream>): seq<Call> {
    AddRealCalls(s, d.added) + UpdateRealCalls(s, NewItems(d.changed)) + DelRealCalls(s, d.deleted)
  }

  ghost predicate IsUpstreamDiff(a: seq<Upstream>, b: seq<Upstream>, d: Diff<Upstream>) {
    IsDiff(KeyGen(a, UpstreamKey), KeyGen(b, UpstreamKey), UpstreamKey, UpstreamEqual, d)
  }

  lemma ListsReals(b: seq<Upstream>, ups: seq<Upstream>, ks: set<RealKey>)
    requires Lists(ups, KeyGen(b, UpstreamKey), ks, UpstreamKey)
    ensures RealsOf(ups).Keys == ks && Within(RealsOf(ups), RealsOf(b))
  {
    ListsKeys(ups, KeyGen(b, UpstreamKey), ks, UpstreamKey);
  }

  /** The three lists of an upstream diff, as the maps of reals they write. */
  lemma DiffReals(a: seq<Upstream>, b: seq<Upstream>, d: Diff<Upstream>)
    requires IsUpstreamDiff(a, b, d)
    ensures RealsOf(d.added).Keys == RealsOf(b).Keys - RealsOf(a).Keys
    ensures Within(RealsOf(d.added), RealsOf(b)) && Within(RealsOf(NewItems(d.changed)), RealsOf(b))
    ensures RealsOf(NewItems(d.changed)).Keys == ChangedKeys(KeyGen(a, UpstreamKey), KeyGen(b, UpstreamKey), UpstreamEqual)
    ensures KeysOf(d.deleted, UpstreamKey) == RealsOf(a).Keys - RealsOf(b).Keys
  {
    var o, n := KeyGen(a, UpstreamKey), KeyGen(b, UpstreamKey);
    RealsKeys(a);
    RealsKeys(b);
    assert Lists(d.added, n, n.Keys - o.Keys, UpstreamKey);
    assert Lists(NewItems(d.changed), n, ChangedKeys(o, n, UpstreamEqual), UpstreamKey);
    assert Lists(d.deleted, o, o.Keys - n.Keys, UpstreamKey);
    assert RealsOf(d.added).Keys == n.Keys - o.Keys && Within(RealsOf(d.added), RealsOf(b)) by {
      ListsReals(b, d.added, n.Keys - o.Keys);
    }
    assert RealsOf(NewItems(d.changed)).Keys == ChangedKeys(o, n, UpstreamEqual)
        && Within(RealsOf(NewItems(d.changed)), RealsOf(b)) by {
      ListsReals(b, NewItems(d.changed), ChangedKeys(o, n, UpstreamEqual));
    }
    assert KeysOf(d.deleted, UpstreamKey) == o.Keys - n.Keys by {
      ListsKeys(d.deleted, o, o.Keys - n.Keys, UpstreamKey);
    }
  }

  lemma RealsKeys(ups: seq<Upstream>)
    ensures RealsOf(ups).Keys == KeyGen(ups, UpstreamKey).Keys
  {
  }

  lemma SameReals(a: seq<Upstream>, b: seq<Upstream>, k: RealKey)
    requires k in RealsOf(a) && k in RealsOf(b)
    requires k !in ChangedKeys(KeyGen(a, UpstreamKey), KeyGen(b, UpstreamKey), UpstreamEqual)
    ensures RealsOf(a)[k] == RealsOf(b)[k]
  {
  }

  lemma ListsWanted(n: Desired, s: Service, b: seq<Upstream>, ups: seq<Upstream>, ks: set<RealKey>)
    requires s in n.services && n.services[s] == RealsOf(b)
    requires Lists(ups, KeyGen(b, UpstreamKey), ks, UpstreamKey)
    ensures Wanted(n, s, ups)
  {
  }

  lemma PatchReals(o: Reals, t: Reals, added: Reals, changed: Reals, gone: set<RealKey>)
    requires added.Keys == t.Keys - o.Keys && Within(added, t) && Within(changed, t) && changed.Keys <= o.Keys
    requires gone == o.Keys - t.Keys
    requires forall k :: k in o && k in t && k !in changed ==> o[k] == t[k]
    ensures o + added + changed - gone == t
    ensures Within(t, o + added + changed) && t.Keys <= (o + added).Keys
    ensures gone <= (o + added + changed).Keys
  {
  }

  lemma ChangePatches(a: seq<Upstream>, b: seq<Upstream>, d: Diff<Upstream>)
    requires IsUpstreamDiff(a, b, d)
    ensures var o, t := RealsOf(a), RealsOf(b);
            var mid := o + RealsOf(d.added);
            var top := mid + RealsOf(NewItems(d.changed));
            var gone := KeysOf(d.deleted, UpstreamKey);
            top - gone == t && Within(t, top) && t.Keys <= mid.Keys && gone <= top.Keys && gone !! t.Keys
  {
    DiffReals(a, b, d);
    forall k | k in RealsOf(a) && k in RealsOf(b) && k !in RealsOf(NewItems(d.changed))
      ensures RealsOf(a)[k] == RealsOf(b)[k]
    {
      SameReals(a, b, k);
    }
    PatchReals(RealsOf(a), RealsOf(b), RealsOf(d.added), RealsOf(NewItems(d.changed)), KeysOf(d.deleted, UpstreamKey));
  }

  lemma WriteTwice(w: World, s: Service, x: Reals, y: Reals)
    ensures WithReals(WithReals(w, s, x), s, y) == WithReals(w, s, y)
  {
    assert w.ipvs[s := x][s := y] == w.ipvs[s := y];
  }

  lemma ChangeExec(w: World, s: Service, a: seq<Upstream>, b: seq<Upstream>, d: Diff<Upstream>)
    requires IsUpstreamDiff(a, b, d) && s in w.ipvs && w.ipvs[s] == RealsOf(a)
    ensures var cs1, cs2 := AddRealCalls(s, d.added), UpdateRealCalls(s, NewItems(d.changed));
            && Exec(w, cs1) == WithReals(w, s, RealsOf(a) + RealsOf(d.added))
            && Exec(w, cs1 + cs2) == WithReals(w, s, RealsOf(a) + RealsOf(d.added) + RealsOf(NewItems(d.changed)))
    ensures Exec(w, ChangeCalls(s, d)) == WithReals(w, s, RealsOf(b))
  {
    var ch := NewItems(d.changed);
    var cs1, cs2, cs3 := AddRealCalls(s, d.added), UpdateRealCalls(s, ch), DelRealCalls(s, d.deleted);
    var mid := RealsOf(a) + RealsOf(d.added);
    var top := mid + RealsOf(ch);
    assert Exec(w, cs1) == WithReals(w, s, mid) by {
      AddRealsExec(w, s, d.added);
    }
    assert Exec(w, cs1 + cs2) == WithReals(w, s, top) by {
      ExecAppend(w, cs1, cs2);
      UpdateRealsExec(WithReals(w, s, mid), s, ch);
      WriteTwice(w, s, mid, top);
    }
    assert Exec(w, (cs1 + cs2) + cs3) == WithReals(w, s, top - KeysOf(d.deleted, UpstreamKey)) by {
      ExecAppend(w, cs1 + cs2, cs3);
      DelRealsExec(WithReals(w, s, top), s, d.deleted);
      WriteTwice(w, s, top, top - KeysOf(d.deleted, UpstreamKey));
    }
    ChangePatches(a, b, d);
  }

  lemma ChangeSafe(n: Desired, w: World, s: Service, a: seq<Upstream>, b: seq<Upstream>, d: Diff<Upstream>)
    requires IsUpstreamDiff(a, b, d)
    requires s in w.ipvs && w.ipvs[s] == RealsOf(a) && s in n.services && n.services[s] == RealsOf(b)
    requires w.bgp.Keys <= n.routes.Keys && n.links <= w.Links()
    ensures SafeRun(n, w, ChangeCalls(s, d))
  {
    var ch := NewItems(d.changed);
    var cs1, cs2, cs3 := AddRealCalls(s, d.added), UpdateRealCalls(s, ch), DelRealCalls(s, d.deleted);
    ChangeExec(w, s, a, b, d);
    ChangePatches(a, b, d);
    assert SafeRun(n, w, cs1) by {
      ListsWanted(n, s, b, d.added, KeyGen(b, UpstreamKey).Keys - KeyGen(a, UpstreamKey).Keys);
      AddRealsLegal(w, s, d.added);
      AddRealsSafe(n, w, s, d.added);
    }
    assert SafeRun(n, Exec(w, cs1), cs2) by {
      ListsWanted(n, s, b, ch, ChangedKeys(KeyGen(a, UpstreamKey), KeyGen(b, UpstreamKey), UpstreamEqual));
      UpdateRealsSafe(n, Exec(w, cs1), s, ch);
    }
    RunAppend(n, w, cs1, cs2);
    assert SafeRun(n, Exec(w, cs1 + cs2), cs3) by {
      assert forall u <- d.deleted :: UpstreamKey(u) in KeysOf(d.deleted, UpstreamKey);
      DelRealsSafe(n, Exec(w, cs1 + cs2), s, d.deleted);
    }
    RunAppend(n, w, cs1 + cs2, cs3);
  }

  lemma ChangedDiffer(a: seq<Upstream>, b: seq<Upstream>, u: Upstream)
    requires forall x, y :: x in a && y in b && x.address == y.address ==> x.hostname == y.hostname
    requires var o, n := KeyGen(a, UpstreamKey), KeyGen(b, UpstreamKey);
             UpstreamKey(u) in ChangedKeys(o, n, UpstreamEqual) && n[UpstreamKey(u)] == u
    ensures RealsOf(a)[UpstreamKey(u)] != RealOf(u)
  {
    var x := KeyGen(a, UpstreamKey)[UpstreamKey(u)];
    assert x in a && u in b && x.address == u.address && x.port == u.port && x != u;
  }

  /** An update is needless only if some hostname is not the one the cache gives back. */
  lemma ChangeFresh(w: World, s: Service, a: seq<Upstream>, b: seq<Upstream>, d: Diff<Upstream>)
    requires IsUpstreamDiff(a, b, d)
    requires s in w.ipvs && w.ipvs[s] == RealsOf(a)
    requires forall x, y :: x in a && y in b && x.address == y.address ==> x.hostname == y.hostname
    ensures NoRefresh(w, ChangeCalls(s, d))
  {
    var ch := NewItems(d.changed);
    var cs1, cs2, cs3 := AddRealCalls(s, d.added), UpdateRealCalls(s, ch), DelRealCalls(s, d.deleted);
    var w1 := Exec(w, cs1);
    assert w1 == WithReals(w, s, RealsOf(a) + RealsOf(d.added)) by {
      ChangeExec(w, s, a, b, d);
    }
    forall u | u in ch ensures Lookup(w1.ipvs, s, UpstreamKey(u)) != Some(RealOf(u)) {
      assert RealsOf(d.added).Keys == RealsOf(b).Keys - RealsOf(a).Keys by {
        DiffReals(a, b, d);
      }
      ChangedDiffer(a, b, u);
    }
    assert NoRefresh(w1, cs2) by {
      UpdateRealsFresh(w1, s, ch);
    }
    NoUpdateNoRefresh(w, cs1);
    NoRefreshAppend(w, cs1, cs2);
    NoUpdateNoRefresh(Exec(w, cs1 + cs2), cs3);
    NoRefreshAppend(w, cs1 + cs2, cs3);
  }

  // ----- Routes ------------------------------------------------------------------------

  function WithdrawCalls(rs: seq<Route>): (cs: seq<Call>)
    ensures forall c <- cs :: c.Withdraw?
  {
    if rs == [] then [] else WithdrawCalls(rs[..|rs| - 1]) + [Withdraw(rs[|rs| - 1].id)]
  }

  function AdvertiseCalls(rs: seq<Route>): (cs: seq<Call>)
    ensures forall c <- cs :: c.Advertise?
  {
    if rs == [] then [] else AdvertiseCalls(rs[..|rs| - 1]) + [Advertise(rs[|rs| - 1].id, rs[|rs| - 1].holdMs)]
  }

  function MaxHold(rs: seq<Route>): (ms: nat)
    ensures forall r <- rs :: r.holdMs <= ms
    ensures ms > 0 ==> exists r <- rs :: r.holdMs == ms
  {
    if rs == [] then 0
    else
      var rest := MaxHold(rs[..|rs| - 1]);
      if rs[|rs| - 1].holdMs > rest then rs[|rs| - 1].holdMs else rest
  }

  ghost predicate SameBut(w: World, w': World) {
    w'.ipvs == w.ipvs && w'.table == w.table && w'.tracked == w.tracked
  }

  lemma LastIsNew(rs: seq<Route>)
    requires rs != [] && DistinctKeys(rs, RouteKey)
    ensures var m := |rs| - 1;
            && rs == rs[..m] + [rs[m]] && DistinctKeys(rs[..m], RouteKey)
            && rs[m].id !in KeysOf(rs[..m], RouteKey)
            && KeysOf(rs, RouteKey) == KeysOf(rs[..m], RouteKey) + {rs[m].id}
  {
    var m := |rs| - 1;
    assert rs == rs[..m] + [rs[m]];
    KeysSnoc(rs[..m], rs[m], RouteKey);
    forall x | x in rs[..m] ensures x.id != rs[m].id {
      var i :| 0 <= i < m && rs[i] == x;
    }
  }

  lemma {:induction false} WithdrawSafe(n: Desired, w: World, rs: seq<Route>)
    requires DistinctKeys(rs, RouteKey)
    requires KeysOf(rs, RouteKey) <= w.bgp.Keys - n.routes.Keys
    ensures SafeRun(n, w, WithdrawCalls(rs))
    ensures SameBut(w, Exec(w, WithdrawCalls(rs)))
    ensures Exec(w, WithdrawCalls(rs)).bgp.Keys == w.bgp.Keys - KeysOf(rs, RouteKey)
  {
    if rs != [] {
      var m := |rs| - 1;
      LastIsNew(rs);
      WithdrawSafe(n, w, rs[..m]);
      RunSnoc(n, w, WithdrawCalls(rs[..m]), Withdraw(rs[m].id));
    }
  }

  lemma {:induction false} AdvertiseExec(w: World, rs: seq<Route>)
    ensures SameBut(w, Exec(w, AdvertiseCalls(rs)))
    ensures Exec(w, AdvertiseCalls(rs)).bgp.Keys == w.bgp.Keys + KeysOf(rs, RouteKey)
  {
    if rs != [] {
      var m := |rs| - 1;
      assert rs == rs[..m] + [rs[m]];
      KeysSnoc(rs[..m], rs[m], RouteKey);
      AdvertiseExec(w, rs[..m]);
      ExecSnoc(w, AdvertiseCalls(rs[..m]), Advertise(rs[m].id, rs[m].holdMs));
    }
  }

  lemma {:induction false} AdvertiseSafe(n: Desired, w: World, rs: seq<Route>)
    requires DistinctKeys(rs, RouteKey) && Ready(n, w) && w.bgp.Keys <= n.routes.Keys
    requires KeysOf(rs, RouteKey) <= n.routes.Keys - w.bgp.Keys
    requires forall r <- rs :: r.id in n.routes && n.routes[r.id] == r.holdMs
    ensures SafeRun(n, w, AdvertiseCalls(rs))
  {
    if rs != [] {
      var m := |rs| - 1;
      var c := Advertise(rs[m].id, rs[m].holdMs);
      LastIsNew(rs);
      assert rs[m] in rs && forall r <- rs[..m] :: r in rs;
      AdvertiseSafe(n, w, rs[..m]);
      AdvertiseExec(w, rs[..m]);
      assert Safe(n, Exec(w, AdvertiseCalls(rs[..m])), c);
      RunSnoc(n, w, AdvertiseCalls(rs[..m]), c);
    }
  }

  // ----- Addresses and obsolete services ------------------------------------------------

  function AddLinkCalls(ls: seq<LinkAddress>): (cs: seq<Call>)
    ensures forall c <- cs :: c.AddLink?
  {
    if ls == [] then [] else AddLinkCalls(ls[..|ls| - 1]) + [AddLink(ls[|ls| - 1])]
  }

  function DelLinkCalls(ls: seq<LinkAddress>): (cs: seq<Call>)
    ensures forall c <- cs :: c.DelLink?
  {
    if ls == [] then [] else DelLinkCalls(ls[..|ls| - 1]) + [DelLink(ls[|ls| - 1])]
  }

  function DelServiceCalls(bs: seq<BalancerState>): (cs: seq<Call>)
    ensures forall c <- cs :: c.DelService?
  {
    if bs == [] then [] else DelServiceCalls(bs[..|bs| - 1]) + [DelService(bs[|bs| - 1].service)]
  }

  lemma LastLinkIsNew(ls: seq<LinkAddress>)
    requires ls != [] && DistinctKeys(ls, LinkKey)
    ensures var m := |ls| - 1;
            && DistinctKeys(ls[..m], LinkKey) && ls[m] !in ls[..m]
            && forall l :: l in ls <==> l in ls[..m] || l == ls[m]
  {
    assert ls == ls[..|ls| - 1] + [ls[|ls| - 1]];
  }

  ghost function LinkSet(ls: seq<LinkAddress>): set<LinkAddress> {
    set l | l in ls
  }

  lemma LinkSetSnoc(ls: seq<LinkAddress>, l: LinkAddress)
    ensures LinkSet(ls + [l]) == LinkSet(ls) + {l}
  {
    assert forall x :: x in ls + [l] <==> x in ls || x == l;
  }

  lemma {:induction false} AddLinksExec(w: World, ls: seq<LinkAddress>)
    ensures Exec(w, AddLinkCalls(ls)) == w.(table := w.table + LinkSet(ls), tracked := w.tracked + LinkSet(ls))
  {
    if ls == [] {
      assert w.table + LinkSet(ls) == w.table && w.tracked + LinkSet(ls) == w.tracked;
    } else {
      var m := |ls| - 1;
      assert ls == ls[..m] + [ls[m]];
      AddLinksExec(w, ls[..m]);
      LinkSetSnoc(ls[..m], ls[m]);
      ExecSnoc(w, AddLinkCalls(ls[..m]), AddLink(ls[m]));
      assert w.table + LinkSet(ls) == w.table + LinkSet(ls[..m]) + {ls[m]};
      assert w.tracked + LinkSet(ls) == w.tracked + LinkSet(ls[..m]) + {ls[m]};
    }
  }

  lemma {:induction false} AddLinksSafe(n: Desired, w: World, ls: seq<LinkAddress>)
    requires DistinctKeys(ls, LinkKey) && LinkSet(ls) <= n.links - w.Links()
    requires w.bgp.Keys <= n.routes.Keys && n.services.Keys <= w.ipvs.Keys
    ensures SafeRun(n, w, AddLinkCalls(ls))
  {
    if ls != [] {
      var m := |ls| - 1;
      LastLinkIsNew(ls);
      assert ls[m] in LinkSet(ls) && LinkSet(ls[..m]) <= LinkSet(ls);
      AddLinksSafe(n, w, ls[..m]);
      AddLinksExec(w, ls[..m]);
      assert ls[m] !in (w.table + LinkSet(ls[..m])) * (w.tracked + LinkSet(ls[..m]));
      RunSnoc(n, w, AddLinkCalls(ls[..m]), AddLink(ls[m]));
    }
  }

  lemma {:induction false} DelLinksExec(w: World, ls: seq<LinkAddress>)
    ensures Exec(w, DelLinkCalls(ls)) == w.(table := w.table - LinkSet(ls), tracked := w.tracked - LinkSet(ls))
  {
    if ls == [] {
      assert w.table - LinkSet(ls) == w.table && w.tracked - LinkSet(ls) == w.tracked;
    } else {
      var m := |ls| - 1;
      assert ls == ls[..m] + [ls[m]];
      DelLinksExec(w, ls[..m]);
      LinkSetSnoc(ls[..m], ls[m]);
      ExecSnoc(w, DelLinkCalls(ls[..m]), DelLink(ls[m]));
      assert w.table - LinkSet(ls) == w.table - LinkSet(ls[..m]) - {ls[m]};
      assert w.tracked - LinkSet(ls) == w.tracked - LinkSet(ls[..m]) - {ls[m]};
    }
  }

  lemma {:induction false} DelLinksSafe(n: Desired, w: World, ls: seq<LinkAddress>)
    requires DistinctKeys(ls, LinkKey) && LinkSet(ls) <= w.Links() - n.links
    requires Ready(n, w) && w.bgp.Keys == n.routes.Keys && w.ipvs.Keys == n.services.Keys
    ensures SafeRun(n, w, DelLinkCalls(ls))
  {
    if ls != [] {
      var m := |ls| - 1;
      LastLinkIsNew(ls);
      assert ls[m] in LinkSet(ls) && LinkSet(ls[..m]) <= LinkSet(ls);
      DelLinksSafe(n, w, ls[..m]);
      DelLinksExec(w, ls[..m]);
      assert Ready(n, Exec(w, DelLinkCalls(ls[..m])));
      RunSnoc(n, w, DelLinkCalls(ls[..m]), DelLink(ls[m]));
    }
  }

  lemma {:induction false} DelServicesExec(w: World, bs: seq<BalancerState>)
    ensures Exec(w, DelServiceCalls(bs)) == w.(ipvs := w.ipvs - Services(bs))
  {
    if bs == [] {
      assert w.ipvs - Services(bs) == w.ipvs;
    } else {
      var m := |bs| - 1;
      assert bs == bs[..m] + [bs[m]];
      KeysSnoc(bs[..m], bs[m], BalancerKey);
      DelServicesExec(w, bs[..m]);
      ExecSnoc(w, DelServiceCalls(bs[..m]), DelService(bs[m].service));
      var gone, s := Services(bs[..m]), bs[m].service;
      assert Services(bs) == gone + {s};
      assert w.ipvs - (gone + {s}) == (w.ipvs - gone) - {s};
    }
  }

  lemma DelServiceSafe(n: Desired, w: World, gone: set<Service>, s: Service)
    requires Ready(n, w) && w.bgp.Keys == n.routes.Keys && gone !! n.services.Keys
    requires s in w.ipvs && s !in n.services && s !in gone
    ensures Safe(n, w.(ipvs := w.ipvs - gone), DelService(s))
  {
    assert Ready(n, w.(ipvs := w.ipvs - gone));
  }

  lemma {:induction false} DelServicesSafe(n: Desired, w: World, bs: seq<BalancerState>)
    requires DistinctKeys(bs, BalancerKey) && Services(bs) <= w.ipvs.Keys - n.services.Keys
    requires Ready(n, w) && w.bgp.Keys == n.routes.Keys
    ensures SafeRun(n, w, DelServiceCalls(bs))
  {
    if bs != [] {
      var m := |bs| - 1;
      var ini, s := bs[..m], bs[m].service;
      assert bs == ini + [bs[m]];
      AllNewSnoc({}, ini, bs[m]);
      DelServicesSafe(n, w, ini);
      DelServicesExec(w, ini);
      DelServiceSafe(n, w, Services(ini), s);
      RunSnoc(n, w, DelServiceCalls(ini), DelService(s));
    }
  }
}
