/** What holds of a reconciliation even when the kernel refuses a new service, and when
    trying again helps. A new balancer's reals are sent as a raw list, so a real listed
    twice is first written with its first value and then refused. */
module Attempts {
  import opened Types
  import opened Comparable
  import opened Reconcile
  import opened Plan

  /** A safe call, or a new real of a desired service under a desired key with whatever
      value. */
  ghost predicate Orderly(n: Desired, w: World, c: Call) {
    || Safe(n, w, c)
    || (c.AddReal? && Legal(w, c) && w.bgp.Keys <= n.routes.Keys && c.s in n.services && c.k in n.services[c.s])
  }

  ghost predicate OrderlyRun(n: Desired, w: World, cs: seq<Call>) {
    cs == [] || (OrderlyRun(n, w, cs[..|cs| - 1]) && Orderly(n, Exec(w, cs[..|cs| - 1]), cs[|cs| - 1]))
  }

  lemma OrderlySnoc(n: Desired, w: World, cs: seq<Call>, c: Call)
    ensures OrderlyRun(n, w, cs + [c]) <==> OrderlyRun(n, w, cs) && Orderly(n, Exec(w, cs), c)
  {
    assert (cs + [c])[..|cs|] == cs;
  }

  lemma {:induction false} OrderlyAppend(n: Desired, w: World, a: seq<Call>, b: seq<Call>)
    ensures OrderlyRun(n, w, a) && OrderlyRun(n, Exec(w, a), b) <==> OrderlyRun(n, w, a + b)
    decreases |b|
  {
    if b == [] {
      assert a + b == a;
    } else {
      var m := |b| - 1;
      assert a + b == (a + b[..m]) + [b[m]];
      OrderlyAppend(n, w, a, b[..m]);
      ExecAppend(w, a, b[..m]);
      OrderlySnoc(n, w, a + b[..m], b[m]);
    }
  }

  /** What holds of all such runs holds at every point of one. */
  lemma {:induction false} OrderlyPrefix(n: Desired, w: World, cs: seq<Call>, k: nat)
    requires OrderlyRun(n, w, cs) && k <= |cs|
    ensures OrderlyRun(n, w, cs[..k])
  {
    if k == |cs| {
      assert cs[..k] == cs;
    } else {
      assert cs[..|cs| - 1][..k] == cs[..k];
      OrderlyPrefix(n, w, cs[..|cs| - 1], k);
    }
  }

  lemma {:induction false} SafeIsOrderly(n: Desired, w: World, cs: seq<Call>)
    requires SafeRun(n, w, cs)
    ensures OrderlyRun(n, w, cs)
  {
    if cs != [] {
      SafeIsOrderly(n, w, cs[..|cs| - 1]);
    }
  }

  // ----- What every attempt keeps -------------------------------------------------------

  /** Writing a wrong value under a missing key leaves the item as unsettled as it was. */
  lemma OrderlyStep(n: Desired, o: World, w: World, c: Call)
    requires Orderly(n, w, c)
    ensures Gap(n, Apply(w, c)) <= Gap(n, w)
    ensures Ordered(n, o, w) ==> Ordered(n, o, Apply(w, c))
  {
    if Safe(n, w, c) {
      StepShrinksGap(n, w, c);
      if Ordered(n, o, w) {
        StepKeepsOrdered(n, o, w, c);
      }
    } else {
      forall d | Differs(n, Apply(w, c), d) ensures Differs(n, w, d) {
      }
      assert !Ready(n, w);
    }
  }

  /** The gap never grows and the order of routes, services and addresses holds at every
      point of an attempt, refused or not. */
  lemma {:induction false} OrderlyRunKeeps(n: Desired, w: World, cs: seq<Call>)
    requires OrderlyRun(n, w, cs)
    ensures Gap(n, Exec(w, cs)) <= Gap(n, w)
    ensures Ordered(n, w, Exec(w, cs))
  {
    if cs != [] {
      var m := |cs| - 1;
      OrderlyRunKeeps(n, w, cs[..m]);
      OrderlyStep(n, w, Exec(w, cs[..m]), cs[m]);
    }
  }

  /** Keys only: every resource set is between old and new, an obsolete service is intact
      until it goes, and a surviving service always has all its old or all its new reals. */
  ghost predicate KeysBetween(n: Desired, o: World, w: World) {
    && o.ipvs.Keys * n.services.Keys <= w.ipvs.Keys <= o.ipvs.Keys + n.services.Keys
    && o.bgp.Keys * n.routes.Keys <= w.bgp.Keys <= o.bgp.Keys + n.routes.Keys
    && o.Links() * n.links <= w.Links() <= o.Links() + n.links
    && forall s <- w.ipvs :: RealKeysBetween(n, o, w, s)
  }

  ghost predicate RealKeysBetween(n: Desired, o: World, w: World, s: Service)
    requires s in w.ipvs
  {
    && (s in o.ipvs && s !in n.services ==> w.ipvs[s] == o.ipvs[s])
    && (s !in o.ipvs && s in n.services ==> w.ipvs[s].Keys <= n.services[s].Keys)
    && (s in o.ipvs && s in n.services ==>
          && o.ipvs[s].Keys * n.services[s].Keys <= w.ipvs[s].Keys <= o.ipvs[s].Keys + n.services[s].Keys
          && (o.ipvs[s].Keys <= w.ipvs[s].Keys || n.services[s].Keys <= w.ipvs[s].Keys))
  }

  lemma OrderlyKeepsReals(n: Desired, o: World, w: World, c: Call, s: Service)
    requires Orderly(n, w, c) && s in Apply(w, c).ipvs
    requires if s in w.ipvs then RealKeysBetween(n, o, w, s) else s !in o.ipvs || s !in n.services
    ensures RealKeysBetween(n, o, Apply(w, c), s)
  {
  }

  lemma OrderlyKeepsKeys(n: Desired, o: World, w: World, c: Call)
    requires KeysBetween(n, o, w) && Orderly(n, w, c)
    ensures KeysBetween(n, o, Apply(w, c))
  {
    forall s | s in Apply(w, c).ipvs ensures RealKeysBetween(n, o, Apply(w, c), s) {
      OrderlyKeepsReals(n, o, w, c, s);
    }
  }

  lemma {:induction false} OrderlyRunStaysBetween(n: Desired, w: World, cs: seq<Call>)
    requires OrderlyRun(n, w, cs)
    ensures KeysBetween(n, w, Exec(w, cs))
  {
    if cs != [] {
      var m := |cs| - 1;
      OrderlyRunStaysBetween(n, w, cs[..m]);
      OrderlyKeepsKeys(n, w, Exec(w, cs[..m]), cs[m]);
    }
  }

  // ----- Clashes ------------------------------------------------------------------------

  /** The desired services that are not there yet. */
  function Missing(n: Desired, w: World): set<Service> {
    n.services.Keys - w.ipvs.Keys
  }

  /** No missing service shares its kernel name with another one, present or missing. */
  ghost predicate NoClash(n: Desired, w: World) {
    ClashFree(w.ipvs.Keys, Missing(n, w))
  }

  lemma PlacingKeepsClash(n: Desired, w: World, s: Service)
    requires Safe(n, w, AddService(s))
    ensures NoClash(n, Apply(w, AddService(s))) <==> NoClash(n, w)
  {
    var w' := Apply(w, AddService(s));
    assert w'.ipvs.Keys == w.ipvs.Keys + {s} && Missing(n, w') == Missing(n, w) - {s};
    if !NoClash(n, w) {
      var x, y :| x in Missing(n, w) && y in w.ipvs.Keys + Missing(n, w) && x != y && x.attributes == y.attributes;
      if x == s {
        assert y in Missing(n, w') && x in w'.ipvs.Keys;
      } else {
        assert x in Missing(n, w') && y in w'.ipvs.Keys + Missing(n, w');
      }
    }
  }

  lemma ClashStays(n: Desired, w: World, c: Call)
    requires Orderly(n, w, c)
    ensures NoClash(n, Apply(w, c)) <==> NoClash(n, w)
    ensures Missing(n, Apply(w, c)) <= Missing(n, w)
  {
    var w' := Apply(w, c);
    match c {
      case AddService(s) => PlacingKeepsClash(n, w, s);
      case DelService(s) => assert Missing(n, w) == {} && Missing(n, w') == {};
      case _ => assert w'.ipvs.Keys == w.ipvs.Keys;
    }
  }

  /** No attempt, however it ends, makes a clash or removes one. */
  lemma {:induction false} RunKeepsClash(n: Desired, w: World, cs: seq<Call>)
    requires OrderlyRun(n, w, cs)
    ensures NoClash(n, Exec(w, cs)) <==> NoClash(n, w)
    ensures Missing(n, Exec(w, cs)) <= Missing(n, w)
  {
    if cs != [] {
      var m := |cs| - 1;
      RunKeepsClash(n, w, cs[..m]);
      ClashStays(n, Exec(w, cs[..m]), cs[m]);
    }
  }

  lemma StuckStep(n: Desired, w: World, c: Call, s: Service, t: Service)
    requires s in n.services && s !in w.ipvs && t in w.ipvs && s.attributes == t.attributes
    requires Orderly(n, w, c)
    ensures s !in Apply(w, c).ipvs && t in Apply(w, c).ipvs
  {
    assert !Ready(n, w);
    assert c != AddService(s);
  }

  /** A change of scheduler or flags on a service that is up is never applied: new services
      are added before old ones are deleted, and the kernel tells the two apart by neither.
      However often it is tried the old service stays and the new one never comes. */
  lemma {:induction false} RescheduledIsStuck(n: Desired, w: World, cs: seq<Call>, s: Service, t: Service)
    requires s in n.services && s !in w.ipvs && t in w.ipvs && s.attributes == t.attributes
    requires OrderlyRun(n, w, cs)
    ensures s !in Exec(w, cs).ipvs && t in Exec(w, cs).ipvs && !Converged(n, Exec(w, cs))
  {
    if cs != [] {
      RescheduledIsStuck(n, w, cs[..|cs| - 1], s, t);
      StuckStep(n, Exec(w, cs[..|cs| - 1]), cs[|cs| - 1], s, t);
    }
  }

  // ----- Adding as far as the kernel goes -----------------------------------------------

  ghost predicate WantedAdd(n: Desired, c: Call) {
    || (c.AddService? && c.s in n.services)
    || (c.AddReal? && c.s in n.services && c.k in n.services[c.s])
  }

  lemma {:induction false} RealAddsWanted(n: Desired, s: Service, ups: seq<Upstream>)
    requires s in n.services && forall u <- ups :: UpstreamKey(u) in n.services[s]
    ensures forall c <- AddRealCalls(s, ups) :: WantedAdd(n, c)
  {
    if ups != [] {
      assert ups[|ups| - 1] in ups && forall u <- ups[..|ups| - 1] :: u in ups;
      RealAddsWanted(n, s, ups[..|ups| - 1]);
    }
  }

  lemma {:induction false} AddsWanted(n: Desired, bs: seq<BalancerState>)
    requires AllWanted(n, bs)
    ensures forall c <- AddBalancerCalls(bs) :: WantedAdd(n, c)
  {
    if bs != [] {
      var b := bs[|bs| - 1];
      assert b in bs && forall x <- bs[..|bs| - 1] :: x in bs;
      AddsWanted(n, bs[..|bs| - 1]);
      RealAddsWanted(n, b.service, b.upstreams);
    }
  }

  /** Whatever of the new services the kernel accepted was added in order. */
  lemma {:induction false} LegalAddsOrderly(n: Desired, w: World, cs: seq<Call>)
    requires LegalRun(w, cs) && w.bgp.Keys <= n.routes.Keys && forall c <- cs :: WantedAdd(n, c)
    ensures OrderlyRun(n, w, cs) && Exec(w, cs).bgp == w.bgp
  {
    if cs != [] {
      assert cs[|cs| - 1] in cs && forall c <- cs[..|cs| - 1] :: c in cs;
      LegalAddsOrderly(n, w, cs[..|cs| - 1]);
    }
  }

  /** The kernel refused the first balancer of bs that lists a real twice, after taking its
      service: w' has the services of the balancers up to and including it. */
  ghost predicate StuckAt(w: World, bs: seq<BalancerState>, i: nat, w': World) {
    && i < |bs| && UniqueReals(bs[..i]) && !DistinctKeys(bs[i].upstreams, UpstreamKey)
    && w'.ipvs.Keys == w.ipvs.Keys + Services(bs[..i + 1])
  }

  lemma LegalPrefix(w: World, cs: seq<Call>, k: nat)
    requires LegalRun(w, cs) && k <= |cs|
    ensures LegalRun(w, cs[..k])
  {
    assert cs == cs[..k] + cs[k..];
    LegalAppend(w, cs[..k], cs[k..]);
  }

  lemma {:induction false} AddRealsKeys(w: World, s: Service, ups: seq<Upstream>, k: nat)
    requires s in w.ipvs && k <= |AddRealCalls(s, ups)|
    ensures Exec(w, AddRealCalls(s, ups)[..k]).ipvs.Keys == w.ipvs.Keys
  {
    if ups != [] {
      var ini := AddRealCalls(s, ups[..|ups| - 1]);
      if k <= |ini| {
        assert AddRealCalls(s, ups)[..k] == ini[..k];
        AddRealsKeys(w, s, ups[..|ups| - 1], k);
      } else {
        assert AddRealCalls(s, ups)[..k] == AddRealCalls(s, ups);
        AddRealsExec(w, s, ups);
      }
    }
  }

  lemma AddOneKeys(w: World, b: BalancerState, k: nat)
    requires 0 < k <= |AddOneCalls(b)|
    ensures Exec(w, AddOneCalls(b)[..k]).ipvs.Keys == w.ipvs.Keys + {b.service}
  {
    var c, rs := AddService(b.service), AddRealCalls(b.service, b.upstreams);
    assert AddOneCalls(b)[..k] == [c] + rs[..k - 1];
    ExecAppend(w, [c], rs[..k - 1]);
    var w1 := Apply(w, c);
    assert Exec(w, [c]) == w1 by {
      ExecSnoc(w, [], c);
      assert [] + [c] == [c];
    }
    assert b.service in w1.ipvs && w1.ipvs.Keys == w.ipvs.Keys + {b.service};
    AddRealsKeys(w1, b.service, b.upstreams, k - 1);
  }

  lemma StuckAtOne(w: World, b: BalancerState, k: nat)
    requires forall t <- w.ipvs :: t.attributes != b.service.attributes
    requires k < |AddOneCalls(b)| && !LegalRun(w, AddOneCalls(b)[..k + 1])
    ensures !DistinctKeys(b.upstreams, UpstreamKey)
    ensures Exec(w, AddOneCalls(b)[..k]).ipvs.Keys == w.ipvs.Keys + {b.service}
  {
    AddOneLegal(w, b);
    if LegalRun(w, AddOneCalls(b)) {
      LegalPrefix(w, AddOneCalls(b), k + 1);
    }
    assert k > 0 by {
      assert AddOneCalls(b)[..1] == [] + [AddService(b.service)];
      LegalSnoc(w, [], AddService(b.service));
    }
    AddOneKeys(w, b, k);
  }

  /** The last balancer is the one the kernel refuses, so it lists a real twice. */
  lemma StuckAtLast(w: World, ini: seq<BalancerState>, b: BalancerState, k: nat)
    requires AllNew(w.ipvs.Keys, ini + [b]) && ClashFree(w.ipvs.Keys, Services(ini + [b]))
    requires LegalRun(w, AddBalancerCalls(ini)) && k < |AddOneCalls(b)|
    requires !LegalRun(w, AddBalancerCalls(ini) + AddOneCalls(b)[..k + 1])
    ensures UniqueReals(ini) && !DistinctKeys(b.upstreams, UpstreamKey)
    ensures Exec(w, AddBalancerCalls(ini) + AddOneCalls(b)[..k]).ipvs.Keys == w.ipvs.Keys + Services(ini + [b])
  {
    var w1 := Exec(w, AddBalancerCalls(ini));
    AllNewSnoc(w.ipvs.Keys, ini, b);
    ClashFreeGrow(w.ipvs.Keys, Services(ini), b.service);
    assert UniqueReals(ini) by {
      AddBalancersLegal(w, ini);
    }
    assert w1.ipvs.Keys == w.ipvs.Keys + Services(ini) by {
      AddBalancersExec(w, ini);
      NewServicesKeys(ini);
    }
    LegalAppend(w, AddBalancerCalls(ini), AddOneCalls(b)[..k + 1]);
    StuckAtOne(w1, b, k);
    ExecAppend(w, AddBalancerCalls(ini), AddOneCalls(b)[..k]);
  }

  lemma PrefixOfTwo(a: seq<Call>, b: seq<Call>, k: nat)
    requires k <= |a| + |b|
    ensures (a + b)[..k] == if k <= |a| then a[..k] else a + b[..k - |a|]
    ensures k == |a| ==> a[..k] == a + b[..0]
  {
  }

  lemma StuckAtEnd(w: World, ini: seq<BalancerState>, b: BalancerState, w': World)
    requires UniqueReals(ini) && !DistinctKeys(b.upstreams, UpstreamKey)
    requires w'.ipvs.Keys == w.ipvs.Keys + Services(ini + [b])
    ensures StuckAt(w, ini + [b], |ini|, w')
  {
    assert (ini + [b])[..|ini|] == ini && (ini + [b])[..|ini| + 1] == ini + [b];
  }

  lemma StuckAtEarlier(w: World, ini: seq<BalancerState>, b: BalancerState, i: nat, w': World)
    requires StuckAt(w, ini, i, w')
    ensures StuckAt(w, ini + [b], i, w')
  {
    assert (ini + [b])[..i] == ini[..i] && (ini + [b])[..i + 1] == ini[..i + 1];
  }

  /** Where nothing clashes, the call the kernel refuses is a real listed twice. */
  lemma {:induction false} RefusedAtRepeat(w: World, bs: seq<BalancerState>, k: nat) returns (i: nat)
    requires AllNew(w.ipvs.Keys, bs) && ClashFree(w.ipvs.Keys, Services(bs))
    requires k < |AddBalancerCalls(bs)| && LegalRun(w, AddBalancerCalls(bs)[..k])
    requires !LegalRun(w, AddBalancerCalls(bs)[..k + 1])
    ensures StuckAt(w, bs, i, Exec(w, AddBalancerCalls(bs)[..k]))
  {
    var ini, b := bs[..|bs| - 1], bs[|bs| - 1];
    var cs, one := AddBalancerCalls(ini), AddOneCalls(b);
    var all := cs + one;
    assert bs == ini + [b] && AddBalancerCalls(bs) == all;
    PrefixOfTwo(cs, one, k);
    PrefixOfTwo(cs, one, k + 1);
    if k < |cs| {
      assert all[..k] == cs[..k] && all[..k + 1] == cs[..k + 1];
      AllNewSnoc(w.ipvs.Keys, ini, b);
      ClashFreeGrow(w.ipvs.Keys, Services(ini), b.service);
      i := RefusedAtRepeat(w, ini, k);
      StuckAtEarlier(w, ini, b, i, Exec(w, cs[..k]));
    } else {
      var j := k - |cs|;
      assert all[..k] == cs + one[..j] && all[..k + 1] == cs + one[..j + 1];
      LegalAppend(w, cs, one[..j]);
      StuckAtLast(w, ini, b, j);
      StuckAtEnd(w, ini, b, Exec(w, cs + one[..j]));
      i := |ini|;
    }
  }

  /** A new balancer that lists one real with two values first writes the one that is not
      wanted, which is not safe, and is then refused. */
  lemma RepeatedRealMisplaced(n: Desired, w: World, s: Service, u: Upstream, v: Upstream)
    requires UpstreamKey(u) == UpstreamKey(v) && RealOf(u) != RealOf(v)
    requires s in n.services && n.services[s] == RealsOf([u, v]) && w.bgp.Keys <= n.routes.Keys
    ensures var w1 := Apply(w, AddService(s));
            var first, second := AddReal(s, UpstreamKey(u), RealOf(u)), AddReal(s, UpstreamKey(v), RealOf(v));
            && Legal(w1, first) && Orderly(n, w1, first) && !Safe(n, w1, first)
            && !Legal(Apply(w1, first), second)
  {
    RealsInit([u, v]);
    assert [u, v][..1] == [u];
  }

  // ----- Services that need another attempt ---------------------------------------------

  /** The missing services whose balancer lists a real twice. */
  ghost function Doubled(st: DataPlaneState, w: World): set<Service> {
    var m := KeyGen(st.balancers, BalancerKey);
    set s | s in m.Keys - w.ipvs.Keys && !DistinctKeys(m[s].upstreams, UpstreamKey)
  }

  /** The kernel can take every desired service that is not there yet. */
  ghost predicate Applicable(w: World, st: DataPlaneState) {
    NoClash(View(st), w) && Doubled(st, w) == {}
  }

  /** Which stays so however an attempt ends, so every retry of an applicable state is
      again a safe run. */
  lemma RunKeepsApplicable(st: DataPlaneState, w: World, cs: seq<Call>)
    requires OrderlyRun(View(st), w, cs)
    ensures Doubled(st, Exec(w, cs)) <= Doubled(st, w)
    ensures Applicable(w, st) ==> Applicable(Exec(w, cs), st)
  {
    RunKeepsClash(View(st), w, cs);
    assert forall s <- Doubled(st, Exec(w, cs)) :: s in Missing(View(st), Exec(w, cs));
  }

  lemma UniqueNotDoubled(st: DataPlaneState, w: World, bs: seq<BalancerState>, b: BalancerState)
    requires Lists(bs, KeyGen(st.balancers, BalancerKey), Missing(View(st), w), BalancerKey) && b in bs
    ensures b.service in Doubled(st, w) <==> !DistinctKeys(b.upstreams, UpstreamKey)
  {
    assert BalancerKey(b) in KeyGen(st.balancers, BalancerKey);
  }

  lemma UniqueNotAmongDoubled(st: DataPlaneState, w: World, bs: seq<BalancerState>, i: nat)
    requires Lists(bs, KeyGen(st.balancers, BalancerKey), Missing(View(st), w), BalancerKey)
    requires i <= |bs| && UniqueReals(bs[..i])
    ensures Services(bs[..i]) !! Doubled(st, w)
  {
    forall b | b in bs[..i] ensures b.service !in Doubled(st, w) {
      assert b in bs;
      UniqueNotDoubled(st, w, bs, b);
    }
  }

  lemma DoubledLess(st: DataPlaneState, w: World, w': World, fine: set<Service>, s: Service)
    requires w'.ipvs.Keys == w.ipvs.Keys + (fine + {s}) && fine !! Doubled(st, w)
    ensures Doubled(st, w') == Doubled(st, w) - {s}
  {
  }

  /** One service that lists a real twice is no longer missing. */
  ghost predicate OneFewer(st: DataPlaneState, w: World, w': World) {
    exists s :: s in Doubled(st, w) && Doubled(st, w') == Doubled(st, w) - {s}
  }

  /** A call of the phases up to the new services. */
  predicate IsEarly(c: Call) {
    c.Withdraw? || c.Wait? || c.AddService? || c.AddReal?
  }

  ghost predicate Stuck(w: World, bs: seq<BalancerState>, w': World) {
    exists i :: StuckAt(w, bs, i, w')
  }

  /** An attempt refused at a real listed twice leaves one such service fewer. */
  lemma StuckSettlesOne(st: DataPlaneState, w: World, bs: seq<BalancerState>, i: nat, w': World)
    requires Lists(bs, KeyGen(st.balancers, BalancerKey), Missing(View(st), w), BalancerKey)
    requires StuckAt(w, bs, i, w')
    ensures bs[i].service in Doubled(st, w) && Doubled(st, w') == Doubled(st, w) - {bs[i].service}
  {
    UniqueNotDoubled(st, w, bs, bs[i]);
    UniqueNotAmongDoubled(st, w, bs, i);
    assert bs[..i + 1] == bs[..i] + [bs[i]];
    KeysSnoc(bs[..i], bs[i], BalancerKey);
    DoubledLess(st, w, w', Services(bs[..i]), bs[i].service);
  }
}
