/** What a reconciliation may do, call by call, and what follows for every run of such
    calls. The kernel modules are abstract state; a failed call has no effect. */
module Reconcile {
  import opened Types

  datatype RealKey = RealKey(address: IP, port: nat)

  datatype Real = Real(weight: nat, forward: ForwardMethod)

  type Reals = map<RealKey, Real>

  /** A data plane state seen through the comparator keys. */
  datatype Desired = Desired(services: map<Service, Reals>, routes: map<RouteId, nat>, links: set<LinkAddress>)

  /** The modules behind the manager: the IPVS table, the advertised routes with the hold
      time each was advertised with, and the address table. tracked and holds are the
      manager's own books. clock counts the time waited so far and due[r] is the moment
      until which the withdrawn route r may still attract traffic. */
  datatype World = World(
    ipvs: map<Service, Reals>,
    bgp: map<RouteId, nat>,
    table: set<LinkAddress>,
    tracked: set<LinkAddress>,
    holds: map<IP, nat>,
    due: map<RouteId, nat>,
    clock: nat)
  {
    function Links(): set<LinkAddress> {
      table * tracked
    }
  }

  datatype Call =
    | Withdraw(r: RouteId)
    | Wait(ms: nat)
    | AddService(s: Service)
    | AddReal(s: Service, k: RealKey, v: Real)
    | AddLink(a: LinkAddress)
    | UpdateReal(s: Service, k: RealKey, v: Real)
    | DelReal(s: Service, k: RealKey)
    | Advertise(r: RouteId, hold: nat)
    | DelService(s: Service)
    | DelLink(a: LinkAddress)

  /** What the kernel accepts: it names a service by protocol, address and port, or by
      mark, and refuses to add what exists or to touch what does not. */
  predicate Legal(w: World, c: Call) {
    match c
    case Withdraw(r) => r in w.bgp
    case Wait(_) => true
    case AddService(s) => forall t <- w.ipvs :: t.attributes != s.attributes
    case AddReal(s, k, _) => s in w.ipvs && k !in w.ipvs[s]
    case AddLink(a) => true
    case UpdateReal(s, k, _) => s in w.ipvs && k in w.ipvs[s]
    case DelReal(s, k) => s in w.ipvs && k in w.ipvs[s]
    case Advertise(r, _) => r !in w.bgp
    case DelService(s) => s in w.ipvs
    case DelLink(a) => true
  }

  function Apply(w: World, c: Call): World {
    match c
    case Withdraw(r) =>
      if r in w.bgp
      then w.(bgp := w.bgp - {r}, holds := w.holds - {r.prefix}, due := w.due[r := w.clock + w.bgp[r]])
      else w
    case Wait(ms) => w.(clock := w.clock + ms)
    case AddService(s) => w.(ipvs := w.ipvs[s := map[]])
    case AddReal(s, k, v) => if s in w.ipvs then w.(ipvs := w.ipvs[s := w.ipvs[s][k := v]]) else w
    case AddLink(a) => w.(table := w.table + {a}, tracked := w.tracked + {a})
    case UpdateReal(s, k, v) => if s in w.ipvs then w.(ipvs := w.ipvs[s := w.ipvs[s][k := v]]) else w
    case DelReal(s, k) => if s in w.ipvs then w.(ipvs := w.ipvs[s := w.ipvs[s] - {k}]) else w
    case Advertise(r, h) => w.(bgp := w.bgp[r := h], holds := w.holds[r.prefix := h], due := w.due - {r})
    case DelService(s) => w.(ipvs := w.ipvs - {s})
    case DelLink(a) => w.(table := w.table - {a}, tracked := w.tracked - {a})
  }

  /** No new service shares its kernel name with another existing or new one. */
  ghost predicate ClashFree(ipvs: set<Service>, added: set<Service>) {
    forall s, t :: s in added && t in ipvs + added && s != t ==> s.attributes != t.attributes
  }

  ghost predicate Within(a: Reals, b: Reals) {
    forall k <- a :: k in b && b[k] == a[k]
  }

  /** Every desired service has exactly its desired reals and every desired address is up. */
  ghost predicate Ready(n: Desired, w: World) {
    && (forall s <- n.services :: s in w.ipvs && w.ipvs[s] == n.services[s])
    && n.links <= w.Links()
  }

  /** The calls a reconciliation towards n may issue in w. */
  ghost predicate Safe(n: Desired, w: World, c: Call) {
    && Legal(w, c)
    && (c.Withdraw? || c.Wait? || w.bgp.Keys <= n.routes.Keys)
    && match c
       case Withdraw(r) => r !in n.routes
       case Wait(_) => true
       case AddService(s) => s in n.services
       case AddReal(s, k, v) => s in n.services && k in n.services[s] && n.services[s][k] == v
       case AddLink(a) => a in n.links && a !in w.Links() && n.services.Keys <= w.ipvs.Keys
       case UpdateReal(s, k, v) =>
         && s in n.services && k in n.services[s] && n.services[s][k] == v
         && n.services[s].Keys <= w.ipvs[s].Keys && n.links <= w.Links()
       case DelReal(s, k) =>
         && s in n.services && k !in n.services[s]
         && Within(n.services[s], w.ipvs[s]) && n.links <= w.Links()
       case Advertise(r, h) => r in n.routes && n.routes[r] == h && Ready(n, w)
       case DelService(s) => s !in n.services && Ready(n, w) && w.bgp.Keys == n.routes.Keys
       case DelLink(a) =>
         && a !in n.links && a in w.Links()
         && Ready(n, w) && w.bgp.Keys == n.routes.Keys && w.ipvs.Keys == n.services.Keys
  }

  function Exec(w: World, cs: seq<Call>): World {
    if cs == [] then w else Apply(Exec(w, cs[..|cs| - 1]), cs[|cs| - 1])
  }

  /** Every call of cs is safe in the state the calls before it left. */
  ghost predicate SafeRun(n: Desired, w: World, cs: seq<Call>) {
    cs == [] || (SafeRun(n, w, cs[..|cs| - 1]) && Safe(n, Exec(w, cs[..|cs| - 1]), cs[|cs| - 1]))
  }

  lemma ExecSnoc(w: World, cs: seq<Call>, c: Call)
    ensures Exec(w, cs + [c]) == Apply(Exec(w, cs), c)
  {
    assert (cs + [c])[..|cs|] == cs;
  }

  lemma RunSnoc(n: Desired, w: World, cs: seq<Call>, c: Call)
    ensures Exec(w, cs + [c]) == Apply(Exec(w, cs), c)
    ensures SafeRun(n, w, cs + [c]) <==> SafeRun(n, w, cs) && Safe(n, Exec(w, cs), c)
  {
    assert (cs + [c])[..|cs|] == cs;
  }

  lemma {:induction false} ExecAppend(w: World, a: seq<Call>, b: seq<Call>)
    ensures Exec(w, a + b) == Exec(Exec(w, a), b)
    decreases |b|
  {
    if b == [] {
      assert a + b == a;
    } else {
      var m := |b| - 1;
      assert a + b == (a + b[..m]) + [b[m]];
      ExecAppend(w, a, b[..m]);
      ExecSnoc(w, a + b[..m], b[m]);
    }
  }

  /** Runs compose, so the states of a retried reconciliation are those of one run. */
  lemma {:induction false} RunAppend(n: Desired, w: World, a: seq<Call>, b: seq<Call>)
    ensures Exec(w, a + b) == Exec(Exec(w, a), b)
    ensures SafeRun(n, w, a) && SafeRun(n, Exec(w, a), b) <==> SafeRun(n, w, a + b)
    decreases |b|
  {
    ExecAppend(w, a, b);
    if b == [] {
      assert a + b == a;
    } else {
      var m := |b| - 1;
      assert a + b == (a + b[..m]) + [b[m]];
      RunAppend(n, w, a, b[..m]);
      ExecAppend(w, a, b[..m]);
      RunSnoc(n, w, a + b[..m], b[m]);
    }
  }

  lemma {:induction false} RunPrefix(n: Desired, w: World, cs: seq<Call>, k: nat)
    requires SafeRun(n, w, cs) && k <= |cs|
    ensures SafeRun(n, w, cs[..k])
    ensures k < |cs| ==> Safe(n, Exec(w, cs[..k]), cs[k])
  {
    if k == |cs| {
      assert cs[..k] == cs;
    } else {
      var ini := cs[..|cs| - 1];
      assert ini[..k] == cs[..k];
      RunPrefix(n, w, ini, k);
    }
  }

  /** Every call of cs is accepted by the kernel in the state the calls before it left. */
  ghost predicate LegalRun(w: World, cs: seq<Call>) {
    cs == [] || (LegalRun(w, cs[..|cs| - 1]) && Legal(Exec(w, cs[..|cs| - 1]), cs[|cs| - 1]))
  }

  lemma LegalSnoc(w: World, cs: seq<Call>, c: Call)
    ensures LegalRun(w, cs + [c]) <==> LegalRun(w, cs) && Legal(Exec(w, cs), c)
  {
    assert (cs + [c])[..|cs|] == cs;
  }

  lemma {:induction false} LegalAppend(w: World, a: seq<Call>, b: seq<Call>)
    ensures LegalRun(w, a) && LegalRun(Exec(w, a), b) <==> LegalRun(w, a + b)
    decreases |b|
  {
    if b == [] {
      assert a + b == a;
    } else {
      var m := |b| - 1;
      assert a + b == (a + b[..m]) + [b[m]];
      LegalAppend(w, a, b[..m]);
      ExecAppend(w, a, b[..m]);
      LegalSnoc(w, a + b[..m], b[m]);
    }
  }

  lemma {:induction false} SafeIsLegal(n: Desired, w: World, cs: seq<Call>)
    requires SafeRun(n, w, cs)
    ensures LegalRun(w, cs)
  {
    if cs != [] {
      SafeIsLegal(n, w, cs[..|cs| - 1]);
    }
  }

  // ----- Distance ---------------------------------------------------------------------

  datatype Item = SvcItem(s: Service) | RealItem(s: Service, k: RealKey) | RouteItem(r: RouteId) | LinkItem(a: LinkAddress)

  function Lookup(m: map<Service, Reals>, s: Service, k: RealKey): Option<Real> {
    if s in m && k in m[s] then Some(m[s][k]) else None
  }

  predicate Differs(n: Desired, w: World, d: Item) {
    match d
    case SvcItem(s) => (s in n.services) != (s in w.ipvs)
    case RealItem(s, k) => s in n.services && Lookup(n.services, s, k) != Lookup(w.ipvs, s, k)
    case RouteItem(r) => (r in n.routes) != (r in w.bgp)
    case LinkItem(a) => (a in n.links) != (a in w.Links())
  }

  function RealItems(m: map<Service, Reals>): set<Item> {
    set s, k | s in m && k in m[s] :: RealItem(s, k)
  }

  function Universe(n: Desired, w: World): set<Item> {
    (set s | s in n.services.Keys + w.ipvs.Keys :: SvcItem(s))
    + RealItems(n.services) + RealItems(w.ipvs)
    + (set r | r in n.routes.Keys + w.bgp.Keys :: RouteItem(r))
    + (set a | a in n.links + w.Links() :: LinkItem(a))
  }

  /** The items on which the desired and the actual state disagree. */
  function Gap(n: Desired, w: World): (g: set<Item>)
    ensures forall d :: d in g <==> Differs(n, w, d)
  {
    set d | d in Universe(n, w) && Differs(n, w, d)
  }

  predicate Converged(n: Desired, w: World) {
    n.services == w.ipvs && n.routes.Keys == w.bgp.Keys && n.links == w.Links()
  }

  lemma GapEmptyIffConverged(n: Desired, w: World)
    ensures Gap(n, w) == {} <==> Converged(n, w)
  {
    if Gap(n, w) == {} {
      forall s ensures s in n.services <==> s in w.ipvs {
        assert !Differs(n, w, SvcItem(s));
      }
      forall s | s in n.services ensures n.services[s] == w.ipvs[s] {
        forall k ensures Lookup(n.services, s, k) == Lookup(w.ipvs, s, k) {
          assert !Differs(n, w, RealItem(s, k));
        }
        assert forall k :: k in n.services[s] <==> Lookup(n.services, s, k).Some?;
        assert forall k :: k in w.ipvs[s] <==> Lookup(w.ipvs, s, k).Some?;
      }
      assert n.routes.Keys == w.bgp.Keys by {
        forall r ensures r in n.routes <==> r in w.bgp { assert !Differs(n, w, RouteItem(r)); }
      }
      assert n.links == w.Links() by {
        forall a ensures a in n.links <==> a in w.Links() { assert !Differs(n, w, LinkItem(a)); }
      }
    } else {
      var d :| d in Gap(n, w);
      assert Differs(n, w, d);
    }
  }

  /** An update that writes the values a real already has; only a hostname made it look
      changed. */
  predicate Refresh(w: World, c: Call) {
    c.UpdateReal? && Lookup(w.ipvs, c.s, c.k) == Some(c.v)
  }

  function Target(c: Call): Item
    requires !c.Wait?
  {
    match c
    case Withdraw(r) => RouteItem(r)
    case AddService(s) => SvcItem(s)
    case AddReal(s, k, _) => RealItem(s, k)
    case AddLink(a) => LinkItem(a)
    case UpdateReal(s, k, _) => RealItem(s, k)
    case DelReal(s, k) => RealItem(s, k)
    case Advertise(r, _) => RouteItem(r)
    case DelService(s) => SvcItem(s)
    case DelLink(a) => LinkItem(a)
  }

  /** What a call settles: its target, unless it only waits or rewrites. */
  ghost predicate Settles(n: Desired, w: World, c: Call, d: Item) {
    if c.Wait? || Refresh(w, c) then Differs(n, Apply(w, c), d) <==> Differs(n, w, d)
    else Differs(n, w, Target(c)) && (Differs(n, Apply(w, c), d) <==> Differs(n, w, d) && d != Target(c))
  }

  lemma StepDiffersInIpvs(n: Desired, w: World, c: Call, d: Item)
    requires Safe(n, w, c) && (d.SvcItem? || d.RealItem?)
    ensures Settles(n, w, c, d)
  {
  }

  lemma StepDiffersOutside(n: Desired, w: World, c: Call, d: Item)
    requires Safe(n, w, c) && (d.RouteItem? || d.LinkItem?)
    ensures Settles(n, w, c, d)
  {
  }

  lemma StepDiffers(n: Desired, w: World, c: Call, d: Item)
    requires Safe(n, w, c)
    ensures c.Wait? || Refresh(w, c) ==> (Differs(n, Apply(w, c), d) <==> Differs(n, w, d))
    ensures !c.Wait? && !Refresh(w, c) ==>
              Differs(n, w, Target(c)) && (Differs(n, Apply(w, c), d) <==> Differs(n, w, d) && d != Target(c))
  {
    if d.SvcItem? || d.RealItem? {
      StepDiffersInIpvs(n, w, c, d);
    } else {
      StepDiffersOutside(n, w, c, d);
    }
  }

  /** A safe mutating call settles exactly one item and unsettles none. */
  lemma StepShrinksGap(n: Desired, w: World, c: Call)
    requires Safe(n, w, c)
    ensures c.Wait? || Refresh(w, c) ==> Gap(n, Apply(w, c)) == Gap(n, w)
    ensures !c.Wait? && !Refresh(w, c) ==>
              Target(c) in Gap(n, w) && Gap(n, Apply(w, c)) == Gap(n, w) - {Target(c)}
  {
    forall d
      ensures c.Wait? || Refresh(w, c) ==> (Differs(n, Apply(w, c), d) <==> Differs(n, w, d))
      ensures !c.Wait? && !Refresh(w, c) ==>
                Differs(n, w, Target(c)) && (Differs(n, Apply(w, c), d) <==> Differs(n, w, d) && d != Target(c))
    {
      StepDiffers(n, w, c, d);
    }
    var d := SvcItem(Service(Fwmark(Inet, 0), RR, []));
    StepDiffers(n, w, c, d);
  }

  /** The calls of a run that change the modules. */
  function Mutations(w: World, cs: seq<Call>): nat {
    if cs == [] then 0
    else
      var m := |cs| - 1;
      Mutations(w, cs[..m]) + if cs[m].Wait? || Refresh(Exec(w, cs[..m]), cs[m]) then 0 else 1
  }

  /** Every mutating call of a safe run brings the state one item closer, so however often
      a reconciliation fails and is retried it makes at most |Gap| of them, and it has
      converged exactly when it has made that many. */
  lemma {:induction false} RunShrinksGap(n: Desired, w: World, cs: seq<Call>)
    requires SafeRun(n, w, cs)
    ensures |Gap(n, Exec(w, cs))| + Mutations(w, cs) == |Gap(n, w)|
    ensures Gap(n, Exec(w, cs)) <= Gap(n, w)
    ensures Converged(n, Exec(w, cs)) <==> Mutations(w, cs) == |Gap(n, w)|
  {
    if cs != [] {
      var m := |cs| - 1;
      RunShrinksGap(n, w, cs[..m]);
      StepShrinksGap(n, Exec(w, cs[..m]), cs[m]);
    }
    GapEmptyIffConverged(n, Exec(w, cs));
  }

  // ----- Make before break ------------------------------------------------------------

  /** What never flaps while o is turned into n: every resource set stays between the
      intersection and the union, obsolete services are intact until they go, new ones
      only fill up, and a surviving service always has all its old or all its new reals,
      each with its old or its new value. */
  ghost predicate Between(n: Desired, o: World, w: World) {
    && o.ipvs.Keys * n.services.Keys <= w.ipvs.Keys <= o.ipvs.Keys + n.services.Keys
    && o.bgp.Keys * n.routes.Keys <= w.bgp.Keys <= o.bgp.Keys + n.routes.Keys
    && o.Links() * n.links <= w.Links() <= o.Links() + n.links
    && forall s <- w.ipvs :: RealsBetween(n, o, w, s)
  }

  ghost predicate RealsBetween(n: Desired, o: World, w: World, s: Service)
    requires s in w.ipvs
  {
    && (s in o.ipvs && s !in n.services ==> w.ipvs[s] == o.ipvs[s])
    && (s !in o.ipvs && s in n.services ==> Within(w.ipvs[s], n.services[s]))
    && (s in o.ipvs && s in n.services ==>
          && o.ipvs[s].Keys * n.services[s].Keys <= w.ipvs[s].Keys
          && (o.ipvs[s].Keys <= w.ipvs[s].Keys || n.services[s].Keys <= w.ipvs[s].Keys)
          && (forall k <- w.ipvs[s] ::
                || Lookup(w.ipvs, s, k) == Lookup(o.ipvs, s, k)
                || Lookup(w.ipvs, s, k) == Lookup(n.services, s, k)))
  }

  lemma StepKeepsReals(n: Desired, o: World, w: World, c: Call, s: Service)
    requires Safe(n, w, c) && s in Apply(w, c).ipvs
    requires if s in w.ipvs then RealsBetween(n, o, w, s) else s !in o.ipvs || s !in n.services
    ensures RealsBetween(n, o, Apply(w, c), s)
  {
  }

  lemma StepKeepsBetween(n: Desired, o: World, w: World, c: Call)
    requires Between(n, o, w) && Safe(n, w, c)
    ensures Between(n, o, Apply(w, c))
  {
    forall s | s in Apply(w, c).ipvs ensures RealsBetween(n, o, Apply(w, c), s) {
      StepKeepsReals(n, o, w, c, s);
    }
  }

  /** Every state of a safe run, whichever call it stops at, lies between old and new. */
  lemma {:induction false} RunStaysBetween(n: Desired, o: World, cs: seq<Call>)
    requires SafeRun(n, o, cs)
    ensures Between(n, o, Exec(o, cs))
  {
    if cs != [] {
      RunStaysBetween(n, o, cs[..|cs| - 1]);
      StepKeepsBetween(n, o, Exec(o, cs[..|cs| - 1]), cs[|cs| - 1]);
    }
  }

  /** So a service that is to keep serving is at no point without reals. */
  lemma NeverEmptied(n: Desired, o: World, cs: seq<Call>, s: Service)
    requires SafeRun(n, o, cs) && s in o.ipvs && s in n.services
    requires o.ipvs[s] != map[] && n.services[s] != map[]
    ensures s in Exec(o, cs).ipvs && Exec(o, cs).ipvs[s] != map[]
  {
    RunStaysBetween(n, o, cs);
    var w := Exec(o, cs);
    assert s in w.ipvs && RealsBetween(n, o, w, s);
    var k :| k in o.ipvs[s];
    var j :| j in n.services[s];
    assert k in w.ipvs[s] || j in w.ipvs[s];
  }

  // ----- Ordering ---------------------------------------------------------------------

  lemma StepKeepsReady(n: Desired, w: World, c: Call)
    requires Ready(n, w) && Safe(n, w, c)
    ensures Ready(n, Apply(w, c))
  {
    if c.UpdateReal? {
      assert w.ipvs[c.s][c.k := c.v] == w.ipvs[c.s];
    }
  }

  /** The order promised at every moment: a route that was not up before is up only when
      everything desired is in place, and anything obsolete is gone only when, besides,
      exactly the desired routes are up. */
  ghost predicate Ordered(n: Desired, o: World, w: World) {
    && (!(w.bgp.Keys <= o.bgp.Keys) ==> Ready(n, w) && w.bgp.Keys <= n.routes.Keys)
    && (!(o.ipvs.Keys <= w.ipvs.Keys) ==> Ready(n, w) && w.bgp.Keys == n.routes.Keys)
    && (!(o.Links() <= w.Links()) ==> Ready(n, w) && w.bgp.Keys == n.routes.Keys && w.ipvs.Keys == n.services.Keys)
  }

  lemma StepKeepsOrdered(n: Desired, o: World, w: World, c: Call)
    requires Ordered(n, o, w) && Safe(n, w, c)
    ensures Ordered(n, o, Apply(w, c))
  {
    if Ready(n, w) {
      StepKeepsReady(n, w, c);
    }
  }

  lemma {:induction false} RunStaysOrdered(n: Desired, o: World, cs: seq<Call>)
    requires SafeRun(n, o, cs)
    ensures Ordered(n, o, Exec(o, cs))
  {
    if cs != [] {
      RunStaysOrdered(n, o, cs[..|cs| - 1]);
      StepKeepsOrdered(n, o, Exec(o, cs[..|cs| - 1]), cs[|cs| - 1]);
    }
  }

  // ----- Hold times -------------------------------------------------------------------

  ghost predicate DistinctPrefixes(routes: set<RouteId>) {
    forall p, q :: p in routes && q in routes && p.prefix == q.prefix ==> p == q
  }

  /** The kernel's and the manager's books are in order: one service per kernel name, no
      withdrawn route still up, and a remembered hold time is the advertised one. */
  ghost predicate ValidWorld(w: World) {
    && (forall s, t :: s in w.ipvs && t in w.ipvs && s.attributes == t.attributes ==> s == t)
    && w.due.Keys !! w.bgp.Keys
    && DistinctPrefixes(w.bgp.Keys)
    && (forall r <- w.bgp :: r.prefix in w.holds ==> w.holds[r.prefix] == w.bgp[r])
  }

  lemma StepKeepsValid(n: Desired, w: World, c: Call)
    requires ValidWorld(w) && Safe(n, w, c) && DistinctPrefixes(n.routes.Keys)
    ensures ValidWorld(Apply(w, c))
  {
  }

  lemma {:induction false} RunKeepsValid(n: Desired, w: World, cs: seq<Call>)
    requires ValidWorld(w) && SafeRun(n, w, cs) && DistinctPrefixes(n.routes.Keys)
    ensures ValidWorld(Exec(w, cs))
  {
    if cs != [] {
      RunKeepsValid(n, w, cs[..|cs| - 1]);
      StepKeepsValid(n, Exec(w, cs[..|cs| - 1]), cs[|cs| - 1]);
    }
  }

  /** Hold times are remembered for advertised routes only. */
  ghost predicate HoldsInUse(w: World) {
    forall p <- w.holds :: exists r <- w.bgp :: r.prefix == p
  }

  lemma StepForgets(n: Desired, w: World, c: Call)
    requires ValidWorld(w) && HoldsInUse(w) && Safe(n, w, c)
    ensures HoldsInUse(Apply(w, c))
  {
    var w' := Apply(w, c);
    forall p | p in w'.holds ensures exists r <- w'.bgp :: r.prefix == p {
      if c.Advertise? && p == c.r.prefix {
        assert c.r in w'.bgp;
      } else {
        var r :| r in w.bgp && r.prefix == p;
        assert r in w'.bgp;
      }
    }
  }

  /** A withdrawn route's hold time is forgotten. */
  lemma {:induction false} RunForgetsHolds(n: Desired, w: World, cs: seq<Call>)
    requires ValidWorld(w) && HoldsInUse(w) && SafeRun(n, w, cs) && DistinctPrefixes(n.routes.Keys)
    ensures HoldsInUse(Exec(w, cs))
  {
    if cs != [] {
      RunForgetsHolds(n, w, cs[..|cs| - 1]);
      RunKeepsValid(n, w, cs[..|cs| - 1]);
      StepForgets(n, Exec(w, cs[..|cs| - 1]), cs[|cs| - 1]);
    }
  }

  /** No withdrawn route can still attract traffic. */
  ghost predicate Drained(w: World) {
    forall r <- w.due :: w.due[r] <= w.clock
  }

  /** The withdrawn routes of a run from o whose withdrawals all happened before any wait. */
  ghost predicate DueSince(n: Desired, o: World, w: World) {
    && (forall r <- w.bgp :: r !in n.routes ==> r in o.bgp && o.bgp[r] == w.bgp[r])
    && w.due.Keys == (o.due.Keys + o.bgp.Keys) - w.bgp.Keys
    && forall r <- w.due :: w.due[r] == if r in o.bgp then o.clock + o.bgp[r] else o.due[r]
  }

  lemma StepDue(n: Desired, o: World, w: World, c: Call)
    requires Safe(n, w, c) && DueSince(n, o, w) && !c.Wait?
    requires c.Withdraw? ==> w.clock == o.clock
    ensures DueSince(n, o, Apply(w, c)) && Apply(w, c).clock == w.clock
  {
  }

  lemma {:induction false} RunDue(n: Desired, o: World, w: World, cs: seq<Call>)
    requires SafeRun(n, w, cs) && DueSince(n, o, w)
    requires w.clock == o.clock || forall c <- cs :: !c.Withdraw?
    requires forall c <- cs :: !c.Wait?
    ensures DueSince(n, o, Exec(w, cs)) && Exec(w, cs).clock == w.clock
  {
    if cs != [] {
      var m := |cs| - 1;
      assert cs[m] in cs && forall c <- cs[..m] :: c in cs;
      RunDue(n, o, w, cs[..m]);
      StepDue(n, o, Exec(w, cs[..m]), cs[m]);
    }
  }

  function WaitCall(ms: nat): seq<Call> {
    if ms > 0 then [Wait(ms)] else []
  }

  /** ms is the longest hold time of the obsolete routes. */
  ghost predicate LongestHold(n: Desired, w: World, ms: nat) {
    && (forall r <- w.bgp :: r !in n.routes ==> w.bgp[r] <= ms)
    && (ms > 0 ==> exists r :: r in w.bgp && r !in n.routes && w.bgp[r] == ms)
  }

  /** The shape of a reconciliation that got past its withdrawals: withdraw, wait once for
      the longest hold time, then do the rest. */
  ghost predicate DrainsFirst(n: Desired, w: World, ws: seq<Call>, ms: nat, rest: seq<Call>) {
    && SafeRun(n, w, ws + WaitCall(ms) + rest)
    && LongestHold(n, w, ms)
    && (forall c <- ws :: c.Withdraw?)
    && (forall c <- rest :: !c.Withdraw? && !c.Wait?)
  }

  predicate Deletes(c: Call) {
    c.DelService? || c.DelLink?
  }

  /** A run that stopped while withdrawing, or drained first. */
  ghost predicate DrainShape(n: Desired, w: World, cs: seq<Call>) {
    || (forall c <- cs :: c.Withdraw?)
    || exists ws, ms, rest :: DrainsFirst(n, w, ws, ms, rest) && cs == ws + WaitCall(ms) + rest
  }

  lemma DrainReaches(n: Desired, o: World, ws: seq<Call>, ms: nat, rest: seq<Call>, k: nat) returns (w: World)
    requires ValidWorld(o) && DrainsFirst(n, o, ws, ms, rest) && k < |rest|
    ensures w == Exec(o, ws + WaitCall(ms) + rest[..k])
    ensures Safe(n, w, rest[k]) && DueSince(n, o, w) && w.clock == o.clock + ms
  {
    RunAppend(n, o, ws + WaitCall(ms), rest);
    RunAppend(n, o, ws, WaitCall(ms));
    RunDue(n, o, o, ws);
    var mid := Exec(o, ws + WaitCall(ms));
    if ms > 0 {
      assert Exec(Exec(o, ws), [] + [Wait(ms)]) == Apply(Exec(o, ws), Wait(ms)) by {
        RunSnoc(n, Exec(o, ws), [], Wait(ms));
      }
      assert [] + [Wait(ms)] == WaitCall(ms);
    }
    RunPrefix(n, mid, rest, k);
    assert forall c <- rest[..k] :: c in rest;
    RunDue(n, o, mid, rest[..k]);
    RunAppend(n, o, ws + WaitCall(ms), rest[..k]);
    w := Exec(mid, rest[..k]);
  }

  /** When a reconciliation removes an obsolete service or address no withdrawn route can
      still attract traffic, if and only if every route withdrawn before this
      reconciliation, and not wanted now, drains within the wait of this one. */
  lemma DrainedAtDeletion(n: Desired, o: World, ws: seq<Call>, ms: nat, rest: seq<Call>, k: nat)
    requires ValidWorld(o) && DrainsFirst(n, o, ws, ms, rest)
    requires k < |rest| && Deletes(rest[k])
    ensures Drained(Exec(o, ws + WaitCall(ms) + rest[..k])) <==>
            forall r <- o.due.Keys - n.routes.Keys :: o.due[r] <= o.clock + ms
  {
    var w := DrainReaches(n, o, ws, ms, rest, k);
    assert w.bgp.Keys == n.routes.Keys;
    forall r | r in w.due ensures w.due[r] <= w.clock <==> (r in o.bgp || o.due[r] <= o.clock + ms) {
      if r in o.bgp {
        assert o.bgp[r] <= ms;
      }
    }
    assert forall r <- o.due.Keys - n.routes.Keys :: r in w.due && r !in o.bgp;
  }

  // ----- Needless updates -------------------------------------------------------------

  ghost predicate NoRefresh(w: World, cs: seq<Call>) {
    cs == [] || (NoRefresh(w, cs[..|cs| - 1]) && !Refresh(Exec(w, cs[..|cs| - 1]), cs[|cs| - 1]))
  }

  lemma NoRefreshSnoc(w: World, cs: seq<Call>, c: Call)
    ensures NoRefresh(w, cs + [c]) <==> NoRefresh(w, cs) && !Refresh(Exec(w, cs), c)
  {
    assert (cs + [c])[..|cs|] == cs;
  }

  lemma {:induction false} NoUpdateNoRefresh(w: World, cs: seq<Call>)
    requires forall c <- cs :: !c.UpdateReal?
    ensures NoRefresh(w, cs)
  {
    if cs != [] {
      assert cs[|cs| - 1] in cs && forall c <- cs[..|cs| - 1] :: c in cs;
      NoUpdateNoRefresh(w, cs[..|cs| - 1]);
    }
  }

  lemma {:induction false} NoRefreshAppend(w: World, a: seq<Call>, b: seq<Call>)
    ensures NoRefresh(w, a) && NoRefresh(Exec(w, a), b) <==> NoRefresh(w, a + b)
    decreases |b|
  {
    if b == [] {
      assert a + b == a;
    } else {
      var m := |b| - 1;
      assert a + b == (a + b[..m]) + [b[m]];
      NoRefreshAppend(w, a, b[..m]);
      ExecAppend(w, a, b[..m]);
      NoRefreshSnoc(w, a + b[..m], b[m]);
    }
  }

  /** A run from a converged state that neither waits nor rewrites is empty. */
  lemma {:induction false} ConvergedRunIsEmpty(n: Desired, w: World, cs: seq<Call>)
    requires Converged(n, w) && SafeRun(n, w, cs) && NoRefresh(w, cs) && forall c <- cs :: !c.Wait?
    ensures cs == []
  {
    if cs != [] {
      var m := |cs| - 1;
      assert cs[m] in cs && forall c <- cs[..m] :: c in cs;
      ConvergedRunIsEmpty(n, w, cs[..m]);
      GapEmptyIffConverged(n, w);
      StepShrinksGap(n, w, cs[m]);
    }
  }

  // ----- Retries ----------------------------------------------------------------------

  function Flatten(runs: seq<seq<Call>>): seq<Call> {
    if runs == [] then [] else Flatten(runs[..|runs| - 1]) + runs[|runs| - 1]
  }

  /** Reconciliations towards one state, each starting where the last one stopped. */
  ghost predicate Retries(n: Desired, w: World, runs: seq<seq<Call>>) {
    runs == [] ||
    (Retries(n, w, runs[..|runs| - 1]) && SafeRun(n, Exec(w, Flatten(runs[..|runs| - 1])), runs[|runs| - 1]))
  }

  /** However often it fails in between, a reconciliation retried to success makes exactly
      |Gap| mutating calls in all, and every state on the way is between old and new and
      in order with respect to the state before the first attempt. */
  lemma {:induction false} RetriesConverge(n: Desired, w: World, runs: seq<seq<Call>>)
    requires Retries(n, w, runs)
    ensures SafeRun(n, w, Flatten(runs))
    ensures Mutations(w, Flatten(runs)) <= |Gap(n, w)|
    ensures Mutations(w, Flatten(runs)) == |Gap(n, w)| <==> Converged(n, Exec(w, Flatten(runs)))
    ensures Between(n, w, Exec(w, Flatten(runs))) && Ordered(n, w, Exec(w, Flatten(runs)))
  {
    if runs != [] {
      var m := |runs| - 1;
      RetriesConverge(n, w, runs[..m]);
      RunAppend(n, w, Flatten(runs[..m]), runs[m]);
    }
    RunShrinksGap(n, w, Flatten(runs));
    RunStaysBetween(n, w, Flatten(runs));
    RunStaysOrdered(n, w, Flatten(runs));
  }

  const ONLY_SERVICE := Service(Fwmark(Inet, 1), RR, [])

  function RouteTo(p: IP): RouteId {
    RouteId(1, 2, "c", p, 32)
  }

  /** One service behind two routes, one of which needs 100 ms to drain. */
  function TwoRoutes(p: IP, q: IP): World {
    World(map[ONLY_SERVICE := map[]], map[RouteTo(p) := 100, RouteTo(q) := 0], {}, {}, map[], map[], 0)
  }

  lemma TwoRoutesSteps(p: IP, q: IP)
    requires p != q
    ensures var n, w := Desired(map[], map[], {}), TwoRoutes(p, q);
            var w1 := Apply(w, Withdraw(RouteTo(p)));
            var w2 := Apply(w1, Withdraw(RouteTo(q)));
            && ValidWorld(w) && Safe(n, w, Withdraw(RouteTo(p)))
            && Safe(n, w1, Withdraw(RouteTo(q))) && Safe(n, w2, DelService(ONLY_SERVICE))
            && LongestHold(n, w1, 0) && RouteTo(p) in w2.due && w2.due[RouteTo(p)] == 100 && w2.clock == 0
  {
    assert RouteTo(p) != RouteTo(q);
    var w := TwoRoutes(p, q);
    assert w.bgp.Keys == {RouteTo(p), RouteTo(q)};
  }

  /** The drain promise does not survive a retry: the first attempt withdraws one of two
      routes and fails, the second withdraws the other, has nothing to wait for, and
      deletes the service while the first route may still attract traffic. */
  lemma RetrySkipsHold(p: IP, q: IP)
    requires p != q
    ensures var n, w := Desired(map[], map[], {}), TwoRoutes(p, q);
            var first, second := [Withdraw(RouteTo(p))], [Withdraw(RouteTo(q))];
            && ValidWorld(w) && Drained(w) && SafeRun(n, w, first)
            && DrainsFirst(n, Exec(w, first), second, 0, [DelService(ONLY_SERVICE)])
            && !Drained(Exec(Exec(w, first), second))
  {
    var n, w := Desired(map[], map[], {}), TwoRoutes(p, q);
    var w1 := Apply(w, Withdraw(RouteTo(p)));
    TwoRoutesSteps(p, q);
    RunSnoc(n, w, [], Withdraw(RouteTo(p)));
    RunSnoc(n, w1, [], Withdraw(RouteTo(q)));
    RunSnoc(n, w1, [Withdraw(RouteTo(q))], DelService(ONLY_SERVICE));
    assert [] + [Withdraw(RouteTo(p))] == [Withdraw(RouteTo(p))] && [] + [Withdraw(RouteTo(q))] == [Withdraw(RouteTo(q))];
    assert [Withdraw(RouteTo(q))] + WaitCall(0) == [Withdraw(RouteTo(q))];
  }
}
