/** Balancers are read in the arbitrary order of a map. What a generated state announces and
    serves in every order, and exactly when the order shows. */
module AnyOrder {
  import opened Types
  import opened Balancer
  import opened Routes
  import opened Servicer
  import opened FirstWins

  ghost predicate Reordered(xs: seq<Reading>, ys: seq<Reading>) {
    multiset(ys) == multiset(xs)
  }

  // ----- Services -----------------------------------------------------------------------

  function MarkKey(b: BalancerState): Option<nat> {
    if MarkOf(b) > 0 then Some(MarkOf(b)) else None
  }

  function StatesOf(x: Reading): seq<BalancerState> {
    x.pub.states
  }

  lemma {:induction false} MergeIsFirst(bs: seq<BalancerState>)
    ensures Merge(bs) == First(bs, MarkKey)
  {
    if bs != [] {
      var ini, b := bs[..|bs| - 1], bs[|bs| - 1];
      MergeIsFirst(ini);
      assert MarkOf(b) > 0 ==> (MarkOf(b) in Marks(Merge(ini)) <==> HasKey(Merge(ini), MarkKey, MarkKey(b)));
    }
  }

  lemma {:induction false} AllStatesIsFlat(xs: seq<Reading>)
    ensures AllStates(xs) == Flat(xs, StatesOf)
  {
    if xs != [] {
      AllStatesIsFlat(xs[..|xs| - 1]);
    }
  }

  lemma MergedIsFirst(xs: seq<Reading>)
    ensures Merge(AllStates(xs)) == First(Flat(xs, StatesOf), MarkKey)
  {
    AllStatesIsFlat(xs);
    MergeIsFirst(AllStates(xs));
  }

  /** Balancers that share a mark publish the same service for it. */
  ghost predicate ServicesAgree(xs: seq<Reading>) {
    forall x, y | x in xs && y in xs :: SameOnMarks(Merge(x.pub.states), Merge(y.pub.states))
  }

  ghost predicate SameOnMarks(some: seq<BalancerState>, others: seq<BalancerState>) {
    forall a, b | a in some && b in others :: MarkOf(a) == MarkOf(b) > 0 ==> a == b
  }

  lemma SameOnMarksIsAgreeOn(some: seq<BalancerState>, others: seq<BalancerState>)
    ensures SameOnMarks(some, others) <==> AgreeOn(some, others, MarkKey)
  {
    assert forall a, b :: MarkOf(a) == MarkOf(b) > 0 <==> MarkKey(a) == MarkKey(b) && MarkKey(a).Some?;
  }

  lemma ServicesAgreeIsAgree(xs: seq<Reading>)
    ensures ServicesAgree(xs) <==> Agree(xs, StatesOf, MarkKey)
  {
    forall x, y | x in xs && y in xs
      ensures SameOnMarks(Merge(x.pub.states), Merge(y.pub.states)) <==>
              AgreeOn(First(StatesOf(x), MarkKey), First(StatesOf(y), MarkKey), MarkKey)
    {
      MergeIsFirst(x.pub.states);
      MergeIsFirst(y.pub.states);
      SameOnMarksIsAgreeOn(Merge(x.pub.states), Merge(y.pub.states));
    }
  }

  ghost predicate SameServices(xs: seq<Reading>, ys: seq<Reading>) {
    multiset(Merge(AllStates(ys))) == multiset(Merge(AllStates(xs)))
  }

  /** The services of a generated state are the same in every order, if and only if the
      balancers that share a mark publish the same service for it. */
  lemma ServicesInEveryOrder(xs: seq<Reading>)
    ensures (forall ys :: Reordered(xs, ys) ==> SameServices(xs, ys)) <==> ServicesAgree(xs)
  {
    MergedIsFirst(xs);
    forall ys ensures SameServices(xs, ys) <==>
                      multiset(First(Flat(ys, StatesOf), MarkKey)) == multiset(First(Flat(xs, StatesOf), MarkKey)) {
      MergedIsFirst(ys);
    }
    SameInEveryOrderIffAgree(xs, StatesOf, MarkKey);
    ServicesAgreeIsAgree(xs);
  }

  /** Which they need not: two balancers with different weights that check one upstream make
      the generated state, and with it the kernel's, depend on the order. */
  lemma DifferentWeightsFlap(x: Reading, y: Reading, mark: nat, u: Upstream, v: nat, w: nat)
    requires mark > 0 && v != w
    requires FwmarkService(mark, u, v) in Merge(x.pub.states) && FwmarkService(mark, u, w) in Merge(y.pub.states)
    ensures exists ys :: Reordered([x, y], ys) && !SameServices([x, y], ys)
  {
    var a, b := FwmarkService(mark, u, v), FwmarkService(mark, u, w);
    assert x in [x, y] && y in [x, y];
    assert a.upstreams[0].weight == v && b.upstreams[0].weight == w;
    assert !ServicesAgree([x, y]);
    ServicesInEveryOrder([x, y]);
  }

  // ----- Routes -------------------------------------------------------------------------

  ghost function Announced(xs: seq<Reading>): seq<Route> {
    KeptRoutes(Allowed(xs), Prohibited(xs), |Allowed(xs)|)
  }

  /** What generation makes of the routes: nothing at all when it fails. */
  ghost function Outcome(xs: seq<Reading>): Option<seq<Route>> {
    if Generates(Allowed(xs), Prohibited(xs)) then Some(Announced(xs)) else None
  }

  ghost predicate IsClear(r: Route, ps: set<Option<RouteId>>) {
    NetOf(r).Some? && forall p <- ps :: !Covers(p, Base(NetOf(r).value))
  }

  ghost function ClearRoutes(ps: set<Option<RouteId>>): Reading -> seq<Route> {
    x => if Announces(x) && IsClear(x.config.route.value, ps) then [x.config.route.value] else []
  }

  ghost function NotReady(xs: seq<Reading>): set<Option<RouteId>> {
    set x | x in xs && !Announces(x) :: RouteIdOf(x.config)
  }

  lemma {:induction false} KeptOfMore(allowed: seq<Route>, a: Route, ps: seq<Option<RouteId>>, k: nat)
    requires k <= |allowed|
    ensures KeptRoutes(allowed + [a], ps, k) == KeptRoutes(allowed, ps, k)
  {
    if k > 0 {
      KeptOfMore(allowed, a, ps, k - 1);
      assert forall j :: 0 <= j < k ==> (allowed + [a])[j] == allowed[j];
      assert Kept(allowed + [a], ps, k - 1) <==> Kept(allowed, ps, k - 1);
    }
  }

  /** A clear route is the first of its network among all allowed ones exactly if it is
      among the clear ones. */
  lemma FirstClear(xs: seq<Reading>, a: Route, ps: set<Option<RouteId>>)
    requires IsClear(a, ps)
    ensures (exists r <- Allowed(xs) :: NetOf(r) == NetOf(a)) <==>
            HasKey(First(Flat(xs, ClearRoutes(ps)), NetOf), NetOf, NetOf(a))
  {
    var f := ClearRoutes(ps);
    FirstKeys(Flat(xs, f), NetOf, NetOf(a));
    if r :| r in Allowed(xs) && NetOf(r) == NetOf(a) {
      var x :| x in xs && Announces(x) && x.config.route == Some(r);
      assert IsClear(r, ps) && r in f(x);
      FlatMember(xs, f, r);
    }
    if r :| r in Flat(xs, f) && NetOf(r) == NetOf(a) {
      FlatMember(xs, f, r);
      var x :| x in xs && r in f(x);
    }
  }

  lemma {:induction false} KeptIsFirst(xs: seq<Reading>, ps: seq<Option<RouteId>>)
    ensures KeptRoutes(Allowed(xs), ps, |Allowed(xs)|) == First(Flat(xs, ClearRoutes(set p | p in ps)), NetOf)
  {
    if xs != [] {
      var ini, x := xs[..|xs| - 1], xs[|xs| - 1];
      var blocked := set p | p in ps;
      var f := ClearRoutes(blocked);
      KeptIsFirst(ini, ps);
      if Announces(x) {
        AddedRoute(ini, x.config.route.value, ps);
        var a := x.config.route.value;
        if IsClear(a, blocked) {
          FirstSnoc(Flat(ini, f), a, NetOf);
        } else {
          assert Flat(ini, f) + [] == Flat(ini, f);
        }
      } else {
        assert Flat(ini, f) + [] == Flat(ini, f);
      }
    }
  }

  lemma KeptLast(had: seq<Route>, a: Route, ps: seq<Option<RouteId>>)
    ensures Kept(had + [a], ps, |had|) <==>
            IsClear(a, set p | p in ps) && !exists r <- had :: NetOf(r) == NetOf(a)
  {
    var all := had + [a];
    assert all[|had|] == a;
    assert (exists r <- had :: NetOf(r) == NetOf(a)) <==> exists j :: 0 <= j < |had| && NetOf(all[j]) == NetOf(a) by {
      assert forall j :: 0 <= j < |had| ==> all[j] == had[j] && had[j] in had;
    }
  }

  lemma AddedRoute(ini: seq<Reading>, a: Route, ps: seq<Option<RouteId>>)
    ensures var all, clear := Allowed(ini) + [a], set p | p in ps;
            var seen := HasKey(First(Flat(ini, ClearRoutes(clear)), NetOf), NetOf, NetOf(a));
            KeptRoutes(all, ps, |all|) ==
            KeptRoutes(Allowed(ini), ps, |Allowed(ini)|) + if IsClear(a, clear) && !seen then [a] else []
  {
    var had, clear := Allowed(ini), set p | p in ps;
    KeptOfMore(had, a, ps, |had|);
    KeptLast(had, a, ps);
    if IsClear(a, clear) {
      FirstClear(ini, a, clear);
    }
  }

  lemma AnnouncedIsFirst(xs: seq<Reading>)
    ensures Announced(xs) == First(Flat(xs, ClearRoutes(NotReady(xs))), NetOf)
  {
    KeptIsFirst(xs, Prohibited(xs));
    assert (set p | p in Prohibited(xs)) == NotReady(xs);
  }

  lemma NotReadyReordered(xs: seq<Reading>, ys: seq<Reading>)
    requires Reordered(xs, ys)
    ensures NotReady(ys) == NotReady(xs)
  {
    assert forall x :: x in xs <==> x in multiset(xs);
    assert forall x :: x in ys <==> x in multiset(ys);
  }

  ghost function Networks(rs: seq<Route>): (ns: set<Option<ShortNet>>)
    ensures forall n :: n in ns <==> HasKey(rs, NetOf, n)
  {
    set r | r in rs :: NetOf(r)
  }

  lemma SameNetworks(xs: seq<Reading>, ys: seq<Reading>)
    requires Reordered(xs, ys)
    ensures Networks(Announced(ys)) == Networks(Announced(xs))
  {
    AnnouncedIsFirst(xs);
    AnnouncedIsFirst(ys);
    NotReadyReordered(xs, ys);
    forall n ensures HasKey(Announced(ys), NetOf, n) <==> HasKey(Announced(xs), NetOf, n) {
      KeysInEveryOrder(xs, ys, ClearRoutes(NotReady(xs)), NetOf, n);
    }
  }

  /** Which networks are announced does not depend on the order, in the orders in which
      generation succeeds. */
  lemma NetworksInEveryOrder(xs: seq<Reading>, ys: seq<Reading>)
    requires Reordered(xs, ys) && Outcome(xs).Some? && Outcome(ys).Some?
    ensures Networks(Outcome(ys).value) == Networks(Outcome(xs).value)
  {
    SameNetworks(xs, ys);
  }

  /** Ready balancers with one network announce it with the same attributes. */
  ghost predicate RoutesAgree(xs: seq<Reading>) {
    forall x, y | x in xs && y in xs && Announces(x) && Announces(y) ::
      var r, q := x.config.route.value, y.config.route.value;
      IsClear(r, NotReady(xs)) && NetOf(r) == NetOf(q) ==> r == q
  }

  lemma FirstOfOne(r: Route)
    ensures First([r], NetOf) == [r] && First([], NetOf) == []
  {
    assert [r][..0] == [];
  }

  lemma RoutesAgreeIsAgree(xs: seq<Reading>)
    ensures RoutesAgree(xs) <==> Agree(xs, ClearRoutes(NotReady(xs)), NetOf)
  {
    var f := ClearRoutes(NotReady(xs));
    forall x: Reading ensures First(f(x), NetOf) == f(x) {
      if f(x) != [] {
        FirstOfOne(f(x)[0]);
      }
    }
    if Agree(xs, f, NetOf) {
      forall x, y | x in xs && y in xs && Announces(x) && Announces(y)
        ensures var r, q := x.config.route.value, y.config.route.value;
                IsClear(r, NotReady(xs)) && NetOf(r) == NetOf(q) ==> r == q
      {
        var r, q := x.config.route.value, y.config.route.value;
        if IsClear(r, NotReady(xs)) && NetOf(r) == NetOf(q) {
          assert r in f(x) && q in f(y);
        }
      }
    }
  }

  /** The routes kept are the same in every order, if and only if ready balancers with one
      network announce it with the same attributes. */
  lemma KeptInEveryOrder(xs: seq<Reading>)
    ensures (forall ys :: Reordered(xs, ys) ==> multiset(Announced(ys)) == multiset(Announced(xs))) <==> RoutesAgree(xs)
  {
    var f := ClearRoutes(NotReady(xs));
    forall ys | Reordered(xs, ys) ensures Announced(ys) == First(Flat(ys, f), NetOf) {
      AnnouncedIsFirst(ys);
      NotReadyReordered(xs, ys);
    }
    assert Announced(xs) == First(Flat(xs, f), NetOf);
    SameInEveryOrderIffAgree(xs, f, NetOf);
    RoutesAgreeIsAgree(xs);
  }

  // ----- Whether generation succeeds ----------------------------------------------------

  lemma ReadingsReordered(xs: seq<Reading>, ys: seq<Reading>)
    requires Reordered(xs, ys)
    ensures forall a :: a in Allowed(ys) <==> a in Allowed(xs)
    ensures forall p :: p in Prohibited(ys) <==> p in Prohibited(xs)
    ensures Allowed(ys) == [] <==> Allowed(xs) == []
  {
    SameMembers(xs, ys);
    var a, b := Allowed(xs), Allowed(ys);
    assert forall r :: r in a <==> r in b;
    assert (a != [] ==> a[0] in a) && (b != [] ==> b[0] in b);
  }

  /** Whether some order, and whether every order, can succeed is not a matter of order. */
  lemma ConditionsReordered(xs: seq<Reading>, ys: seq<Reading>)
    requires Reordered(xs, ys)
    ensures AllParse(Allowed(ys), Prohibited(ys)) <==> AllParse(Allowed(xs), Prohibited(xs))
    ensures CanGenerate(Allowed(ys), Prohibited(ys)) <==> CanGenerate(Allowed(xs), Prohibited(xs))
  {
    ReadingsReordered(xs, ys);
  }

  lemma {:induction false} ProhibitedAppend(xs: seq<Reading>, ys: seq<Reading>)
    ensures Prohibited(xs + ys) == Prohibited(xs) + Prohibited(ys)
  {
    if ys == [] {
      assert xs + ys == xs;
    } else {
      assert (xs + ys)[..|xs + ys| - 1] == xs + ys[..|ys| - 1];
      ProhibitedAppend(xs, ys[..|ys| - 1]);
    }
  }

  /** A balancer that announces, or would if it were ready. */
  predicate HasNetwork(x: Reading) {
    Announces(x) || Parses(RouteIdOf(x.config))
  }

  lemma Rearranged(xs: seq<Reading>, front: bool) returns (ys: seq<Reading>)
    ensures ys == Sift(xs, HasNetwork, front) + Sift(xs, HasNetwork, !front)
    ensures Reordered(xs, ys)
    ensures Prohibited(ys) == Prohibited(Sift(xs, HasNetwork, front)) + Prohibited(Sift(xs, HasNetwork, !front))
    ensures forall p <- Prohibited(Sift(xs, HasNetwork, true)) :: Parses(p)
    ensures forall p <- Prohibited(Sift(xs, HasNetwork, false)) :: !Parses(p)
  {
    ys := Sift(xs, HasNetwork, front) + Sift(xs, HasNetwork, !front);
    SiftSplits(xs, HasNetwork, front);
    ProhibitedAppend(Sift(xs, HasNetwork, front), Sift(xs, HasNetwork, !front));
  }

  /** A generation can succeed in some order of the balancers if and only if all allowed
      routes parse and either so do all prohibited ones or every allowed one is covered. */
  lemma GeneratesInSomeOrder(xs: seq<Reading>)
    ensures (exists ys :: Reordered(xs, ys) && Outcome(ys).Some?) <==> CanGenerate(Allowed(xs), Prohibited(xs))
  {
    if ys :| Reordered(xs, ys) && Outcome(ys).Some? {
      GeneratesOnlyIf(Allowed(ys), Prohibited(ys));
      ConditionsReordered(xs, ys);
    }
    if AllParse(Allowed(xs), Prohibited(xs)) {
      AllParseGenerates(Allowed(xs), Prohibited(xs));
      assert Reordered(xs, xs);
    } else if AllCovered(Allowed(xs), Prohibited(xs)) {
      var ys := Rearranged(xs, true);
      ReadingsReordered(xs, ys);
      ParsedFirst(Allowed(ys), Prohibited(Sift(xs, HasNetwork, true)), Prohibited(Sift(xs, HasNetwork, false)));
    }
  }

  lemma UnreadableFirst(xs: seq<Reading>) returns (ys: seq<Reading>)
    requires Allowed(xs) != [] && exists p <- Prohibited(xs) :: !Parses(p)
    ensures Reordered(xs, ys) && Outcome(ys).None?
  {
    ys := Rearranged(xs, false);
    ReadingsReordered(xs, ys);
    var p :| p in Prohibited(xs) && !Parses(p);
    var x :| x in xs && !Announces(x) && RouteIdOf(x.config) == p;
    var bad := Prohibited(Sift(xs, HasNetwork, false));
    assert x in Sift(xs, HasNetwork, false) && p in bad;
    assert Prohibited(ys)[0] == bad[0] && bad[0] in bad;
    UnparsedFirst(Allowed(ys), Prohibited(ys));
  }

  /** It succeeds in every order if and only if everything parses, or nobody is ready. */
  lemma GeneratesInEveryOrder(xs: seq<Reading>)
    ensures (forall ys :: Reordered(xs, ys) ==> Outcome(ys).Some?) <==> AllParse(Allowed(xs), Prohibited(xs))
  {
    var allowed, ps := Allowed(xs), Prohibited(xs);
    if AllParse(allowed, ps) {
      forall ys | Reordered(xs, ys) ensures Outcome(ys).Some? {
        ConditionsReordered(xs, ys);
        AllParseGenerates(Allowed(ys), Prohibited(ys));
      }
    } else if Readable(allowed) {
      var ys := UnreadableFirst(xs);
    } else {
      var a :| a in allowed && NetOf(a).None?;
      assert Spoils(a, ps) && Reordered(xs, xs);
    }
  }

  /** A balancer that is not ready and has no readable network silences all others. */
  lemma UnreadableSilencesAll(xs: seq<Reading>, x: Reading)
    requires x in xs && !HasNetwork(x)
    ensures Outcome(xs) == None || Outcome(xs) == Some([])
  {
    if Generates(Allowed(xs), Prohibited(xs)) {
      assert RouteIdOf(x.config) in Prohibited(xs);
      UnparsedAnnouncesNothing(Allowed(xs), Prohibited(xs), RouteIdOf(x.config), |Allowed(xs)|);
    }
  }

  ghost predicate SameOutcome(a: Option<seq<Route>>, b: Option<seq<Route>>) {
    a.Some? == b.Some? && (a.Some? ==> multiset(a.value) == multiset(b.value))
  }

  lemma UnparsedKeepsNothing(xs: seq<Reading>, ys: seq<Reading>)
    requires Reordered(xs, ys) && !AllParse(Allowed(xs), Prohibited(xs)) && Outcome(ys).Some?
    ensures Outcome(ys) == Some([])
  {
    ConditionsReordered(xs, ys);
    GeneratesOnlyIf(Allowed(ys), Prohibited(ys));
    var p :| p in Prohibited(ys) && !Parses(p);
    UnparsedAnnouncesNothing(Allowed(ys), Prohibited(ys), p, |Allowed(ys)|);
  }

  ghost predicate SameWhenever(xs: seq<Reading>, ys: seq<Reading>, zs: seq<Reading>) {
    Reordered(xs, ys) && Reordered(xs, zs) && Outcome(ys).Some? && Outcome(zs).Some? ==> SameOutcome(Outcome(ys), Outcome(zs))
  }

  /** All orders in which generation succeeds announce the same routes, if and only if
      ready balancers with one network announce it with the same attributes, or some route
      does not parse and nothing is ever announced. */
  lemma RoutesInEveryOrder(xs: seq<Reading>)
    ensures (forall ys, zs :: SameWhenever(xs, ys, zs)) <==> RoutesAgree(xs) || !AllParse(Allowed(xs), Prohibited(xs))
  {
    KeptInEveryOrder(xs);
    GeneratesInEveryOrder(xs);
    assert Reordered(xs, xs);
    if !AllParse(Allowed(xs), Prohibited(xs)) {
      forall ys, zs | Reordered(xs, ys) && Reordered(xs, zs) && Outcome(ys).Some? && Outcome(zs).Some?
        ensures SameOutcome(Outcome(ys), Outcome(zs))
      {
        UnparsedKeepsNothing(xs, ys);
        UnparsedKeepsNothing(xs, zs);
      }
    } else if !RoutesAgree(xs) {
      var ys :| Reordered(xs, ys) && multiset(Announced(ys)) != multiset(Announced(xs));
      assert !SameWhenever(xs, ys, xs);
    }
  }

  /** A generation comes out the same in every order of the balancers, failure included, if
      and only if it fails in all of them, or everything parses and ready balancers with
      one network agree on it. */
  lemma OutcomeInEveryOrder(xs: seq<Reading>)
    ensures (forall ys :: Reordered(xs, ys) ==> SameOutcome(Outcome(xs), Outcome(ys))) <==>
            || !CanGenerate(Allowed(xs), Prohibited(xs))
            || (AllParse(Allowed(xs), Prohibited(xs)) && RoutesAgree(xs))
  {
    KeptInEveryOrder(xs);
    GeneratesInEveryOrder(xs);
    GeneratesInSomeOrder(xs);
    assert Reordered(xs, xs);
  }

  lemma {:induction false} NoneProhibited(xs: seq<Reading>)
    requires forall x <- xs :: Announces(x)
    ensures Prohibited(xs) == []
  {
    if xs != [] {
      assert xs[|xs| - 1] in xs && forall x <- xs[..|xs| - 1] :: x in xs;
      NoneProhibited(xs[..|xs| - 1]);
    }
  }

  /** Two ready balancers that announce one network with different attributes make the
      announced route depend on which is read first. */
  lemma DifferentAttributesFlap(x: Reading, y: Reading)
    requires Announces(x) && Announces(y) && NetOf(x.config.route.value).Some?
    requires NetOf(x.config.route.value) == NetOf(y.config.route.value) && x.config.route != y.config.route
    ensures exists ys :: Reordered([x, y], ys) && !SameOutcome(Outcome([x, y]), Outcome(ys))
  {
    var xs := [x, y];
    assert x in xs && y in xs;
    NoneProhibited(xs);
    assert NotReady(xs) == {} && IsClear(x.config.route.value, NotReady(xs));
    assert !RoutesAgree(xs) && AllParse(Allowed(xs), Prohibited(xs));
    OutcomeInEveryOrder(xs);
  }
}
