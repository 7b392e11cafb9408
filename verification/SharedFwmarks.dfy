/** Many balancers update one fwmark pool. Each update allocates marks for new addresses,
    releases those of vanished ones, reads the marks of all its upstreams and publishes;
    the calls of different balancers interleave freely. */
module SharedFwmarks {
  import opened Types
  import opened FwmarkPool

  /** The addresses of xs that are not in ys, in order. */
  function Missing(xs: seq<IP>, ys: seq<IP>): (r: seq<IP>)
    ensures forall a :: a in r <==> a in xs && a !in ys
  {
    if xs == [] then []
    else
      var rest, a := Missing(xs[..|xs| - 1], ys), xs[|xs| - 1];
      if a in ys then rest else rest + [a]
  }

  lemma {:induction false} MissingDistinct(xs: seq<IP>, ys: seq<IP>)
    requires Distinct(xs)
    ensures Distinct(Missing(xs, ys))
  {
    if xs != [] {
      MissingDistinct(xs[..|xs| - 1], ys);
    }
  }

  function Allocates(xs: seq<IP>): (r: seq<Op>)
    ensures |r| == |xs| && forall i :: 0 <= i < |r| ==> r[i] == Allocate(xs[i])
  {
    seq(|xs|, i requires 0 <= i < |xs| => Allocate(xs[i]))
  }

  function Releases(xs: seq<IP>): (r: seq<Op>)
    ensures |r| == |xs| && forall i :: 0 <= i < |r| ==> r[i] == Release(xs[i])
  {
    seq(|xs|, i requires 0 <= i < |xs| => Release(xs[i]))
  }

  /** The pool calls of an update from published addresses old to new ones. */
  function Ops(older: seq<IP>, newer: seq<IP>): seq<Op> {
    Allocates(Missing(newer, older)) + Releases(Missing(older, newer))
  }

  ghost predicate Distinct(s: seq<IP>) {
    forall i, j :: 0 <= i < j < |s| ==> s[i] != s[j]
  }

  // ----- The interleaved system ---------------------------------------------------------

  /** A fwmark service checks one upstream through one mark. */
  datatype Check = Check(address: IP, mark: nat)

  datatype Update = Update(next: seq<IP>, todo: seq<Op>, unread: seq<IP>, checks: seq<Check>)

  /** A balancer: what it last published and the update it is in the middle of, if any. */
  datatype Proc = Proc(published: seq<IP>, checks: seq<Check>, run: Option<Update>)

  datatype System = System(pool: Pool, procs: map<nat, Proc>)

  datatype Action = Begin(b: nat, next: seq<IP>) | Call(b: nat) | Read(b: nat) | Publish(b: nat)

  /** What may happen next; an allocation is taken to find a mark. */
  ghost predicate Enabled(s: System, act: Action) {
    && act.b in s.procs
    && var p := s.procs[act.b];
       match act
       case Begin(_, next) => p.run.None? && Distinct(next)
       case Call(_) =>
         && p.run.Some? && p.run.value.todo != []
         && var op := p.run.value.todo[0];
            op.Allocate? && op.address !in s.pool.used ==> s.pool.free != []
       case Read(_) => p.run.Some? && p.run.value.todo == [] && p.run.value.unread != []
       case Publish(_) => p.run.Some? && p.run.value.todo == [] && p.run.value.unread == []
  }

  ghost function Do(s: System, act: Action): System
    requires Enabled(s, act)
  {
    var p := s.procs[act.b];
    match act
    case Begin(b, next) => s.(procs := s.procs[b := p.(run := Some(Update(next, Ops(p.published, next), next, [])))])
    case Call(b) =>
      System(Step(s.pool, p.run.value.todo[0]), s.procs[b := AfterCall(p)])
    case Read(b) =>
      var u := p.run.value;
      var a := u.unread[0];
      var got := if a in s.pool.used then [Check(a, s.pool.used[a].mark)] else [];
      s.(procs := s.procs[b := p.(run := Some(u.(unread := u.unread[1..], checks := u.checks + got)))])
    case Publish(b) =>
      var u := p.run.value;
      s.(procs := s.procs[b := Proc(u.next, u.checks, None)])
  }

  // ----- Who holds a reference ----------------------------------------------------------

  predicate Holds(p: Proc, a: IP) {
    match p.run
    case None => a in p.published
    case Some(u) =>
      if a in u.next then Allocate(a) !in u.todo
      else Release(a) in u.todo
  }

  ghost function Holders(s: System, a: IP): set<nat> {
    set b | b in s.procs && Holds(s.procs[b], a)
  }

  ghost predicate OpsOk(p: Proc, u: Update) {
    && (forall i, j :: 0 <= i < j < |u.todo| ==> u.todo[i] != u.todo[j])
    && (forall op <- u.todo :: if op.Allocate? then op.address in u.next else op.address in p.published && op.address !in u.next)
  }

  /** checks names the marks of xs in the pool, in order, one each. */
  ghost predicate Checks(pool: Pool, xs: seq<IP>, checks: seq<Check>) {
    && |checks| == |xs|
    && forall i :: 0 <= i < |xs| ==>
         checks[i].address == xs[i] && xs[i] in pool.used && pool.used[xs[i]].mark == checks[i].mark
  }

  ghost predicate ProcOk(pool: Pool, p: Proc) {
    && Distinct(p.published)
    && match p.run
       case None => Checks(pool, p.published, p.checks)
       case Some(u) =>
         && Distinct(u.next) && OpsOk(p, u)
         && |u.unread| <= |u.next| && u.unread == u.next[|u.next| - |u.unread|..]
         && (u.todo != [] ==> u.unread == u.next)
         && Checks(pool, u.next[..|u.next| - |u.unread|], u.checks)
  }

  /** Every address is counted once per balancer holding it, and everything published by a
      balancer at rest is checked through the mark its address has now. */
  ghost predicate Inv(s: System) {
    && |s.procs| < U32
    && (forall b <- s.procs :: ProcOk(s.pool, s.procs[b]))
    && (forall a :: a in s.pool.used <==> Holders(s, a) != {})
    && (forall a <- s.pool.used :: s.pool.used[a].refs == |Holders(s, a)|)
  }

  // ----- Every step keeps the books -----------------------------------------------------

  lemma OpsMembers(older: seq<IP>, newer: seq<IP>)
    ensures forall a :: Allocate(a) in Ops(older, newer) <==> a in newer && a !in older
    ensures forall a :: Release(a) in Ops(older, newer) <==> a in older && a !in newer
  {
    var xs, ys := Missing(newer, older), Missing(older, newer);
    var ops := Ops(older, newer);
    forall a | a in xs ensures Allocate(a) in ops {
      var i :| 0 <= i < |xs| && xs[i] == a;
      assert ops[i] == Allocate(a);
    }
    forall a | a in ys ensures Release(a) in ops {
      var i :| 0 <= i < |ys| && ys[i] == a;
      assert ops[|xs| + i] == Release(a);
    }
    forall op | op in ops ensures if op.Allocate? then op.address in xs else op.address in ys {
      var i :| 0 <= i < |ops| && ops[i] == op;
      assert if i < |xs| then op == Allocate(xs[i]) else op == Release(ys[i - |xs|]);
    }
  }

  lemma OpsDistinct(older: seq<IP>, newer: seq<IP>)
    requires Distinct(older) && Distinct(newer)
    ensures var ops := Ops(older, newer); forall i, j :: 0 <= i < j < |ops| ==> ops[i] != ops[j]
  {
    MissingDistinct(newer, older);
    MissingDistinct(older, newer);
  }

  /** What has been read so far belongs to addresses the balancer holds. */
  lemma CheckedIsHeld(pool: Pool, p: Proc, a: IP)
    requires ProcOk(pool, p)
    requires match p.run
             case None => a in p.published
             case Some(u) => a in u.next[..|u.next| - |u.unread|]
    ensures Holds(p, a)
  {
  }

  /** A step that leaves the pool alone and nobody's holdings changed keeps the books. */
  lemma QuietKeeps(s: System, b: nat, p: Proc)
    requires Inv(s) && b in s.procs && ProcOk(s.pool, p)
    requires forall a :: Holds(p, a) <==> Holds(s.procs[b], a)
    ensures Inv(s.(procs := s.procs[b := p]))
  {
    var s' := s.(procs := s.procs[b := p]);
    assert s'.procs.Keys == s.procs.Keys && |s'.procs| == |s'.procs.Keys| && |s.procs| == |s.procs.Keys|;
    forall a ensures Holders(s', a) == Holders(s, a) {
      forall c ensures c in Holders(s', a) <==> c in Holders(s, a) {
      }
    }
    forall c | c in s'.procs ensures ProcOk(s.pool, s'.procs[c]) {
      assert c != b ==> ProcOk(s.pool, s.procs[c]);
    }
  }

  lemma BeginStep(s: System, b: nat, next: seq<IP>)
    requires Inv(s) && Enabled(s, Begin(b, next))
    ensures Inv(Do(s, Begin(b, next)))
  {
    var p := s.procs[b];
    var u := Update(next, Ops(p.published, next), next, []);
    assert ProcOk(s.pool, p);
    OpsMembers(p.published, next);
    OpsDistinct(p.published, next);
    assert OpsOk(p, u);
    QuietKeeps(s, b, p.(run := Some(u)));
  }

  lemma ReadKeeps(pool: Pool, p: Proc)
    requires ProcOk(pool, p) && p.run.Some? && p.run.value.todo == [] && p.run.value.unread != []
    requires p.run.value.unread[0] in pool.used
    ensures var u := p.run.value;
            var a := u.unread[0];
            ProcOk(pool, p.(run := Some(u.(unread := u.unread[1..], checks := u.checks + [Check(a, pool.used[a].mark)]))))
  {
    var u := p.run.value;
    var k := |u.next| - |u.unread|;
    assert u.unread[0] == u.next[k] && u.next[..k + 1] == u.next[..k] + [u.next[k]];
  }

  lemma ReadStep(s: System, b: nat)
    requires Inv(s) && Enabled(s, Read(b))
    ensures Inv(Do(s, Read(b)))
  {
    var p := s.procs[b];
    var u := p.run.value;
    var a := u.unread[0];
    assert ProcOk(s.pool, p);
    assert a == u.next[|u.next| - |u.unread|] && Holds(p, a);
    assert b in Holders(s, a);
    ReadKeeps(s.pool, p);
    QuietKeeps(s, b, p.(run := Some(u.(unread := u.unread[1..], checks := u.checks + [Check(a, s.pool.used[a].mark)]))));
  }

  lemma PublishStep(s: System, b: nat)
    requires Inv(s) && Enabled(s, Publish(b))
    ensures Inv(Do(s, Publish(b)))
  {
    var p := s.procs[b];
    var u := p.run.value;
    assert ProcOk(s.pool, p);
    assert u.next[..|u.next|] == u.next;
    QuietKeeps(s, b, Proc(u.next, u.checks, None));
  }

  /** Everyone but the caller keeps the marks it relies on. */
  lemma OthersKeep(pool: Pool, pool': Pool, p: Proc)
    requires ProcOk(pool, p)
    requires forall a :: a in pool.used && Holds(p, a) ==> a in pool'.used && pool'.used[a].mark == pool.used[a].mark
    ensures ProcOk(pool', p)
  {
    match p.run {
      case None =>
        forall i | 0 <= i < |p.published| ensures Holds(p, p.published[i]) { }
      case Some(u) =>
        var xs := u.next[..|u.next| - |u.unread|];
        forall i | 0 <= i < |xs| ensures Holds(p, xs[i]) {
          CheckedIsHeld(pool, p, xs[i]);
        }
    }
  }

  lemma HoldsChange(p: Proc, a: IP)
    requires p.run.Some? && OpsOk(p, p.run.value) && p.run.value.todo != []
    ensures var op := p.run.value.todo[0];
            if a != op.address then Holds(AfterCall(p), a) <==> Holds(p, a)
            else Holds(p, a) == op.Release? && Holds(AfterCall(p), a) == op.Allocate?
  {
    var u := p.run.value;
    var op := u.todo[0];
    assert forall x :: x in u.todo <==> x == op || x in u.todo[1..];
    assert op !in u.todo[1..] && op in u.todo;
    assert Release(op.address) in u.todo && op.Allocate? ==> op.address !in u.next;
  }

  lemma HoldersPut(s: System, s': System, b: nat, a: IP)
    requires b in s.procs && b in s'.procs && s'.procs == s.procs[b := s'.procs[b]]
    ensures Holders(s', a) == if Holds(s'.procs[b], a) then Holders(s, a) + {b} else Holders(s, a) - {b}
    ensures b in Holders(s, a) <==> Holds(s.procs[b], a)
  {
  }

  function AfterCall(p: Proc): Proc
    requires p.run.Some? && p.run.value.todo != []
  {
    p.(run := Some(p.run.value.(todo := p.run.value.todo[1..])))
  }

  lemma HoldersChange(s: System, s': System, b: nat, a: IP)
    requires b in s.procs && s.procs[b].run.Some? && s.procs[b].run.value.todo != []
    requires OpsOk(s.procs[b], s.procs[b].run.value) && s'.procs == s.procs[b := AfterCall(s.procs[b])]
    ensures var op := s.procs[b].run.value.todo[0];
            if a != op.address then Holders(s', a) == Holders(s, a)
            else if op.Allocate? then b !in Holders(s, a) && Holders(s', a) == Holders(s, a) + {b}
            else b in Holders(s, a) && Holders(s', a) == Holders(s, a) - {b}
  {
    HoldsChange(s.procs[b], a);
    HoldersPut(s, s', b, a);
  }

  /** The set of holders is no larger than the set of balancers. */
  lemma FewHolders(s: System, a: IP, b: nat)
    requires b in s.procs && b !in Holders(s, a)
    ensures |Holders(s, a)| + 1 <= |s.procs|
  {
    assert Holders(s, a) + {b} <= s.procs.Keys;
    Smaller(Holders(s, a) + {b}, s.procs.Keys);
  }

  lemma Smaller(a: set<nat>, b: set<nat>)
    requires a <= b
    ensures |a| <= |b|
  {
    assert b == a + (b - a);
  }

  /** What one pool call does to the lease of an address held h times. */
  lemma LeaseStep(p: Pool, op: Op, a: IP, h: nat)
    requires (a in p.used <==> h != 0) && (a in p.used ==> p.used[a].refs == h) && h < U32
    requires a == op.address && op.Allocate? ==> h + 1 < U32 && (h == 0 ==> p.free != [])
    requires a == op.address && op.Release? ==> h > 0
    ensures var p' := Step(p, op);
            var h' := if a != op.address then h else if op.Allocate? then h + 1 else h - 1;
            && (a in p'.used <==> h' != 0) && (a in p'.used ==> p'.used[a].refs == h')
            && (a in p.used && a in p'.used ==> p'.used[a].mark == p.used[a].mark)
  {
  }

  /** A call keeps the count of each address right, and keeps the mark of an address that
      anyone else holds. */
  lemma CallCounts(s: System, b: nat, a: IP)
    requires Inv(s) && Enabled(s, Call(b))
    ensures var s' := Do(s, Call(b));
            && (a in s'.pool.used <==> Holders(s', a) != {})
            && (a in s'.pool.used ==> s'.pool.used[a].refs == |Holders(s', a)|)
            && (a in s.pool.used && Holders(s, a) - {b} != {} ==>
                  a in s'.pool.used && s'.pool.used[a].mark == s.pool.used[a].mark)
  {
    var s' := Do(s, Call(b));
    var op := s.procs[b].run.value.todo[0];
    var h, h' := Holders(s, a), Holders(s', a);
    assert OpsOk(s.procs[b], s.procs[b].run.value) by {
      assert ProcOk(s.pool, s.procs[b]);
    }
    HoldersChange(s, s', b, a);
    Smaller(h, s.procs.Keys);
    assert |s.procs| == |s.procs.Keys|;
    if a == op.address && op.Allocate? {
      FewHolders(s, a, b);
    }
    assert a in s.pool.used <==> h != {};
    assert h == {} <==> |h| == 0;
    assert h' == {} <==> |h'| == 0;
    LeaseStep(s.pool, op, a, |h|);
    assert h - {b} <= h';
  }

  lemma FewerOps(p: Proc, u: Update)
    requires OpsOk(p, u) && u.todo != []
    ensures OpsOk(AfterCall(p.(run := Some(u))), u.(todo := u.todo[1..]))
  {
    var rest := u.todo[1..];
    forall i, j | 0 <= i < j < |rest| ensures rest[i] != rest[j] {
      assert rest[i] == u.todo[i + 1] && rest[j] == u.todo[j + 1];
    }
    assert forall op <- rest :: op in u.todo;
  }

  /** While calls are left nothing has been read, so the caller depends on no mark. */
  lemma CallerKeeps(pool: Pool, pool': Pool, p: Proc)
    requires ProcOk(pool, p) && p.run.Some? && p.run.value.todo != []
    ensures ProcOk(pool', AfterCall(p))
  {
    var u := p.run.value;
    FewerOps(p, u);
    assert u.next[..|u.next| - |u.unread|] == [];
    assert Checks(pool', [], u.checks);
  }

  lemma CallKeepsProcs(s: System, b: nat, c: nat)
    requires Inv(s) && Enabled(s, Call(b)) && c in s.procs
    ensures var s' := Do(s, Call(b)); ProcOk(s'.pool, s'.procs[c])
  {
    var s' := Do(s, Call(b));
    var p := s.procs[c];
    assert ProcOk(s.pool, p);
    if c == b {
      CallerKeeps(s.pool, s'.pool, p);
    } else {
      forall a | a in s.pool.used && Holds(p, a)
        ensures a in s'.pool.used && s'.pool.used[a].mark == s.pool.used[a].mark
      {
        assert c in Holders(s, a) - {b};
        CallCounts(s, b, a);
      }
      OthersKeep(s.pool, s'.pool, p);
    }
  }

  lemma CallStep(s: System, b: nat)
    requires Inv(s) && Enabled(s, Call(b))
    ensures Inv(Do(s, Call(b)))
  {
    var s' := Do(s, Call(b));
    assert s'.procs.Keys == s.procs.Keys && |s'.procs| == |s'.procs.Keys| && |s.procs| == |s.procs.Keys|;
    forall a
      ensures a in s'.pool.used <==> Holders(s', a) != {}
      ensures a in s'.pool.used ==> s'.pool.used[a].refs == |Holders(s', a)|
    {
      CallCounts(s, b, a);
    }
    forall c | c in s'.procs ensures ProcOk(s'.pool, s'.procs[c]) {
      CallKeepsProcs(s, b, c);
    }
  }

  // ----- Whole runs ---------------------------------------------------------------------

  ghost predicate Legal(s: System, acts: seq<Action>) {
    acts == [] || (Legal(s, acts[..|acts| - 1]) && Enabled(After(s, acts[..|acts| - 1]), acts[|acts| - 1]))
  }

  ghost function After(s: System, acts: seq<Action>): System {
    if acts == [] then s
    else
      var t := After(s, acts[..|acts| - 1]);
      if Enabled(t, acts[|acts| - 1]) then Do(t, acts[|acts| - 1]) else t
  }

  ghost predicate Initial(s: System) {
    && |s.procs| < U32 && s.pool.used == map[]
    && forall b <- s.procs :: s.procs[b] == Proc([], [], None)
  }

  lemma {:induction false} RunKeeps(s: System, acts: seq<Action>)
    requires Initial(s) && Legal(s, acts)
    ensures Inv(After(s, acts))
  {
    if acts == [] {
      forall a ensures Holders(s, a) == {} { }
    } else {
      var r, act := After(s, acts[..|acts| - 1]), acts[|acts| - 1];
      RunKeeps(s, acts[..|acts| - 1]);
      match act {
        case Begin(b, next) => BeginStep(r, b, next);
        case Call(b) => CallStep(r, b);
        case Read(b) => ReadStep(r, b);
        case Publish(b) => PublishStep(r, b);
      }
    }
  }

  ghost predicate AtRest(s: System) {
    forall b <- s.procs :: s.procs[b].run.None?
  }

  ghost function Publishers(s: System, a: IP): set<nat> {
    set b | b in s.procs && a in s.procs[b].published
  }

  /** After any interleaving of any updates: a count is the number of balancers holding the
      address, which once all are at rest are those publishing it; and a balancer at rest
      publishes exactly one check per upstream, through the mark its address has. */
  lemma SharedCounts(s: System, acts: seq<Action>)
    requires Initial(s) && Legal(s, acts)
    ensures Inv(After(s, acts))
    ensures var t := After(s, acts);
            AtRest(t) ==>
            && (forall a :: a in t.pool.used <==> Publishers(t, a) != {})
            && (forall a <- t.pool.used :: t.pool.used[a].refs == |Publishers(t, a)|)
    ensures var t := After(s, acts);
            forall b <- t.procs :: t.procs[b].run.None? ==> Checks(t.pool, t.procs[b].published, t.procs[b].checks)
  {
    RunKeeps(s, acts);
    var t := After(s, acts);
    if AtRest(t) {
      forall a ensures Holders(t, a) == Publishers(t, a) { }
    }
    assert forall b <- t.procs :: ProcOk(t.pool, t.procs[b]);
  }

  // ----- What the restrictions are for --------------------------------------------------

  /** The next pool call of b, whether or not it finds a mark. */
  ghost function AnyCall(s: System, b: nat): System
    requires b in s.procs && s.procs[b].run.Some? && s.procs[b].run.value.todo != []
  {
    System(Step(s.pool, s.procs[b].run.value.todo[0]), s.procs[b := AfterCall(s.procs[b])])
  }

  /** A call keeps the books if and only if it does not need a mark from an empty pool: the
      failed allocation is not remembered, so the balancer later releases a reference that
      is not its own. */
  lemma CallKeepsIffMark(s: System, b: nat)
    requires Inv(s) && b in s.procs && s.procs[b].run.Some? && s.procs[b].run.value.todo != []
    ensures Inv(AnyCall(s, b)) <==> Enabled(s, Call(b))
  {
    if Enabled(s, Call(b)) {
      CallStep(s, b);
    } else {
      var p := s.procs[b];
      var a := p.run.value.todo[0].address;
      assert ProcOk(s.pool, p);
      HoldersChange(s, AnyCall(s, b), b, a);
      assert b in Holders(AnyCall(s, b), a) && a !in AnyCall(s, b).pool.used;
    }
  }

  /** Such as the first call of the first update when the pool starts out empty. */
  lemma EmptyPoolBreaksBooks(a: IP)
    ensures var s := System(Pool([], map[]), map[0 := Proc([], [], None)]);
            var acts := [Begin(0, [a])];
            var t := After(s, acts);
            && Initial(s) && Legal(s, acts) && 0 in t.procs && t.procs[0].run.Some? && t.procs[0].run.value.todo != []
            && Inv(t) && !Inv(AnyCall(t, 0))
  {
    var s := System(Pool([], map[]), map[0 := Proc([], [], None)]);
    var acts := [Begin(0, [a])];
    assert acts[..0] == [] && Enabled(s, acts[0]);
    var t := After(s, acts);
    assert t == Do(s, acts[0]) && t.pool == s.pool;
    RunKeeps(s, acts);
    assert Missing([a], []) == [a] && Missing([], [a]) == [] by {
      assert [a][..0] == [];
    }
    assert t.procs[0].run.value.todo[0] == Allocate(a);
    CallKeepsIffMark(t, 0);
  }

  /** Closing a balancer at rest keeps the books if and only if it published no upstream:
      its references are never released. */
  lemma CloseKeepsIffEmpty(s: System, b: nat)
    requires Inv(s) && b in s.procs && s.procs[b].run.None?
    ensures Inv(s.(procs := s.procs - {b})) <==> s.procs[b].published == []
  {
    var s' := s.(procs := s.procs - {b});
    forall a ensures Holders(s', a) == Holders(s, a) - {b} { }
    if s.procs[b].published == [] {
      Smaller(s'.procs.Keys, s.procs.Keys);
      assert |s'.procs| == |s'.procs.Keys| && |s.procs| == |s.procs.Keys|;
      forall a ensures Holders(s', a) == Holders(s, a) { }
      assert forall c <- s'.procs :: ProcOk(s.pool, s.procs[c]);
    } else {
      var a := s.procs[b].published[0];
      assert b in Holders(s, a) && a in s.pool.used;
      assert s.pool.used[a].refs == |Holders(s, a)| == |Holders(s', a)| + 1;
    }
  }

  // ----- Addresses listed twice ---------------------------------------------------------

  lemma {:induction false} NetAppend(a: seq<Op>, b: seq<Op>, x: IP)
    ensures Net(a + b, x) == Net(a, x) + Net(b, x)
    decreases |b|
  {
    if b == [] {
      assert a + b == a;
    } else {
      assert (a + b)[..|a + b| - 1] == a + b[..|b| - 1];
      NetAppend(a, b[..|b| - 1], x);
    }
  }

  function Count(xs: seq<IP>, x: IP): int {
    multiset(xs)[x]
  }

  lemma {:induction false} NetOfAll(xs: seq<IP>, x: IP)
    ensures Net(Allocates(xs), x) == Count(xs, x) && Net(Releases(xs), x) == -Count(xs, x)
  {
    if xs != [] {
      var ini := xs[..|xs| - 1];
      NetOfAll(ini, x);
      assert xs == ini + [xs[|xs| - 1]];
      assert Allocates(xs)[..|ini|] == Allocates(ini) && Releases(xs)[..|ini|] == Releases(ini);
    }
  }

  lemma {:induction false} MissingCounts(xs: seq<IP>, ys: seq<IP>, x: IP)
    ensures Count(Missing(xs, ys), x) == if x in ys then 0 else Count(xs, x)
  {
    if xs != [] {
      MissingCounts(xs[..|xs| - 1], ys, x);
      assert xs == xs[..|xs| - 1] + [xs[|xs| - 1]];
    }
  }

  /** An update takes and gives back one reference for each time an address is listed. */
  lemma UpdateNet(older: seq<IP>, newer: seq<IP>, x: IP)
    ensures Net(Ops(older, newer), x) ==
            (if x in older then 0 else Count(newer, x)) - (if x in newer then 0 else Count(older, x))
  {
    NetAppend(Allocates(Missing(newer, older)), Releases(Missing(older, newer)), x);
    NetOfAll(Missing(newer, older), x);
    NetOfAll(Missing(older, newer), x);
    MissingCounts(newer, older, x);
    MissingCounts(older, newer, x);
  }

  function One(b: bool): int {
    if b then 1 else 0
  }

  /** The address came or went with this update, and is listed once. */
  ghost predicate ListedOnce(older: seq<IP>, newer: seq<IP>, x: IP) {
    && (x in newer && x !in older ==> Count(newer, x) == 1)
    && (x in older && x !in newer ==> Count(older, x) == 1)
  }

  /** So it moves the count of an address by one balancer, no more and no less, if and only
      if an address that comes or goes is listed once. */
  lemma UpdateCountsOnce(older: seq<IP>, newer: seq<IP>, x: IP)
    ensures Net(Ops(older, newer), x) == One(x in newer) - One(x in older) <==> ListedOnce(older, newer, x)
  {
    UpdateNet(older, newer, x);
  }

  /** Listed twice, then once, then not at all, an address keeps its mark for good. */
  lemma RepeatedAddressLeaks(a: IP, mark: nat)
    ensures var q := Run(Pool([mark], map[]), Ops([], [a, a]) + Ops([a, a], [a]) + Ops([a], []));
            q.free == [] && a in q.used && q.used[a] == Lease(mark, 1)
  {
    assert [a, a][..1] == [a] && [a][..0] == [];
    assert Missing([a], []) == [a] && Missing([a], [a]) == [] && Missing([a, a], []) == [a, a] && Missing([a, a], [a]) == [];
    assert Ops([], [a, a]) == [Allocate(a), Allocate(a)] && Ops([a, a], [a]) == [] && Ops([a], []) == [Release(a)];
    var ops := [Allocate(a), Allocate(a), Release(a)];
    assert Ops([], [a, a]) + Ops([a, a], [a]) + Ops([a], []) == ops;
    var p := Pool([mark], map[]);
    assert ops[..2] == [Allocate(a), Allocate(a)] && ops[..2][..1] == [Allocate(a)] && [Allocate(a)][..0] == [];
    assert Run(p, ops[..2][..1]) == Step(p, Allocate(a));
    assert Run(p, ops[..2]) == Step(Step(p, Allocate(a)), Allocate(a));
  }
}
