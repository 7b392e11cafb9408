/** The health manager: keeps one status per discovered host, sweeps health checks over
    them and publishes a snapshot when something a consumer can see has changed. */
module HealthManager {
  import opened Types
  import opened HealthStatus
  import Sweep

  datatype HostPort = HostPort(host: string, port: int, address: string, enabled: bool)

  /** An entry by value: what is checked and how it is doing. */
  datatype Snap = Snap(hostPort: HostPort, status: Status)

  /** What a consumer sees of an entry. */
  datatype Seen = Seen(host: string, port: int, enabled: bool, healthy: bool)

  function See(s: Snap): Seen {
    Seen(s.hostPort.host, s.hostPort.port, s.hostPort.enabled, s.status.healthy)
  }

  ghost function View(ss: seq<Snap>): set<Seen> {
    set s | s in ss :: See(s)
  }

  /** An entry for the host and port with this standing. */
  ghost predicate Shows(ss: seq<Snap>, host: string, port: int, enabled: bool, healthy: bool) {
    exists s <- ss ::
      s.hostPort.host == host && s.hostPort.port == port && s.hostPort.enabled == enabled && s.status.healthy == healthy
  }

  /** A consumer sees the same exactly if the same hosts and ports are there, as enabled and
      as healthy. */
  lemma ViewMeaning(a: seq<Snap>, b: seq<Snap>)
    ensures View(a) == View(b) <==>
            forall host, port, enabled, healthy :: Shows(a, host, port, enabled, healthy) <==> Shows(b, host, port, enabled, healthy)
  {
    forall ss: seq<Snap>, x: Seen ensures x in View(ss) <==> Shows(ss, x.host, x.port, x.enabled, x.healthy) {
      if x in View(ss) {
        var s :| s in ss && See(s) == x;
      }
      if Shows(ss, x.host, x.port, x.enabled, x.healthy) {
        var s :| s in ss && s.hostPort.host == x.host && s.hostPort.port == x.port && s.hostPort.enabled == x.enabled && s.status.healthy == x.healthy;
        assert See(s) == x;
      }
    }
    if View(a) == View(b) {
      forall host, port, enabled, healthy
        ensures Shows(a, host, port, enabled, healthy) <==> Shows(b, host, port, enabled, healthy)
      {
        var x := Seen(host, port, enabled, healthy);
        assert x in View(a) <==> x in View(b);
      }
    }
  }

  /** Published copies carry the host as address. */
  function Clone(ss: seq<Snap>): (r: seq<Snap>)
    ensures |r| == |ss| && forall i :: 0 <= i < |r| ==> See(r[i]) == See(ss[i])
    ensures forall i :: 0 <= i < |r| ==> r[i].hostPort.address == ss[i].hostPort.host && r[i].status == ss[i].status
  {
    seq(|ss|, i requires 0 <= i < |ss| => ss[i].(hostPort := ss[i].hostPort.(address := ss[i].hostPort.host)))
  }

  lemma SameSeen(a: seq<Snap>, b: seq<Snap>)
    requires |a| == |b| && forall i :: 0 <= i < |a| ==> See(a[i]) == See(b[i])
    ensures View(a) == View(b)
  {
    forall s | s in a ensures See(s) in View(b) {
      var i :| 0 <= i < |a| && a[i] == s;
      assert b[i] in b && See(b[i]) == See(s);
    }
    forall c | c in b ensures See(c) in View(a) {
      var i :| 0 <= i < |b| && b[i] == c;
      assert a[i] in a && See(a[i]) == See(c);
    }
  }

  lemma CloneView(ss: seq<Snap>)
    ensures View(Clone(ss)) == View(ss)
  {
    SameSeen(Clone(ss), ss);
  }

  function Contains(ss: seq<Snap>, h: HostPort): bool {
    exists s <- ss :: s.hostPort == h
  }

  /** The first entry for h, or a new one. */
  function Entered(ss: seq<Snap>, h: HostPort, init: bool): (s: Snap)
    ensures s.hostPort == h
    ensures if Contains(ss, h) then s in ss else s.status == History(init, [])
  {
    if ss == [] then Snap(h, History(init, []))
    else if ss[0].hostPort == h then ss[0]
    else Entered(ss[1..], h, init)
  }

  /** Fits the entries to a discovered list of hosts. */
  function Refit(ss: seq<Snap>, hs: seq<HostPort>, init: bool): (r: seq<Snap>)
    ensures |r| == |hs| && forall i :: 0 <= i < |r| ==> r[i] == Entered(ss, hs[i], init)
  {
    seq(|hs|, i requires 0 <= i < |hs| => Entered(ss, hs[i], init))
  }

  lemma {:induction false} EnteredIsFirst(ss: seq<Snap>, i: nat, init: bool)
    requires i < |ss| && forall j :: 0 <= j < i ==> ss[j].hostPort != ss[i].hostPort
    ensures Entered(ss, ss[i].hostPort, init) == ss[i]
  {
    if i > 0 {
      EnteredIsFirst(ss[1..], i - 1, init);
    }
  }

  predicate SameHosts(a: seq<Snap>, b: seq<Snap>) {
    && |a| == |b|
    && (forall s <- a :: Contains(b, s.hostPort))
    && (forall s <- b :: Contains(a, s.hostPort))
  }

  ghost function Hosts(ss: seq<Snap>): set<HostPort> {
    set s | s in ss :: s.hostPort
  }

  /** A resolver update is announced exactly if it changes the hosts or how many entries
      there are. */
  lemma SameHostsMeaning(a: seq<Snap>, b: seq<Snap>)
    ensures SameHosts(a, b) <==> |a| == |b| && Hosts(a) == Hosts(b)
  {
    forall ss: seq<Snap>, h ensures h in Hosts(ss) <==> Contains(ss, h) {
    }
    if Hosts(a) == Hosts(b) {
      assert forall s <- a :: s.hostPort in Hosts(a);
      assert forall s <- b :: s.hostPort in Hosts(b);
    }
    if SameHosts(a, b) {
      assert forall h <- Hosts(a) :: h in Hosts(b);
      assert forall h <- Hosts(b) :: h in Hosts(a);
    }
  }

  ghost predicate DistinctHosts(ss: seq<Snap>) {
    forall i, j :: 0 <= i < j < |ss| ==> ss[i].hostPort != ss[j].hostPort
  }

  ghost predicate Distinct(hs: seq<HostPort>) {
    forall i, j :: 0 <= i < j < |hs| ==> hs[i] != hs[j]
  }

  /** What s shows, the first entry of some host shows too. */
  ghost predicate Shown(ss: seq<Snap>, s: Snap, init: bool) {
    exists t <- ss :: See(t) == See(s) && Entered(ss, t.hostPort, init) == t
  }

  ghost predicate FirstsShowAll(ss: seq<Snap>, init: bool) {
    forall s <- ss :: Shown(ss, s, init)
  }

  lemma RefitIsFirsts(ss: seq<Snap>, hs: seq<HostPort>, init: bool, s: Snap)
    requires SameHosts(ss, Refit(ss, hs, init))
    ensures s in Refit(ss, hs, init) <==> s in ss && Entered(ss, s.hostPort, init) == s
  {
    var r := Refit(ss, hs, init);
    if s in r {
      assert Contains(ss, s.hostPort);
    } else if s in ss {
      var t :| t in r && t.hostPort == s.hostPort;
    }
  }

  /** A resolver update that is not announced shows a consumer nothing new, if and only if
      whatever an entry shows the first entry of some host shows as well. */
  lemma QuietRefit(ss: seq<Snap>, hs: seq<HostPort>, init: bool)
    requires SameHosts(ss, Refit(ss, hs, init))
    ensures View(Refit(ss, hs, init)) == View(ss) <==> FirstsShowAll(ss, init)
  {
    var r := Refit(ss, hs, init);
    forall s | s in r ensures s in ss {
      RefitIsFirsts(ss, hs, init, s);
    }
    assert View(r) <= View(ss);
    forall s | s in ss ensures Shown(ss, s, init) <==> See(s) in View(r) {
      RefitShows(ss, hs, init, s);
    }
  }

  lemma RefitShows(ss: seq<Snap>, hs: seq<HostPort>, init: bool, s: Snap)
    requires SameHosts(ss, Refit(ss, hs, init)) && s in ss
    ensures Shown(ss, s, init) <==> See(s) in View(Refit(ss, hs, init))
  {
    var r := Refit(ss, hs, init);
    if t :| t in ss && See(t) == See(s) && Entered(ss, t.hostPort, init) == t {
      RefitIsFirsts(ss, hs, init, t);
    }
    if t :| t in r && See(t) == See(s) {
      RefitIsFirsts(ss, hs, init, t);
    }
  }

  /** Which they do when no host is listed twice. */
  lemma DistinctShowAll(ss: seq<Snap>, init: bool)
    requires DistinctHosts(ss)
    ensures FirstsShowAll(ss, init)
  {
    forall s | s in ss ensures Shown(ss, s, init) {
      var i :| 0 <= i < |ss| && ss[i] == s;
      EnteredIsFirst(ss, i, init);
    }
  }

  /** One pass of checks: a disabled host fails unchecked. */
  function Sampled(s: Snap, passed: bool, rise: int, fall: int): Sample {
    Sample(s.hostPort.enabled && passed, rise, fall)
  }

  function Swept(ss: seq<Snap>, results: seq<bool>, rise: int, fall: int): (r: seq<Snap>)
    requires |results| == |ss|
    ensures |r| == |ss|
    ensures forall i :: 0 <= i < |r| ==>
      r[i] == Snap(ss[i].hostPort, Observe(ss[i].status, Sampled(ss[i], results[i], rise, fall)))
  {
    seq(|ss|, i requires 0 <= i < |ss| => Snap(ss[i].hostPort, Observe(ss[i].status, Sampled(ss[i], results[i], rise, fall))))
  }

  /** With one host listed twice it can: one sweep tells the two new entries apart, the next
      update, of the very same list, collapses both into the first one, nothing is
      announced, and the published snapshot keeps a status no entry has any more. */
  lemma DuplicateHostsGoStale(h: HostPort)
    requires h.enabled
    ensures var ss := Swept(Refit([], [h, h], false), [true, false], 1, 2);
            var r := Refit(ss, [h, h], false);
            SameHosts(ss, r) && View(r) != View(ss)
  {
    var ss := Swept(Refit([], [h, h], false), [true, false], 1, 2);
    assert ss == [Snap(h, Status(true, 1)), Snap(h, Status(false, -1))];
    var r := Refit(ss, [h, h], false);
    assert ss[0] in ss && r[0] == ss[0] && r[1] == ss[0] && r[0] in r && ss[1] in ss;
    assert forall s <- r :: s == ss[0];
    assert See(ss[1]) in View(ss) && See(ss[1]) !in View(r);
  }

  predicate AnyFlip(a: seq<Snap>, b: seq<Snap>)
    requires |a| == |b|
  {
    exists i :: 0 <= i < |a| && a[i].status.healthy != b[i].status.healthy
  }

  lemma QuietSweep(ss: seq<Snap>, results: seq<bool>, rise: int, fall: int)
    requires |results| == |ss| && !AnyFlip(ss, Swept(ss, results, rise, fall))
    ensures View(Swept(ss, results, rise, fall)) == View(ss)
  {
    SameSeen(Swept(ss, results, rise, fall), ss);
  }

  function StatusesOf(ss: seq<Snap>): seq<Status> {
    seq(|ss|, i requires 0 <= i < |ss| => ss[i].status)
  }

  function SamplesOf(ss: seq<Snap>, results: seq<bool>, rise: int, fall: int): seq<Sample>
    requires |results| == |ss|
  {
    seq(|ss|, i requires 0 <= i < |ss| => Sampled(ss[i], results[i], rise, fall))
  }

  /** The sweep of a snapshot by at most numWorkers workers, scheduled as in who. */
  function SweepBy(ss: seq<Snap>, results: seq<bool>, rise: int, fall: int, numWorkers: nat, who: seq<nat>): Sweep.State
    requires |results| == |ss| && ss != []
  {
    var j := Sweep.SweepJob(numWorkers, StatusesOf(ss), SamplesOf(ss, results, rise, fall));
    Sweep.Run(j, Sweep.Start(j), who)
  }

  /** However many workers sweep and however they are scheduled, once all have finished they
      leave what one sequential pass leaves, and report a change exactly when it would. */
  lemma ConcurrentSweep(ss: seq<Snap>, results: seq<bool>, rise: int, fall: int, numWorkers: nat, who: seq<nat>)
    requires |results| == |ss| && ss != []
    requires Sweep.Finished(Sweep.SweepJob(numWorkers, StatusesOf(ss), SamplesOf(ss, results, rise, fall)),
                            SweepBy(ss, results, rise, fall, numWorkers, who))
    ensures var s, r := SweepBy(ss, results, rise, fall, numWorkers, who), Swept(ss, results, rise, fall);
            s.entries == StatusesOf(r) && (s.changed <==> AnyFlip(ss, r))
  {
    var es, cs := StatusesOf(ss), SamplesOf(ss, results, rise, fall);
    Sweep.AnyScheduleIsSequential(numWorkers, es, cs, who);
    var j, r := Sweep.SweepJob(numWorkers, es, cs), Swept(ss, results, rise, fall);
    assert forall t: nat :: t < |ss| ==> (j.Flips(t) <==> ss[t].status.healthy != r[t].status.healthy);
  }

  function Resolve(h: HostPort, dns: string -> Option<string>): HostPort {
    match dns(h.host)
    case Some(a) => h.(address := a)
    case None => h
  }

  /** Hosts as discovered, with the address DNS gives where it gives one. */
  function Resolved(hs: seq<HostPort>, dns: string -> Option<string>): (r: seq<HostPort>)
    ensures |r| == |hs|
    ensures forall i :: 0 <= i < |r| ==> r[i].host == hs[i].host && r[i].port == hs[i].port && r[i].enabled == hs[i].enabled
    ensures forall i :: 0 <= i < |r| ==>
              if dns(hs[i].host).Some? then r[i].address == dns(hs[i].host).value else r[i].address == hs[i].address
  {
    seq(|hs|, i requires 0 <= i < |hs| => Resolve(hs[i], dns))
  }

  // ----- The manager -------------------------------------------------------------------

  datatype Managed = Managed(hostPort: HostPort, status: Entry, enabled: bool)

  /** Position i has the first entry for h. */
  ghost predicate FirstAt(es: seq<Managed>, i: nat, h: HostPort) {
    i < |es| && es[i].hostPort == h && forall j :: 0 <= j < i ==> es[j].hostPort != h
  }

  /** Only entries for one host share a status. */
  ghost predicate Tidy(es: seq<Managed>) {
    && (forall e <- es :: e.enabled == e.hostPort.enabled)
    && (forall i, j :: 0 <= i < |es| && 0 <= j < |es| && es[i].status == es[j].status ==> es[i].hostPort == es[j].hostPort)
  }

  /** An entry for a host that had one is the first it had, status object and all. */
  ghost predicate KeepsFirsts(was: seq<Managed>, es: seq<Managed>) {
    forall i: nat, j :: 0 <= j < |es| && FirstAt(was, i, es[j].hostPort) ==> es[j] == was[i]
  }

  ghost predicate IsFirst(es: seq<Managed>, h: HostPort, e: Managed) {
    exists i: nat :: FirstAt(es, i, h) && es[i] == e
  }

  /** The results a status sees in a sweep over the first k entries: one for each entry that
      has it, in order. */
  ghost function SamplesFor(es: seq<Managed>, k: nat, x: Entry, results: seq<bool>, rise: int, fall: int): seq<Sample>
    requires k <= |es| == |results|
  {
    if k == 0 then []
    else
      SamplesFor(es, k - 1, x, results, rise, fall) +
      if es[k - 1].status == x then [Sample(es[k - 1].enabled && results[k - 1], rise, fall)] else []
  }

  /** The status of entry i after the first k entries were swept. */
  ghost function After(es: seq<Managed>, was: seq<Snap>, i: nat, k: nat, results: seq<bool>, rise: int, fall: int): Status
    requires i < |es| == |was| == |results| && k <= |es|
  {
    ObserveAll(was[i].status, SamplesFor(es, k, es[i].status, results, rise, fall))
  }

  /** Entry i's own result flips its status. */
  ghost predicate FlipsAt(es: seq<Managed>, was: seq<Snap>, i: nat, results: seq<bool>, rise: int, fall: int)
    requires i < |es| == |was| == |results|
  {
    After(es, was, i, i, results, rise, fall).healthy != After(es, was, i, i + 1, results, rise, fall).healthy
  }

  /** Some result among the first k flips a status. */
  ghost predicate AnyFlips(es: seq<Managed>, was: seq<Snap>, k: nat, results: seq<bool>, rise: int, fall: int)
    requires k <= |es| == |was| == |results|
  {
    exists i: nat :: i < k && FlipsAt(es, was, i, results, rise, fall)
  }

  lemma AnyFlipsSnoc(es: seq<Managed>, was: seq<Snap>, k: nat, results: seq<bool>, rise: int, fall: int)
    requires k < |es| == |was| == |results|
    ensures AnyFlips(es, was, k + 1, results, rise, fall) <==>
            AnyFlips(es, was, k, results, rise, fall) || FlipsAt(es, was, k, results, rise, fall)
  {
  }

  ghost predicate Unshared(es: seq<Managed>) {
    forall i, j :: 0 <= i < j < |es| ==> es[i].status != es[j].status
  }

  lemma {:induction false} OwnSamples(es: seq<Managed>, k: nat, i: nat, results: seq<bool>, rise: int, fall: int)
    requires k <= |es| == |results| && i < |es| && Unshared(es)
    ensures SamplesFor(es, k, es[i].status, results, rise, fall) ==
            if i < k then [Sample(es[i].enabled && results[i], rise, fall)] else []
  {
    if k > 0 {
      OwnSamples(es, k - 1, i, results, rise, fall);
    }
  }

  lemma ObserveSnoc(s: Status, cs: seq<Sample>, c: Sample)
    ensures ObserveAll(s, cs + [c]) == Observe(ObserveAll(s, cs), c)
  {
    assert (cs + [c])[..|cs|] == cs;
  }

  lemma OwnStatus(es: seq<Managed>, was: seq<Snap>, i: nat, k: nat, results: seq<bool>, rise: int, fall: int)
    requires i < |es| == |was| == |results| && k <= |es| && Unshared(es)
    ensures After(es, was, i, k, results, rise, fall) ==
            if i < k then Observe(was[i].status, Sample(es[i].enabled && results[i], rise, fall)) else was[i].status
  {
    OwnSamples(es, k, i, results, rise, fall);
    ObserveSnoc(was[i].status, [], Sample(es[i].enabled && results[i], rise, fall));
    assert forall c: Sample :: [] + [c] == [c];
  }

  lemma AfterStep(es: seq<Managed>, was: seq<Snap>, k: nat, results: seq<bool>, rise: int, fall: int)
    requires k < |es| == |was| == |results|
    ensures forall i :: 0 <= i < |es| ==>
              After(es, was, i, k + 1, results, rise, fall) ==
              if es[i].status == es[k].status
              then Observe(After(es, was, i, k, results, rise, fall), Sample(es[k].enabled && results[k], rise, fall))
              else After(es, was, i, k, results, rise, fall)
  {
    var c := Sample(es[k].enabled && results[k], rise, fall);
    forall i | 0 <= i < |es|
      ensures After(es, was, i, k + 1, results, rise, fall) ==
              if es[i].status == es[k].status then Observe(After(es, was, i, k, results, rise, fall), c)
              else After(es, was, i, k, results, rise, fall)
    {
      var seen := SamplesFor(es, k, es[i].status, results, rise, fall);
      assert seen + [] == seen;
      ObserveSnoc(was[i].status, seen, c);
    }
  }

  ghost function StatusSet(es: seq<Managed>): set<Entry> {
    set e | e in es :: e.status
  }

  /** The entries by value. */
  function Snaps(es: seq<Managed>): (r: seq<Snap>)
    reads StatusSet(es)
    ensures |r| == |es| && forall i :: 0 <= i < |r| ==> r[i] == Snap(es[i].hostPort, es[i].status.Value())
  {
    if es == [] then []
    else
      var e := es[|es| - 1];
      assert StatusSet(es[..|es| - 1]) <= StatusSet(es) && e in es;
      Snaps(es[..|es| - 1]) + [Snap(e.hostPort, e.status.Value())]
  }

  /** Every status went from was to now by seeing the results of its entries among the
      first k. */
  ghost predicate SweptTo(es: seq<Managed>, was: seq<Snap>, now: seq<Snap>, k: nat, results: seq<bool>, rise: int, fall: int)
    requires |was| == |now| == |results| == |es| && k <= |es|
  {
    forall i :: 0 <= i < |es| ==> now[i].status == After(es, was, i, k, results, rise, fall)
  }

  /** A sweep over es that has got to entry k and reports changed. */
  ghost predicate Progress(es: seq<Managed>, was: seq<Snap>, now: seq<Snap>, k: nat, results: seq<bool>, rise: int, fall: int, changed: bool)
    requires |was| == |now| == |results| == |es| && k <= |es|
  {
    && SweptTo(es, was, now, k, results, rise, fall)
    && (changed <==> AnyFlips(es, was, k, results, rise, fall))
    && (!changed ==> !AnyFlip(was, now))
  }

  lemma ProgressStarts(es: seq<Managed>, was: seq<Snap>, results: seq<bool>, rise: int, fall: int)
    requires |was| == |results| == |es|
    ensures Progress(es, was, was, 0, results, rise, fall, false)
  {
  }

  /** Entry k's result goes to every entry that shares its status. */
  lemma ProgressStep(es: seq<Managed>, was: seq<Snap>, now: seq<Snap>, next: seq<Snap>, k: nat, results: seq<bool>, rise: int, fall: int, changed: bool, flipped: bool)
    requires k < |es| == |was| == |now| == |next| == |results| && Progress(es, was, now, k, results, rise, fall, changed)
    requires forall i :: 0 <= i < |es| ==>
               next[i].status == if es[i].status == es[k].status
                                 then Observe(now[i].status, Sample(es[k].enabled && results[k], rise, fall))
                                 else now[i].status
    requires flipped <==> now[k].status.healthy != next[k].status.healthy
    requires forall i :: 0 <= i < |es| && es[i].status == es[k].status ==> now[i].status == now[k].status
    ensures Progress(es, was, next, k + 1, results, rise, fall, changed || flipped)
  {
    AfterStep(es, was, k, results, rise, fall);
    AnyFlipsSnoc(es, was, k, results, rise, fall);
  }

  /** e is the entry the host h has in had, or a new one. */
  ghost predicate EntersAs(e: Managed, h: HostPort, had: seq<Managed>, was: seq<Snap>, init: bool)
    reads e.status
  {
    && e.hostPort == h && e.enabled == h.enabled
    && Snap(h, e.status.Value()) == Entered(was, h, init)
    && if Contains(was, h) then IsFirst(had, h, e) else e.status !in StatusSet(had)
  }

  /** es are the entries for hs; only entries for one host share a status. */
  ghost predicate Fitted(es: seq<Managed>, hs: seq<HostPort>, had: seq<Managed>, was: seq<Snap>, init: bool)
    reads StatusSet(es)
  {
    && |es| == |hs|
    && (forall j :: 0 <= j < |es| ==> EntersAs(es[j], hs[j], had, was, init))
    && (forall j, k :: 0 <= j < |es| && 0 <= k < |es| && es[j].status == es[k].status ==> hs[j] == hs[k])
  }

  lemma SharesOnlyOwn(e: Managed, h: HostPort, f: Managed, g: HostPort, had: seq<Managed>, was: seq<Snap>, init: bool)
    requires Tidy(had) && EntersAs(e, h, had, was, init) && EntersAs(f, g, had, was, init) && e in had
    ensures e.status == f.status ==> h == g
  {
    if e.status == f.status {
      assert f in had;
    }
  }

  lemma FittedSnoc(es: seq<Managed>, hs: seq<HostPort>, e: Managed, h: HostPort, had: seq<Managed>, was: seq<Snap>, init: bool)
    requires Tidy(had) && Fitted(es, hs, had, was, init) && EntersAs(e, h, had, was, init)
    requires e in had || e.status !in StatusSet(es)
    ensures Fitted(es + [e], hs + [h], had, was, init)
  {
    forall j | 0 <= j < |es| ensures e.status == es[j].status ==> h == hs[j] {
      assert es[j] in es;
      if e in had {
        SharesOnlyOwn(e, h, es[j], hs[j], had, was, init);
      }
    }
  }

  lemma FittedMeans(es: seq<Managed>, hs: seq<HostPort>, had: seq<Managed>, was: seq<Snap>, init: bool)
    requires Fitted(es, hs, had, was, init) && was == Snaps(had)
    ensures KeepsFirsts(had, es) && Tidy(es) && Snaps(es) == Refit(was, hs, init)
  {
    forall i: nat, j | 0 <= j < |es| && FirstAt(had, i, es[j].hostPort) ensures es[j] == had[i] {
      assert EntersAs(es[j], hs[j], had, was, init) && was[i].hostPort == hs[j] && was[i] in was;
      var k: nat :| FirstAt(had, k, hs[j]) && had[k] == es[j];
      assert i == k;
    }
  }

  lemma OwnFlip(es: seq<Managed>, was: seq<Snap>, i: nat, results: seq<bool>, rise: int, fall: int)
    requires i < |es| == |was| == |results| && Unshared(es)
    ensures FlipsAt(es, was, i, results, rise, fall) <==>
            was[i].status.healthy != After(es, was, i, |es|, results, rise, fall).healthy
  {
    OwnStatus(es, was, i, i, results, rise, fall);
    OwnStatus(es, was, i, i + 1, results, rise, fall);
    OwnStatus(es, was, i, |es|, results, rise, fall);
  }

  lemma DistinctUnshared(es: seq<Managed>, was: seq<Snap>)
    requires Tidy(es) && |was| == |es| && DistinctHosts(was)
    requires forall i :: 0 <= i < |es| ==> was[i].hostPort == es[i].hostPort
    ensures Unshared(es)
  {
  }

  /** Entries for different hosts each see their own result ... */
  lemma SweptAlone(es: seq<Managed>, was: seq<Snap>, now: seq<Snap>, results: seq<bool>, rise: int, fall: int)
    requires Unshared(es) && Tidy(es) && |was| == |now| == |results| == |es|
    requires SweptTo(es, was, now, |es|, results, rise, fall)
    requires forall i :: 0 <= i < |es| ==> was[i].hostPort == now[i].hostPort == es[i].hostPort
    ensures now == Swept(was, results, rise, fall)
  {
    var r := Swept(was, results, rise, fall);
    forall i | 0 <= i < |es| ensures now[i] == r[i] {
      OwnStatus(es, was, i, |es|, results, rise, fall);
      assert es[i] in es;
    }
  }

  /** ... and flip at most once. */
  lemma FlipsAlone(es: seq<Managed>, was: seq<Snap>, now: seq<Snap>, results: seq<bool>, rise: int, fall: int)
    requires Unshared(es) && |was| == |now| == |results| == |es|
    requires SweptTo(es, was, now, |es|, results, rise, fall)
    ensures AnyFlips(es, was, |es|, results, rise, fall) <==> AnyFlip(was, now)
  {
    if i: nat :| i < |es| && FlipsAt(es, was, i, results, rise, fall) {
      OwnFlip(es, was, i, results, rise, fall);
    }
    if i: nat :| i < |es| && was[i].status.healthy != now[i].status.healthy {
      OwnFlip(es, was, i, results, rise, fall);
    }
  }

  class Manager {
    var state: seq<Managed>
    var last: seq<Snap>
    var initialStateSent: bool
    var initialResolverStateRecv: bool
    var riseCount: int
    var fallCount: int
    const initialHealthy: bool

    ghost function Statuses(): set<Entry>
      reads this`state
    {
      StatusSet(state)
    }

    function Contents(): (r: seq<Snap>)
      reads this`state, Statuses()
      ensures |r| == |state| && forall i :: 0 <= i < |r| ==> r[i] == Snap(state[i].hostPort, state[i].status.Value())
    {
      Snaps(state)
    }

    ghost predicate Valid()
      reads this`state, this`riseCount, this`fallCount
    {
      riseCount > 0 && fallCount > 0 && Tidy(state)
    }

    /** Once anything was published, a consumer that reads the last snapshot sees what is
        live. */
    ghost predicate Fresh()
      reads this, Statuses()
    {
      initialStateSent ==> View(last) == View(Contents())
    }

    constructor (riseCount: int, fallCount: int, initialHealthy: bool)
      requires riseCount > 0 && fallCount > 0
      ensures Valid() && Fresh() && Contents() == [] && !initialStateSent && !initialResolverStateRecv
    {
      state, last, initialStateSent, initialResolverStateRecv := [], [], false, false;
      this.riseCount, this.fallCount, this.initialHealthy := riseCount, fallCount, initialHealthy;
    }

    /** Takes thresholds from a configuration: both unset means the defaults, one unset is
        an error. */
    method Update(rise: int, fall: int) returns (ok: bool)
      requires Valid()
      modifies this`riseCount, this`fallCount
      ensures Valid() && (ok <==> (rise == 0 && fall == 0) || (rise > 0 && fall > 0))
      ensures if !ok then riseCount == old(riseCount) && fallCount == old(fallCount)
              else if rise == 0 then riseCount == 3 && fallCount == 2
              else riseCount == rise && fallCount == fall
    {
      var r, f := rise, fall;
      if r == 0 && f == 0 {
        r, f := 3, 2;
      }
      ok := r > 0 && f > 0;
      if ok {
        riseCount, fallCount := r, f;
      }
    }

    /** The first entry of a host, if it has one. */
    method GetEntry(h: HostPort) returns (e: Option<Managed>)
      ensures e.None? <==> !Contains(Contents(), h)
      ensures e.Some? ==> IsFirst(state, h, e.value)
    {
      for i := 0 to |state|
        invariant forall j :: 0 <= j < i ==> state[j].hostPort != h
      {
        if state[i].hostPort == h {
          assert Contents()[i].hostPort == h && Contents()[i] in Contents();
          assert FirstAt(state, i, h);
          return Some(state[i]);
        }
      }
      return None;
    }

    method Notify()
      modifies this`last
      ensures last == Clone(Contents()) && View(last) == View(Contents())
    {
      CloneView(Contents());
      last := Clone(Contents());
    }

    method EntryFor(h: HostPort) returns (e: Managed)
      requires Valid()
      ensures EntersAs(e, h, state, Contents(), initialHealthy) && (e in state || fresh(e.status))
    {
      var found := GetEntry(h);
      if found.Some? {
        e := found.value;
        ghost var i: nat :| FirstAt(state, i, h) && state[i] == e;
        EnteredIsFirst(Contents(), i, initialHealthy);
      } else {
        var status := new Entry(initialHealthy);
        e := Managed(h, status, h.enabled);
      }
    }

    method Extended(es: seq<Managed>, ghost hs: seq<HostPort>, h: HostPort) returns (r: seq<Managed>)
      requires Valid() && Fitted(es, hs, state, Contents(), initialHealthy)
      ensures Fitted(r, hs + [h], state, Contents(), initialHealthy)
    {
      ghost var was := Contents();
      var e := EntryFor(h);
      assert Contents() == was && Fitted(es, hs, state, was, initialHealthy);
      FittedSnoc(es, hs, e, h, state, was, initialHealthy);
      r := es + [e];
    }

    /** The entries for a list of hosts. */
    method Refitted(hs: seq<HostPort>) returns (es: seq<Managed>)
      requires Valid()
      ensures Fitted(es, hs, state, Contents(), initialHealthy)
    {
      es := [];
      for i := 0 to |hs|
        invariant Fitted(es, hs[..i], state, Contents(), initialHealthy)
      {
        assert hs[..i + 1] == hs[..i] + [hs[i]];
        es := Extended(es, hs[..i], hs[i]);
      }
      assert hs[..|hs|] == hs;
    }

    /** Replaces the entries by those for hs, which keep their first status. */
    method Install(hs: seq<HostPort>)
      requires Valid()
      modifies this`state, this`initialResolverStateRecv
      ensures Valid() && initialResolverStateRecv
      ensures Contents() == Refit(old(Contents()), hs, initialHealthy)
      ensures KeepsFirsts(old(state), state)
    {
      ghost var had, was := state, Contents();
      var es := Refitted(hs);
      assert KeepsFirsts(had, es) && Tidy(es) && Snaps(es) == Refit(was, hs, initialHealthy) by {
        assert Snaps(had) == was;
        FittedMeans(es, hs, had, was, initialHealthy);
      }
      state := es;
      assert Snaps(es) == Refit(was, hs, initialHealthy);
      initialResolverStateRecv := true;
    }

    /** Fits the entries to what was discovered, each host resolved to an address where DNS
        gives one. Entries that stay keep the status object of the host's first entry and
        with it their history; nothing is published before the first sweep. The published
        snapshot then shows what is live, if and only if it was published now or first
        entries showed all that duplicates did. */
    method ApplyResolverState(discovered: seq<HostPort>, dns: string -> Option<string>)
      requires Valid()
      modifies this`state, this`initialResolverStateRecv, this`last
      ensures Valid() && initialResolverStateRecv
      ensures Contents() == Refit(old(Contents()), Resolved(discovered, dns), initialHealthy)
      ensures KeepsFirsts(old(state), state)
      ensures last == if initialStateSent && !SameHosts(old(Contents()), Contents()) then Clone(Contents()) else old(last)
      ensures old(Fresh()) && initialStateSent ==>
              (Fresh() <==> !SameHosts(old(Contents()), Contents()) || FirstsShowAll(old(Contents()), initialHealthy))
      ensures old(Fresh()) && DistinctHosts(old(Contents())) ==> Fresh()
    {
      var hs := Resolved(discovered, dns);
      var was := Contents();
      Install(hs);
      var now := Contents();
      if DistinctHosts(was) {
        DistinctShowAll(was, initialHealthy);
      }
      if initialStateSent {
        if !SameHosts(was, now) {
          Notify();
        } else {
          QuietRefit(was, hs, initialHealthy);
        }
      }
    }

    /** Checks entry k. */
    method CheckEntry(k: nat, passed: bool) returns (flipped: bool)
      requires k < |state|
      modifies Statuses()
      ensures forall i :: 0 <= i < |state| ==>
                Contents()[i].status == if state[i].status == state[k].status
                                        then Observe(old(Contents()[i].status), Sample(state[k].enabled && passed, riseCount, fallCount))
                                        else old(Contents()[i].status)
      ensures flipped <==> old(Contents()[k].status.healthy) != Contents()[k].status.healthy
    {
      flipped := state[k].status.UpdateHealthCheckStatus(state[k].enabled && passed, riseCount, fallCount);
    }

    method CheckNext(ghost was: seq<Snap>, k: nat, results: seq<bool>, changed: bool) returns (r: bool)
      requires k < |state| == |was| == |results|
      requires Progress(state, was, Contents(), k, results, riseCount, fallCount, changed)
      modifies Statuses()
      ensures Progress(state, was, Contents(), k + 1, results, riseCount, fallCount, r)
    {
      ghost var now := Contents();
      var flipped := CheckEntry(k, results[k]);
      ProgressStep(state, was, now, Contents(), k, results, riseCount, fallCount, changed, flipped);
      r := changed || flipped;
    }

    method CheckAll(results: seq<bool>) returns (changed: bool)
      requires |results| == |state|
      modifies Statuses()
      ensures Progress(state, old(Contents()), Contents(), |state|, results, riseCount, fallCount, changed)
    {
      changed := false;
      ghost var was := Contents();
      ProgressStarts(state, was, results, riseCount, fallCount);
      for k := 0 to |state|
        invariant Progress(state, was, Contents(), k, results, riseCount, fallCount, changed)
      {
        changed := CheckNext(was, k, results, changed);
      }
    }

    /** Checks every entry once, one after the other, and reports whether any result flipped
        a status. A status that several entries share sees all their results; otherwise it
        is one sequential pass. Without a flip a consumer would see no difference. */
    method PerformHealthChecks(results: seq<bool>) returns (changed: bool)
      requires Valid() && |results| == |state|
      modifies Statuses()
      ensures SweptTo(state, old(Contents()), Contents(), |state|, results, riseCount, fallCount)
      ensures changed <==> AnyFlips(state, old(Contents()), |state|, results, riseCount, fallCount)
      ensures DistinctHosts(old(Contents())) ==>
              && Contents() == Swept(old(Contents()), results, riseCount, fallCount)
              && (changed <==> AnyFlip(old(Contents()), Contents()))
      ensures !changed ==> View(Contents()) == View(old(Contents()))
    {
      ghost var was := Contents();
      changed := CheckAll(results);
      ghost var now := Contents();
      if DistinctHosts(was) {
        DistinctUnshared(state, was);
        SweptAlone(state, was, now, results, riseCount, fallCount);
        FlipsAlone(state, was, now, results, riseCount, fallCount);
      }
      if !changed {
        SameSeen(now, was);
      }
    }

    /** Publishes a snapshot when a status flipped or none was published yet. */
    method PublishIf(changed: bool)
      modifies this`last, this`initialStateSent
      ensures initialStateSent && Contents() == old(Contents())
      ensures if changed || !old(initialStateSent) then View(last) == View(Contents()) else last == old(last)
    {
      if changed || !initialStateSent {
        Notify();
        initialStateSent := true;
      }
    }

    /** One tick: skipped until the resolver has spoken, otherwise a sweep, published when a
        status flipped or nothing was published yet. */
    method Tick(results: seq<bool>)
      requires Valid() && |results| == |state|
      modifies this`last, this`initialStateSent, Statuses()
      ensures Valid() && (old(Fresh()) ==> Fresh())
      ensures if state == [] && !initialResolverStateRecv
              then Contents() == old(Contents()) && last == old(last) && initialStateSent == old(initialStateSent)
              else initialStateSent && SweptTo(state, old(Contents()), Contents(), |state|, results, riseCount, fallCount)
      ensures DistinctHosts(old(Contents())) && initialResolverStateRecv ==>
              Contents() == Swept(old(Contents()), results, riseCount, fallCount)
    {
      if |state| == 0 && !initialResolverStateRecv {
        return;
      }
      var changed := PerformHealthChecks(results);
      PublishIf(changed);
    }
  }
}
