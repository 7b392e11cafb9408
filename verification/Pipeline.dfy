/** Health managers, balancers and the servicer, joined by one-slot channels that drop or
    overwrite. Every store, drain, send, receive and read is its own step and all steps of
    all components interleave; receivers re-read shared state instead of trusting what
    they received. */
module Pipeline {
  import opened Types

  /** A health manager publishing: store the snapshot, drain the slot, send. */
  datatype Publisher = Idle | Stored | Drained

  /** A balancer: waiting, woken, holding the snapshot it read, or done storing its state
      but not yet having notified. */
  datatype Updater<V> = Waiting | Woken | Got(v: V) | Unannounced

  /** One health manager with its balancer. live is the snapshot anyone may read, empty until
      the first one is published; config is the setting in force; state is what the
      balancer's published state was computed from; conf and timer are the balancer's own wake-up token and retry timer. */
  datatype Node<V, C> = Node(
    live: V, published: bool, publisher: Publisher, slot: Option<V>, received: Option<V>,
    updater: Updater<V>, config: C, state: Option<Made<V, C>>, conf: bool, timer: bool)

  /** A balancer's state, as the snapshot and the setting it was computed from. */
  datatype Made<V, C> = Made(snapshot: V, setting: C)

  /** The servicer: at rest, reading the states for the balancer list, or reading them
      again for the link addresses. */
  datatype Phase = Rest | First | Second

  datatype System<V, C> = System(
    nodes: map<nat, Node<V, C>>, token: bool,
    phase: Phase, unread: set<nat>, first: map<nat, Option<Made<V, C>>>, second: map<nat, Option<Made<V, C>>>)

  datatype Action<V, C> =
    | Store(b: nat, v: V) | Drain(b: nat) | Send(b: nat)
    | Receive(b: nat) | Reconfigure(b: nat, c: C) | Wake(b: nat) | Fire(b: nat)
    | Fetch(b: nat) | Fail(b: nat) | Keep(b: nat) | Announce(b: nat)
    | Begin | ReadFirst(b: nat) | Turn | ReadSecond(b: nat) | Finish

  predicate OfNode<V, C>(a: Action<V, C>) {
    !a.Begin? && !a.Turn? && !a.Finish? && !a.ReadFirst? && !a.ReadSecond?
  }

  predicate NodeEnabled<V, C>(n: Node<V, C>, a: Action<V, C>)
    requires OfNode(a)
  {
    match a
    case Store(_, _) => n.publisher.Idle?
    case Drain(_) => n.publisher.Stored?
    case Send(_) => n.publisher.Drained? && n.slot.None?
    case Receive(_) => n.updater.Waiting? && n.slot.Some?
    case Reconfigure(_, _) => true
    case Wake(_) => n.updater.Waiting? && n.conf
    case Fire(_) => n.timer
    case Fetch(_) => n.updater.Woken?
    case Fail(_) => n.updater.Got?
    case Keep(_) => n.updater.Got?
    case Announce(_) => n.updater.Unannounced?
  }

  ghost function NodeStep<V, C>(n: Node<V, C>, a: Action<V, C>): Node<V, C>
    requires OfNode(a) && NodeEnabled(n, a)
  {
    match a
    case Store(_, v) => n.(live := v, published := true, publisher := Stored)
    case Drain(_) => n.(slot := None, publisher := Drained)
    case Send(_) => n.(slot := Some(n.live), publisher := Idle)
    case Receive(_) => n.(received := n.slot, slot := None, updater := Woken)
    case Reconfigure(_, c) => n.(config := c, conf := n.conf || c != n.config)
    case Wake(_) => n.(conf := false, updater := Woken)
    case Fire(_) => n.(timer := false, conf := true)
    case Fetch(_) => n.(updater := Got(n.live))
    case Fail(_) => n.(updater := Waiting, timer := true)
    case Keep(_) => n.(updater := Unannounced, state := Some(Made(n.updater.v, n.config)))
    case Announce(_) => n.(updater := Waiting)
  }

  predicate Enabled<V, C>(s: System<V, C>, a: Action<V, C>) {
    if OfNode(a) then a.b in s.nodes && NodeEnabled(s.nodes[a.b], a)
    else match a
      case Begin => s.phase.Rest? && s.token
      case ReadFirst(b) => s.phase.First? && b in s.unread && b in s.nodes
      case Turn => s.phase.First? && s.unread == {}
      case ReadSecond(b) => s.phase.Second? && b in s.unread && b in s.nodes
      case Finish => s.phase.Second? && s.unread == {}
  }

  /** A try-send that finds the token taken drops the notification. */
  ghost function Do<V, C>(s: System<V, C>, a: Action<V, C>): System<V, C>
    requires Enabled(s, a)
  {
    if OfNode(a) then s.(nodes := s.nodes[a.b := NodeStep(s.nodes[a.b], a)], token := s.token || a.Announce?)
    else match a
      case Begin => s.(token := false, phase := First, unread := s.nodes.Keys)
      case ReadFirst(b) => s.(unread := s.unread - {b}, first := s.first[b := s.nodes[b].state])
      case Turn => s.(phase := Second, unread := s.nodes.Keys)
      case ReadSecond(b) => s.(unread := s.unread - {b}, second := s.second[b := s.nodes[b].state])
      case Finish => s.(phase := Rest)
  }

  // ----- Nothing is lost ----------------------------------------------------------------

  /** The slot of a publishing health manager: free when it is about to send, and at rest
      holding the newest snapshot unless that was already received. */
  ghost predicate SlotOk<V, C>(n: Node<V, C>) {
    && (n.publisher.Drained? ==> n.slot.None?)
    && (n.publisher.Idle? && n.slot.Some? ==> n.slot == Some(n.live))
    && (n.publisher.Idle? && n.published && n.slot.None? ==> n.received == Some(n.live))
  }

  /** The balancer's state is computed from the newest snapshot under the newest setting, or something is under way
      that will make it so. */
  ghost predicate StateOk<V, C>(n: Node<V, C>) {
    || !n.published || !n.publisher.Idle? || n.slot.Some? || n.conf || n.timer
    || match n.updater
       case Woken => true
       case Got(v) => v == n.live
       case _ => n.state == Some(Made(n.live, n.config))
  }

  /** The running or last generation saw the balancer's newest state in both readings, or
      it is still to read it, or a token is queued, or the balancer has yet to notify. */
  ghost predicate SeenOk<V, C>(s: System<V, C>, b: nat)
    requires b in s.nodes
  {
    || s.token || s.nodes[b].updater.Unannounced? || s.nodes[b].state.None?
    || (&& ((s.phase.First? && b in s.unread) || (b in s.first && s.first[b] == s.nodes[b].state))
        && (s.phase.First? || (s.phase.Second? && b in s.unread) || (b in s.second && s.second[b] == s.nodes[b].state)))
  }

  ghost predicate Inv<V, C>(s: System<V, C>) {
    && (forall b <- s.nodes :: SlotOk(s.nodes[b]) && StateOk(s.nodes[b]) && SeenOk(s, b))
    && (s.phase != Rest ==> s.unread <= s.nodes.Keys)
  }

  lemma NodeKeeps<V, C>(n: Node<V, C>, a: Action<V, C>)
    requires OfNode(a) && NodeEnabled(n, a) && SlotOk(n) && StateOk(n)
    ensures SlotOk(NodeStep(n, a)) && StateOk(NodeStep(n, a))
    ensures NodeStep(n, a).state == n.state || a.Keep?
  {
  }

  lemma StepKeeps<V, C>(s: System<V, C>, a: Action<V, C>)
    requires Inv(s) && Enabled(s, a)
    ensures Inv(Do(s, a)) && Do(s, a).nodes.Keys == s.nodes.Keys
  {
    var s' := Do(s, a);
    if OfNode(a) {
      NodeKeeps(s.nodes[a.b], a);
    }
    forall b | b in s'.nodes ensures SeenOk(s', b) {
      assert SeenOk(s, b);
    }
  }

  ghost predicate Initial<V, C>(s: System<V, C>) {
    && (forall b <- s.nodes :: s.nodes[b] == Node(s.nodes[b].live, false, Idle, None, None, Waiting, s.nodes[b].config, None, false, false))
    && !s.token && s.phase == Rest
  }

  ghost predicate Run<V, C>(s: System<V, C>, acts: seq<Action<V, C>>) {
    acts == [] || (Run(s, acts[..|acts| - 1]) && Enabled(After(s, acts[..|acts| - 1]), acts[|acts| - 1]))
  }

  ghost function After<V, C>(s: System<V, C>, acts: seq<Action<V, C>>): System<V, C> {
    if acts == [] then s
    else
      var t := After(s, acts[..|acts| - 1]);
      if Enabled(t, acts[|acts| - 1]) then Do(t, acts[|acts| - 1]) else t
  }

  lemma {:induction false} RunKeeps<V, C>(s: System<V, C>, acts: seq<Action<V, C>>)
    requires Initial(s) && Run(s, acts)
    ensures Inv(After(s, acts)) && After(s, acts).nodes.Keys == s.nodes.Keys
  {
    if acts != [] {
      RunKeeps(s, acts[..|acts| - 1]);
      StepKeeps(After(s, acts[..|acts| - 1]), acts[|acts| - 1]);
    }
  }

  /** In every reachable state a health manager about to send finds its slot free, and one
      at rest has its newest snapshot in the slot or received. */
  lemma SendNeverBlocks<V, C>(s: System<V, C>, acts: seq<Action<V, C>>, b: nat)
    requires Initial(s) && Run(s, acts) && b in s.nodes
    ensures b in After(s, acts).nodes
    ensures var n := After(s, acts).nodes[b];
            && (n.publisher.Drained? ==> Enabled(After(s, acts), Send(b)))
            && (n.publisher.Idle? && n.published ==> n.slot == Some(n.live) || n.received == Some(n.live))
  {
    RunKeeps(s, acts);
    var t := After(s, acts);
    assert SlotOk(t.nodes[b]);
  }

  predicate QuietNode<V, C>(n: Node<V, C>) {
    n.publisher.Idle? && n.slot.None? && n.updater.Waiting? && !n.conf && !n.timer
  }

  /** Nothing is queued, half done or scheduled anywhere. */
  ghost predicate Quiet<V, C>(s: System<V, C>) {
    !s.token && s.phase.Rest? && forall b <- s.nodes :: QuietNode(s.nodes[b])
  }

  /** The last snapshot stored for b, or the one it started with. */
  function LastStored<V, C>(acts: seq<Action<V, C>>, b: nat, start: V): V {
    if acts == [] then start
    else
      var a := acts[|acts| - 1];
      if a.Store? && a.b == b then a.v else LastStored(acts[..|acts| - 1], b, start)
  }

  /** The last setting given to b, or the one it started with. */
  function LastSetting<V, C>(acts: seq<Action<V, C>>, b: nat, start: C): C {
    if acts == [] then start
    else
      var a := acts[|acts| - 1];
      if a.Reconfigure? && a.b == b then a.c else LastSetting(acts[..|acts| - 1], b, start)
  }

  lemma StepInForce<V, C>(s: System<V, C>, a: Action<V, C>, b: nat)
    requires Enabled(s, a) && b in s.nodes
    ensures var t := Do(s, a);
            && b in t.nodes
            && t.nodes[b].live == (if a.Store? && a.b == b then a.v else s.nodes[b].live)
            && t.nodes[b].config == (if a.Reconfigure? && a.b == b then a.c else s.nodes[b].config)
            && (t.nodes[b].published <==> s.nodes[b].published || (a.Store? && a.b == b))
  {
  }

  lemma {:induction false} LastInForce<V, C>(s: System<V, C>, acts: seq<Action<V, C>>, b: nat)
    requires Run(s, acts) && b in s.nodes
    ensures var t := After(s, acts);
            && b in t.nodes && t.nodes[b].live == LastStored(acts, b, s.nodes[b].live)
            && t.nodes[b].config == LastSetting(acts, b, s.nodes[b].config)
            && (t.nodes[b].published <==> s.nodes[b].published || exists a <- acts :: a.Store? && a.b == b)
  {
    if acts != [] {
      var ini, a := acts[..|acts| - 1], acts[|acts| - 1];
      LastInForce(s, ini, b);
      StepInForce(After(s, ini), a, b);
      assert acts == ini + [a] && forall x :: x in acts <==> x in ini || x == a;
    }
  }

  /** When everything has come to rest, the state of every balancer whose health manager
      published is computed from the last snapshot stored under the last setting given, and
      the last generation read exactly that state twice: no notification that was dropped
      or overwritten lost an update. */
  lemma NoLostUpdates<V, C>(s: System<V, C>, acts: seq<Action<V, C>>, b: nat)
    requires Initial(s) && Run(s, acts) && Quiet(After(s, acts))
    requires b in s.nodes && exists a <- acts :: a.Store? && a.b == b
    ensures var t := After(s, acts);
            var made := Some(Made(LastStored(acts, b, s.nodes[b].live), LastSetting(acts, b, s.nodes[b].config)));
            && b in t.nodes && t.nodes[b].state == made
            && b in t.first && t.first[b] == made
            && b in t.second && t.second[b] == made
  {
    RunKeeps(s, acts);
    LastInForce(s, acts, b);
    var t := After(s, acts);
    assert StateOk(t.nodes[b]) && SeenOk(t, b);
  }

  // ----- And everything does come to rest -----------------------------------------------

  /** New snapshots, new settings and DNS failures come from outside. */
  predicate Internal<V, C>(a: Action<V, C>) {
    !a.Store? && !a.Reconfigure? && !a.Fail?
  }

  lemma NodeNotStuck<V, C>(n: Node<V, C>, b: nat) returns (a: Action<V, C>)
    requires SlotOk(n) && !QuietNode(n)
    ensures OfNode(a) && Internal(a) && a.b == b && NodeEnabled(n, a)
  {
    match n.publisher {
      case Stored => return Drain(b);
      case Drained => return Send(b);
      case Idle =>
    }
    match n.updater {
      case Waiting => a := if n.slot.Some? then Receive(b) else if n.conf then Wake(b) else Fire(b);
      case Woken => a := Fetch(b);
      case Got(_) => a := Keep(b);
      case Unannounced => a := Announce(b);
    }
  }

  /** While something is pending, some component can step without new input. */
  lemma NotStuck<V, C>(s: System<V, C>) returns (a: Action<V, C>)
    requires Inv(s) && !Quiet(s)
    ensures Enabled(s, a) && Internal(a)
  {
    if s.phase.Rest? {
      if s.token {
        return Begin;
      }
      var b :| b in s.nodes && !QuietNode(s.nodes[b]);
      a := NodeNotStuck(s.nodes[b], b);
    } else if s.unread == {} {
      a := if s.phase.First? then Turn else Finish;
    } else {
      var b :| b in s.unread;
      a := if s.phase.First? then ReadFirst(b) else ReadSecond(b);
    }
  }

  /** Steps a full generation takes in a system of n balancers. */
  function Generation(n: nat): nat {
    2 * n + 3
  }

  /** An upper bound on the steps a component still causes; g pays for one generation. */
  function NodeWork<V, C>(n: Node<V, C>, g: nat): nat {
    (match n.publisher case Idle => 0 case Drained => g + 5 case Stored => g + 6)
    + (if n.slot.Some? then g + 4 else 0) + (if n.conf then g + 4 else 0) + (if n.timer then g + 5 else 0)
    + match n.updater case Waiting => 0 case Unannounced => g + 1 case Got(_) => g + 2 case Woken => g + 3
  }

  ghost function NodesWork<V, C>(ns: map<nat, Node<V, C>>, g: nat): nat {
    if ns == map[] then 0
    else
      var b :| b in ns;
      NodeWork(ns[b], g) + NodesWork(ns - {b}, g)
  }

  ghost function Work<V, C>(s: System<V, C>): nat {
    var n := |s.nodes|;
    NodesWork(s.nodes, Generation(n))
    + (if s.token then Generation(n) else 0)
    + match s.phase case Rest => 0 case First => |s.unread| + n + 2 case Second => |s.unread| + 1
  }

  lemma {:induction false} WorkTake<V, C>(ns: map<nat, Node<V, C>>, g: nat, b: nat)
    requires b in ns
    ensures NodesWork(ns, g) == NodeWork(ns[b], g) + NodesWork(ns - {b}, g)
    decreases |ns|
  {
    var c :| c in ns && NodesWork(ns, g) == NodeWork(ns[c], g) + NodesWork(ns - {c}, g);
    if c != b {
      WorkTake(ns - {c}, g, b);
      WorkTake(ns - {b}, g, c);
      assert ns - {b} - {c} == ns - {c} - {b};
    }
  }

  lemma WorkPut<V, C>(ns: map<nat, Node<V, C>>, g: nat, b: nat, n: Node<V, C>)
    requires b in ns
    ensures NodesWork(ns[b := n], g) + NodeWork(ns[b], g) == NodesWork(ns, g) + NodeWork(n, g)
  {
    WorkTake(ns, g, b);
    WorkTake(ns[b := n], g, b);
    assert ns[b := n] - {b} == ns - {b};
  }

  lemma NodeStepWork<V, C>(n: Node<V, C>, a: Action<V, C>, g: nat)
    requires OfNode(a) && NodeEnabled(n, a) && Internal(a)
    ensures NodeWork(NodeStep(n, a), g) + (if a.Announce? then g else 0) < NodeWork(n, g)
  {
  }

  lemma StepWork<V, C>(s: System<V, C>, a: Action<V, C>)
    requires Enabled(s, a) && Internal(a)
    ensures Work(Do(s, a)) < Work(s)
  {
    var s' := Do(s, a);
    if OfNode(a) {
      assert s'.nodes.Keys == s.nodes.Keys && |s.nodes| == |s.nodes.Keys| && |s'.nodes| == |s'.nodes.Keys|;
      NodeStepWork(s.nodes[a.b], a, Generation(|s.nodes|));
      WorkPut(s.nodes, Generation(|s.nodes|), a.b, s'.nodes[a.b]);
    } else {
      assert |s.nodes| == |s.nodes.Keys|;
    }
  }

  /** Without new input the system makes at most Work steps, in whatever order, and the
      only states it can stop in are those where everything is at rest. */
  lemma {:induction false} ComesToRest<V, C>(s: System<V, C>, acts: seq<Action<V, C>>)
    requires Inv(s) && Run(s, acts) && forall a <- acts :: Internal(a)
    ensures |acts| + Work(After(s, acts)) <= Work(s)
    ensures (forall a :: Enabled(After(s, acts), a) ==> !Internal(a)) <==> Quiet(After(s, acts))
  {
    Settling(s, acts);
    var t := After(s, acts);
    if !Quiet(t) {
      var a := NotStuck(t);
    }
  }

  lemma {:induction false} Settling<V, C>(s: System<V, C>, acts: seq<Action<V, C>>)
    requires Inv(s) && Run(s, acts) && forall a <- acts :: Internal(a)
    ensures Inv(After(s, acts)) && |acts| + Work(After(s, acts)) <= Work(s)
  {
    if acts != [] {
      var m := |acts| - 1;
      assert acts[m] in acts && forall a <- acts[..m] :: a in acts;
      Settling(s, acts[..m]);
      StepKeeps(After(s, acts[..m]), acts[m]);
      StepWork(After(s, acts[..m]), acts[m]);
    }
  }
}
