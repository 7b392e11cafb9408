/** The printed keys by which states are compared, and the comparison of whole states. */
module Comparators {
  import opened Types
  import opened Text
  import opened Comparable
  import opened Plan

  // ----- Splitting printed keys ---------------------------------------------------------

  predicate NoColon(s: string) {
    ':' !in s
  }

  /** Texts whose first colons are at different places differ. */
  lemma FirstColonDiffers(a: string, x: string, b: string, y: string)
    requires |a| < |b| && NoColon(b)
    ensures a + ":" + x != b + ":" + y
  {
    var s, t := a + ":" + x, b + ":" + y;
    assert s[|a|] == ':' && t[|a|] == b[|a|] && b[|a|] in b;
  }

  lemma SplitFirst(a: string, x: string, b: string, y: string)
    requires NoColon(a) && NoColon(b) && a + ":" + x == b + ":" + y
    ensures a == b && x == y
  {
    if |a| < |b| {
      FirstColonDiffers(a, x, b, y);
    } else if |b| < |a| {
      FirstColonDiffers(b, y, a, x);
    }
    var s, t := a + ":" + x, b + ":" + y;
    assert a == s[..|a|] && b == t[..|b|] && x == s[|a| + 1..] && y == t[|b| + 1..];
  }

  /** So do texts whose last colons are. */
  lemma LastColonDiffers(x: string, a: string, y: string, b: string)
    requires |x| < |y| && NoColon(a)
    ensures x + ":" + a != y + ":" + b
  {
    var s, t := x + ":" + a, y + ":" + b;
    assert t[|y|] == ':';
    if |y| < |s| {
      assert s[|y|] == a[|y| - |x| - 1] && a[|y| - |x| - 1] in a;
    }
  }

  lemma SplitLast(x: string, a: string, y: string, b: string)
    requires NoColon(a) && NoColon(b) && x + ":" + a == y + ":" + b
    ensures x == y && a == b
  {
    if |x| < |y| {
      LastColonDiffers(x, a, y, b);
    } else if |y| < |x| {
      LastColonDiffers(y, b, x, a);
    }
    var s, t := x + ":" + a, y + ":" + b;
    assert x == s[..|x|] && y == t[..|y|] && a == s[|x| + 1..] && b == t[|y| + 1..];
  }

  // ----- Addresses as printed in a message ----------------------------------------------

  datatype PbIP = NilIP | UnsetIP | Ipv4(text: string) | Ipv6(text: string)

  /** A string printed between quotes: no quote comes out of it unescaped. */
  function Escape(s: string): string {
    if s == [] then []
    else
      var c, rest := s[|s| - 1], Escape(s[..|s| - 1]);
      if c == '"' || c == '\\' then rest + ['\\', c]
      else if c == '\n' then rest + ['\\', 'n']
      else if c == '\r' then rest + ['\\', 'r']
      else if c == '\t' then rest + ['\\', 't']
      else rest + [c]
  }

  /** Every quote has a backslash right before it. */
  predicate Guarded(e: string) {
    forall i :: 0 <= i < |e| && e[i] == '"' ==> i > 0 && e[i - 1] == '\\'
  }

  lemma {:induction false} EscapeGuarded(s: string)
    ensures Guarded(Escape(s))
  {
    if s != [] {
      EscapeGuarded(s[..|s| - 1]);
    }
  }

  function Quoted(s: string): string {
    "\"" + Escape(s) + "\" "
  }

  function PrintIP(a: PbIP): string {
    match a
    case NilIP => "<nil>"
    case UnsetIP => ""
    case Ipv4(t) => "ipv4:" + Quoted(t)
    case Ipv6(t) => "ipv6:" + Quoted(t)
  }

  // ----- Route keys ---------------------------------------------------------------------

  datatype BgpRoute = BgpRoute(localAsn: nat, peerAsn: nat, community: string, prefix: PbIP, prefixLen: nat, holdMs: nat)

  /** Commas and blanks separate communities alike. */
  function Normal(community: string): (r: string)
    ensures |r| == |community| && ',' !in r
    ensures forall i :: 0 <= i < |r| && community[i] != ',' ==> r[i] == community[i]
    ensures forall i :: 0 <= i < |r| && community[i] == ',' ==> r[i] == ' '
  {
    seq(|community|, i requires 0 <= i < |community| => if community[i] == ',' then ' ' else community[i])
  }

  predicate Separates(c: char) {
    c == ',' || c == ' '
  }

  /** Two communities are the same once normalised if and only if they differ in nothing but
      the kind of separators. */
  lemma NormalExact(a: string, b: string)
    ensures Normal(a) == Normal(b) <==>
            |a| == |b| && forall i :: 0 <= i < |a| ==> a[i] == b[i] || (Separates(a[i]) && Separates(b[i]))
  {
    var r, q := Normal(a), Normal(b);
    if |a| == |b| {
      assert forall i :: 0 <= i < |a| ==> (r[i] == q[i] <==> a[i] == b[i] || (Separates(a[i]) && Separates(b[i])));
    }
  }

  function PrintRoute(r: BgpRoute): string {
    Decimal(r.localAsn) + ":" + (Decimal(r.peerAsn) + ":" + (Normal(r.community) + ":" + PrintIP(r.prefix) + ":" + Decimal(r.prefixLen)))
  }

  predicate RoutesEqual(a: BgpRoute, b: BgpRoute) {
    && a.localAsn == b.localAsn && a.peerAsn == b.peerAsn
    && Normal(a.community) == Normal(b.community)
    && PrintIP(a.prefix) == PrintIP(b.prefix)
    && a.prefixLen == b.prefixLen
  }

  /** A quoted string that follows a colon starts at the last quote without a backslash
      before it, so texts in which it starts at different places differ. */
  lemma OpeningQuoteDiffers(u: string, e: string, v: string, f: string)
    requires |u| > |v| && Guarded(f) && u[|u| - 1] == ':'
    ensures u + "\"" + e != v + "\"" + f
  {
    var s, t := u + "\"" + e, v + "\"" + f;
    var j := |u| - |v| - 1;
    assert s[|u|] == '"' && s[|u| - 1] == ':';
    if j < |f| {
      assert t[|u|] == f[j];
      if j > 0 {
        assert t[|u| - 1] == f[j - 1];
      }
    }
  }

  lemma OpeningQuote(u: string, e: string, v: string, f: string)
    requires Guarded(e) && Guarded(f)
    requires u != [] && v != [] && u[|u| - 1] == ':' && v[|v| - 1] == ':'
    requires u + "\"" + e == v + "\"" + f
    ensures u == v && e == f
  {
    if |u| > |v| {
      OpeningQuoteDiffers(u, e, v, f);
    } else if |v| > |u| {
      OpeningQuoteDiffers(v, f, u, e);
    }
    var s, t := u + "\"" + e, v + "\"" + f;
    assert u == s[..|u|] && v == t[..|v|] && e == s[|u| + 1..] && f == t[|v| + 1..];
  }

  function Tag(a: PbIP): (t: string)
    requires a.Ipv4? || a.Ipv6?
    ensures |t| == 5 && t[4] == ':'
  {
    if a.Ipv4? then "ipv4:" else "ipv6:"
  }

  lemma PrintTagged(c: string, a: PbIP)
    requires a.Ipv4? || a.Ipv6?
    ensures PrintIP(a) == Tag(a) + ("\"" + Escape(a.text) + "\" ")
    ensures c + ":" + PrintIP(a) == ((c + ":" + Tag(a)) + "\"" + Escape(a.text)) + "\" "
  {
  }

  lemma DropTail(x: string, y: string, tail: string)
    requires x + tail == y + tail
    ensures x == y
  {
    assert x == (x + tail)[..|x|] && y == (y + tail)[..|y|];
  }

  lemma DropTag(c: string, t: string, d: string, r: string)
    requires |t| == |r| && c + ":" + t == d + ":" + r
    ensures c == d && t == r
  {
    var s, q := c + ":" + t, d + ":" + r;
    assert c == s[..|c|] && d == q[..|d|] && t == s[|c| + 1..] && r == q[|d| + 1..];
  }

  lemma SplitTagged(c: string, a: PbIP, d: string, b: PbIP)
    requires (a.Ipv4? || a.Ipv6?) && (b.Ipv4? || b.Ipv6?)
    requires c + ":" + PrintIP(a) == d + ":" + PrintIP(b)
    ensures c == d && PrintIP(a) == PrintIP(b)
  {
    var u, v := c + ":" + Tag(a), d + ":" + Tag(b);
    var e, f := Escape(a.text), Escape(b.text);
    EscapeGuarded(a.text);
    EscapeGuarded(b.text);
    PrintTagged(c, a);
    PrintTagged(d, b);
    DropTail(u + "\"" + e, v + "\"" + f, "\" ");
    OpeningQuote(u, e, v, f);
    DropTag(c, Tag(a), d, Tag(b));
  }

  /** A community may hold colons and quotes; the address printed after it is found all the
      same. */
  lemma SplitCommunity(c: string, a: PbIP, d: string, b: PbIP)
    requires c + ":" + PrintIP(a) == d + ":" + PrintIP(b)
    ensures c == d && PrintIP(a) == PrintIP(b)
  {
    var s, t := c + ":" + PrintIP(a), d + ":" + PrintIP(b);
    assert s[|s| - 1] == t[|t| - 1];
    LastChar(c, a);
    LastChar(d, b);
    match a {
      case NilIP => assert c == s[..|s| - 6] && d == t[..|t| - 6];
      case UnsetIP => assert c == s[..|s| - 1] && d == t[..|t| - 1];
      case _ => SplitTagged(c, a, d, b);
    }
  }

  lemma LastChar(c: string, a: PbIP)
    ensures var s := c + ":" + PrintIP(a);
            s[|s| - 1] == match a case NilIP => '>' case UnsetIP => ':' case _ => ' '
  {
  }

  /** The printed key of a route identifies exactly what its comparison compares, for every
      community and every prefix, so equal keys are never reported as a change. */
  lemma RouteKeyExact(a: BgpRoute, b: BgpRoute)
    ensures PrintRoute(a) == PrintRoute(b) <==> RoutesEqual(a, b)
  {
    if PrintRoute(a) == PrintRoute(b) {
      var ma, mb := Normal(a.community) + ":" + PrintIP(a.prefix), Normal(b.community) + ":" + PrintIP(b.prefix);
      var ta, tb := ma + ":" + Decimal(a.prefixLen), mb + ":" + Decimal(b.prefixLen);
      SplitFirst(Decimal(a.localAsn), Decimal(a.peerAsn) + ":" + ta, Decimal(b.localAsn), Decimal(b.peerAsn) + ":" + tb);
      SplitFirst(Decimal(a.peerAsn), ta, Decimal(b.peerAsn), tb);
      SplitLast(ma, Decimal(a.prefixLen), mb, Decimal(b.prefixLen));
      SplitCommunity(Normal(a.community), a.prefix, Normal(b.community), b.prefix);
      DecimalInjective(a.localAsn, b.localAsn);
      DecimalInjective(a.peerAsn, b.peerAsn);
      DecimalInjective(a.prefixLen, b.prefixLen);
    }
  }

  // ----- Link and upstream keys ---------------------------------------------------------

  function PrintLink(link: string, ip: string): string {
    link + ":" + ip
  }

  /** One link name, a colon and more make up the other. */
  predicate Extends(m: string, l: string) {
    l + ":" <= m
  }

  lemma LongerExtends(l: string, a: string, m: string, b: string)
    requires PrintLink(l, a) == PrintLink(m, b) && |l| < |m|
    ensures Extends(m, l)
  {
    var k := |l| + 1;
    assert PrintLink(l, a)[..k] == l + ":";
    assert PrintLink(m, b)[..k] == m[..k];
  }

  /** An address b that x and a colon make into another one. */
  predicate Joins(x: string, b: string, isAddress: string -> bool) {
    isAddress(b) && isAddress(x + ":" + b)
  }

  ghost predicate CanJoin(x: string, isAddress: string -> bool) {
    exists b :: Joins(x, b, isAddress)
  }

  /** What m has beyond l and a colon, put before some address, is again an address. */
  ghost predicate CanMeet(l: string, m: string, isAddress: string -> bool) {
    Extends(m, l) && CanJoin(m[|l| + 1..], isAddress)
  }

  /** Whatever texts addresses have, a link key identifies the link and the address as long
      as neither link name extends the other by a text that a colon can join to an address,
      and no longer; with names free of colons it always does. */
  lemma LinkKeyExact(l: string, m: string, isAddress: string -> bool)
    ensures (forall a, b :: isAddress(a) && isAddress(b) && PrintLink(l, a) == PrintLink(m, b) ==> l == m && a == b) <==>
            !CanMeet(l, m, isAddress) && !CanMeet(m, l, isAddress)
    ensures NoColon(l) && NoColon(m) ==> !CanMeet(l, m, isAddress) && !CanMeet(m, l, isAddress)
  {
    assert Extends(m, l) ==> m[|l|] == ':';
    assert Extends(l, m) ==> l[|m|] == ':';
    if CanMeet(l, m, isAddress) {
      LinkKeysMeet(l, m, isAddress);
    } else if CanMeet(m, l, isAddress) {
      LinkKeysMeet(m, l, isAddress);
    } else {
      forall a, b | isAddress(a) && isAddress(b) && PrintLink(l, a) == PrintLink(m, b) ensures l == m && a == b {
        if Extends(m, l) {
          LinkKeysJoin(l, a, m, b, isAddress);
        }
        if Extends(l, m) {
          LinkKeysJoin(m, b, l, a, isAddress);
        }
        LinkKeysSplit(l, a, m, b);
      }
    }
  }

  lemma LinkKeysJoin(l: string, a: string, m: string, b: string, isAddress: string -> bool)
    requires PrintLink(l, a) == PrintLink(m, b) && Extends(m, l) && isAddress(a) && isAddress(b)
    ensures CanMeet(l, m, isAddress)
  {
    var k := |l| + 1;
    assert PrintLink(l, a)[k..] == a;
    assert PrintLink(m, b)[k..] == m[k..] + ":" + b;
    assert Joins(m[k..], b, isAddress);
  }

  lemma LinkKeysSplit(l: string, a: string, m: string, b: string)
    requires PrintLink(l, a) == PrintLink(m, b) && !Extends(m, l) && !Extends(l, m)
    ensures l == m && a == b
  {
    assert |l| == |m| by {
      if |l| < |m| {
        LongerExtends(l, a, m, b);
      } else if |m| < |l| {
        LongerExtends(m, b, l, a);
      }
    }
    var k := |l|;
    assert PrintLink(l, a)[..k] == l && PrintLink(m, b)[..k] == m;
    assert PrintLink(l, a)[k + 1..] == a && PrintLink(m, b)[k + 1..] == b;
  }

  lemma LinkKeysMeet(l: string, m: string, isAddress: string -> bool)
    requires CanMeet(l, m, isAddress)
    ensures exists a, b :: isAddress(a) && isAddress(b) && PrintLink(l, a) == PrintLink(m, b) && l != m
  {
    var x := m[|l| + 1..];
    var b :| Joins(x, b, isAddress);
    assert m == l + ":" + x;
    assert PrintLink(l, x + ":" + b) == PrintLink(m, b);
  }

  /** So a colon in a link name can make two addresses share a key. */
  lemma LinkKeyClash()
    ensures PrintLink("lo:1", "2::3") == PrintLink("lo", "1:2::3")
  {
    assert PrintLink("lo:1", "2::3") == "lo:1:2::3" == PrintLink("lo", "1:2::3");
  }

  function PrintUpstream(ip: string, port: nat): string {
    ip + ":" + Decimal(port)
  }

  lemma UpstreamKeyExact(a: string, p: nat, b: string, q: nat)
    ensures PrintUpstream(a, p) == PrintUpstream(b, q) <==> a == b && p == q
  {
    if PrintUpstream(a, p) == PrintUpstream(b, q) {
      SplitLast(a, Decimal(p), b, Decimal(q));
      DecimalInjective(p, q);
    }
  }

  datatype Link = Link(name: string, ip: string)

  function PrintLinkOf(l: Link): string {
    PrintLink(l.name, l.ip)
  }

  predicate SameLink(a: Link, b: Link) {
    a == b
  }

  // ----- Why changed routes and addresses can be ignored --------------------------------

  /** Where equal keys mean equal items, no diff ever reports a change. */
  lemma NothingChanges<T, K>(o: seq<T>, n: seq<T>, key: T -> K, equal: (T, T) -> bool, d: Diff<T>)
    requires forall x <- o, y <- n :: key(x) == key(y) ==> equal(x, y)
    requires IsDiff(KeyGen(o, key), KeyGen(n, key), key, equal, d)
    ensures d.changed == []
  {
    var om, nm := KeyGen(o, key), KeyGen(n, key);
    DiffKeys(om, nm, key, equal, d);
    assert ChangedKeys(om, nm, equal) == {};
    KeysEmpty(NewItems(d.changed), key);
  }

  lemma ChangedRoutesEmpty(o: seq<BgpRoute>, n: seq<BgpRoute>, d: Diff<BgpRoute>)
    requires IsDiff(KeyGen(o, PrintRoute), KeyGen(n, PrintRoute), PrintRoute, RoutesEqual, d)
    ensures d.changed == []
  {
    forall x, y | x in o && y in n && PrintRoute(x) == PrintRoute(y) ensures RoutesEqual(x, y) {
      RouteKeyExact(x, y);
    }
    NothingChanges(o, n, PrintRoute, RoutesEqual, d);
  }

  /** The same for routes as the reconciler compares them, hold times included. */
  lemma NoRouteChanges(o: seq<Route>, n: seq<Route>, d: Diff<Route>)
    requires IsDiff(KeyGen(o, RouteKey), KeyGen(n, RouteKey), RouteKey, RouteEqual, d)
    ensures d.changed == []
  {
    NothingChanges(o, n, RouteKey, RouteEqual, d);
  }

  lemma ChangedLinksEmpty(o: seq<Link>, n: seq<Link>, d: Diff<Link>)
    requires forall x <- o, y <- n :: !Extends(x.name, y.name) && !Extends(y.name, x.name)
    requires IsDiff(KeyGen(o, PrintLinkOf), KeyGen(n, PrintLinkOf), PrintLinkOf, SameLink, d)
    ensures d.changed == []
  {
    forall x, y | x in o && y in n && PrintLinkOf(x) == PrintLinkOf(y) ensures SameLink(x, y) {
      LinkKeysSplit(x.name, x.ip, y.name, y.ip);
    }
    NothingChanges(o, n, PrintLinkOf, SameLink, d);
  }

  // ----- Printed keys and compared fields -----------------------------------------------

  predicate Escaped(c: char) {
    c == '"' || c == '\\' || c == '\n' || c == '\r' || c == '\t'
  }

  predicate Plain(s: string) {
    forall i :: 0 <= i < |s| ==> !Escaped(s[i])
  }

  lemma {:induction false} EscapePlain(s: string)
    requires Plain(s)
    ensures Escape(s) == s
  {
    if s != [] {
      EscapePlain(s[..|s| - 1]);
    }
  }

  /** show prints addresses: different ones differently, without anything to escape. */
  ghost predicate Shows(show: IP -> string) {
    (forall a :: Plain(show(a))) && forall a, b :: show(a) == show(b) ==> a == b
  }

  function WireIP(a: IP, show: IP -> string): PbIP {
    if a.V4? then Ipv4(show(a)) else Ipv6(show(a))
  }

  function Wire(r: Route, show: IP -> string): BgpRoute {
    BgpRoute(r.id.localAsn, r.id.peerAsn, r.id.community, WireIP(r.id.prefix, show), r.id.prefixLen, r.holdMs)
  }

  /** The text of an address is found between the quotes. */
  lemma WireText(a: IP, show: IP -> string)
    requires Plain(show(a))
    ensures var x := PrintIP(WireIP(a, show)); |x| == |show(a)| + 8 && x[6..|x| - 2] == show(a)
  {
    EscapePlain(show(a));
    var x, tag := PrintIP(WireIP(a, show)), Tag(WireIP(a, show)) + "\"";
    assert x == tag + show(a) + "\" ";
  }

  lemma WireIPExact(a: IP, b: IP, show: IP -> string)
    requires Shows(show)
    ensures PrintIP(WireIP(a, show)) == PrintIP(WireIP(b, show)) <==> a == b
  {
    assert Plain(show(a)) && Plain(show(b));
    WireText(a, show);
    WireText(b, show);
  }

  /** Routes with normalised communities have the same printed key if and only if they have
      the same key as compared field by field. */
  lemma RouteKeysAgree(r: Route, q: Route, show: IP -> string)
    requires Shows(show) && Normal(r.id.community) == r.id.community && Normal(q.id.community) == q.id.community
    ensures PrintRoute(Wire(r, show)) == PrintRoute(Wire(q, show)) <==> RouteKey(r) == RouteKey(q)
    ensures RoutesEqual(Wire(r, show), Wire(q, show)) <==> RouteEqual(r, q)
  {
    RouteKeyExact(Wire(r, show), Wire(q, show));
    WireIPExact(r.id.prefix, q.id.prefix, show);
  }

  lemma LinkKeysAgree(l: LinkAddress, m: LinkAddress, show: IP -> string)
    requires Shows(show) && NoColon(l.link) && NoColon(m.link)
    ensures PrintLink(l.link, show(l.address)) == PrintLink(m.link, show(m.address)) <==> LinkKey(l) == LinkKey(m)
  {
    if PrintLink(l.link, show(l.address)) == PrintLink(m.link, show(m.address)) {
      SplitFirst(l.link, show(l.address), m.link, show(m.address));
    }
  }

  lemma UpstreamKeysAgree(u: Upstream, v: Upstream, show: IP -> string)
    requires Shows(show)
    ensures PrintUpstream(show(u.address), u.port) == PrintUpstream(show(v.address), v.port) <==> UpstreamKey(u) == UpstreamKey(v)
  {
    UpstreamKeyExact(show(u.address), u.port, show(v.address), v.port);
  }

  /** So the diffs the reconciler works from are those the printed keys give. */
  lemma PrintedDiffs(st: DataPlaneState, cur: DataPlaneState, show: IP -> string, rd: Diff<Route>, ld: Diff<LinkAddress>)
    requires Shows(show)
    requires forall r <- cur.routes + st.routes :: Normal(r.id.community) == r.id.community
    requires forall l <- cur.links + st.links :: NoColon(l.link)
    ensures var key := r => PrintRoute(Wire(r, show));
            IsDiff(KeyGen(cur.routes, RouteKey), KeyGen(st.routes, RouteKey), RouteKey, RouteEqual, rd) <==>
            IsDiff(KeyGen(cur.routes, key), KeyGen(st.routes, key), key, RouteEqual, rd)
    ensures var key := (l: LinkAddress) => PrintLink(l.link, show(l.address));
            IsDiff(KeyGen(cur.links, LinkKey), KeyGen(st.links, LinkKey), LinkKey, LinkEqual, ld) <==>
            IsDiff(KeyGen(cur.links, key), KeyGen(st.links, key), key, LinkEqual, ld)
  {
    var routeKey := r => PrintRoute(Wire(r, show));
    forall r, q | r in cur.routes + st.routes && q in cur.routes + st.routes
      ensures RouteKey(r) == RouteKey(q) <==> routeKey(r) == routeKey(q)
    {
      RouteKeysAgree(r, q, show);
    }
    SameDiffs(cur.routes, st.routes, RouteKey, routeKey, RouteEqual, rd);
    var linkKey := (l: LinkAddress) => PrintLink(l.link, show(l.address));
    forall l, m | l in cur.links + st.links && m in cur.links + st.links
      ensures LinkKey(l) == LinkKey(m) <==> linkKey(l) == linkKey(m)
    {
      LinkKeysAgree(l, m, show);
    }
    SameDiffs(cur.links, st.links, LinkKey, linkKey, LinkEqual, ld);
  }

  lemma PrintedUpstreamDiffs(a: seq<Upstream>, b: seq<Upstream>, show: IP -> string, d: Diff<Upstream>)
    requires Shows(show)
    ensures var key := (u: Upstream) => PrintUpstream(show(u.address), u.port);
            IsUpstreamDiff(a, b, d) <==> IsDiff(KeyGen(a, key), KeyGen(b, key), key, UpstreamEqual, d)
  {
    var key := (u: Upstream) => PrintUpstream(show(u.address), u.port);
    forall u, v | u in a + b && v in a + b ensures UpstreamKey(u) == UpstreamKey(v) <==> key(u) == key(v) {
      UpstreamKeysAgree(u, v, show);
    }
    SameDiffs(a, b, UpstreamKey, key, UpstreamEqual, d);
  }

  // ----- Whole states -------------------------------------------------------------------

  ghost predicate StatesEqual(a: DataPlaneState, b: DataPlaneState) {
    && SameMaps(KeyGen(a.balancers, BalancerKey), KeyGen(b.balancers, BalancerKey), BalancerEqual)
    && SameMaps(KeyGen(a.routes, RouteKey), KeyGen(b.routes, RouteKey), RouteEqual)
    && SameMaps(KeyGen(a.links, LinkKey), KeyGen(b.links, LinkKey), LinkEqual)
  }

  /** Two states are equal exactly when no diff at any level reports a change: the upstreams
      of every pair of balancers, the balancers, the routes and the addresses. */
  lemma EqualIffNoDiff(a: DataPlaneState, b: DataPlaneState, bd: Diff<BalancerState>, rd: Diff<Route>, ld: Diff<LinkAddress>)
    requires IsDiff(KeyGen(a.balancers, BalancerKey), KeyGen(b.balancers, BalancerKey), BalancerKey, BalancerEqual, bd)
    requires IsDiff(KeyGen(a.routes, RouteKey), KeyGen(b.routes, RouteKey), RouteKey, RouteEqual, rd)
    requires IsDiff(KeyGen(a.links, LinkKey), KeyGen(b.links, LinkKey), LinkKey, LinkEqual, ld)
    ensures StatesEqual(a, b) <==> !bd.IsChanged() && !rd.IsChanged() && !ld.IsChanged()
  {
    NoChangeIffSame(KeyGen(a.balancers, BalancerKey), KeyGen(b.balancers, BalancerKey), BalancerKey, BalancerEqual, bd);
    NoChangeIffSame(KeyGen(a.routes, RouteKey), KeyGen(b.routes, RouteKey), RouteKey, RouteEqual, rd);
    NoChangeIffSame(KeyGen(a.links, LinkKey), KeyGen(b.links, LinkKey), LinkKey, LinkEqual, ld);
  }

  lemma BalancerEqualIffNoDiff(x: BalancerState, y: BalancerState, d: Diff<Upstream>)
    requires IsUpstreamDiff(x.upstreams, y.upstreams, d)
    ensures BalancerEqual(x, y) <==> x.name == y.name && !d.IsChanged()
  {
    var o, n := KeyGen(x.upstreams, UpstreamKey), KeyGen(y.upstreams, UpstreamKey);
    NoChangeIffSame(o, n, UpstreamKey, UpstreamEqual, d);
    assert SameMaps(o, n, UpstreamEqual) <==> o == n;
  }

  lemma SameMapsEquivalence<T(!new), K>(a: map<K, T>, b: map<K, T>, c: map<K, T>, equal: (T, T) -> bool)
    requires forall x :: equal(x, x)
    requires forall x, y :: equal(x, y) ==> equal(y, x)
    requires forall x, y, z :: equal(x, y) && equal(y, z) ==> equal(x, z)
    ensures SameMaps(a, a, equal)
    ensures SameMaps(a, b, equal) ==> SameMaps(b, a, equal)
    ensures SameMaps(a, b, equal) && SameMaps(b, c, equal) ==> SameMaps(a, c, equal)
  {
  }

  /** The nested comparison is an equivalence. */
  lemma StatesEqualEquivalence(a: DataPlaneState, b: DataPlaneState, c: DataPlaneState)
    ensures StatesEqual(a, a)
    ensures StatesEqual(a, b) ==> StatesEqual(b, a)
    ensures StatesEqual(a, b) && StatesEqual(b, c) ==> StatesEqual(a, c)
  {
    SameMapsEquivalence(KeyGen(a.balancers, BalancerKey), KeyGen(b.balancers, BalancerKey), KeyGen(c.balancers, BalancerKey), BalancerEqual);
    SameMapsEquivalence(KeyGen(a.routes, RouteKey), KeyGen(b.routes, RouteKey), KeyGen(c.routes, RouteKey), RouteEqual);
    SameMapsEquivalence(KeyGen(a.links, LinkKey), KeyGen(b.links, LinkKey), KeyGen(c.links, LinkKey), LinkEqual);
  }
}
