/** The messages exchanged by the control plane and the data plane. Addresses are
    canonical: two spellings of one address are one value, its bits most significant
    first. */
module Types {
  datatype Option<+T> = None | Some(value: T)

  datatype Address = V4(bits: seq<bool>) | V6(bits: seq<bool>) {
    function Width(): nat {
      if V4? then 32 else 128
    }
  }

  type IP = a: Address | |a.bits| == a.Width() witness V4(seq(32, _ => false))

  datatype Family = Inet | Inet6

  function FamilyOf(a: IP): (f: Family)
    ensures f == Inet6 <==> a.V6?
  {
    if a.V4? then Inet else Inet6
  }

  datatype ForwardMethod = Tunnel | Masq

  datatype Scheduler = RR | WRR | IpVsSch

  datatype Flag =
    | Empty | Persistent | Hashed | OnePacket | Sched1
    | Sched2 | Sched3 | ShFallback | ShPort | ShNoPort

  datatype Attributes =
    | Tcp(address: IP, port: nat)
    | Udp(address: IP, port: nat)
    | Fwmark(family: Family, mark: nat)

  datatype Service = Service(attributes: Attributes, scheduler: Scheduler, flags: seq<Flag>)

  datatype Upstream =
    Upstream(address: IP, port: nat, hostname: string, weight: nat, forward: ForwardMethod)

  datatype BalancerState =
    BalancerState(name: string, service: Service, upstreams: seq<Upstream>)

  /** What the comparators look at in a BGP route: everything but the hold time, with
      the community already normalised. */
  datatype RouteId =
    RouteId(localAsn: nat, peerAsn: nat, community: string, prefix: IP, prefixLen: nat)

  datatype Route = Route(id: RouteId, holdMs: nat)

  datatype LinkAddress = LinkAddress(link: string, address: IP)

  datatype DataPlaneState =
    DataPlaneState(balancers: seq<BalancerState>, routes: seq<Route>, links: seq<LinkAddress>)
}
