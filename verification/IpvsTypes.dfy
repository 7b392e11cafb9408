/** Conversions between the balancer's types and those of the IPVS library. What the
    kernel reports must convert back to what was asked for, or reconciliation never rests. */
module IpvsTypes {
  import opened Types

  // ----- Flags --------------------------------------------------------------------------

  /** A machine word as the set of positions of its one bits: union sets bits, membership
      tests one, symmetric difference toggles one. */
  type Word = set<nat>

  /** The flags of a service as the library has them: bits, and which of them count. */
  datatype Flags = Flags(bits: Word, mask: Word)

  const ALL_ONES: Word := set i: nat | i < 32

  const SUPPORTED: set<Flag> := {Persistent, Hashed, OnePacket, ShFallback, ShPort}

  /** The bit of each supported flag: IP_VS_SVC_F_PERSISTENT up to the two SH flags. */
  function Bit(f: Flag): nat
    requires f in SUPPORTED
  {
    match f
    case Persistent => 0
    case Hashed => 1
    case OnePacket => 2
    case ShFallback => 3
    case ShPort => 4
  }

  function Bits(s: set<Flag>): Word {
    set f | f in s && f in SUPPORTED :: Bit(f)
  }

  function FlagsIn(w: Word): set<Flag> {
    set f | f in SUPPORTED && Bit(f) in w
  }

  /** What is left of a word without its supported bits. */
  function Left(w: Word): Word {
    w - Bits(SUPPORTED)
  }

  /** The position of a flag in the enumeration. */
  function Rank(f: Flag): nat {
    match f
    case Empty => 0 case Persistent => 1 case Hashed => 2 case OnePacket => 3 case Sched1 => 4
    case Sched2 => 5 case Sched3 => 6 case ShFallback => 7 case ShPort => 8 case ShNoPort => 9
  }

  function Only(f: Flag, s: set<Flag>): seq<Flag> {
    if f in s then [f] else []
  }

  /** A set of supported flags as the list sorted by enumeration. */
  function Sorted(s: set<Flag>): seq<Flag> {
    Only(Persistent, s) + Only(Hashed, s) + Only(OnePacket, s) + Only(ShFallback, s) + Only(ShPort, s)
  }

  ghost function Elems(fs: seq<Flag>): set<Flag> {
    set f | f in fs
  }

  lemma SortedMeaning(s: set<Flag>)
    requires s <= SUPPORTED
    ensures Elems(Sorted(s)) == s
    ensures forall i, j :: 0 <= i < j < |Sorted(s)| ==> Rank(Sorted(s)[i]) < Rank(Sorted(s)[j])
  {
    forall f ensures f in Sorted(s) <==> f in s {
    }
  }

  lemma FlagsOfBits(s: set<Flag>)
    requires s <= SUPPORTED
    ensures FlagsIn(Bits(s)) == s && Left(Bits(s)) == {}
  {
    forall f, g | f in SUPPORTED && g in SUPPORTED && Bit(f) == Bit(g) ensures f == g {
    }
  }

  lemma BitsOfFlags(w: Word)
    ensures Left(w) == {} <==> Bits(FlagsIn(w)) == w
  {
    assert Bits(FlagsIn(w)) == w * Bits(SUPPORTED);
    if Left(w) == {} {
      forall b | b in w ensures b in Bits(SUPPORTED) {
        assert b !in Left(w);
      }
      assert w * Bits(SUPPORTED) == w;
    }
  }

  function ToWord(fs: seq<Flag>): Option<Word> {
    if fs == [] then Some({})
    else match ToWord(fs[..|fs| - 1])
      case None => None
      case Some(w) => if fs[|fs| - 1] in SUPPORTED then Some(w + {Bit(fs[|fs| - 1])}) else None
  }

  lemma {:induction false} ToWordMeaning(fs: seq<Flag>)
    ensures ToWord(fs) == if Elems(fs) <= SUPPORTED then Some(Bits(Elems(fs))) else None
  {
    if fs != [] {
      var ini, f := fs[..|fs| - 1], fs[|fs| - 1];
      assert fs == ini + [f] && forall x :: x in fs <==> x in ini || x == f;
      assert Elems(fs) == Elems(ini) + {f};
      ToWordMeaning(ini);
      if f in SUPPORTED {
        assert Bits(Elems(fs)) == Bits(Elems(ini)) + {Bit(f)};
      }
    } else {
      assert Bits(Elems(fs)) == {};
    }
  }

  /** The flags of a word: HASHED is the kernel's own and ignored, and any other bit that is
      not supported is an error. */
  function FromWord(w: Word): Option<seq<Flag>> {
    if Left(w) == {} then Some(Sorted(FlagsIn(w) - {Hashed})) else None
  }

  function ToFlags(fs: seq<Flag>): Option<Flags> {
    match ToWord(fs)
    case None => None
    case Some(w) => Some(Flags(w, ALL_ONES))
  }

  /** Only a full mask is understood. */
  function FromFlags(f: Flags): Option<seq<Flag>> {
    if f.mask != ALL_ONES then None else FromWord(f.bits)
  }

  /** The kernel marks every service it holds as HASHED. */
  function Stored(f: Flags): (r: Flags)
    ensures r.mask == f.mask && Bit(Hashed) in r.bits && r.bits - {Bit(Hashed)} == f.bits - {Bit(Hashed)}
  {
    f.(bits := f.bits + {Bit(Hashed)})
  }

  method ToLibIpvsFlags(fs: seq<Flag>) returns (r: Option<Flags>)
    ensures r == ToFlags(fs)
  {
    var flags := Flags({}, ALL_ONES);
    for i := 0 to |fs|
      invariant ToFlags(fs[..i]) == Some(flags)
    {
      assert fs[..i + 1][..i] == fs[..i];
      if fs[i] !in SUPPORTED {
        ToWordMeaning(fs);
        assert fs[i] in Elems(fs);
        return None;
      }
      flags := flags.(bits := flags.bits + {Bit(fs[i])});
    }
    assert fs[..|fs|] == fs;
    r := Some(flags);
  }

  lemma ClearBit(w: Word, f: Flag)
    requires f in SUPPORTED
    ensures FlagsIn(w - {Bit(f)}) == FlagsIn(w) - {f} && Left(w - {Bit(f)}) == Left(w)
  {
    assert Bit(f) in Bits(SUPPORTED);
    forall g | g in SUPPORTED && Bit(g) == Bit(f) ensures g == f {
    }
  }

  /** Picks the flags out of a word in the arbitrary order of a map, then sorts them. */
  method ToKglbFlags(flags: Flags) returns (r: Option<seq<Flag>>)
    ensures r == FromFlags(flags)
  {
    if flags.mask != ALL_ONES {
      return None;
    }
    var word := flags.bits;
    var bits := word;
    ClearBit(bits, Hashed);
    if Bit(Hashed) in bits {
      bits := bits - {Bit(Hashed)};
    }
    ghost var wanted := FlagsIn(word) - {Hashed};
    var found: seq<Flag> := [];
    var todo := SUPPORTED;
    while todo != {}
      invariant todo <= SUPPORTED && Elems(found) == wanted - todo
      invariant FlagsIn(bits) == wanted * todo && Left(bits) == Left(word)
    {
      var f :| f in todo;
      ClearBit(bits, f);
      if Bit(f) in bits {
        assert f in FlagsIn(bits) && Elems(found + [f]) == Elems(found) + {f};
        found := found + [f];
        bits := bits - {Bit(f)};
      } else {
        assert f !in FlagsIn(bits);
      }
      todo := todo - {f};
    }
    BitsOfFlags(bits);
    assert FlagsIn(bits) == {} && Bits({}) == {};
    if bits != {} {
      return None;
    }
    r := Some(SortFlags(found));
    assert Elems(found) == wanted;
  }

  /** Sorts distinct flags by enumeration. */
  function SortFlags(fs: seq<Flag>): (r: seq<Flag>)
    ensures r == Sorted(Elems(fs))
  {
    (if Persistent in fs then [Persistent] else []) + (if Hashed in fs then [Hashed] else []) +
    (if OnePacket in fs then [OnePacket] else []) + (if ShFallback in fs then [ShFallback] else []) +
    (if ShPort in fs then [ShPort] else [])
  }

  /** What the kernel adds does not show. */
  lemma StoredReadsSame(f: Flags)
    ensures FromFlags(Stored(f)) == FromFlags(f)
  {
    var w := f.bits + {Bit(Hashed)};
    ClearBit(w, Hashed);
    ClearBit(f.bits, Hashed);
    assert w - {Bit(Hashed)} == f.bits - {Bit(Hashed)};
  }

  /** There, through the kernel and back, a list of flags comes out sorted, without
      repetitions and without HASHED; it gets there exactly if every flag is supported. */
  lemma FlagsRoundTrip(fs: seq<Flag>)
    ensures ToFlags(fs).Some? <==> Elems(fs) <= SUPPORTED
    ensures ToFlags(fs).Some? ==> FromFlags(Stored(ToFlags(fs).value)) == Some(Sorted(Elems(fs) - {Hashed}))
  {
    ToWordMeaning(fs);
    if Elems(fs) <= SUPPORTED {
      FlagsOfBits(Elems(fs));
      StoredReadsSame(ToFlags(fs).value);
    }
  }

  /** Back and there, flags only lose HASHED. */
  lemma WordRoundTrip(f: Flags)
    requires FromFlags(f).Some?
    ensures ToFlags(FromFlags(f).value) == Some(f.(bits := f.bits - {Bit(Hashed)}))
  {
    var s := FlagsIn(f.bits) - {Hashed};
    SortedMeaning(s);
    ToWordMeaning(Sorted(s));
    ClearBit(f.bits, Hashed);
    BitsOfFlags(f.bits - {Bit(Hashed)});
  }

  /** The lists that survive are exactly the sorted, duplicate-free ones of supported flags
      other than HASHED. */
  ghost predicate NormalFlags(fs: seq<Flag>) {
    Elems(fs) <= SUPPORTED - {Hashed} && fs == Sorted(Elems(fs))
  }

  // ----- Services -----------------------------------------------------------------------

  const TCP: nat := 6
  const UDP: nat := 17

  datatype LibService = LibService(
    sched: string, flags: Flags, address: Option<IP>, protocol: nat, port: nat, family: Family, mark: nat, netmask: nat)

  function SchedName(s: Scheduler): string {
    match s
    case RR => "rr"
    case WRR => "wrr"
    case IpVsSch => "ip_vs_sch"
  }

  function SchedOf(name: string): Option<Scheduler> {
    if name == "rr" then Some(RR)
    else if name == "wrr" then Some(WRR)
    else if name == "ip_vs_sch" then Some(IpVsSch)
    else None
  }

  function Netmask(f: Family): nat {
    if f == Inet6 then 128 else 0
  }

  /** Ports become 16 bits wide. */
  function ToLib(s: Service): Option<LibService> {
    match ToFlags(s.flags)
    case None => None
    case Some(w) =>
      match s.attributes
      case Tcp(a, p) => Some(LibService(SchedName(s.scheduler), w, Some(a), TCP, p % 0x1_0000, FamilyOf(a), 0, Netmask(FamilyOf(a))))
      case Udp(a, p) => Some(LibService(SchedName(s.scheduler), w, Some(a), UDP, p % 0x1_0000, FamilyOf(a), 0, Netmask(FamilyOf(a))))
      case Fwmark(f, m) => Some(LibService(SchedName(s.scheduler), w, None, 0, 0, f, m, Netmask(f)))
  }

  /** What the library is told, field by field: protocols 6 and 17 with the address's family
      for TCP and UDP, no address, protocol or port for a mark, and a full netmask for IPv6
      only. */
  lemma ToLibMeaning(s: Service)
    requires ToLib(s).Some?
    ensures var l := ToLib(s).value;
            && (l.sched == match s.scheduler case RR => "rr" case WRR => "wrr" case IpVsSch => "ip_vs_sch")
            && l.flags.mask == ALL_ONES && (forall f <- SUPPORTED :: Bit(f) in l.flags.bits <==> f in s.flags)
            && (l.netmask == if l.family == Inet6 then 128 else 0)
            && match s.attributes
               case Tcp(a, p) => l.address == Some(a) && l.protocol == 6 && l.port == p % 65536 && (l.family == Inet6 <==> a.V6?) && l.mark == 0
               case Udp(a, p) => l.address == Some(a) && l.protocol == 17 && l.port == p % 65536 && (l.family == Inet6 <==> a.V6?) && l.mark == 0
               case Fwmark(f, m) => l.address == None && l.protocol == 0 && l.port == 0 && l.family == f && l.mark == m
  {
    ToWordMeaning(s.flags);
    FlagsOfBits(Elems(s.flags));
  }

  function AttributesOf(l: LibService): Option<Attributes> {
    if l.mark != 0 then Some(Fwmark(l.family, l.mark))
    else if l.protocol == TCP && l.address.Some? then Some(Tcp(l.address.value, l.port))
    else if l.protocol == UDP && l.address.Some? then Some(Udp(l.address.value, l.port))
    else None
  }

  function FromLib(l: LibService): Option<Service> {
    match (SchedOf(l.sched), FromFlags(l.flags), AttributesOf(l))
    case (Some(sched), Some(flags), Some(a)) => Some(Service(a, sched, flags))
    case _ => None
  }

  ghost predicate CanonicalService(s: Service) {
    && NormalFlags(s.flags)
    && match s.attributes
       case Fwmark(_, m) => m != 0
       case _ => s.attributes.port < 0x1_0000
  }

  lemma SchedRoundTrip(s: Scheduler)
    ensures SchedOf(SchedName(s)) == Some(s)
  {
    assert "rr"[0] == 'r' && "wrr"[0] == 'w' && "ip_vs_sch"[0] == 'i';
  }

  lemma NormalIffSurvives(fs: seq<Flag>)
    ensures NormalFlags(fs) <==> ToFlags(fs).Some? && FromFlags(Stored(ToFlags(fs).value)) == Some(fs)
  {
    FlagsRoundTrip(fs);
    if ToFlags(fs).Some? && fs == Sorted(Elems(fs) - {Hashed}) {
      SortedMeaning(Elems(fs) - {Hashed});
    }
  }

  /** The attributes that come back. */
  function Returned(a: Attributes): Option<Attributes> {
    match a
    case Tcp(ip, p) => Some(Tcp(ip, p % 0x1_0000))
    case Udp(ip, p) => Some(Udp(ip, p % 0x1_0000))
    case Fwmark(f, m) => if m != 0 then Some(a) else None
  }

  lemma ToLibFields(s: Service)
    ensures ToLib(s).Some? <==> ToFlags(s.flags).Some?
    ensures ToLib(s).Some? ==>
              var l := ToLib(s).value;
              l.sched == SchedName(s.scheduler) && Some(l.flags) == ToFlags(s.flags) && AttributesOf(l) == Returned(s.attributes)
  {
  }

  lemma ReturnedSame(a: Attributes)
    ensures Returned(a) == Some(a) <==> match a case Fwmark(_, m) => m != 0 case _ => a.port < 0x1_0000
  {
  }

  /** A service comes back from the kernel unchanged if and only if it is canonical: flags in
      normal form, a port of 16 bits, a mark that is not zero. */
  lemma ServiceRoundTrip(s: Service)
    ensures CanonicalService(s) <==> ComesBack(s)
  {
    NormalIffSurvives(s.flags);
    ReturnedSame(s.attributes);
    ToLibFields(s);
    if ToLib(s).Some? {
      var l := Held(ToLib(s).value);
      SchedRoundTrip(s.scheduler);
      FromLibFields(l, s.scheduler);
    }
  }

  ghost predicate ComesBack(s: Service) {
    match ToLib(s)
    case None => false
    case Some(l) => FromLib(Held(l)) == Some(s)
  }

  /** A service as the kernel lists it. */
  function Held(l: LibService): LibService {
    l.(flags := Stored(l.flags))
  }

  lemma FromLibFields(l: LibService, sched: Scheduler)
    requires SchedOf(l.sched) == Some(sched)
    ensures FromLib(l) == match (FromFlags(l.flags), AttributesOf(l))
                          case (Some(fs), Some(a)) => Some(Service(a, sched, fs))
                          case _ => None
  {
  }

  // ----- Destinations -------------------------------------------------------------------

  datatype LibDestination = LibDestination(address: IP, port: nat, weight: nat, family: Family, forward: ForwardMethod)

  function ToLibDestination(u: Upstream): LibDestination {
    LibDestination(u.address, u.port % 0x1_0000, u.weight, FamilyOf(u.address), u.forward)
  }

  function FromLibDestination(d: LibDestination): Upstream {
    Upstream(d.address, d.port, "", d.weight, d.forward)
  }

  /** A destination comes back without its hostname, and otherwise unchanged if and only if
      its port has 16 bits. */
  lemma DestinationRoundTrip(u: Upstream)
    ensures ToLibDestination(u).family == Inet6 <==> u.address.V6?
    ensures FromLibDestination(ToLibDestination(u)) == u.(hostname := "") <==> u.port < 0x1_0000
  {
  }
}
