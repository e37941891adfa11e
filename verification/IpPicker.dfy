/** Picking a free address from a range, and from the ranges of a region. */
module IpPicker {
  import opened Options
  import opened Numbers
  import opened Counting
  import opened IpNetworks

  datatype AllocationMode = Random | Sequential | SlaacEui64

  /** The gateway column as text: with a prefix, as a plain address, or neither. */
  datatype Gateway = Cidr(net: IpNetwork) | Plain(ip: IpAddr) | Malformed

  /** An ip_range row; cidr is what parsing the column gives. */
  datatype IpRange = IpRange(
    id: nat,
    cidr: Option<IpNetwork>,
    gateway: Gateway,
    enabled: bool,
    regionId: nat,
    mode: AllocationMode,
    useFullRange: bool)
  {
    /** What parsing guarantees; the whole address space is not a range. */
    predicate Ok() {
      && (cidr.Some? ==> cidr.value.Valid() && 0 < cidr.value.prefix)
      && (gateway.Cidr? ==> gateway.net.Valid())
      && (gateway.Plain? ==> gateway.ip.value < Pow2(Bits(gateway.ip.family)))
    }

    predicate IsIpv4() {
      cidr.Some? && cidr.value.ip.family == V4
    }
  }

  /** A plain gateway address counts as a network of one. */
  function ParseGateway(g: Gateway): Option<IpNetwork> {
    match g
    case Cidr(net) => Some(net)
    case Plain(ip) => Some(IpNetwork(ip, Bits(ip.family)))
    case Malformed => None
  }

  lemma GatewayIsValid(r: IpRange)
    requires r.Ok() && ParseGateway(r.gateway).Some?
    ensures ParseGateway(r.gateway).value.Valid()
  {
  }

  /** Network and broadcast address, and the gateway if it lies in the range. */
  ghost function Reserved(r: IpRange): set<IpAddr>
    requires r.Ok() && r.cidr.Some? && ParseGateway(r.gateway).Some?
  {
    var net := r.cidr.value;
    (if !r.useFullRange && net.ip.family == V4 then {IpAddr(V4, net.First()), IpAddr(V4, net.Last())} else {}) +
    (if net.Contains(ParseGateway(r.gateway).value.ip) then {ParseGateway(r.gateway).value.ip} else {})
  }

  ghost function Free(r: IpRange, taken: set<IpAddr>): set<IpAddr>
    requires r.Ok() && r.cidr.Some? && ParseGateway(r.gateway).Some?
  {
    r.cidr.value.Addresses() - (taken + Reserved(r))
  }

  /** The address in the gateway column, with or without a prefix. */
  function GatewayAddress(g: Gateway): Option<IpAddr> {
    match g
    case Cidr(net) => Some(net.ip)
    case Plain(ip) => Some(ip)
    case Malformed => None
  }

  /** An address of the range that can be handed out: not its gateway, and not the first or last of an IPv4 network. */
  predicate Assignable(r: IpRange, x: IpAddr)
    requires r.Ok() && r.cidr.Some?
  {
    var net := r.cidr.value;
    && net.Contains(x) && GatewayAddress(r.gateway) != Some(x)
    && (net.ip.family == V4 && !r.useFullRange ==> net.First() < x.value < net.Last())
  }

  /** What the marks leave over, in either family. */
  lemma FreeIsAssignable(r: IpRange, taken: set<IpAddr>, x: IpAddr)
    requires r.Ok() && r.cidr.Some? && ParseGateway(r.gateway).Some?
    ensures x in Free(r, taken) <==> Assignable(r, x) && x !in taken
  {
    ReservedExactly(r, x);
    assert x in r.cidr.value.Addresses() <==> r.cidr.value.Contains(x);
  }

  /** An address of the network is reserved exactly when it cannot be handed out. */
  lemma ReservedExactly(r: IpRange, x: IpAddr)
    requires r.Ok() && r.cidr.Some? && ParseGateway(r.gateway).Some?
    ensures r.cidr.value.Contains(x) ==> (x in Reserved(r) <==> !Assignable(r, x))
  {
    var net := r.cidr.value;
    assert GatewayAddress(r.gateway) == Some(ParseGateway(r.gateway).value.ip);
    if net.Contains(x) {
      assert net.First() <= x.value <= net.Last();
      assert x == IpAddr(x.family, x.value);
    }
  }

  /** The early exit: as many marked addresses as the IPv4 range is large, counted in 32 bits. */
  ghost predicate LooksFull(r: IpRange, taken: set<IpAddr>)
    requires r.Ok() && r.cidr.Some? && ParseGateway(r.gateway).Some?
  {
    r.IsIpv4() && |taken + Reserved(r)| % U32 >= r.cidr.value.Size()
  }

  /** Where pick_ip_from_range returns an error. */
  ghost predicate Refuses(r: IpRange, taken: set<IpAddr>)
    requires r.Ok()
  {
    || r.cidr.None? || ParseGateway(r.gateway).None?
    || LooksFull(r, taken)
    || (r.mode == Sequential && Free(r, taken) == {})
    || (r.mode == SlaacEui64 && r.IsIpv4())
  }

  datatype AvailableIp = AvailableIp(
    ip: IpNetwork,
    gateway: IpNetwork,
    rangeId: nat,
    regionId: nat,
    mode: AllocationMode)

  function Shorter(a: nat, b: nat): nat {
    if a < b then a else b
  }

  ghost predicate Lowest(s: set<IpAddr>, a: IpAddr) {
    a in s && forall b :: b in s ==> a.value <= b.value
  }

  /** What a successful pick looks like. */
  ghost predicate Grants(r: IpRange, taken: set<IpAddr>, a: AvailableIp)
    requires r.Ok()
  {
    && r.cidr.Some? && ParseGateway(r.gateway) == Some(a.gateway)
    && a.rangeId == r.id && a.regionId == r.regionId && a.mode == r.mode
    && (r.mode == SlaacEui64 ==> a.ip == r.cidr.value)
    && (r.mode != SlaacEui64 ==>
          a.ip.prefix == Shorter(r.cidr.value.prefix, a.gateway.prefix) && a.ip.ip in Free(r, taken))
    && (r.mode == Sequential ==> Lowest(Free(r, taken), a.ip.ip))
  }

  /** Drawing can go on for ever when every draw so far was taken. */
  datatype Pick = Picked(available: AvailableIp) | Refused | StillDrawing

  /** The first address of the network that is not marked. */
  method FindLowest(net: IpNetwork, marked: set<IpAddr>) returns (r: Option<IpAddr>)
    requires net.Valid()
    ensures r.None? <==> net.Addresses() - marked == {}
    ensures r.Some? ==> Lowest(net.Addresses() - marked, r.value)
  {
    var n := 0;
    while n < net.Size()
      invariant 0 <= n <= net.Size()
      invariant forall i :: 0 <= i < n ==> net.Nth(i) in marked
    {
      if net.Nth(n) !in marked {
        assert net.Nth(n) in net.Addresses() - marked;
        forall b | b in net.Addresses() - marked ensures net.Nth(n).value <= b.value {
          assert b == net.Nth(b.value - net.First());
        }
        return Some(net.Nth(n));
      }
      n := n + 1;
    }
    forall b | b in net.Addresses() ensures b in marked {
      assert b == net.Nth(b.value - net.First());
    }
    return None;
  }

  /** Draw until an unmarked address comes up. */
  method FindRandom(net: IpNetwork, marked: set<IpAddr>, draws: seq<nat>) returns (r: Option<IpAddr>)
    requires net.Valid() && forall i :: 0 <= i < |draws| ==> draws[i] < net.Size()
    ensures r.None? <==> forall i :: 0 <= i < |draws| ==> net.Nth(draws[i]) in marked
    ensures r.Some? ==> r.value in net.Addresses() - marked
  {
    var i := 0;
    while i < |draws|
      invariant 0 <= i <= |draws|
      invariant forall j :: 0 <= j < i ==> net.Nth(draws[j]) in marked
    {
      if net.Nth(draws[i]) !in marked {
        assert net.Nth(draws[i]) in net.Addresses() - marked;
        return Some(net.Nth(draws[i]));
      }
      i := i + 1;
    }
    return None;
  }

  /** The draws offered for a range, each within its size. */
  predicate DrawsFit(r: IpRange, draws: seq<nat>)
    requires r.Ok()
  {
    r.cidr.Some? ==> forall i :: 0 <= i < |draws| ==> draws[i] < r.cidr.value.Size()
  }

  ghost predicate HitsFree(r: IpRange, taken: set<IpAddr>, draws: seq<nat>)
    requires r.Ok() && r.cidr.Some? && ParseGateway(r.gateway).Some?
  {
    exists i :: 0 <= i < |draws| && r.cidr.value.Nth(draws[i]) in Free(r, taken)
  }

  /** pick_ip_from_range, given the stored addresses of the range and the random numbers drawn. */
  method PickIpFromRange(range: IpRange, live: seq<Option<IpAddr>>, draws: seq<nat>) returns (r: Pick)
    requires range.Ok() && DrawsFit(range, draws)
    ensures r.Refused? <==> Refuses(range, Parsed(live))
    ensures r.Picked? ==> Grants(range, Parsed(live), r.available)
    ensures r.Picked? && range.mode != SlaacEui64 ==>
              Assignable(range, r.available.ip.ip) && r.available.ip.ip !in Parsed(live)
    ensures r.Picked? && range.mode == Sequential ==>
              forall x :: Assignable(range, x) && x !in Parsed(live) ==> r.available.ip.ip.value <= x.value
    ensures r.StillDrawing? <==>
              !Refuses(range, Parsed(live)) && range.mode == Random && !HitsFree(range, Parsed(live), draws)
  {
    var gateway := ParseGateway(range.gateway);
    if range.cidr.None? || gateway.None? {
      return Refused;
    }
    var marked := MarkUsed(range, live);
    if range.IsIpv4() && |marked| % U32 >= range.cidr.value.Size() {
      return Refused;
    }
    r := PickUnmarked(range, marked, Parsed(live), draws);
    forall x ensures x in Free(range, Parsed(live)) <==> Assignable(range, x) && x !in Parsed(live) {
      FreeIsAssignable(range, Parsed(live), x);
    }
  }

  /** An IPv6 pick is refused exactly on a bad row, or when a sequential range has nothing left to hand out. */
  lemma Ipv6RefusedExactly(r: IpRange, taken: set<IpAddr>)
    requires r.Ok() && r.cidr.Some? && r.cidr.value.ip.family == V6
    ensures Refuses(r, taken) <==>
            GatewayAddress(r.gateway).None? ||
            (r.mode == Sequential && forall x :: Assignable(r, x) ==> x in taken)
  {
    if ParseGateway(r.gateway).Some? {
      forall x ensures x in Free(r, taken) <==> Assignable(r, x) && x !in taken {
        FreeIsAssignable(r, taken, x);
      }
    }
  }

  /** A gateway without a prefix counts as a single host, so the address keeps the prefix of its own range. */
  lemma PlainGatewayKeepsPrefix(r: IpRange, taken: set<IpAddr>, a: AvailableIp)
    requires r.Ok() && Grants(r, taken, a) && r.mode != SlaacEui64 && r.gateway.Plain?
    ensures a.gateway.ip == r.gateway.ip && a.gateway.Size() == 1
    ensures r.gateway.ip.family == r.cidr.value.ip.family ==> a.ip.prefix == r.cidr.value.prefix
  {
  }

  /** The addresses a pick must avoid. */
  method MarkUsed(range: IpRange, live: seq<Option<IpAddr>>) returns (marked: set<IpAddr>)
    requires range.Ok() && range.cidr.Some? && ParseGateway(range.gateway).Some?
    ensures marked == Parsed(live) + Reserved(range)
  {
    var net, gw := range.cidr.value, ParseGateway(range.gateway).value;
    marked := set i | 0 <= i < |live| && live[i].Some? :: live[i].value;
    if !range.useFullRange && net.ip.family == V4 {
      marked := marked + {IpAddr(V4, net.First()), IpAddr(V4, net.Last())};
    }
    if net.Contains(gw.ip) {
      marked := marked + {gw.ip};
    }
  }

  /** The pick by allocation mode, once the early exit was passed. */
  method PickUnmarked(range: IpRange, marked: set<IpAddr>, ghost taken: set<IpAddr>, draws: seq<nat>) returns (r: Pick)
    requires range.Ok() && range.cidr.Some? && ParseGateway(range.gateway).Some? && DrawsFit(range, draws)
    requires marked == taken + Reserved(range) && !LooksFull(range, taken)
    ensures r.Refused? <==> Refuses(range, taken)
    ensures r.Picked? ==> Grants(range, taken, r.available)
    ensures r.StillDrawing? <==> range.mode == Random && !HitsFree(range, taken, draws)
  {
    var net, gw := range.cidr.value, ParseGateway(range.gateway).value;
    var prefix := Shorter(net.prefix, gw.prefix);
    var found;
    match range.mode {
      case SlaacEui64 =>
        return
          if net.ip.family == V4 then Refused
          else Picked(AvailableIp(net, gw, range.id, range.regionId, SlaacEui64));
      case Sequential =>
        found := FindLowest(net, marked);
        if found.None? { return Refused; }
      case Random =>
        found := FindRandom(net, marked, draws);
        DrawnIsFree(range, taken, draws);
        if found.None? { return StillDrawing; }
    }
    r := Picked(AvailableIp(IpNetwork(found.value, prefix), gw, range.id, range.regionId, range.mode));
  }

  lemma DrawnIsFree(r: IpRange, taken: set<IpAddr>, draws: seq<nat>)
    requires r.Ok() && r.cidr.Some? && ParseGateway(r.gateway).Some? && DrawsFit(r, draws)
    ensures HitsFree(r, taken, draws) <==>
            !(forall i :: 0 <= i < |draws| ==> r.cidr.value.Nth(draws[i]) in taken + Reserved(r))
  {
    forall i | 0 <= i < |draws| ensures r.cidr.value.Nth(draws[i]) in r.cidr.value.Addresses() {
    }
  }
}
