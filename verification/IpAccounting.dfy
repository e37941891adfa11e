/** The three views of how many addresses an IPv4 range has left, and how they agree. */
module IpAccounting {
  import opened Options
  import opened Numbers
  import opened Counting
  import opened IpNetworks
  import opened IpPicker

  /** Slots the counters set aside for the gateway; an unparsable gateway takes none. */
  function GatewaySlots(r: IpRange): nat
    requires r.Ok() && r.cidr.Some?
  {
    if ParseGateway(r.gateway).Some? && r.cidr.value.Contains(ParseGateway(r.gateway).value.ip) then 1 else 0
  }

  function BoundarySlots(r: IpRange): nat {
    if r.useFullRange then 0 else 2
  }

  /** count_available_ips */
  function CountAvailableIps(r: IpRange, assignments: nat): Option<nat>
    requires r.Ok()
  {
    if r.cidr.None? || r.cidr.value.ip.family == V6 then None
    else Some(SaturatingSub(SaturatingSub(r.cidr.value.Size(), GatewaySlots(r) + BoundarySlots(r)), assignments))
  }

  /** IPRangeCapacity::available_capacity */
  function AvailableCapacity(r: IpRange, usage: nat): nat
    requires r.Ok() && r.cidr.Some?
  {
    SaturatingSub(SaturatingSub(SaturatingSub(r.cidr.value.Size(), usage), GatewaySlots(r)), BoundarySlots(r))
  }

  /** compute_free_ips: every address of the network that is neither assigned nor reserved, in order. */
  method ComputeFreeIps(r: IpRange, live: seq<Option<IpAddr>>) returns (free: Option<seq<IpAddr>>)
    requires r.Ok()
    ensures free.Some? <==> r.IsIpv4() && ParseGateway(r.gateway).Some?
    ensures free.Some? ==> (set a | a in free.value) == Free(r, Parsed(live)) && |free.value| == |Free(r, Parsed(live))|
    ensures free.Some? ==> forall i, j :: 0 <= i < j < |free.value| ==> free.value[i].value < free.value[j].value
  {
    if !r.IsIpv4() || ParseGateway(r.gateway).None? {
      return None;
    }
    var net, gw := r.cidr.value, ParseGateway(r.gateway).value;
    var inUse := set i | 0 <= i < |live| && live[i].Some? :: live[i].value;
    var reserved := {gw.ip};
    if !r.useFullRange {
      reserved := reserved + {IpAddr(V4, net.First()), IpAddr(V4, net.Last())};
    }
    var list := FreeList(net, inUse + reserved);
    FreeByMarks(r, inUse, reserved);
    free := Some(list);
  }

  /** Setting the gateway aside although it may lie outside the range makes no difference. */
  lemma FreeByMarks(r: IpRange, taken: set<IpAddr>, reserved: set<IpAddr>)
    requires r.Ok() && r.IsIpv4() && ParseGateway(r.gateway).Some?
    requires var net := r.cidr.value;
             reserved == {ParseGateway(r.gateway).value.ip}
                         + if r.useFullRange then {} else {IpAddr(V4, net.First()), IpAddr(V4, net.Last())}
    ensures r.cidr.value.Addresses() - (taken + reserved) == Free(r, taken)
  {
    forall x | x in r.cidr.value.Addresses() ensures x in reserved <==> x in Reserved(r) {
    }
  }

  method FreeList(net: IpNetwork, marked: set<IpAddr>) returns (list: seq<IpAddr>)
    requires net.Valid()
    ensures (set a | a in list) == net.Addresses() - marked && |list| == |net.Addresses() - marked|
    ensures forall i, j :: 0 <= i < j < |list| ==> list[i].value < list[j].value
  {
    list := [];
    var n := 0;
    while n < net.Size()
      invariant 0 <= n <= net.Size()
      invariant forall a :: a in list <==> a.family == net.ip.family && net.First() <= a.value < net.First() + n
                                           && a !in marked
      invariant forall i, j :: 0 <= i < j < |list| ==> list[i].value < list[j].value
    {
      if net.Nth(n) !in marked { list := list + [net.Nth(n)]; }
      n := n + 1;
    }
    AscendingSize(list);
  }

  lemma {:induction false} AscendingSize(list: seq<IpAddr>)
    requires forall i, j :: 0 <= i < j < |list| ==> list[i].value < list[j].value
    ensures |(set a | a in list)| == |list|
  {
    if list == [] {
      assert (set a | a in list) == {};
    } else {
      var init := list[..|list| - 1];
      AscendingSize(init);
      assert list == init + [list[|list| - 1]];
      assert (set a | a in list) == (set a | a in init) + {list[|list| - 1]};
      assert list[|list| - 1] !in init;
    }
  }

  // ----- the counters against the list -----

  /** The reserved addresses are as many as the counters set aside. */
  predicate ReservedApart(r: IpRange)
    requires r.Ok() && r.cidr.Some? && ParseGateway(r.gateway).Some?
  {
    var net, gw := r.cidr.value, ParseGateway(r.gateway).value.ip;
    !r.useFullRange ==> 1 < net.Size() && gw != IpAddr(V4, net.First()) && gw != IpAddr(V4, net.Last())
  }

  lemma ReservedSize(r: IpRange)
    requires r.Ok() && r.IsIpv4() && ParseGateway(r.gateway).Some?
    ensures Reserved(r) <= r.cidr.value.Addresses()
    ensures |Reserved(r)| <= GatewaySlots(r) + BoundarySlots(r)
    ensures |Reserved(r)| == GatewaySlots(r) + BoundarySlots(r) <==> ReservedApart(r)
  {
    var net, gw := r.cidr.value, ParseGateway(r.gateway).value.ip;
    var lo, hi := IpAddr(V4, net.First()), IpAddr(V4, net.Last());
    var ends := if r.useFullRange then {} else {lo, hi};
    var mine := if net.Contains(gw) then {gw} else {};
    assert Reserved(r) == ends + mine;
    assert lo in net.Addresses() && hi in net.Addresses();
    if gw in ends || mine == {} {
      assert ends + mine == ends;
    } else {
      assert |ends + mine| == |ends| + 1;
    }
  }

  /** Stored addresses are all readable, different, inside the range and not reserved. */
  ghost predicate TidyAssignments(r: IpRange, live: seq<Option<IpAddr>>)
    requires r.Ok() && r.cidr.Some? && ParseGateway(r.gateway).Some?
  {
    AllParsedIn(live, r.cidr.value.Addresses() - Reserved(r)) && Distinct(live)
  }

  /** What is blocked inside the range: the reserved addresses and the other assigned ones. */
  lemma BlockedSize(r: IpRange, live: seq<Option<IpAddr>>)
    requires r.Ok() && r.IsIpv4() && ParseGateway(r.gateway).Some?
    ensures |Free(r, Parsed(live))|
         == r.cidr.value.Size() - |Reserved(r)| - |Parsed(live) * (r.cidr.value.Addresses() - Reserved(r))|
  {
    var all := r.cidr.value.Addresses();
    ReservedSize(r);
    AddressCount(r.cidr.value);
    var others := Parsed(live) * (all - Reserved(r));
    assert all == Free(r, Parsed(live)) + others + Reserved(r);
    assert Free(r, Parsed(live)) !! others && (Free(r, Parsed(live)) + others) !! Reserved(r);
  }

  /**
   * The count never promises more than the list holds. It gives the same number exactly when the
   * list is empty, or the reserved addresses are apart and the stored assignments are tidy.
   */
  lemma CountAgainstList(r: IpRange, live: seq<Option<IpAddr>>)
    requires r.Ok() && r.IsIpv4() && ParseGateway(r.gateway).Some?
    ensures CountAvailableIps(r, |live|).Some?
    ensures CountAvailableIps(r, |live|).value <= |Free(r, Parsed(live))|
    ensures CountAvailableIps(r, |live|).value == |Free(r, Parsed(live))|
       <==> Free(r, Parsed(live)) == {} || (ReservedApart(r) && TidyAssignments(r, live))
  {
    ReservedSize(r);
    BlockedSize(r, live);
    ParsedSize(live, r.cidr.value.Addresses() - Reserved(r));
    assert |Free(r, Parsed(live))| == 0 <==> Free(r, Parsed(live)) == {};
  }

  /** The capacity used for placement and the count shown to administrators are the same number. */
  lemma CapacityIsCount(r: IpRange, usage: nat)
    requires r.Ok() && r.IsIpv4()
    ensures CountAvailableIps(r, usage) == Some(AvailableCapacity(r, usage))
  {
  }

  // ----- the counters against the picker -----

  lemma MarkedSize(r: IpRange, live: seq<Option<IpAddr>>)
    requires r.Ok() && r.IsIpv4() && ParseGateway(r.gateway).Some?
    ensures |Parsed(live) + Reserved(r)| <= |live| + GatewaySlots(r) + BoundarySlots(r)
  {
    ReservedSize(r);
    ParsedSize(live, Parsed(live));
    assert Parsed(live) * Parsed(live) == Parsed(live);
    assert |Parsed(live) + Reserved(r)| == |Parsed(live)| + |Reserved(r)| - |Parsed(live) * Reserved(r)|;
  }

  lemma SizeFitsU32(net: IpNetwork)
    requires net.Valid() && net.ip.family == V4 && 0 < net.prefix
    ensures net.Size() < U32
  {
    Pow2Doubles(32 - net.prefix);
    assert Pow2(31) == 0x8000_0000 by {
      assert Pow2(8) == 256;
      assert Pow2(16) == 65536 by { Pow2Splits(8, 8); }
      assert Pow2(15) == 32768 by { Pow2Splits(8, 7); }
      Pow2Splits(16, 15);
    }
  }

  lemma {:induction false} Pow2Doubles(n: nat)
    requires n <= 31
    ensures Pow2(n) <= Pow2(31)
    decreases 31 - n
  {
    if n < 31 { Pow2Doubles(n + 1); }
  }

  /**
   * With capacity left in an IPv4 range, the early exit does not fire and a free address remains,
   * so the pick is refused exactly when the gateway does not parse or the range is SLAAC.
   */
  lemma CapacityMeansPick(r: IpRange, live: seq<Option<IpAddr>>)
    requires r.Ok() && r.IsIpv4() && 1 <= AvailableCapacity(r, |live|)
    ensures Refuses(r, Parsed(live)) <==> ParseGateway(r.gateway).None? || r.mode == SlaacEui64
    ensures ParseGateway(r.gateway).Some? ==> !LooksFull(r, Parsed(live)) && Free(r, Parsed(live)) != {}
  {
    if ParseGateway(r.gateway).Some? {
      FewerMarked(r, live);
      AddressCount(r.cidr.value);
      Pigeonhole(r.cidr.value.Addresses(), Parsed(live) + Reserved(r));
      SmallModulo(|Parsed(live) + Reserved(r)|);
    }
  }

  lemma FewerMarked(r: IpRange, live: seq<Option<IpAddr>>)
    requires r.Ok() && r.IsIpv4() && ParseGateway(r.gateway).Some? && 1 <= AvailableCapacity(r, |live|)
    ensures |Parsed(live) + Reserved(r)| < r.cidr.value.Size() < U32
  {
    MarkedSize(r, live);
    SizeFitsU32(r.cidr.value);
  }

  lemma SmallModulo(n: nat)
    requires n < U32
    ensures n % U32 == n
  {
  }

  /**
   * On stored addresses that all lie in the range the sequential pick refuses exactly when no
   * address is free, in either family; stray ones can make an IPv4 range with free addresses look full.
   */
  lemma RefusedExactlyWhenFull(r: IpRange, taken: set<IpAddr>)
    requires r.Ok() && r.cidr.Some? && ParseGateway(r.gateway).Some? && r.mode == Sequential
    requires taken <= r.cidr.value.Addresses()
    ensures Refuses(r, taken) <==> Free(r, taken) == {}
  {
    if r.IsIpv4() {
      var all, marked := r.cidr.value.Addresses(), taken + Reserved(r);
      ReservedSize(r);
      AddressCount(r.cidr.value);
      SizeFitsU32(r.cidr.value);
      SubsetSize(marked, all);
      if |marked| == |all| { FullSubset(marked, all); }
    }
  }

  lemma FullSubset<T>(a: set<T>, b: set<T>)
    requires a <= b && |a| == |b|
    ensures a == b
  {
    assert b == a + (b - a);
  }

  /** Whatever is stored: a sequential pick refuses exactly when it marks as many addresses as the range has. */
  lemma RefusedExactlyWhenMarked(r: IpRange, taken: set<IpAddr>)
    requires r.Ok() && r.IsIpv4() && ParseGateway(r.gateway).Some? && r.mode == Sequential
    requires |taken + Reserved(r)| < U32
    ensures Refuses(r, taken) <==> |taken + Reserved(r)| >= r.cidr.value.Size()
  {
    AddressCount(r.cidr.value);
    if |taken + Reserved(r)| < r.cidr.value.Size() { Pigeonhole(r.cidr.value.Addresses(), taken + Reserved(r)); }
  }

  /** Enough stored addresses outside the range: nothing is assigned in it, yet the pick refuses. */
  lemma StraysRefuse(r: IpRange, taken: set<IpAddr>)
    requires r.Ok() && r.IsIpv4() && ParseGateway(r.gateway).Some? && r.mode == Sequential
    requires taken !! r.cidr.value.Addresses() && r.cidr.value.Size() <= |taken| && |taken + Reserved(r)| < U32
    ensures Refuses(r, taken) && Free(r, taken) == r.cidr.value.Addresses() - Reserved(r)
  {
    RefusedExactlyWhenMarked(r, taken);
    SubsetSize(taken, taken + Reserved(r));
  }
}
