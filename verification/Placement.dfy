/** From an accepted order to an address: placement and the address pick read the same rows. */
module Placement {
  import opened Options
  import opened Numbers
  import opened Counting
  import opened IpNetworks
  import opened IpPicker
  import opened IpAccounting
  import opened IpRegions
  import opened HostCapacities

  /** The ranges of a host's region with their use, as get_host_capacity loads them. */
  function RangesOf(listed: seq<IpRange>, live: Stored): (r: seq<RangeCapacity>)
    requires forall i :: 0 <= i < |listed| ==> listed[i].id in live
    ensures |r| == |listed|
    ensures forall i :: 0 <= i < |r| ==> r[i] == RangeCapacity(listed[i], |live[listed[i].id]|)
  {
    seq(|listed|, i requires 0 <= i < |listed| && listed[i].id in live =>
          RangeCapacity(listed[i], |live[listed[i].id]|))
  }

  /** An IPv4 range with room that can be asked for an address. */
  ghost predicate UsableRoom(r: IpRange, live: Stored)
    requires r.Ok() && r.id in live
  {
    RangeCapacity(r, |live[r.id]|).HasRoom() && ParseGateway(r.gateway).Some? && r.mode != SlaacEui64
  }

  ghost predicate UnusableRoom(r: IpRange, live: Stored)
    requires r.Ok() && r.id in live
  {
    RangeCapacity(r, |live[r.id]|).HasRoom() && !UsableRoom(r, live)
  }

  /** The room a host was accepted through is in a range that can be asked, whatever the other ranges are. */
  ghost predicate SomeUsableRoom(listed: seq<IpRange>, live: Stored)
    requires forall i :: 0 <= i < |listed| ==> listed[i].Ok() && listed[i].id in live
  {
    exists i :: 0 <= i < |listed| && UsableRoom(listed[i], live)
  }

  /** Drawing goes on until a free address comes up, whenever there is one. */
  ghost predicate DrawsReachFree(listed: seq<IpRange>, live: Stored, draws: Draws)
    requires Ready(listed, live, draws)
  {
    forall i :: 0 <= i < |listed| && listed[i].cidr.Some? && ParseGateway(listed[i].gateway).Some? &&
                Free(listed[i], Parsed(live[listed[i].id])) != {} ==>
      HitsFree(listed[i], Parsed(live[listed[i].id]), draws[listed[i].id])
  }

  /** A random range on which drawing never ends: IPv6 with nothing free, or IPv4 with its count wrapped around. */
  ghost predicate Undrawable(r: IpRange, taken: set<IpAddr>)
    requires r.Ok()
  {
    && r.mode == Random && r.cidr.Some? && ParseGateway(r.gateway).Some? && Free(r, taken) == {}
    && (r.IsIpv4() ==> |taken + Reserved(r)| >= U32)
  }

  /** An IPv4 range that passes the early exit has a free address left to draw. */
  lemma PassedExitHasFree(r: IpRange, taken: set<IpAddr>)
    requires r.Ok() && r.IsIpv4() && ParseGateway(r.gateway).Some? && !LooksFull(r, taken)
    requires |taken + Reserved(r)| < U32
    ensures Free(r, taken) != {}
  {
    AddressCount(r.cidr.value);
    Pigeonhole(r.cidr.value.Addresses(), taken + Reserved(r));
  }

  /**
   * If a host accepts an order through one range that can be asked, the address pick for its region
   * ends with an IPv4 address for every shuffle of the ranges; otherwise some range with room has no
   * readable gateway or is SLAAC. It can only hang on an IPv6 range with nothing left to draw, or
   * on one with four billion marked addresses.
   */
  method PickForAcceptedHost(h: HostCapacity, o: Order, listed: seq<IpRange>, live: Stored, draws: Draws)
    returns (r: RegionPick)
    requires Ready(listed, live, draws) && h.ranges == RangesOf(listed, live)
    requires h.Ok() && CanAccommodate(h, o) && DrawsReachFree(listed, live, draws)
    ensures SomeUsableRoom(listed, live) ==>
              r.Hanging? || (r.Found? && r.ip4.Some? && GrantedBy(listed, live, V4, r.ip4.value))
    ensures !r.Hanging? && !(r.Found? && r.ip4.Some?) ==> exists i :: 0 <= i < |listed| && UnusableRoom(listed[i], live)
    ensures r.Hanging? ==> exists i :: 0 <= i < |listed| && Undrawable(listed[i], Parsed(live[listed[i].id]))
  {
    r := PickIpKindForRegion(listed, None, live, draws);
    if SomeUsableRoom(listed, live) {
      RoomIsNotRefused(listed, live);
    } else {
      ghost var i :| 0 <= i < |h.ranges| && h.ranges[i].HasRoom();
      assert UnusableRoom(listed[i], live);
    }
    if r.Hanging? {
      HangsOnlyWhenFull(listed, live, draws);
    }
  }

  /** A range with usable room does not refuse a pick. */
  lemma RoomIsNotRefused(listed: seq<IpRange>, live: Stored)
    requires forall i :: 0 <= i < |listed| ==> listed[i].Ok() && listed[i].id in live
    requires SomeUsableRoom(listed, live)
    ensures listed != [] && !AllRefuse(listed, live, V4)
  {
    var i :| 0 <= i < |listed| && UsableRoom(listed[i], live);
    CapacityMeansPick(listed[i], live[listed[i].id]);
    assert !RefusedFrom(listed[i], live);
  }

  lemma HangsOnlyWhenFull(listed: seq<IpRange>, live: Stored, draws: Draws)
    requires Ready(listed, live, draws) && DrawsReachFree(listed, live, draws) && NeverDrawn(listed, live, draws)
    ensures exists i :: 0 <= i < |listed| && Undrawable(listed[i], Parsed(live[listed[i].id]))
  {
    var i :| 0 <= i < |listed| && listed[i].cidr.Some? && listed[i].mode == Random && !RefusedFrom(listed[i], live)
             && !HitsFree(listed[i], Parsed(live[listed[i].id]), draws[listed[i].id]);
    var taken := Parsed(live[listed[i].id]);
    if listed[i].IsIpv4() && |taken + Reserved(listed[i])| < U32 {
      PassedExitHasFree(listed[i], taken);
    }
  }
}
