/** A picked address and its gateway share a network; and the pick over all ranges of a region. */
module IpRegions {
  import opened Options
  import opened Counting
  import opened IpNetworks
  import opened IpPicker

  // ----- the gateway is on link -----

  /** The gateway answers on the network the VM is configured with. */
  predicate OnLink(a: AvailableIp)
    requires a.ip.Valid()
  {
    a.ip.Contains(a.gateway.ip)
  }

  predicate Inside(net: IpNetwork, outer: IpNetwork)
    requires net.Valid() && outer.Valid()
  {
    net.ip.family == outer.ip.family && outer.First() <= net.First() && net.Last() <= outer.Last()
  }

  lemma ContainsIsSameBlock(net: IpNetwork, a: IpAddr)
    requires net.Valid()
    ensures net.Contains(a) <==> a.family == net.ip.family && a.value / net.Size() == net.ip.value / net.Size()
  {
    SameBlock(a.value, net.ip.value, net.Size());
  }

  lemma {:induction false} Pow2Grows(a: nat, b: nat)
    requires a <= b
    ensures Pow2(a) <= Pow2(b)
    decreases b
  {
    if a < b { Pow2Grows(a, b - 1); }
  }

  /** Range at least as wide as the gateway network: on link exactly when the gateway is in the range. */
  lemma WideRangeOnLink(net: IpNetwork, gw: IpNetwork, a: IpAddr)
    requires net.Valid() && gw.Valid() && net.ip.family == gw.ip.family && net.prefix <= gw.prefix && net.Contains(a)
    ensures IpNetwork(a, net.prefix).Valid()
    ensures IpNetwork(a, net.prefix).Contains(gw.ip) <==> net.Contains(gw.ip)
    ensures Inside(net, gw) ==> net.Contains(gw.ip)
  {
    ContainsIsSameBlock(net, a);
    InNetworkIsValid(net, a);
    ContainsIsSameBlock(net, gw.ip);
    ContainsIsSameBlock(IpNetwork(a, net.prefix), gw.ip);
    WideInside(net, gw);
  }

  lemma WideInside(net: IpNetwork, gw: IpNetwork)
    requires net.Valid() && gw.Valid() && net.ip.family == gw.ip.family && net.prefix <= gw.prefix
    ensures Inside(net, gw) ==> net.Contains(gw.ip)
  {
    Pow2Grows(Bits(net.ip.family) - gw.prefix, Bits(net.ip.family) - net.prefix);
  }

  /** An address of a network is an address of its family. */
  lemma InNetworkIsValid(net: IpNetwork, a: IpAddr)
    requires net.Valid() && net.Contains(a)
    ensures a.value < Pow2(Bits(a.family))
  {
    var bits := Bits(a.family);
    ContainsIsSameBlock(net, a);
    SharedBlockWidens(a.value, net.ip.value, bits, net.prefix, 0);
    SameBlock(a.value, net.ip.value, Pow2(bits));
    QuotientIs(net.ip.value, Pow2(bits), 0, net.ip.value);
    assert net.ip.value % Pow2(bits) == net.ip.value;
  }

  /** Gateway network wider than the range: on link exactly when the range lies inside it. */
  lemma NarrowRangeOnLink(net: IpNetwork, gw: IpNetwork, a: IpAddr)
    requires net.Valid() && gw.Valid() && net.ip.family == gw.ip.family && gw.prefix < net.prefix && net.Contains(a)
    ensures IpNetwork(a, gw.prefix).Valid()
    ensures IpNetwork(a, gw.prefix).Contains(gw.ip) <==> Inside(net, gw)
    ensures net.Contains(gw.ip) ==> Inside(net, gw)
  {
    InNetworkIsValid(net, a);
    SameWideBlock(net, gw.prefix, a);
    ContainsIsSameBlock(IpNetwork(a, gw.prefix), gw.ip);
    ContainsIsSameBlock(gw, a);
    var lo, hi := IpAddr(net.ip.family, net.First()), IpAddr(net.ip.family, net.Last());
    SameWideBlock(net, gw.prefix, lo);
    SameWideBlock(net, gw.prefix, hi);
    ContainsIsSameBlock(gw, lo);
    ContainsIsSameBlock(gw, hi);
    if net.Contains(gw.ip) {
      SameWideBlock(net, gw.prefix, gw.ip);
    }
    assert gw.Contains(lo) && gw.Contains(hi) <==> Inside(net, gw);
    assert Inside(net, gw) ==> gw.Contains(a);
  }

  lemma SameWideBlock(net: IpNetwork, prefix: nat, a: IpAddr)
    requires net.Valid() && prefix <= net.prefix && net.Contains(a)
    ensures a.value / Pow2(Bits(net.ip.family) - prefix) == net.ip.value / Pow2(Bits(net.ip.family) - prefix)
  {
    ContainsIsSameBlock(net, a);
    SharedBlockWidens(a.value, net.ip.value, Bits(net.ip.family), net.prefix, prefix);
  }

  /**
   * A picked address reaches its gateway directly exactly when the gateway lies in the range or
   * the range lies inside the gateway's network.
   */
  lemma PickedOnLink(r: IpRange, taken: set<IpAddr>, a: AvailableIp)
    requires r.Ok() && Grants(r, taken, a) && r.mode != SlaacEui64
    ensures a.ip.Valid() && a.gateway.Valid()
    ensures OnLink(a) <==> r.cidr.value.Contains(a.gateway.ip) || Inside(r.cidr.value, a.gateway)
  {
    GatewayIsValid(r);
    var net := r.cidr.value;
    assert net.Contains(a.ip.ip);
    InNetworkIsValid(net, a.ip.ip);
    if net.ip.family == a.gateway.ip.family {
      if net.prefix <= a.gateway.prefix {
        WideRangeOnLink(net, a.gateway, a.ip.ip);
      } else {
        NarrowRangeOnLink(net, a.gateway, a.ip.ip);
      }
    }
  }

  // ----- the pick over a region -----

  /** The filter by kind as written: only an unparsable range is dropped. */
  predicate Kept(r: IpRange, kind: Option<Family>) {
    match (r.cidr, kind)
    case (Some(IpNetwork(IpAddr(V4, _), _)), Some(V4)) => true
    case (Some(IpNetwork(IpAddr(V6, _), _)), Some(V6)) => true
    case (None, _) => false
    case _ => true
  }

  /** Asking for one kind of address does not narrow the ranges at all. */
  lemma KindNeverNarrows(r: IpRange, kind: Option<Family>)
    ensures Kept(r, kind) <==> r.cidr.Some?
  {
  }

  datatype RegionPick = Found(ip4: Option<AvailableIp>, ip6: Option<AvailableIp>) | NoRanges | NoIps | Hanging

  type Stored = map<nat, seq<Option<IpAddr>>>
  type Draws = map<nat, seq<nat>>

  ghost predicate Ready(rs: seq<IpRange>, live: Stored, draws: Draws) {
    forall i :: 0 <= i < |rs| ==>
      rs[i].Ok() && rs[i].id in live && rs[i].id in draws && DrawsFit(rs[i], draws[rs[i].id])
  }

  ghost predicate RefusedFrom(r: IpRange, live: Stored)
    requires r.Ok() && r.id in live
  {
    Refuses(r, Parsed(live[r.id]))
  }

  /** a was granted by one of the ranges of family f. */
  ghost predicate GrantedBy(rs: seq<IpRange>, live: Stored, f: Family, a: AvailableIp) {
    exists i :: 0 <= i < |rs| && rs[i].Ok() && rs[i].id in live && rs[i].cidr.Some? && rs[i].cidr.value.ip.family == f
                && Grants(rs[i], Parsed(live[rs[i].id]), a)
  }

  /** Every range of family f refuses. */
  ghost predicate AllRefuse(rs: seq<IpRange>, live: Stored, f: Family) {
    forall i :: 0 <= i < |rs| && rs[i].Ok() && rs[i].id in live && rs[i].cidr.Some?
                && rs[i].cidr.value.ip.family == f ==>
                  RefusedFrom(rs[i], live)
  }

  method Shuffle<T>(xs: seq<T>) returns (ys: seq<T>)
    ensures multiset(ys) == multiset(xs)
  {
    ys := [];
    var rest := xs;
    while rest != []
      invariant multiset(ys) + multiset(rest) == multiset(xs)
      decreases |rest|
    {
      var i :| 0 <= i < |rest|;
      assert rest == rest[..i] + [rest[i]] + rest[i + 1..];
      ys := ys + [rest[i]];
      rest := rest[..i] + rest[i + 1..];
    }
  }

  method Retain(listed: seq<IpRange>, kind: Option<Family>) returns (kept: seq<IpRange>)
    ensures forall r :: r in kept <==> r in listed && r.cidr.Some?
  {
    kept := [];
    for i := 0 to |listed|
      invariant forall r :: r in kept <==> r in listed[..i] && r.cidr.Some?
    {
      KindNeverNarrows(listed[i], kind);
      if Kept(listed[i], kind) { kept := kept + [listed[i]]; }
    }
  }

  /** Fill in the address of one family from one range, if it is still missing. */
  method FillFrom(range: IpRange, live: seq<Option<IpAddr>>, draws: seq<nat>, have: Option<AvailableIp>)
    returns (got: Option<AvailableIp>, hanging: bool)
    requires range.Ok() && range.cidr.Some? && DrawsFit(range, draws)
    ensures have.Some? ==> got == have && !hanging
    ensures have.None? && got.Some? ==> Grants(range, Parsed(live), got.value)
    ensures !hanging && got.None? ==> Refuses(range, Parsed(live))
    ensures hanging ==> range.mode == Random && !Refuses(range, Parsed(live)) && !HitsFree(range, Parsed(live), draws)
  {
    got, hanging := have, false;
    if have.None? {
      var pick := PickIpFromRange(range, live, draws);
      match pick {
        case Picked(a) => got := Some(a);
        case Refused =>
        case StillDrawing => hanging := true;
      }
    }
  }

  /** What the family-f part of the answer says about the ranges. */
  ghost predicate FamilyOutcome(rs: seq<IpRange>, live: Stored, f: Family, got: Option<AvailableIp>) {
    match got
    case Some(a) => GrantedBy(rs, live, f, a)
    case None => AllRefuse(rs, live, f)
  }

  /** A random range that is not refused but whose draws were all taken. */
  ghost predicate NeverDrawn(rs: seq<IpRange>, live: Stored, draws: Draws)
    requires Ready(rs, live, draws)
  {
    exists i :: 0 <= i < |rs| && rs[i].cidr.Some? && rs[i].mode == Random && !RefusedFrom(rs[i], live)
                && !HitsFree(rs[i], Parsed(live[rs[i].id]), draws[rs[i].id])
  }

  ghost predicate Outcome(rs: seq<IpRange>, live: Stored, draws: Draws, r: RegionPick)
    requires Ready(rs, live, draws)
  {
    match r
    case Found(ip4, ip6) =>
      FamilyOutcome(rs, live, V4, ip4) && FamilyOutcome(rs, live, V6, ip6) && (ip4.Some? || ip6.Some?)
    case NoRanges => rs == []
    case NoIps => AllRefuse(rs, live, V4) && AllRefuse(rs, live, V6)
    case Hanging => NeverDrawn(rs, live, draws)
  }

  /** pick_ip_kind_for_region over the enabled ranges of the region, whatever the shuffle. */
  method PickIpKindForRegion(listed: seq<IpRange>, kind: Option<Family>, live: Stored, draws: Draws)
    returns (r: RegionPick)
    requires Ready(listed, live, draws)
    ensures Outcome(listed, live, draws, r)
  {
    if listed == [] {
      return NoRanges;
    }
    var kept := Retain(listed, kind);
    var order := Shuffle(kept);
    forall x ensures x in order <==> x in listed && x.cidr.Some? {
      assert x in order <==> x in multiset(order);
      assert x in kept <==> x in multiset(kept);
    }
    ReadyInOrder(listed, order, live, draws);
    r := PickInOrder(order, live, draws);
    OutcomeInOrder(listed, order, live, draws, r);
  }

  /** The loop over the shuffled ranges. */
  method PickInOrder(order: seq<IpRange>, live: Stored, draws: Draws) returns (r: RegionPick)
    requires Ready(order, live, draws) && forall j :: 0 <= j < |order| ==> order[j].cidr.Some?
    ensures !r.NoRanges? && Outcome(order, live, draws, r)
  {
    var ip4: Option<AvailableIp>, ip6: Option<AvailableIp> := None, None;
    for i := 0 to |order|
      invariant FamilyOutcome(order[..i], live, V4, ip4)
      invariant FamilyOutcome(order[..i], live, V6, ip6)
    {
      var range := order[i];
      var hanging;
      if range.cidr.value.ip.family == V4 {
        ghost var before := ip4;
        ip4, hanging := FillFrom(range, live[range.id], draws[range.id], ip4);
        if !hanging { FamilyStep(order, i, live, V4, before, ip4); FamilyOther(order, i, live, V6, ip6); }
      } else {
        ghost var before := ip6;
        ip6, hanging := FillFrom(range, live[range.id], draws[range.id], ip6);
        if !hanging { FamilyStep(order, i, live, V6, before, ip6); FamilyOther(order, i, live, V4, ip4); }
      }
      if hanging {
        return Hanging;
      }
    }
    assert order[..|order|] == order;
    r := if ip4.None? && ip6.None? then NoIps else Found(ip4, ip6);
  }

  lemma FamilyStep(order: seq<IpRange>, i: nat, live: Stored, f: Family, before: Option<AvailableIp>,
                   after: Option<AvailableIp>)
    requires i < |order| && order[i].Ok() && order[i].id in live && order[i].cidr.Some?
    requires order[i].cidr.value.ip.family == f
    requires FamilyOutcome(order[..i], live, f, before)
    requires before.Some? ==> after == before
    requires before.None? && after.Some? ==> Grants(order[i], Parsed(live[order[i].id]), after.value)
    requires after.None? ==> RefusedFrom(order[i], live)
    ensures FamilyOutcome(order[..i + 1], live, f, after)
  {
    var prefix := order[..i + 1];
    assert forall j :: 0 <= j < i ==> prefix[j] == order[..i][j];
    assert prefix[i] == order[i];
    if before.Some? {
      var j :| 0 <= j < i && order[..i][j].Ok() && order[..i][j].id in live && order[..i][j].cidr.Some?
               && order[..i][j].cidr.value.ip.family == f
               && Grants(order[..i][j], Parsed(live[order[..i][j].id]), before.value);
      assert prefix[j] == order[..i][j];
    }
  }

  lemma FamilyOther(order: seq<IpRange>, i: nat, live: Stored, f: Family, got: Option<AvailableIp>)
    requires i < |order| && order[i].cidr.Some? && order[i].cidr.value.ip.family != f
    requires FamilyOutcome(order[..i], live, f, got)
    ensures FamilyOutcome(order[..i + 1], live, f, got)
  {
    var prefix := order[..i + 1];
    assert forall j :: 0 <= j < i ==> prefix[j] == order[..i][j];
    if got.Some? {
      var j :| 0 <= j < i && order[..i][j].Ok() && order[..i][j].id in live && order[..i][j].cidr.Some?
               && order[..i][j].cidr.value.ip.family == f
               && Grants(order[..i][j], Parsed(live[order[..i][j].id]), got.value);
      assert prefix[j] == order[..i][j];
    }
  }

  lemma ReadyInOrder(listed: seq<IpRange>, order: seq<IpRange>, live: Stored, draws: Draws)
    requires Ready(listed, live, draws) && forall x :: x in order <==> x in listed && x.cidr.Some?
    ensures Ready(order, live, draws) && forall j :: 0 <= j < |order| ==> order[j].cidr.Some?
  {
    forall j | 0 <= j < |order| ensures order[j] in listed && order[j].cidr.Some? {
      assert order[j] in order;
    }
  }

  lemma FamilyInOrder(listed: seq<IpRange>, order: seq<IpRange>, live: Stored, f: Family, got: Option<AvailableIp>)
    requires forall x :: x in order <==> x in listed && x.cidr.Some?
    requires FamilyOutcome(order, live, f, got)
    ensures FamilyOutcome(listed, live, f, got)
  {
    if got.Some? {
      var j :| 0 <= j < |order| && order[j].Ok() && order[j].id in live && order[j].cidr.Some?
               && order[j].cidr.value.ip.family == f
               && Grants(order[j], Parsed(live[order[j].id]), got.value);
      assert order[j] in order;
      var i :| 0 <= i < |listed| && listed[i] == order[j];
    } else {
      forall i | 0 <= i < |listed| && listed[i].cidr.Some?
        ensures exists j :: 0 <= j < |order| && order[j] == listed[i]
      {
        assert listed[i] in order;
      }
    }
  }

  lemma OutcomeInOrder(listed: seq<IpRange>, order: seq<IpRange>, live: Stored, draws: Draws, r: RegionPick)
    requires Ready(listed, live, draws) && Ready(order, live, draws)
    requires forall x :: x in order <==> x in listed && x.cidr.Some?
    requires !r.NoRanges? && Outcome(order, live, draws, r)
    ensures Outcome(listed, live, draws, r)
  {
    match r {
      case Found(ip4, ip6) =>
        FamilyInOrder(listed, order, live, V4, ip4);
        FamilyInOrder(listed, order, live, V6, ip6);
      case NoIps =>
        FamilyInOrder(listed, order, live, V4, None);
        FamilyInOrder(listed, order, live, V6, None);
      case Hanging =>
        var j :| 0 <= j < |order| && order[j].cidr.Some? && order[j].mode == Random && !RefusedFrom(order[j], live)
                 && !HitsFree(order[j], Parsed(live[order[j].id]), draws[order[j].id]);
        assert order[j] in order;
        var i :| 0 <= i < |listed| && listed[i] == order[j];
    }
  }
}
