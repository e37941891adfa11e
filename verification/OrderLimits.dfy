/** Which orders from a limited template a host accepts, and when everything advertised can be ordered. */
module OrderLimits {
  import opened Options
  import opened IpNetworks
  import opened IpPicker
  import opened HostCapacities
  import opened CapacityLimits

  /** The maker and architecture a template is particular about, as its price list names them. */
  predicate FromPricing(t: CustomTemplate, m: CpuMfg, a: CpuArch) {
    && t.cpuMfg == (if m == UnknownMfg then None else Some(MfgName(m)))
    && t.cpuArch == (if a == UnknownArch then None else Some(ArchName(a)))
  }

  /** An order on option d of the template, at or above its minima. */
  predicate OrdersFrom(o: Order, t: CustomTemplate, d: DiskParam) {
    && t.minCpu <= o.cpu && t.minMemory <= o.memory && FromPricing(t, o.cpuMfg, o.cpuArch)
    && o.diskType == d.diskType && o.diskInterface == d.diskInterface && o.cpuFeatures == t.cpuFeatures
  }

  /** The host has all of this free together, on one disk. */
  predicate Holds(h: HostCapacity, d: DiskParam, cpu: nat, memory: nat, size: nat) {
    cpu <= h.AvailableCpu() && memory <= h.AvailableMemory() && HoldsOn(h, d, size)
  }

  lemma PricedIsEligible(t: CustomTemplate, h: HostCapacity, o: Order)
    requires FromPricing(t, o.cpuMfg, o.cpuArch) && o.cpuFeatures == t.cpuFeatures && h.host.regionId == t.regionId
    ensures Eligible(t, h) && Named(o, h)
       <==> (o.cpuMfg == UnknownMfg || h.host.cpuMfg == o.cpuMfg)
            && (o.cpuArch == UnknownArch || h.host.cpuArch == o.cpuArch)
            && forall f :: f in o.cpuFeatures ==> f in h.host.cpuFeatures
  {
    NamesAreUnique(o.cpuMfg, h.host.cpuMfg, o.cpuArch, h.host.cpuArch);
  }

  /** A host accepts an order from the template exactly when it serves it, is named and has everything free together. */
  lemma HostAcceptsExactly(t: CustomTemplate, h: HostCapacity, d: DiskParam, o: Order)
    requires h.Ok() && OrdersFrom(o, t, d)
    ensures Accepts(h, t.regionId, o)
       <==> Serves(t, h) && Named(o, h) && Holds(h, d, o.cpu, o.memory, o.diskSize)
  {
    ViewKeepsRest(h, o.diskType, o.diskInterface);
    if h.host.regionId == t.regionId { PricedIsEligible(t, h, o); }
    if Accepts(h, t.regionId, o) {
      AcceptedIsHeld(h, t.regionId, d, o);
    }
    if HoldsOn(h, d, o.diskSize) {
      var j :| 0 <= j < |h.disks| && Fits(h.disks[j], d) && o.diskSize <= h.disks[j].Available();
      ViewHasDisk(h, d, j, o.diskSize);
    }
  }

  ghost predicate SomeAccepts(caps: seq<HostCapacity>, regionId: Id, o: Order)
    requires AllOk(caps)
  {
    exists i :: 0 <= i < |caps| && Accepts(caps[i], regionId, o)
  }

  /** An order between the minima and the advertised maxima of r, on its option d. */
  predicate InBox(o: Order, r: CustomTemplate, d: DiskParam) {
    OrdersFrom(o, r, d) && o.cpu <= r.maxCpu && o.memory <= r.maxMemory && d.minDisk <= o.diskSize <= d.maxDisk
  }

  function LargestOrder(r: CustomTemplate, d: DiskParam, m: CpuMfg, a: CpuArch): Order {
    Order(r.maxCpu, r.maxMemory, d.maxDisk, d.diskType, d.diskInterface, m, a, r.cpuFeatures)
  }

  /** A serving, named host with the three advertised maxima free together, the disk in one piece. */
  predicate CornerHost(t: CustomTemplate, r: CustomTemplate, d: DiskParam, m: CpuMfg, a: CpuArch, h: HostCapacity)
    requires h.Ok()
  {
    Serves(t, h) && Named(LargestOrder(r, d, m, a), h) && Holds(h, d, r.maxCpu, r.maxMemory, d.maxDisk)
  }

  lemma CornerHostTakesBox(t: CustomTemplate, r: CustomTemplate, d: DiskParam, m: CpuMfg, a: CpuArch, h: HostCapacity,
                           o: Order)
    requires h.Ok() && CornerHost(t, r, d, m, a, h) && FromPricing(t, m, a) && InBox(o, r, d)
    requires r == t.(maxCpu := r.maxCpu, maxMemory := r.maxMemory, disks := r.disks)
    ensures Accepts(h, t.regionId, o)
  {
    PricedOnce(t, o, m, a);
    SmallerIsHeld(h, d, o.diskSize);
    HostAcceptsExactly(t, h, d, o);
  }

  lemma LargestNeedsCorner(t: CustomTemplate, r: CustomTemplate, d: DiskParam, m: CpuMfg, a: CpuArch, h: HostCapacity)
    requires h.Ok() && OrdersFrom(LargestOrder(r, d, m, a), t, d) && Accepts(h, t.regionId, LargestOrder(r, d, m, a))
    ensures CornerHost(t, r, d, m, a, h)
  {
    HostAcceptsExactly(t, h, d, LargestOrder(r, d, m, a));
  }

  ghost predicate SomeCornerHost(t: CustomTemplate, caps: seq<HostCapacity>, d: DiskParam, m: CpuMfg, a: CpuArch)
    requires AllOk(caps)
  {
    exists i :: 0 <= i < |caps| && CornerHost(t, Limited(t, caps), d, m, a, caps[i])
  }

  /** The order for all the advertised maxima is among those advertised. */
  lemma LargestIsInBox(t: CustomTemplate, caps: seq<HostCapacity>, d: DiskParam, m: CpuMfg, a: CpuArch)
    requires AllOk(caps) && Offered(Limited(t, caps)) && d in Limited(t, caps).disks
    requires t.minCpu <= t.maxCpu && t.minMemory <= t.maxMemory && FromPricing(t, m, a)
    ensures var largest := LargestOrder(Limited(t, caps), d, m, a);
            InBox(largest, Limited(t, caps), d) && OrdersFrom(largest, t, d)
  {
    OfferedStaysOrdered(t, caps);
  }

  /**
   * Everything between the minima and the advertised maxima of an option can be ordered exactly when
   * one serving, named host has the three maxima free together.
   */
  lemma BoxAcceptedExactly(t: CustomTemplate, caps: seq<HostCapacity>, d: DiskParam, m: CpuMfg, a: CpuArch)
    requires AllOk(caps) && Offered(Limited(t, caps)) && d in Limited(t, caps).disks
    requires t.minCpu <= t.maxCpu && t.minMemory <= t.maxMemory && FromPricing(t, m, a)
    ensures (forall o :: InBox(o, Limited(t, caps), d) ==> SomeAccepts(caps, t.regionId, o))
       <==> SomeCornerHost(t, caps, d, m, a)
  {
    var r := Limited(t, caps);
    var largest := LargestOrder(r, d, m, a);
    LargestIsInBox(t, caps, d, m, a);
    if SomeAccepts(caps, t.regionId, largest) {
      var i :| 0 <= i < |caps| && Accepts(caps[i], t.regionId, largest);
      LargestNeedsCorner(t, r, d, m, a, caps[i]);
    }
    if i :| 0 <= i < |caps| && CornerHost(t, r, d, m, a, caps[i]) {
      forall o | InBox(o, r, d) ensures SomeAccepts(caps, t.regionId, o) {
        CornerHostTakesBox(t, r, d, m, a, caps[i], o);
      }
    }
  }

  lemma SmallerIsHeld(h: HostCapacity, d: DiskParam, size: nat)
    requires HoldsOn(h, d, d.maxDisk) && size <= d.maxDisk
    ensures HoldsOn(h, d, size)
  {
  }

  /** The price list fixes the maker and architecture of an order. */
  lemma PricedOnce(t: CustomTemplate, o: Order, m: CpuMfg, a: CpuArch)
    requires FromPricing(t, m, a) && FromPricing(t, o.cpuMfg, o.cpuArch)
    ensures o.cpuMfg == m && o.cpuArch == a
  {
    NamesAreUnique(o.cpuMfg, m, o.cpuArch, a);
  }

  // ----- two price lists that advertise more than can be ordered -----

  /** A host with one disk and plenty of addresses, nothing in use. */
  ghost function IdleHost(maker: CpuMfg, cpu: nat, size: nat): HostCapacity {
    var network := IpNetwork(IpAddr(V4, 0), 31);
    HostCapacity(Host(0, 0, cpu, 8, maker, UnknownArch, [], 1.0, 1.0, 1.0), 0, 0,
                 [DiskCapacity(1.0, Disk(0, size, Ssd, Pcie), 0)],
                 [RangeCapacity(IpRange(0, Some(network), Malformed, true, 0, Sequential, true), 0)])
  }

  lemma IdleHostIsFree(maker: CpuMfg, cpu: nat, size: nat)
    requires cpu <= 8 && size <= 8
    ensures var h := IdleHost(maker, cpu, size);
            && h.Ok() && h.HasIpv4() && h.AvailableCpu() == cpu && h.AvailableMemory() == 8
            && h.disks[0].Available() == size
  {
    var r := IdleHost(maker, cpu, size).ranges[0];
    assert r.range.cidr.value.Size() == Pow2(1) == 2;
    assert r.HasRoom();
    assert cpu as real * 1.0 == cpu as real && size as real * 1.0 == size as real;
  }

  /** Templates with one option: 1 to 8 CPU, 1 to 8 memory and 1 to 8 disk. */
  function SmallTemplate(maker: Option<string>): CustomTemplate {
    CustomTemplate(0, 0, [], maker, None, 1, 8, 1, 8, [DiskParam(1, 8, Ssd, Pcie)])
  }

  /** A host of unknown maker keeps an option for Intel on offer, and rejects every order for it. */
  lemma UnnamedHostAdvertises() returns (t: CustomTemplate, caps: seq<HostCapacity>, d: DiskParam)
    ensures AllOk(caps) && FromPricing(t, Intel, UnknownArch) && Offered(Limited(t, caps))
    ensures d in Limited(t, caps).disks
    ensures exists o :: InBox(o, Limited(t, caps), d)
    ensures forall o :: InBox(o, Limited(t, caps), d) ==> !SomeAccepts(caps, t.regionId, o)
  {
    t := SmallTemplate(Some(MfgName(Intel)));
    var h := IdleHost(UnknownMfg, 8, 8);
    caps := [h];
    d := t.disks[0];
    IdleHostIsFree(UnknownMfg, 8, 8);
    OneHostLimits(t, h, d);
    var r := Limited(t, caps);
    assert InBox(LargestOrder(r, d, Intel, UnknownArch), r, d);
    forall o | InBox(o, r, d) ensures !SomeAccepts(caps, t.regionId, o) {
      PricedOnce(t, o, Intel, UnknownArch);
      assert OrdersFrom(o, t, d);
      HostAcceptsExactly(t, h, d, o);
    }
  }

  /** On one serving host that has every maximum free, the limits change nothing. */
  lemma OneHostLimits(t: CustomTemplate, h: HostCapacity, d: DiskParam)
    requires h.Ok() && Serves(t, h) && t.disks == [d] && |h.disks| == 1 && Fits(h.disks[0], d) && Sellable(d)
    requires t.maxCpu <= h.AvailableCpu() && t.maxMemory <= h.AvailableMemory() && d.maxDisk <= h.disks[0].Available()
    ensures Limited(t, [h]) == t
  {
    assert [h][1..] == [];
    LargestOfOne(h.disks, d);
    assert LargestDisk(t, [h], d) == LargestOn(h.disks, d);
    OneOption(t, [h], d);
    OneDiskServes(t, h, d);
    assert MostCpu(t, [d], [h]) == h.AvailableCpu() && MostMemory(t, [d], [h]) == h.AvailableMemory();
  }

  /** Two Intel hosts, one with the CPU and one with the disk: the advertised maxima fit on neither. */
  lemma SplitMaximaAdvertised() returns (t: CustomTemplate, caps: seq<HostCapacity>, d: DiskParam, o: Order)
    ensures AllOk(caps) && Offered(Limited(t, caps)) && d in Limited(t, caps).disks
    ensures InBox(o, Limited(t, caps), d) && !SomeAccepts(caps, t.regionId, o)
    ensures forall i :: 0 <= i < |caps| ==> Serves(t, caps[i]) && Named(o, caps[i])
  {
    t := SmallTemplate(Some(MfgName(Intel)));
    var h, g := IdleHost(Intel, 8, 2), IdleHost(Intel, 2, 8);
    caps := [h, g];
    IdleHostIsFree(Intel, 8, 2);
    IdleHostIsFree(Intel, 2, 8);
    o := Order(8, 1, 8, Ssd, Pcie, Intel, UnknownArch, []);
    d := SplitOffer(t, h, g, t.disks[0], o);
  }

  lemma SplitOffer(t: CustomTemplate, h: HostCapacity, g: HostCapacity, d: DiskParam, o: Order) returns (e: DiskParam)
    requires h.Ok() && g.Ok() && Serves(t, h) && Serves(t, g) && t.disks == [d]
    requires d.diskType == Ssd && d.diskInterface == Pcie
    requires |h.disks| == 1 && |g.disks| == 1 && Fits(h.disks[0], d) && Fits(g.disks[0], d)
    requires 0 < g.AvailableCpu() < h.AvailableCpu() <= t.maxCpu
    requires d.minDisk <= h.disks[0].Available() < g.disks[0].Available() <= d.maxDisk
    requires 0 < h.AvailableMemory() && 0 < t.maxMemory && o.memory == 1 && OrdersFrom(o, t, d)
    requires o.cpu == h.AvailableCpu() && o.diskSize == g.disks[0].Available()
    ensures Offered(Limited(t, [h, g])) && e in Limited(t, [h, g]).disks && InBox(o, Limited(t, [h, g]), e)
    ensures !SomeAccepts([h, g], t.regionId, o)
  {
    MaximaNotJointlyServed(t, h, g, d, o);
    var r := Limited(t, [h, g]);
    e := r.disks[0];
    assert e in r.disks && r.disks == [e];
    assert e == LimitedDisk(t, [h, g], d);
    OneDiskServes(t, h, e);
    MostIsAtLeast(t, r.disks, [h, g], 0);
    assert forall i :: 0 <= i < 2 ==> [h, g][i] == h || [h, g][i] == g;
  }
}
