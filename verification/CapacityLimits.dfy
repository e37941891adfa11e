/** Limiting what a custom template may be ordered with to what single hosts can serve. */
module CapacityLimits {
  import opened Options
  import opened Numbers
  import opened HostCapacities

  datatype DiskParam = DiskParam(minDisk: nat, maxDisk: nat, diskType: DiskType, diskInterface: DiskInterface)

  datatype CustomTemplate = CustomTemplate(
    id: Id,
    regionId: Id,
    cpuFeatures: seq<Feature>,
    cpuMfg: Option<string>,
    cpuArch: Option<string>,
    minCpu: nat,
    maxCpu: nat,
    minMemory: nat,
    maxMemory: nat,
    disks: seq<DiskParam>)

  predicate AllOk(caps: seq<HostCapacity>) {
    forall i :: 0 <= i < |caps| ==> caps[i].Ok()
  }

  /** Region and CPU requirements; a host of unknown maker or architecture passes them all. */
  predicate Eligible(t: CustomTemplate, h: HostCapacity) {
    && h.host.regionId == t.regionId
    && (t.cpuMfg.Some? ==> h.host.cpuMfg == UnknownMfg || MfgName(h.host.cpuMfg) == t.cpuMfg.value)
    && (t.cpuArch.Some? ==> h.host.cpuArch == UnknownArch || ArchName(h.host.cpuArch) == t.cpuArch.value)
    && forall f :: f in t.cpuFeatures ==> f in h.host.cpuFeatures
  }

  /** The host can serve the smallest order of the template, disk aside. */
  predicate Serves(t: CustomTemplate, h: HostCapacity)
    requires h.Ok()
  {
    Eligible(t, h) && h.HasIpv4() && h.AvailableCpu() >= t.minCpu && h.AvailableMemory() >= t.minMemory
  }

  predicate Fits(c: DiskCapacity, d: DiskParam) {
    c.disk.kind == d.diskType && c.disk.interface == d.diskInterface
  }

  /** The largest free space on a fitting disk of one host. */
  function LargestOn(ds: seq<DiskCapacity>, d: DiskParam): nat {
    if ds == [] then 0
    else Max(if Fits(ds[0], d) then ds[0].Available() else 0, LargestOn(ds[1..], d))
  }

  /** The largest free space on a fitting disk of a host that serves the template. */
  function LargestDisk(t: CustomTemplate, caps: seq<HostCapacity>, d: DiskParam): nat
    requires AllOk(caps)
  {
    if caps == [] then 0
    else Max(if Serves(t, caps[0]) then LargestOn(caps[0].disks, d) else 0, LargestDisk(t, caps[1..], d))
  }

  function LimitedDisk(t: CustomTemplate, caps: seq<HostCapacity>, d: DiskParam): DiskParam
    requires AllOk(caps)
  {
    d.(maxDisk := Min(d.maxDisk, LargestDisk(t, caps, d)))
  }

  predicate Sellable(d: DiskParam) {
    d.maxDisk >= d.minDisk && d.maxDisk > 0
  }

  /** The disk options left, in their order. */
  function LimitedDisks(t: CustomTemplate, caps: seq<HostCapacity>, ds: seq<DiskParam>): (r: seq<DiskParam>)
    requires AllOk(caps)
    ensures forall d :: d in r ==> Sellable(d) && exists e :: e in ds && d == LimitedDisk(t, caps, e)
  {
    if ds == [] then []
    else
      var d := LimitedDisk(t, caps, ds[0]);
      (if Sellable(d) then [d] else []) + LimitedDisks(t, caps, ds[1..])
  }

  /** The host also has a disk for the smallest order of one of the options. */
  predicate ServesSome(t: CustomTemplate, ds: seq<DiskParam>, h: HostCapacity)
    requires h.Ok()
  {
    Serves(t, h) &&
    exists i, j :: 0 <= i < |ds| && 0 <= j < |h.disks| && Fits(h.disks[j], ds[i])
                   && h.disks[j].Available() >= ds[i].minDisk
  }

  function MostCpu(t: CustomTemplate, ds: seq<DiskParam>, caps: seq<HostCapacity>): nat
    requires AllOk(caps)
  {
    if caps == [] then 0
    else Max(if ServesSome(t, ds, caps[0]) then caps[0].AvailableCpu() else 0, MostCpu(t, ds, caps[1..]))
  }

  function MostMemory(t: CustomTemplate, ds: seq<DiskParam>, caps: seq<HostCapacity>): nat
    requires AllOk(caps)
  {
    if caps == [] then 0
    else Max(if ServesSome(t, ds, caps[0]) then caps[0].AvailableMemory() else 0, MostMemory(t, ds, caps[1..]))
  }

  function Limited(t: CustomTemplate, caps: seq<HostCapacity>): CustomTemplate
    requires AllOk(caps)
  {
    var ds := LimitedDisks(t, caps, t.disks);
    t.(disks := ds, maxCpu := Min(t.maxCpu, MostCpu(t, ds, caps)),
       maxMemory := Min(t.maxMemory, MostMemory(t, ds, caps)))
  }

  predicate Offered(t: CustomTemplate) {
    t.maxCpu > 0 && t.maxMemory > 0 && t.disks != []
  }

  /** The limited template, or nothing when there is nothing left to offer. */
  function IfOffered(t: CustomTemplate): seq<CustomTemplate> {
    if Offered(t) then [t] else []
  }

  function LimitedAll(ts: seq<CustomTemplate>, caps: seq<HostCapacity>): seq<CustomTemplate>
    requires AllOk(caps)
  {
    if ts == [] then [] else IfOffered(Limited(ts[0], caps)) + LimitedAll(ts[1..], caps)
  }

  lemma {:induction false} LimitedDisksSnoc(t: CustomTemplate, caps: seq<HostCapacity>, ds: seq<DiskParam>,
                                            d: DiskParam)
    requires AllOk(caps)
    ensures LimitedDisks(t, caps, ds + [d])
         == LimitedDisks(t, caps, ds) + (if Sellable(LimitedDisk(t, caps, d)) then [LimitedDisk(t, caps, d)] else [])
  {
    if ds == [] {
      assert ds + [d] == [d];
    } else {
      assert (ds + [d])[1..] == ds[1..] + [d];
      LimitedDisksSnoc(t, caps, ds[1..], d);
    }
  }

  // ----- one single host behind every option -----

  lemma {:induction false} LargestOnIsThere(ds: seq<DiskCapacity>, d: DiskParam) returns (j: nat)
    requires 0 < LargestOn(ds, d)
    ensures j < |ds| && Fits(ds[j], d) && ds[j].Available() == LargestOn(ds, d)
  {
    if Fits(ds[0], d) && ds[0].Available() >= LargestOn(ds[1..], d) {
      j := 0;
    } else {
      j := LargestOnIsThere(ds[1..], d);
      j := j + 1;
    }
  }

  lemma {:induction false} LargestDiskIsThere(t: CustomTemplate, caps: seq<HostCapacity>, d: DiskParam)
    returns (i: nat, j: nat)
    requires AllOk(caps) && 0 < LargestDisk(t, caps, d)
    ensures i < |caps| && Serves(t, caps[i]) && j < |caps[i].disks|
    ensures Fits(caps[i].disks[j], d) && caps[i].disks[j].Available() == LargestDisk(t, caps, d)
  {
    if Serves(t, caps[0]) && LargestOn(caps[0].disks, d) >= LargestDisk(t, caps[1..], d) {
      i := 0;
      j := LargestOnIsThere(caps[0].disks, d);
    } else {
      i, j := LargestDiskIsThere(t, caps[1..], d);
      i := i + 1;
    }
  }

  /**
   * Every disk option left has one host that serves the minimum CPU and memory, has a free IPv4
   * address, and holds any size up to the advertised maximum on one disk of that kind.
   */
  lemma OptionHasOneHost(t: CustomTemplate, caps: seq<HostCapacity>, d: DiskParam) returns (i: nat, j: nat)
    requires AllOk(caps) && d in Limited(t, caps).disks
    ensures d.minDisk <= d.maxDisk
    ensures i < |caps| && Serves(t, caps[i]) && j < |caps[i].disks|
    ensures Fits(caps[i].disks[j], d) && d.maxDisk <= caps[i].disks[j].Available()
  {
    var e :| e in t.disks && d == LimitedDisk(t, caps, e);
    i, j := LargestDiskIsThere(t, caps, e);
  }

  /** The order for the smallest CPU and memory of t and a given size on option d. */
  predicate AsksFor(o: Order, t: CustomTemplate, d: DiskParam, size: nat) {
    && o.cpu == t.minCpu && o.memory == t.minMemory && o.diskSize == size
    && o.diskType == d.diskType && o.diskInterface == d.diskInterface && o.cpuFeatures == t.cpuFeatures
    && (if t.cpuMfg.None? then o.cpuMfg == UnknownMfg else MfgName(o.cpuMfg) == t.cpuMfg.value)
    && (if t.cpuArch.None? then o.cpuArch == UnknownArch else ArchName(o.cpuArch) == t.cpuArch.value)
  }

  /** The host names the maker and architecture that the template is particular about. */
  predicate Named(o: Order, h: HostCapacity) {
    && (o.cpuMfg != UnknownMfg ==> h.host.cpuMfg != UnknownMfg)
    && (o.cpuArch != UnknownArch ==> h.host.cpuArch != UnknownArch)
  }

  lemma NamesAreUnique(m: CpuMfg, n: CpuMfg, a: CpuArch, b: CpuArch)
    ensures MfgName(m) == MfgName(n) ==> m == n
    ensures ArchName(a) == ArchName(b) ==> a == b
  {
    assert |"intel"| == 5 && |"amd"| == 3 && |"apple"| == 5 && |"nvidia"| == 6 && |"arm"| == 3 && |"unknown"| == 7;
    assert "intel"[0] != "apple"[0] && "amd"[1] != "arm"[1];
    assert |"x86_64"| == 6 && |"arm64"| == 5;
  }

  /** Seen through the disks of one kind, a host has the same CPU, memory and addresses left. */
  lemma ViewKeepsRest(h: HostCapacity, kind: DiskType, interface: DiskInterface)
    requires h.Ok()
    ensures var view := h.OnlyDisks(kind, interface);
            view.Ok() && view.host == h.host && view.AvailableCpu() == h.AvailableCpu()
            && view.AvailableMemory() == h.AvailableMemory() && (h.HasIpv4() <==> view.HasIpv4())
  {
  }

  lemma ViewHasDisk(h: HostCapacity, d: DiskParam, j: nat, size: nat)
    requires j < |h.disks| && Fits(h.disks[j], d) && size <= h.disks[j].Available()
    ensures var view := h.OnlyDisks(d.diskType, d.diskInterface);
            exists k :: 0 <= k < |view.disks| && view.disks[k].Available() >= size
  {
    var view := h.OnlyDisks(d.diskType, d.diskInterface);
    assert h.disks[j] in view.disks;
    var k :| 0 <= k < |view.disks| && view.disks[k] == h.disks[j];
  }

  /** What an eligible host may still fail: it does not name its maker or its architecture. */
  lemma EligibleMeetsCpu(t: CustomTemplate, h: HostCapacity, d: DiskParam, size: nat, o: Order)
    requires Eligible(t, h) && AsksFor(o, t, d, size)
    ensures Named(o, h) <==>
            && (o.cpuMfg == UnknownMfg || h.host.cpuMfg == o.cpuMfg)
            && (o.cpuArch == UnknownArch || h.host.cpuArch == o.cpuArch)
  {
    NamesAreUnique(o.cpuMfg, h.host.cpuMfg, o.cpuArch, h.host.cpuArch);
  }

  /** A host that serves the template and has the disk accepts the order exactly when it is named. */
  lemma ServingHostAccepts(t: CustomTemplate, h: HostCapacity, d: DiskParam, j: nat, size: nat, o: Order)
    requires h.Ok() && Serves(t, h) && j < |h.disks| && Fits(h.disks[j], d) && size <= h.disks[j].Available()
    requires AsksFor(o, t, d, size)
    ensures Accepts(h, t.regionId, o) <==> Named(o, h)
  {
    EligibleMeetsCpu(t, h, d, size, o);
    ViewKeepsRest(h, o.diskType, o.diskInterface);
    ViewHasDisk(h, d, j, size);
  }

  /** One disk of a host holds size on option d. */
  predicate HoldsOn(h: HostCapacity, d: DiskParam, size: nat) {
    exists j :: 0 <= j < |h.disks| && Fits(h.disks[j], d) && size <= h.disks[j].Available()
  }

  /** A host that accepts an order has a fitting disk for it. */
  lemma AcceptedIsHeld(h: HostCapacity, regionId: Id, d: DiskParam, o: Order)
    requires h.Ok() && Accepts(h, regionId, o) && o.diskType == d.diskType && o.diskInterface == d.diskInterface
    ensures HoldsOn(h, d, o.diskSize)
  {
    var view := h.OnlyDisks(o.diskType, o.diskInterface);
    var k :| 0 <= k < |view.disks| && view.disks[k].Available() >= o.diskSize;
    assert view.disks[k] in view.disks;
    assert view.disks[k] in h.disks;
    var j :| 0 <= j < |h.disks| && h.disks[j] == view.disks[k];
  }

  /** Among the hosts that serve the template, those that accept the smallest CPU and memory at a size. */
  lemma ServingAcceptsExactly(t: CustomTemplate, h: HostCapacity, d: DiskParam, size: nat, o: Order)
    requires h.Ok() && AsksFor(o, t, d, size)
    ensures Serves(t, h) && Accepts(h, t.regionId, o) <==> Serves(t, h) && Named(o, h) && HoldsOn(h, d, size)
  {
    if Serves(t, h) && Accepts(h, t.regionId, o) { AcceptedIsHeld(h, t.regionId, d, o); }
    if Serves(t, h) && HoldsOn(h, d, size) {
      var j :| 0 <= j < |h.disks| && Fits(h.disks[j], d) && size <= h.disks[j].Available();
      ServingHostAccepts(t, h, d, j, size, o);
    }
  }

  /**
   * The smallest CPU and memory at a size are accepted by a serving host exactly when one of those
   * that can store the size is named. In particular every advertised size can be ordered if the
   * serving hosts that can store it are named, whatever the other hosts are.
   */
  lemma AdvertisedOrderAccepted(t: CustomTemplate, caps: seq<HostCapacity>, d: DiskParam, size: nat, o: Order)
    requires AllOk(caps) && AsksFor(o, t, d, size)
    ensures (exists i :: 0 <= i < |caps| && Serves(t, caps[i]) && Accepts(caps[i], t.regionId, o))
       <==> exists i :: 0 <= i < |caps| && Serves(t, caps[i]) && Named(o, caps[i]) && HoldsOn(caps[i], d, size)
    ensures d in Limited(t, caps).disks && size <= d.maxDisk
            && (forall i :: 0 <= i < |caps| && Serves(t, caps[i]) && HoldsOn(caps[i], d, size) ==> Named(o, caps[i]))
            ==> exists i :: 0 <= i < |caps| && Accepts(caps[i], t.regionId, o)
  {
    forall i | 0 <= i < |caps|
      ensures Serves(t, caps[i]) && Accepts(caps[i], t.regionId, o)
         <==> Serves(t, caps[i]) && Named(o, caps[i]) && HoldsOn(caps[i], d, size)
    {
      ServingAcceptsExactly(t, caps[i], d, size, o);
    }
    if d in Limited(t, caps).disks && size <= d.maxDisk {
      var i, j := OptionHasOneHost(t, caps, d);
      assert HoldsOn(caps[i], d, size);
    }
  }

  lemma {:induction false} MostIsAtLeast(t: CustomTemplate, ds: seq<DiskParam>, caps: seq<HostCapacity>, i: nat)
    requires AllOk(caps) && i < |caps| && ServesSome(t, ds, caps[i])
    ensures caps[i].AvailableCpu() <= MostCpu(t, ds, caps) && caps[i].AvailableMemory() <= MostMemory(t, ds, caps)
  {
    if i > 0 { MostIsAtLeast(t, ds, caps[1..], i - 1); }
  }

  /** A template that is still offered keeps its minima within its maxima. */
  lemma OfferedStaysOrdered(t: CustomTemplate, caps: seq<HostCapacity>)
    requires AllOk(caps) && t.minCpu <= t.maxCpu && t.minMemory <= t.maxMemory && Offered(Limited(t, caps))
    ensures var r := Limited(t, caps); r.minCpu <= r.maxCpu && r.minMemory <= r.maxMemory
  {
    var ds := Limited(t, caps).disks;
    var i, j := OptionHasOneHost(t, caps, ds[0]);
    assert 0 <= 0 < |ds| && 0 <= j < |caps[i].disks| && Fits(caps[i].disks[j], ds[0])
           && caps[i].disks[j].Available() >= ds[0].minDisk;
    MostIsAtLeast(t, ds, caps, i);
  }

  // ----- nothing is held back, and no maximum is made up -----

  lemma {:induction false} LargestOnIsLargest(ds: seq<DiskCapacity>, d: DiskParam, j: nat)
    requires j < |ds| && Fits(ds[j], d)
    ensures ds[j].Available() <= LargestOn(ds, d)
  {
    if j > 0 { LargestOnIsLargest(ds[1..], d, j - 1); }
  }

  lemma {:induction false} LargestDiskIsLargest(t: CustomTemplate, caps: seq<HostCapacity>, d: DiskParam, i: nat,
                                                j: nat)
    requires AllOk(caps) && i < |caps| && Serves(t, caps[i]) && j < |caps[i].disks| && Fits(caps[i].disks[j], d)
    ensures caps[i].disks[j].Available() <= LargestDisk(t, caps, d)
  {
    if i == 0 {
      LargestOnIsLargest(caps[0].disks, d, j);
    } else {
      LargestDiskIsLargest(t, caps[1..], d, i - 1, j);
    }
  }

  /** A serving host has room for size on a disk of the option's kind. */
  ghost predicate Storable(t: CustomTemplate, caps: seq<HostCapacity>, d: DiskParam, size: nat)
    requires AllOk(caps)
  {
    exists i, j :: 0 <= i < |caps| && Serves(t, caps[i]) && 0 <= j < |caps[i].disks| && Fits(caps[i].disks[j], d)
                   && size <= caps[i].disks[j].Available()
  }

  /**
   * An option that made sense stays on offer exactly when its smallest size can be stored, and then
   * no size is cut that could be.
   */
  lemma OptionKeptExactly(t: CustomTemplate, caps: seq<HostCapacity>, d: DiskParam, size: nat)
    requires AllOk(caps) && d.minDisk <= d.maxDisk && 0 < d.maxDisk
    ensures Sellable(LimitedDisk(t, caps, d)) <==> Storable(t, caps, d, Max(1, d.minDisk))
    ensures 0 < size <= d.maxDisk ==> (size <= LimitedDisk(t, caps, d).maxDisk <==> Storable(t, caps, d, size))
  {
    StorableUpTo(t, caps, d, Max(1, d.minDisk));
    if 0 < size { StorableUpTo(t, caps, d, size); }
  }

  lemma StorableUpTo(t: CustomTemplate, caps: seq<HostCapacity>, d: DiskParam, size: nat)
    requires AllOk(caps) && 0 < size
    ensures Storable(t, caps, d, size) <==> size <= LargestDisk(t, caps, d)
  {
    if size <= LargestDisk(t, caps, d) {
      var i, j := LargestDiskIsThere(t, caps, d);
    }
    if Storable(t, caps, d, size) {
      var i, j :| 0 <= i < |caps| && Serves(t, caps[i]) && 0 <= j < |caps[i].disks| && Fits(caps[i].disks[j], d)
                  && size <= caps[i].disks[j].Available();
      LargestDiskIsLargest(t, caps, d, i, j);
    }
  }

  lemma {:induction false} MostIsThere(t: CustomTemplate, ds: seq<DiskParam>, caps: seq<HostCapacity>)
    returns (i: nat, j: nat)
    requires AllOk(caps) && 0 < MostCpu(t, ds, caps) && 0 < MostMemory(t, ds, caps)
    ensures i < |caps| && ServesSome(t, ds, caps[i]) && caps[i].AvailableCpu() == MostCpu(t, ds, caps)
    ensures j < |caps| && ServesSome(t, ds, caps[j]) && caps[j].AvailableMemory() == MostMemory(t, ds, caps)
  {
    i := MostCpuIsThere(t, ds, caps);
    j := MostMemoryIsThere(t, ds, caps);
  }

  lemma {:induction false} MostCpuIsThere(t: CustomTemplate, ds: seq<DiskParam>, caps: seq<HostCapacity>)
    returns (i: nat)
    requires AllOk(caps) && 0 < MostCpu(t, ds, caps)
    ensures i < |caps| && ServesSome(t, ds, caps[i]) && caps[i].AvailableCpu() == MostCpu(t, ds, caps)
  {
    if ServesSome(t, ds, caps[0]) && caps[0].AvailableCpu() >= MostCpu(t, ds, caps[1..]) {
      i := 0;
    } else {
      i := MostCpuIsThere(t, ds, caps[1..]);
      i := i + 1;
    }
  }

  lemma {:induction false} MostMemoryIsThere(t: CustomTemplate, ds: seq<DiskParam>, caps: seq<HostCapacity>)
    returns (i: nat)
    requires AllOk(caps) && 0 < MostMemory(t, ds, caps)
    ensures i < |caps| && ServesSome(t, ds, caps[i]) && caps[i].AvailableMemory() == MostMemory(t, ds, caps)
  {
    if ServesSome(t, ds, caps[0]) && caps[0].AvailableMemory() >= MostMemory(t, ds, caps[1..]) {
      i := 0;
    } else {
      i := MostMemoryIsThere(t, ds, caps[1..]);
      i := i + 1;
    }
  }

  /** Each advertised maximum is free on one host that serves the template and one of its disk options. */
  lemma MaximaAreServed(t: CustomTemplate, caps: seq<HostCapacity>) returns (i: nat, j: nat)
    requires AllOk(caps) && Offered(Limited(t, caps))
    ensures var r := Limited(t, caps);
            && i < |caps| && ServesSome(t, r.disks, caps[i]) && r.maxCpu <= caps[i].AvailableCpu()
            && j < |caps| && ServesSome(t, r.disks, caps[j]) && r.maxMemory <= caps[j].AvailableMemory()
  {
    i, j := MostIsThere(t, Limited(t, caps).disks, caps);
  }

  // ----- more load never adds to the offer -----

  /** Same hosts, disks and ranges, at least as much of each in use. */
  predicate Busier(h: HostCapacity, g: HostCapacity) {
    && h.host == g.host && h.cpu <= g.cpu && h.memory <= g.memory
    && |h.ranges| == |g.ranges|
    && DisksBusier(h.disks, g.disks)
    && (forall i :: 0 <= i < |h.ranges| ==>
          h.ranges[i].range == g.ranges[i].range && h.ranges[i].usage <= g.ranges[i].usage)
  }

  predicate DiskBusier(c: DiskCapacity, e: DiskCapacity) {
    c.disk == e.disk && c.loadFactor == e.loadFactor && c.usage <= e.usage
  }

  predicate DisksBusier(ds: seq<DiskCapacity>, es: seq<DiskCapacity>) {
    |ds| == |es| && forall i :: 0 <= i < |ds| ==> DiskBusier(ds[i], es[i])
  }

  predicate AllBusier(caps: seq<HostCapacity>, more: seq<HostCapacity>) {
    |caps| == |more| && forall i :: 0 <= i < |caps| ==> Busier(caps[i], more[i])
  }

  lemma BusierDiskShrinks(c: DiskCapacity, e: DiskCapacity)
    requires DiskBusier(c, e)
    ensures e.Available() <= c.Available()
  {
  }

  lemma BusierRangeShrinks(c: RangeCapacity, e: RangeCapacity)
    requires c.range == e.range && c.range.Ok() && c.usage <= e.usage
    ensures e.HasRoom() ==> c.HasRoom()
  {
  }

  lemma BusierHasLess(h: HostCapacity, g: HostCapacity)
    requires h.host == g.host && h.cpu <= g.cpu && h.memory <= g.memory
    ensures g.AvailableCpu() <= h.AvailableCpu() && g.AvailableMemory() <= h.AvailableMemory()
  {
  }

  lemma BusierHasFewerIps(h: HostCapacity, g: HostCapacity)
    requires h.Ok() && g.Ok() && Busier(h, g)
    ensures g.HasIpv4() ==> h.HasIpv4()
  {
    if g.HasIpv4() {
      var i :| 0 <= i < |g.ranges| && g.ranges[i].HasRoom();
      BusierRangeShrinks(h.ranges[i], g.ranges[i]);
    }
  }

  lemma BusierServesLess(t: CustomTemplate, h: HostCapacity, g: HostCapacity)
    requires h.Ok() && g.Ok() && Busier(h, g)
    ensures g.AvailableCpu() <= h.AvailableCpu() && g.AvailableMemory() <= h.AvailableMemory()
    ensures Serves(t, g) ==> Serves(t, h)
  {
    BusierHasLess(h, g);
    BusierHasFewerIps(h, g);
  }

  lemma {:induction false} BusierDisksShrink(ds: seq<DiskCapacity>, es: seq<DiskCapacity>, d: DiskParam)
    requires DisksBusier(ds, es)
    ensures LargestOn(es, d) <= LargestOn(ds, d)
  {
    if ds != [] {
      BusierDiskShrinks(ds[0], es[0]);
      BusierDisksShrink(ds[1..], es[1..], d);
    }
  }

  lemma {:induction false} LargestShrinks(t: CustomTemplate, caps: seq<HostCapacity>, more: seq<HostCapacity>,
                                          d: DiskParam)
    requires AllOk(caps) && AllOk(more) && AllBusier(caps, more)
    ensures LargestDisk(t, more, d) <= LargestDisk(t, caps, d)
  {
    if caps != [] {
      BusierServesLess(t, caps[0], more[0]);
      BusierDisksShrink(caps[0].disks, more[0].disks, d);
      LargestShrinks(t, caps[1..], more[1..], d);
    }
  }

  /** Each option of ys comes, in order, from one of xs that allows at least as much. */
  predicate Within(ys: seq<DiskParam>, xs: seq<DiskParam>)
    decreases |xs|
  {
    if ys == [] then true
    else if xs == [] then false
    else (ys[0] == xs[0].(maxDisk := ys[0].maxDisk) && ys[0].maxDisk <= xs[0].maxDisk && Within(ys[1..], xs[1..]))
         || Within(ys, xs[1..])
  }

  lemma {:induction false} WithinMember(ys: seq<DiskParam>, xs: seq<DiskParam>, i: nat) returns (k: nat)
    requires Within(ys, xs) && i < |ys|
    ensures k < |xs| && ys[i] == xs[k].(maxDisk := ys[i].maxDisk) && ys[i].maxDisk <= xs[k].maxDisk
    decreases |xs|
  {
    if ys[0] == xs[0].(maxDisk := ys[0].maxDisk) && ys[0].maxDisk <= xs[0].maxDisk && Within(ys[1..], xs[1..]) {
      if i == 0 {
        k := 0;
      } else {
        k := WithinMember(ys[1..], xs[1..], i - 1);
        k := k + 1;
      }
    } else {
      k := WithinMember(ys, xs[1..], i);
      k := k + 1;
    }
  }

  lemma {:induction false} OptionsShrink(t: CustomTemplate, caps: seq<HostCapacity>, more: seq<HostCapacity>,
                                         ds: seq<DiskParam>)
    requires AllOk(caps) && AllOk(more) && AllBusier(caps, more)
    ensures Within(LimitedDisks(t, more, ds), LimitedDisks(t, caps, ds))
  {
    if ds != [] {
      LargestShrinks(t, caps, more, ds[0]);
      OptionsShrink(t, caps, more, ds[1..]);
      var xs, ys := LimitedDisks(t, caps, ds), LimitedDisks(t, more, ds);
      var d, e := LimitedDisk(t, caps, ds[0]), LimitedDisk(t, more, ds[0]);
      assert e == d.(maxDisk := e.maxDisk) && e.maxDisk <= d.maxDisk;
      if Sellable(e) {
        assert xs[0] == d && ys[0] == e && xs[1..] == LimitedDisks(t, caps, ds[1..])
               && ys[1..] == LimitedDisks(t, more, ds[1..]);
      } else if Sellable(d) {
        assert xs[1..] == LimitedDisks(t, caps, ds[1..]) && ys == LimitedDisks(t, more, ds[1..]);
      } else {
        assert xs == LimitedDisks(t, caps, ds[1..]) && ys == LimitedDisks(t, more, ds[1..]);
      }
    }
  }

  lemma BusierServesSomeLess(t: CustomTemplate, xs: seq<DiskParam>, ys: seq<DiskParam>, h: HostCapacity,
                             g: HostCapacity)
    requires h.Ok() && g.Ok() && Busier(h, g) && Within(ys, xs)
    ensures ServesSome(t, ys, g) ==> ServesSome(t, xs, h)
  {
    BusierServesLess(t, h, g);
    if ServesSome(t, ys, g) {
      var i, j :| 0 <= i < |ys| && 0 <= j < |g.disks| && Fits(g.disks[j], ys[i])
                  && g.disks[j].Available() >= ys[i].minDisk;
      var k := WithinMember(ys, xs, i);
      BusierDiskShrinks(h.disks[j], g.disks[j]);
      assert Fits(h.disks[j], xs[k]) && h.disks[j].Available() >= xs[k].minDisk;
    }
  }

  lemma {:induction false} MostShrinks(t: CustomTemplate, xs: seq<DiskParam>, ys: seq<DiskParam>,
                                       caps: seq<HostCapacity>, more: seq<HostCapacity>)
    requires AllOk(caps) && AllOk(more) && AllBusier(caps, more) && Within(ys, xs)
    ensures MostCpu(t, ys, more) <= MostCpu(t, xs, caps) && MostMemory(t, ys, more) <= MostMemory(t, xs, caps)
    decreases |caps|
  {
    if caps != [] {
      BusierServesLess(t, caps[0], more[0]);
      BusierServesSomeLess(t, xs, ys, caps[0], more[0]);
      MostShrinks(t, xs, ys, caps[1..], more[1..]);
    }
  }

  /** s offers no more than t does. */
  predicate OffersLess(s: CustomTemplate, t: CustomTemplate) {
    && s == t.(maxCpu := s.maxCpu, maxMemory := s.maxMemory, disks := s.disks)
    && s.maxCpu <= t.maxCpu && s.maxMemory <= t.maxMemory && Within(s.disks, t.disks)
  }

  /** More load anywhere never raises a maximum and never adds a disk option or a template. */
  lemma LoadNeverAdds(t: CustomTemplate, caps: seq<HostCapacity>, more: seq<HostCapacity>)
    requires AllOk(caps) && AllOk(more) && AllBusier(caps, more)
    ensures OffersLess(Limited(t, more), Limited(t, caps))
    ensures Offered(Limited(t, more)) ==> Offered(Limited(t, caps))
  {
    OptionsShrink(t, caps, more, t.disks);
    MostShrinks(t, LimitedDisks(t, caps, t.disks), LimitedDisks(t, more, t.disks), caps, more);
  }

  /** Each template of ss comes, in order, from one of ts that offers at least as much. */
  predicate AllWithin(ss: seq<CustomTemplate>, ts: seq<CustomTemplate>)
    decreases |ts|
  {
    if ss == [] then true
    else if ts == [] then false
    else (OffersLess(ss[0], ts[0]) && AllWithin(ss[1..], ts[1..])) || AllWithin(ss, ts[1..])
  }

  /** The whole answer shrinks with load, template by template and in order. */
  lemma {:induction false} AnswerShrinksWithLoad(ts: seq<CustomTemplate>, caps: seq<HostCapacity>,
                                                 more: seq<HostCapacity>)
    requires AllOk(caps) && AllOk(more) && AllBusier(caps, more)
    ensures AllWithin(LimitedAll(ts, more), LimitedAll(ts, caps))
  {
    if ts != [] {
      LoadNeverAdds(ts[0], caps, more);
      AnswerShrinksWithLoad(ts[1..], caps, more);
      var xs, ys := LimitedAll(ts, caps), LimitedAll(ts, more);
      if Offered(Limited(ts[0], more)) {
        assert xs[1..] == LimitedAll(ts[1..], caps) && ys[1..] == LimitedAll(ts[1..], more);
      } else if Offered(Limited(ts[0], caps)) {
        assert xs[1..] == LimitedAll(ts[1..], caps) && ys == LimitedAll(ts[1..], more);
      } else {
        assert xs == LimitedAll(ts[1..], caps) && ys == LimitedAll(ts[1..], more);
      }
    }
  }

  // ----- what the limits do not promise -----

  lemma LargestOfOne(ds: seq<DiskCapacity>, d: DiskParam)
    requires |ds| == 1 && Fits(ds[0], d)
    ensures LargestOn(ds, d) == ds[0].Available()
  {
    assert ds[1..] == [];
  }

  lemma LargestOfTwo(t: CustomTemplate, h: HostCapacity, g: HostCapacity, d: DiskParam)
    requires h.Ok() && g.Ok() && Serves(t, h) && Serves(t, g)
    ensures LargestDisk(t, [h, g], d) == Max(LargestOn(h.disks, d), LargestOn(g.disks, d))
  {
    assert [h, g][1..] == [g] && [g][1..] == [];
    assert LargestDisk(t, [g], d) == LargestOn(g.disks, d);
  }

  lemma MostOfTwo(t: CustomTemplate, ds: seq<DiskParam>, h: HostCapacity, g: HostCapacity)
    requires h.Ok() && g.Ok() && ServesSome(t, ds, h) && g.AvailableCpu() <= h.AvailableCpu()
    ensures MostCpu(t, ds, [h, g]) == h.AvailableCpu()
  {
    assert [h, g][1..] == [g] && [g][1..] == [];
    assert MostCpu(t, ds, [g]) <= g.AvailableCpu();
  }

  lemma OneOption(t: CustomTemplate, caps: seq<HostCapacity>, d: DiskParam)
    requires AllOk(caps) && t.disks == [d] && Sellable(LimitedDisk(t, caps, d))
    ensures var e := LimitedDisk(t, caps, d);
            Limited(t, caps).disks == [e] && Limited(t, caps).maxCpu == Min(t.maxCpu, MostCpu(t, [e], caps))
  {
    var e := LimitedDisk(t, caps, d);
    LimitedDisksSnoc(t, caps, [], d);
    assert [] + [d] == t.disks && [] + [e] == [e];
  }

  lemma OneDiskServes(t: CustomTemplate, h: HostCapacity, e: DiskParam)
    requires h.Ok() && Serves(t, h) && |h.disks| == 1 && Fits(h.disks[0], e) && e.minDisk <= h.disks[0].Available()
    ensures ServesSome(t, [e], h)
  {
    assert Fits(h.disks[0], [e][0]);
  }

  /** Too little CPU, or no disk large enough, and the host does not take the order. */
  lemma TooSmallRejects(h: HostCapacity, regionId: Id, o: Order)
    requires h.Ok()
    requires h.AvailableCpu() < o.cpu || forall j :: 0 <= j < |h.disks| ==> h.disks[j].Available() < o.diskSize
    ensures !Accepts(h, regionId, o)
  {
    var view := h.OnlyDisks(o.diskType, o.diskInterface);
    ViewKeepsRest(h, o.diskType, o.diskInterface);
    assert forall k :: 0 <= k < |view.disks| ==> view.disks[k] in h.disks;
  }

  /**
   * The maxima are limited one by one: with the free CPU on one host and the free disk on another,
   * the largest CPU and the largest disk that are advertised together fit on neither.
   */
  lemma MaximaNotJointlyServed(t: CustomTemplate, h: HostCapacity, g: HostCapacity, d: DiskParam, o: Order)
    requires h.Ok() && g.Ok() && Serves(t, h) && Serves(t, g) && t.disks == [d]
    requires |h.disks| == 1 && |g.disks| == 1 && Fits(h.disks[0], d) && Fits(g.disks[0], d)
    requires g.AvailableCpu() < h.AvailableCpu() <= t.maxCpu
    requires d.minDisk <= h.disks[0].Available() < g.disks[0].Available() <= d.maxDisk
    requires o.cpu == h.AvailableCpu() && o.diskSize == g.disks[0].Available()
    ensures var r := Limited(t, [h, g]); r.maxCpu == o.cpu && |r.disks| == 1 && r.disks[0].maxDisk == o.diskSize
    ensures !Accepts(h, t.regionId, o) && !Accepts(g, t.regionId, o)
  {
    LargestOfOne(h.disks, d);
    LargestOfOne(g.disks, d);
    LargestOfTwo(t, h, g, d);
    var e := LimitedDisk(t, [h, g], d);
    OneOption(t, [h, g], d);
    OneDiskServes(t, h, e);
    MostOfTwo(t, [e], h, g);
    TooSmallRejects(h, t.regionId, o);
    TooSmallRejects(g, t.regionId, o);
  }
}
