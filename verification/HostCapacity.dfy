/** What a host has left, and which orders it accepts. */
module HostCapacities {
  import opened Options
  import opened Numbers
  import opened IpPicker
  import opened IpAccounting

  type Id = nat
  type Feature = string

  datatype CpuMfg = UnknownMfg | Intel | Amd | Apple | Nvidia | Arm
  datatype CpuArch = UnknownArch | X86_64 | Arm64
  datatype DiskType = Hdd | Ssd
  datatype DiskInterface = Sata | Scsi | Pcie

  function MfgName(m: CpuMfg): string {
    match m
    case UnknownMfg => "unknown"
    case Intel => "intel"
    case Amd => "amd"
    case Apple => "apple"
    case Nvidia => "nvidia"
    case Arm => "arm"
  }

  function ArchName(a: CpuArch): string {
    match a
    case UnknownArch => "unknown"
    case X86_64 => "x86_64"
    case Arm64 => "arm64"
  }

  /** Flooring and casting to an unsigned width: values outside the width saturate. */
  function FloorTo(x: real, max: nat): nat {
    if x < 0.0 then 0 else if max as real <= x then max else x.Floor
  }

  datatype Host = Host(
    id: Id,
    regionId: Id,
    cpu: nat,
    memory: nat,
    cpuMfg: CpuMfg,
    cpuArch: CpuArch,
    cpuFeatures: seq<Feature>,
    loadCpu: real,
    loadMemory: real,
    loadDisk: real)

  datatype Disk = Disk(id: Id, size: nat, kind: DiskType, interface: DiskInterface)

  datatype DiskCapacity = DiskCapacity(loadFactor: real, disk: Disk, usage: nat) {
    function Available(): nat {
      SaturatingSub(FloorTo(disk.size as real * loadFactor, U64_MAX), usage)
    }

    function Load(): real
      requires 0 < disk.size && 0.0 < loadFactor
    {
      usage as real / disk.size as real * (1.0 / loadFactor)
    }
  }

  datatype RangeCapacity = RangeCapacity(range: IpRange, usage: nat) {
    /** An IPv4 range with at least one address left. */
    predicate HasRoom()
      requires range.Ok()
    {
      range.IsIpv4() && 1 <= AvailableCapacity(range, usage)
    }
  }

  function CpuLeft(h: Host, used: nat): nat {
    SaturatingSub(FloorTo(h.cpu as real * h.loadCpu, U16_MAX), used)
  }

  function MemoryLeft(h: Host, used: nat): nat {
    SaturatingSub(FloorTo(h.memory as real * h.loadMemory, U64_MAX), used)
  }

  predicate AllRangesOk(rs: seq<RangeCapacity>) {
    forall i :: 0 <= i < |rs| ==> rs[i].range.Ok()
  }

  /** Some IPv4 range has an address left. */
  predicate SomeRoom(rs: seq<RangeCapacity>)
    requires AllRangesOk(rs)
  {
    exists i :: 0 <= i < |rs| && rs[i].HasRoom()
  }

  datatype HostCapacity = HostCapacity(
    host: Host,
    cpu: nat,
    memory: nat,
    disks: seq<DiskCapacity>,
    ranges: seq<RangeCapacity>)
  {
    predicate Ok() {
      AllRangesOk(ranges)
    }

    function AvailableCpu(): nat {
      CpuLeft(host, cpu)
    }

    function AvailableMemory(): nat {
      MemoryLeft(host, memory)
    }

    predicate HasIpv4()
      requires Ok()
    {
      SomeRoom(ranges)
    }

    /** Loads can be compared: nothing is divided by zero. */
    predicate Measurable() {
      && 0 < host.cpu && 0 < host.memory && 0.0 < host.loadCpu && 0.0 < host.loadMemory
      && forall i :: 0 <= i < |disks| ==> 0 < disks[i].disk.size && 0.0 < disks[i].loadFactor
    }

    function CpuLoad(): real
      requires Measurable()
    {
      cpu as real / (host.cpu as real * host.loadCpu)
    }

    function MemoryLoad(): real
      requires Measurable()
    {
      memory as real / (host.memory as real * host.loadMemory)
    }

    function DiskLoad(): real
      requires Measurable() && disks != []
    {
      TotalDiskLoad(disks) / |disks| as real
    }

    function Load(): real
      requires Measurable() && disks != []
    {
      (CpuLoad() + MemoryLoad() + DiskLoad()) / 3.0
    }

    /** The same host seen through the disks of one kind and interface. */
    function OnlyDisks(kind: DiskType, interface: DiskInterface): HostCapacity {
      this.(disks := Matching(disks, kind, interface))
    }
  }

  function TotalDiskLoad(ds: seq<DiskCapacity>): real
    requires forall i :: 0 <= i < |ds| ==> 0 < ds[i].disk.size && 0.0 < ds[i].loadFactor
  {
    if ds == [] then 0.0 else ds[0].Load() + TotalDiskLoad(ds[1..])
  }

  function Matching(ds: seq<DiskCapacity>, kind: DiskType, interface: DiskInterface): (r: seq<DiskCapacity>)
    ensures forall c :: c in r <==> c in ds && c.disk.kind == kind && c.disk.interface == interface
  {
    if ds == [] then []
    else
      (if ds[0].disk.kind == kind && ds[0].disk.interface == interface then [ds[0]] else [])
      + Matching(ds[1..], kind, interface)
  }

  /** An order, as a template asks for it. */
  datatype Order = Order(
    cpu: nat,
    memory: nat,
    diskSize: nat,
    diskType: DiskType,
    diskInterface: DiskInterface,
    cpuMfg: CpuMfg,
    cpuArch: CpuArch,
    cpuFeatures: seq<Feature>)

  predicate CanAccommodate(h: HostCapacity, o: Order)
    requires h.Ok()
  {
    && (o.cpuMfg == UnknownMfg || h.host.cpuMfg == o.cpuMfg)
    && (o.cpuArch == UnknownArch || h.host.cpuArch == o.cpuArch)
    && (forall f :: f in o.cpuFeatures ==> f in h.host.cpuFeatures)
    && h.AvailableCpu() >= o.cpu
    && h.AvailableMemory() >= o.memory
    && (exists i :: 0 <= i < |h.disks| && h.disks[i].Available() >= o.diskSize)
    && h.HasIpv4()
  }

  /** A host of the region takes the order on a disk of the kind it asks for. */
  predicate Accepts(h: HostCapacity, regionId: Id, o: Order)
    requires h.Ok()
  {
    h.host.regionId == regionId && CanAccommodate(h.OnlyDisks(o.diskType, o.diskInterface), o)
  }

  /** If the host accepts the order, the load it is ranked by is a number. */
  predicate Rankable(h: HostCapacity, regionId: Id, o: Order)
    requires h.Ok()
  {
    Accepts(h, regionId, o) ==> h.OnlyDisks(o.diskType, o.diskInterface).Measurable()
  }

  /** The load a host is ranked by for an order it accepts. */
  function RankedLoad(h: HostCapacity, regionId: Id, o: Order): (r: Option<real>)
    requires h.Ok() && Rankable(h, regionId, o)
    ensures r.Some? <==> Accepts(h, regionId, o)
  {
    var view := h.OnlyDisks(o.diskType, o.diskInterface);
    if Accepts(h, regionId, o) then Some(view.Load()) else None
  }

  function RankedLoads(caps: seq<HostCapacity>, regionId: Id, o: Order): (r: seq<Option<real>>)
    requires forall i :: 0 <= i < |caps| ==> caps[i].Ok() && Rankable(caps[i], regionId, o)
    ensures |r| == |caps|
    ensures forall i :: 0 <= i < |r| ==> r[i] == RankedLoad(caps[i], regionId, o)
    ensures forall i :: 0 <= i < |caps| ==> (r[i].Some? <==> Accepts(caps[i], regionId, o))
  {
    if caps == [] then []
    else [RankedLoad(caps[0], regionId, o)] + RankedLoads(caps[1..], regionId, o)
  }

  // ----- what the load measures -----

  lemma ShareOf(used: real, p: real, full: real)
    requires 0.0 < full && used == p * full
    ensures used / full == p
  {
  }

  lemma SharesCompare(x: real, y: real, full: real)
    requires 0.0 < full && x < y
    ensures x / full < y / full
  {
    var d := y - x;
    assert y / full == x / full + d / full;
  }

  lemma LoadedPositive(n: nat, factor: real)
    requires 0 < n && 0.0 < factor
    ensures 0.0 < n as real * factor
  {
  }

  lemma DiskShare(c: DiskCapacity, p: real)
    requires 0 < c.disk.size && 0.0 < c.loadFactor && c.usage as real == p * (c.disk.size as real * c.loadFactor)
    ensures c.Load() == p
  {
    LoadedPositive(c.disk.size, c.loadFactor);
    DiskLoadIsShare(c);
    ShareOf(c.usage as real, p, c.disk.size as real * c.loadFactor);
  }

  lemma DiskLoadIsShare(c: DiskCapacity)
    requires 0 < c.disk.size && 0.0 < c.loadFactor
    ensures 0.0 < c.disk.size as real * c.loadFactor
    ensures c.Load() == c.usage as real / (c.disk.size as real * c.loadFactor)
  {
    LoadedPositive(c.disk.size, c.loadFactor);
    TwoQuotients(c.usage as real, c.disk.size as real, c.loadFactor);
  }

  lemma TwoQuotients(u: real, s: real, f: real)
    requires 0.0 < s && 0.0 < f && 0.0 < s * f
    ensures u / s * (1.0 / f) == u / (s * f)
  {
    var a, b := u / s, 1.0 / f;
    assert a * s == u && b * f == 1.0;
    assert (a * b) * (s * f) == (a * s) * (b * f);
  }

  /** Every disk has the same share of its loaded size in use. */
  predicate DisksUsed(ds: seq<DiskCapacity>, p: real) {
    forall i :: 0 <= i < |ds| ==>
      && 0 < ds[i].disk.size && 0.0 < ds[i].loadFactor
      && ds[i].usage as real == p * (ds[i].disk.size as real * ds[i].loadFactor)
  }

  lemma {:induction false} DisksShare(ds: seq<DiskCapacity>, p: real)
    requires DisksUsed(ds, p)
    ensures TotalDiskLoad(ds) == |ds| as real * p
  {
    if ds != [] {
      DiskShare(ds[0], p);
      DisksShare(ds[1..], p);
    }
  }

  /**
   * With the share p of its loaded CPU, q of its loaded memory and r of every loaded disk in use, the
   * load of a host is their mean: 0 when it is idle, 1 when all three are full.
   */
  lemma LoadIsMean(h: HostCapacity, p: real, q: real, r: real)
    requires h.Measurable() && h.disks != [] && DisksUsed(h.disks, r)
    requires h.cpu as real == p * (h.host.cpu as real * h.host.loadCpu)
    requires h.memory as real == q * (h.host.memory as real * h.host.loadMemory)
    ensures h.Load() == (p + q + r) / 3.0
  {
    LoadedPositive(h.host.cpu, h.host.loadCpu);
    LoadedPositive(h.host.memory, h.host.loadMemory);
    ShareOf(h.cpu as real, p, h.host.cpu as real * h.host.loadCpu);
    ShareOf(h.memory as real, q, h.host.memory as real * h.host.loadMemory);
    DisksShare(h.disks, r);
    ShareOf(TotalDiskLoad(h.disks), r, |h.disks| as real);
  }

  /** The same disk with at least as much in use. */
  predicate SameDiskMoreUsed(c: DiskCapacity, e: DiskCapacity) {
    c.disk == e.disk && c.loadFactor == e.loadFactor && c.usage <= e.usage
  }

  /** The same hardware, at least as much in use everywhere. */
  predicate MoreUsed(h: HostCapacity, g: HostCapacity) {
    && h.host == g.host && |h.disks| == |g.disks| && h.cpu <= g.cpu && h.memory <= g.memory
    && forall i :: 0 <= i < |h.disks| ==> SameDiskMoreUsed(h.disks[i], g.disks[i])
  }

  /** And strictly more of the CPU, of the memory or of one disk. */
  predicate StrictlyMoreUsed(h: HostCapacity, g: HostCapacity) {
    MoreUsed(h, g) &&
    (h.cpu < g.cpu || h.memory < g.memory || exists i :: 0 <= i < |h.disks| && h.disks[i].usage < g.disks[i].usage)
  }

  lemma DiskLoadGrows(c: DiskCapacity, e: DiskCapacity)
    requires SameDiskMoreUsed(c, e) && 0 < c.disk.size && 0.0 < c.loadFactor
    ensures c.Load() <= e.Load() && (c.usage < e.usage ==> c.Load() < e.Load())
  {
    DiskLoadIsShare(c);
    DiskLoadIsShare(e);
    if c.usage < e.usage { SharesCompare(c.usage as real, e.usage as real, c.disk.size as real * c.loadFactor); }
  }

  lemma {:induction false} DisksLoadGrows(ds: seq<DiskCapacity>, es: seq<DiskCapacity>)
    requires |ds| == |es| && forall i :: 0 <= i < |ds| ==> SameDiskMoreUsed(ds[i], es[i])
    requires forall i :: 0 <= i < |ds| ==> 0 < ds[i].disk.size && 0.0 < ds[i].loadFactor
    requires forall i :: 0 <= i < |es| ==> 0 < es[i].disk.size && 0.0 < es[i].loadFactor
    ensures TotalDiskLoad(ds) <= TotalDiskLoad(es)
    ensures (exists i :: 0 <= i < |ds| && ds[i].usage < es[i].usage) ==> TotalDiskLoad(ds) < TotalDiskLoad(es)
  {
    if ds != [] {
      DiskLoadGrows(ds[0], es[0]);
      DisksLoadGrows(ds[1..], es[1..]);
      if i :| 0 <= i < |ds| && ds[i].usage < es[i].usage {
        if i > 0 { assert ds[1..][i - 1].usage < es[1..][i - 1].usage; }
      }
    }
  }

  lemma ShareGrows(x: nat, y: nat, full: real)
    requires 0.0 < full && x <= y
    ensures x as real / full <= y as real / full && (x < y ==> x as real / full < y as real / full)
  {
    if x < y { SharesCompare(x as real, y as real, full); }
  }

  lemma CpuLoadGrows(h: HostCapacity, g: HostCapacity)
    requires h.Measurable() && g.Measurable() && h.host == g.host && h.cpu <= g.cpu
    ensures h.CpuLoad() <= g.CpuLoad() && (h.cpu < g.cpu ==> h.CpuLoad() < g.CpuLoad())
  {
    LoadedPositive(h.host.cpu, h.host.loadCpu);
    ShareGrows(h.cpu, g.cpu, h.host.cpu as real * h.host.loadCpu);
  }

  lemma MemoryLoadGrows(h: HostCapacity, g: HostCapacity)
    requires h.Measurable() && g.Measurable() && h.host == g.host && h.memory <= g.memory
    ensures h.MemoryLoad() <= g.MemoryLoad() && (h.memory < g.memory ==> h.MemoryLoad() < g.MemoryLoad())
  {
    LoadedPositive(h.host.memory, h.host.loadMemory);
    ShareGrows(h.memory, g.memory, h.host.memory as real * h.host.loadMemory);
  }

  lemma DiskLoadsGrow(h: HostCapacity, g: HostCapacity)
    requires h.Measurable() && g.Measurable() && h.disks != [] && MoreUsed(h, g)
    ensures h.DiskLoad() <= g.DiskLoad()
    ensures (exists i :: 0 <= i < |h.disks| && h.disks[i].usage < g.disks[i].usage) ==> h.DiskLoad() < g.DiskLoad()
  {
    DisksLoadGrows(h.disks, g.disks);
    var x, y := TotalDiskLoad(h.disks), TotalDiskLoad(g.disks);
    if x < y { SharesCompare(x, y, |h.disks| as real); }
  }

  /** On the same hardware, more of anything in use is a larger load. */
  lemma LoadGrows(h: HostCapacity, g: HostCapacity)
    requires h.Measurable() && g.Measurable() && h.disks != [] && StrictlyMoreUsed(h, g)
    ensures h.Load() < g.Load()
  {
    CpuLoadGrows(h, g);
    MemoryLoadGrows(h, g);
    DiskLoadsGrow(h, g);
    ThirdsCompare(h.CpuLoad(), h.MemoryLoad(), h.DiskLoad(), g.CpuLoad(), g.MemoryLoad(), g.DiskLoad());
  }

  lemma ThirdsCompare(a: real, b: real, c: real, x: real, y: real, z: real)
    requires a <= x && b <= y && c <= z && (a < x || b < y || c < z)
    ensures (a + b + c) / 3.0 < (x + y + z) / 3.0
  {
  }

  /** For an order both accept, the host with more in use is ranked behind. */
  lemma BusierRanksBehind(h: HostCapacity, g: HostCapacity, regionId: Id, o: Order)
    requires h.Ok() && g.Ok() && Rankable(h, regionId, o) && Rankable(g, regionId, o)
    requires Accepts(h, regionId, o) && Accepts(g, regionId, o)
    requires StrictlyMoreUsed(h.OnlyDisks(o.diskType, o.diskInterface), g.OnlyDisks(o.diskType, o.diskInterface))
    ensures RankedLoad(h, regionId, o).value < RankedLoad(g, regionId, o).value
  {
    LoadGrows(h.OnlyDisks(o.diskType, o.diskInterface), g.OnlyDisks(o.diskType, o.diskInterface));
  }

  // ----- what is left, and what acceptance asks -----

  /** n is x rounded down. */
  predicate RoundedDown(n: nat, x: real) {
    n as real <= x < (n + 1) as real
  }

  /**
   * Loaded capacity is rounded down: what is in use and what is left add up to it, and nothing is left
   * once more than that is in use.
   */
  predicate LeftOf(total: real, used: nat, left: nat) {
    (used as real <= total ==> RoundedDown(used + left, total)) && (total < used as real ==> left == 0)
  }

  lemma LeftExactly(total: real, max: nat, used: nat)
    requires 0.0 <= total < max as real
    ensures LeftOf(total, used, SaturatingSub(FloorTo(total, max), used))
  {
  }

  lemma CpuLeftExactly(h: Host, used: nat)
    requires 0.0 <= h.cpu as real * h.loadCpu < U16_MAX as real
    ensures LeftOf(h.cpu as real * h.loadCpu, used, CpuLeft(h, used))
  {
    LeftExactly(h.cpu as real * h.loadCpu, U16_MAX, used);
  }

  lemma MemoryLeftExactly(h: Host, used: nat)
    requires 0.0 <= h.memory as real * h.loadMemory < U64_MAX as real
    ensures LeftOf(h.memory as real * h.loadMemory, used, MemoryLeft(h, used))
  {
    LeftExactly(h.memory as real * h.loadMemory, U64_MAX, used);
  }

  lemma DiskLeftExactly(c: DiskCapacity)
    requires 0.0 <= c.disk.size as real * c.loadFactor < U64_MAX as real
    ensures LeftOf(c.disk.size as real * c.loadFactor, c.usage, c.Available())
  {
    LeftExactly(c.disk.size as real * c.loadFactor, U64_MAX, c.usage);
  }

  /** The demands an order makes of a host, each on its own: all of them, and no other. */
  lemma AcceptanceSpelledOut(h: HostCapacity, regionId: Id, o: Order)
    requires h.Ok()
    ensures Accepts(h, regionId, o) <==>
            && h.host.regionId == regionId
            && (o.cpuMfg != UnknownMfg ==> o.cpuMfg == h.host.cpuMfg)
            && (o.cpuArch != UnknownArch ==> o.cpuArch == h.host.cpuArch)
            && (forall f :: f in o.cpuFeatures ==> f in h.host.cpuFeatures)
            && o.cpu <= h.AvailableCpu() && o.memory <= h.AvailableMemory()
            && (exists i :: 0 <= i < |h.disks| && h.disks[i].disk.kind == o.diskType
                            && h.disks[i].disk.interface == o.diskInterface && o.diskSize <= h.disks[i].Available())
            && (exists i :: 0 <= i < |h.ranges| && h.ranges[i].HasRoom())
  {
    var view := h.OnlyDisks(o.diskType, o.diskInterface);
    assert view.AvailableCpu() == h.AvailableCpu() && view.AvailableMemory() == h.AvailableMemory();
    if i :| 0 <= i < |h.disks| && h.disks[i].disk.kind == o.diskType
            && h.disks[i].disk.interface == o.diskInterface && o.diskSize <= h.disks[i].Available() {
      assert h.disks[i] in view.disks;
    }
    if k :| 0 <= k < |view.disks| && view.disks[k].Available() >= o.diskSize {
      assert view.disks[k] in h.disks;
    }
  }

  /** The head of a stable sort by load: the first of the least values. */
  method FirstLeast(loads: seq<Option<real>>) returns (best: Option<nat>)
    ensures best.None? <==> forall i :: 0 <= i < |loads| ==> loads[i].None?
    ensures best.Some? ==> best.value < |loads| && loads[best.value].Some?
    ensures best.Some? ==> forall i :: 0 <= i < |loads| && loads[i].Some? ==>
              loads[best.value].value <= loads[i].value && (i < best.value ==> loads[best.value].value < loads[i].value)
  {
    best := None;
    for i := 0 to |loads|
      invariant best.None? <==> forall j :: 0 <= j < i ==> loads[j].None?
      invariant best.Some? ==> best.value < i && loads[best.value].Some?
      invariant best.Some? ==> forall j :: 0 <= j < i && loads[j].Some? ==>
                  loads[best.value].value <= loads[j].value
                  && (j < best.value ==> loads[best.value].value < loads[j].value)
    {
      if loads[i].Some? && (best.None? || loads[i].value < loads[best.value].value) {
        best := Some(i);
      }
    }
  }

  /** get_host_for_template: the first of the least loaded hosts that accept the order. */
  method GetHostForTemplate(caps: seq<HostCapacity>, regionId: Id, o: Order) returns (best: Option<nat>)
    requires forall i :: 0 <= i < |caps| ==> caps[i].Ok() && Rankable(caps[i], regionId, o)
    ensures best.None? <==> forall i :: 0 <= i < |caps| ==> !Accepts(caps[i], regionId, o)
    ensures best.Some? ==> best.value < |caps| && Accepts(caps[best.value], regionId, o)
    ensures best.Some? ==> forall i :: 0 <= i < |caps| && Accepts(caps[i], regionId, o) ==>
              var mine := RankedLoad(caps[best.value], regionId, o).value;
              var other := RankedLoad(caps[i], regionId, o).value;
              mine <= other && (i < best.value ==> mine < other)
    ensures best.Some? ==> forall i :: 0 <= i < |caps| && Accepts(caps[i], regionId, o) ==>
              !StrictlyMoreUsed(caps[i].OnlyDisks(o.diskType, o.diskInterface),
                                caps[best.value].OnlyDisks(o.diskType, o.diskInterface))
  {
    var loads := RankedLoads(caps, regionId, o);
    best := FirstLeast(loads);
    assert best.None? ==> forall i :: 0 <= i < |caps| ==> loads[i].None?;
    if best.Some? {
      forall i | 0 <= i < |caps| && Accepts(caps[i], regionId, o)
        ensures !StrictlyMoreUsed(caps[i].OnlyDisks(o.diskType, o.diskInterface),
                                  caps[best.value].OnlyDisks(o.diskType, o.diskInterface))
      {
        if StrictlyMoreUsed(caps[i].OnlyDisks(o.diskType, o.diskInterface),
                            caps[best.value].OnlyDisks(o.diskType, o.diskInterface)) {
          BusierRanksBehind(caps[i], caps[best.value], regionId, o);
          assert false;
        }
      }
    }
  }
}
