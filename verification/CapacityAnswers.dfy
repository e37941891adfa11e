/** What the limited price list holds, told by the hosts alone: which templates, which options, which maxima. */
module CapacityAnswers {
  import opened Numbers
  import opened HostCapacities
  import opened CapacityLimits

  /** Places in a list of n, each after the one before. */
  predicate Ascending(at: seq<nat>, n: nat) {
    && (forall k :: 0 <= k < |at| ==> at[k] < n)
    && (forall k, l :: 0 <= k < l < |at| ==> at[k] < at[l])
  }

  /** The flagged values of a list, in order. */
  function Flagged<T>(xs: seq<T>, flags: seq<bool>): seq<T>
    requires |xs| == |flags|
  {
    if xs == [] then [] else (if flags[0] then [xs[0]] else []) + Flagged(xs[1..], flags[1..])
  }

  /** Where the flagged values come from. */
  lemma {:induction false} FlaggedPlaces<T>(xs: seq<T>, flags: seq<bool>) returns (at: seq<nat>)
    requires |xs| == |flags|
    ensures Ascending(at, |xs|) && |at| == |Flagged(xs, flags)|
    ensures forall k :: 0 <= k < |at| ==> Flagged(xs, flags)[k] == xs[at[k]]
    ensures forall i: nat :: i < |xs| ==> (i in at <==> flags[i])
  {
    if xs == [] {
      at := [];
    } else {
      var rest := FlaggedPlaces(xs[1..], flags[1..]);
      var moved := seq(|rest|, k requires 0 <= k < |rest| => rest[k] + 1);
      at := (if flags[0] then [0] else []) + moved;
      MovedPlaces(rest, moved);
    }
  }

  lemma MovedPlaces(rest: seq<nat>, moved: seq<nat>)
    requires |moved| == |rest| && forall k :: 0 <= k < |rest| ==> moved[k] == rest[k] + 1
    ensures forall i: nat :: 0 < i ==> (i in moved <==> i - 1 in rest)
    ensures 0 !in moved
  {
    forall i: nat | 0 < i && i - 1 in rest ensures i in moved {
      var k :| 0 <= k < |rest| && rest[k] == i - 1;
      assert moved[k] == i;
    }
  }

  // ----- options -----

  /** The option made sense and a serving host stores its smallest size, or one unit if that is nothing. */
  ghost predicate Stocked(t: CustomTemplate, caps: seq<HostCapacity>, d: DiskParam)
    requires AllOk(caps)
  {
    d.minDisk <= d.maxDisk && 0 < d.maxDisk && Storable(t, caps, d, Max(1, d.minDisk))
  }

  lemma StockedIsSellable(t: CustomTemplate, caps: seq<HostCapacity>, d: DiskParam)
    requires AllOk(caps)
    ensures Sellable(LimitedDisk(t, caps, d)) <==> Stocked(t, caps, d)
  {
    if d.minDisk <= d.maxDisk && 0 < d.maxDisk { OptionKeptExactly(t, caps, d, 0); }
  }

  /** d is e with its maximum lowered to the largest size a serving host stores. */
  ghost predicate CutTo(t: CustomTemplate, caps: seq<HostCapacity>, e: DiskParam, d: DiskParam)
    requires AllOk(caps)
  {
    && d == e.(maxDisk := d.maxDisk)
    && forall size :: 0 < size ==> (size <= d.maxDisk <==> size <= e.maxDisk && Storable(t, caps, e, size))
  }

  lemma LimitedIsCut(t: CustomTemplate, caps: seq<HostCapacity>, e: DiskParam)
    requires AllOk(caps)
    ensures CutTo(t, caps, e, LimitedDisk(t, caps, e))
  {
    forall size | 0 < size
      ensures size <= LimitedDisk(t, caps, e).maxDisk <==> size <= e.maxDisk && Storable(t, caps, e, size)
    {
      StorableUpTo(t, caps, e, size);
    }
  }

  function CutAll(t: CustomTemplate, caps: seq<HostCapacity>, ds: seq<DiskParam>): (r: seq<DiskParam>)
    requires AllOk(caps)
    ensures |r| == |ds| && forall i :: 0 <= i < |ds| ==> r[i] == LimitedDisk(t, caps, ds[i])
  {
    seq(|ds|, i requires 0 <= i < |ds| => LimitedDisk(t, caps, ds[i]))
  }

  function SellableAll(ds: seq<DiskParam>): (r: seq<bool>)
    ensures |r| == |ds| && forall i :: 0 <= i < |ds| ==> r[i] == Sellable(ds[i])
  {
    seq(|ds|, i requires 0 <= i < |ds| => Sellable(ds[i]))
  }

  lemma {:induction false} KeptAreFlagged(t: CustomTemplate, caps: seq<HostCapacity>, ds: seq<DiskParam>)
    requires AllOk(caps)
    ensures LimitedDisks(t, caps, ds) == Flagged(CutAll(t, caps, ds), SellableAll(CutAll(t, caps, ds)))
  {
    if ds != [] {
      KeptAreFlagged(t, caps, ds[1..]);
      var cut := CutAll(t, caps, ds);
      assert cut[1..] == CutAll(t, caps, ds[1..]);
      assert SellableAll(cut)[1..] == SellableAll(cut[1..]);
    }
  }

  /** The options of ds come from these places: just those in stock, each cut to what can be stored. */
  ghost predicate CutOptions(t: CustomTemplate, caps: seq<HostCapacity>, all: seq<DiskParam>, ds: seq<DiskParam>,
                             at: seq<nat>)
    requires AllOk(caps)
  {
    && Ascending(at, |all|) && |at| == |ds|
    && (forall k :: 0 <= k < |at| ==> CutTo(t, caps, all[at[k]], ds[k]))
    && (forall i: nat :: i < |all| ==> (i in at <==> Stocked(t, caps, all[i])))
  }

  /** The options kept are those in stock, in their order. */
  lemma KeptOptions(t: CustomTemplate, caps: seq<HostCapacity>, ds: seq<DiskParam>) returns (at: seq<nat>)
    requires AllOk(caps)
    ensures CutOptions(t, caps, ds, LimitedDisks(t, caps, ds), at)
  {
    var cut := CutAll(t, caps, ds);
    KeptAreFlagged(t, caps, ds);
    at := FlaggedPlaces(cut, SellableAll(cut));
    forall i | 0 <= i < |ds|
      ensures CutTo(t, caps, ds[i], cut[i]) && (Sellable(cut[i]) <==> Stocked(t, caps, ds[i]))
    {
      LimitedIsCut(t, caps, ds[i]);
      StockedIsSellable(t, caps, ds[i]);
    }
  }

  // ----- maxima -----

  /** The host has a disk for the smallest size of option d. */
  ghost predicate StartsOn(h: HostCapacity, d: DiskParam) {
    exists j :: 0 <= j < |h.disks| && Fits(h.disks[j], d) && d.minDisk <= h.disks[j].Available()
  }

  /** The host serves the template and can start on an option in stock. */
  ghost predicate ServesStock(t: CustomTemplate, caps: seq<HostCapacity>, h: HostCapacity)
    requires AllOk(caps) && h.Ok()
  {
    Serves(t, h) && exists i :: 0 <= i < |t.disks| && Stocked(t, caps, t.disks[i]) && StartsOn(h, t.disks[i])
  }

  lemma StartsOnSome(t: CustomTemplate, ds: seq<DiskParam>, h: HostCapacity)
    requires h.Ok()
    ensures ServesSome(t, ds, h) <==> Serves(t, h) && exists k :: 0 <= k < |ds| && StartsOn(h, ds[k])
  {
  }

  lemma StartsOnCut(t: CustomTemplate, caps: seq<HostCapacity>, h: HostCapacity, e: DiskParam, d: DiskParam)
    requires AllOk(caps) && CutTo(t, caps, e, d)
    ensures StartsOn(h, d) <==> StartsOn(h, e)
  {
    assert forall c :: Fits(c, d) <==> Fits(c, e);
  }

  lemma StockStarts(t: CustomTemplate, caps: seq<HostCapacity>, h: HostCapacity, ds: seq<DiskParam>, at: seq<nat>)
    requires AllOk(caps) && CutOptions(t, caps, t.disks, ds, at)
    ensures (exists i :: 0 <= i < |t.disks| && Stocked(t, caps, t.disks[i]) && StartsOn(h, t.disks[i]))
       <==> exists k :: 0 <= k < |ds| && StartsOn(h, ds[k])
  {
    if i :| 0 <= i < |t.disks| && Stocked(t, caps, t.disks[i]) && StartsOn(h, t.disks[i]) {
      var k :| 0 <= k < |at| && at[k] == i;
      StartsOnCut(t, caps, h, t.disks[i], ds[k]);
    }
    if k :| 0 <= k < |ds| && StartsOn(h, ds[k]) {
      assert at[k] in at;
      StartsOnCut(t, caps, h, t.disks[at[k]], ds[k]);
    }
  }

  lemma ServesStockIsServesSome(t: CustomTemplate, caps: seq<HostCapacity>, h: HostCapacity)
    requires AllOk(caps) && h.Ok()
    ensures ServesStock(t, caps, h) <==> ServesSome(t, LimitedDisks(t, caps, t.disks), h)
  {
    var ds := LimitedDisks(t, caps, t.disks);
    var at := KeptOptions(t, caps, t.disks);
    StartsOnSome(t, ds, h);
    StockStarts(t, caps, h, ds, at);
  }

  /** Some host that serves an option in stock has this much CPU left. */
  ghost predicate CpuLeftFor(t: CustomTemplate, caps: seq<HostCapacity>, cpu: nat)
    requires AllOk(caps)
  {
    exists i :: 0 <= i < |caps| && ServesStock(t, caps, caps[i]) && cpu <= caps[i].AvailableCpu()
  }

  ghost predicate MemoryLeftFor(t: CustomTemplate, caps: seq<HostCapacity>, memory: nat)
    requires AllOk(caps)
  {
    exists i :: 0 <= i < |caps| && ServesStock(t, caps, caps[i]) && memory <= caps[i].AvailableMemory()
  }

  /** Hosts that serve an option in stock are those the maxima are taken over. */
  lemma StockHosts(t: CustomTemplate, caps: seq<HostCapacity>)
    requires AllOk(caps)
    ensures forall i :: 0 <= i < |caps| ==>
              (ServesStock(t, caps, caps[i]) <==> ServesSome(t, LimitedDisks(t, caps, t.disks), caps[i]))
  {
    forall i | 0 <= i < |caps|
      ensures ServesStock(t, caps, caps[i]) <==> ServesSome(t, LimitedDisks(t, caps, t.disks), caps[i])
    {
      ServesStockIsServesSome(t, caps, caps[i]);
    }
  }

  lemma MostExactly(t: CustomTemplate, ds: seq<DiskParam>, caps: seq<HostCapacity>, n: nat)
    requires AllOk(caps) && 0 < n
    ensures n <= MostCpu(t, ds, caps)
       <==> exists i :: 0 <= i < |caps| && ServesSome(t, ds, caps[i]) && n <= caps[i].AvailableCpu()
    ensures n <= MostMemory(t, ds, caps)
       <==> exists i :: 0 <= i < |caps| && ServesSome(t, ds, caps[i]) && n <= caps[i].AvailableMemory()
  {
    if n <= MostCpu(t, ds, caps) { var i := MostCpuIsThere(t, ds, caps); }
    if n <= MostMemory(t, ds, caps) { var i := MostMemoryIsThere(t, ds, caps); }
    forall i | 0 <= i < |caps| && ServesSome(t, ds, caps[i])
      ensures caps[i].AvailableCpu() <= MostCpu(t, ds, caps) && caps[i].AvailableMemory() <= MostMemory(t, ds, caps)
    {
      MostIsAtLeast(t, ds, caps, i);
    }
  }

  /** A maximum is cut exactly to what one host that serves an option in stock has left. */
  lemma MaximaExactly(t: CustomTemplate, caps: seq<HostCapacity>, n: nat)
    requires AllOk(caps) && 0 < n
    ensures n <= Limited(t, caps).maxCpu <==> n <= t.maxCpu && CpuLeftFor(t, caps, n)
    ensures n <= Limited(t, caps).maxMemory <==> n <= t.maxMemory && MemoryLeftFor(t, caps, n)
  {
    StockHosts(t, caps);
    MostExactly(t, LimitedDisks(t, caps, t.disks), caps, n);
  }

  // ----- templates -----

  /** The template has something to sell: an option in stock, and CPU and memory on hosts that serve one. */
  ghost predicate OnSale(t: CustomTemplate, caps: seq<HostCapacity>)
    requires AllOk(caps)
  {
    && 0 < t.maxCpu && 0 < t.maxMemory && (exists i :: 0 <= i < |t.disks| && Stocked(t, caps, t.disks[i]))
    && CpuLeftFor(t, caps, 1) && MemoryLeftFor(t, caps, 1)
  }

  lemma OnSaleIsOffered(t: CustomTemplate, caps: seq<HostCapacity>)
    requires AllOk(caps)
    ensures Offered(Limited(t, caps)) <==> OnSale(t, caps)
  {
    MaximaExactly(t, caps, 1);
    var at := KeptOptions(t, caps, t.disks);
    if at != [] { assert at[0] in at; }
  }

  /** r is t with its options and maxima cut to what the hosts have. */
  ghost predicate CutTemplate(t: CustomTemplate, caps: seq<HostCapacity>, r: CustomTemplate)
    requires AllOk(caps)
  {
    && r == t.(maxCpu := r.maxCpu, maxMemory := r.maxMemory, disks := r.disks)
    && (forall n :: 0 < n ==> (n <= r.maxCpu <==> n <= t.maxCpu && CpuLeftFor(t, caps, n)))
    && (forall n :: 0 < n ==> (n <= r.maxMemory <==> n <= t.maxMemory && MemoryLeftFor(t, caps, n)))
    && exists at :: CutOptions(t, caps, t.disks, r.disks, at)
  }

  lemma LimitedIsCutTemplate(t: CustomTemplate, caps: seq<HostCapacity>)
    requires AllOk(caps)
    ensures CutTemplate(t, caps, Limited(t, caps))
  {
    var at := KeptOptions(t, caps, t.disks);
    assert CutOptions(t, caps, t.disks, Limited(t, caps).disks, at);
    forall n | 0 < n
      ensures n <= Limited(t, caps).maxCpu <==> n <= t.maxCpu && CpuLeftFor(t, caps, n)
      ensures n <= Limited(t, caps).maxMemory <==> n <= t.maxMemory && MemoryLeftFor(t, caps, n)
    {
      MaximaExactly(t, caps, n);
    }
  }

  /** The answer has these places of the price list: just the templates on sale, in order, each cut. */
  ghost predicate Answers(ts: seq<CustomTemplate>, caps: seq<HostCapacity>, out: seq<CustomTemplate>, at: seq<nat>)
    requires AllOk(caps)
  {
    && Ascending(at, |ts|) && |at| == |out|
    && (forall k :: 0 <= k < |at| ==> CutTemplate(ts[at[k]], caps, out[k]))
    && (forall i: nat :: i < |ts| ==> (i in at <==> OnSale(ts[i], caps)))
  }

  function LimitEach(ts: seq<CustomTemplate>, caps: seq<HostCapacity>): (r: seq<CustomTemplate>)
    requires AllOk(caps)
    ensures |r| == |ts| && forall i :: 0 <= i < |ts| ==> r[i] == Limited(ts[i], caps)
  {
    seq(|ts|, i requires 0 <= i < |ts| => Limited(ts[i], caps))
  }

  function OfferedAll(ts: seq<CustomTemplate>): (r: seq<bool>)
    ensures |r| == |ts| && forall i :: 0 <= i < |ts| ==> r[i] == Offered(ts[i])
  {
    seq(|ts|, i requires 0 <= i < |ts| => Offered(ts[i]))
  }

  lemma {:induction false} AnswerIsFlagged(ts: seq<CustomTemplate>, caps: seq<HostCapacity>)
    requires AllOk(caps)
    ensures LimitedAll(ts, caps) == Flagged(LimitEach(ts, caps), OfferedAll(LimitEach(ts, caps)))
  {
    if ts != [] {
      AnswerIsFlagged(ts[1..], caps);
      var each := LimitEach(ts, caps);
      assert each[1..] == LimitEach(ts[1..], caps);
      assert OfferedAll(each)[1..] == OfferedAll(each[1..]);
    }
  }

  /** The limited price list holds exactly the templates on sale, in their order, and nothing else. */
  lemma AnswerExactly(ts: seq<CustomTemplate>, caps: seq<HostCapacity>) returns (at: seq<nat>)
    requires AllOk(caps)
    ensures Answers(ts, caps, LimitedAll(ts, caps), at)
  {
    var each := LimitEach(ts, caps);
    AnswerIsFlagged(ts, caps);
    at := FlaggedPlaces(each, OfferedAll(each));
    forall i | 0 <= i < |ts|
      ensures CutTemplate(ts[i], caps, each[i]) && (Offered(each[i]) <==> OnSale(ts[i], caps))
    {
      LimitedIsCutTemplate(ts[i], caps);
      OnSaleIsOffered(ts[i], caps);
    }
  }

  // ----- the method, template by template and disk by disk -----

  method LimitTemplate(t: CustomTemplate, caps: seq<HostCapacity>) returns (r: CustomTemplate)
    requires AllOk(caps)
    ensures r == Limited(t, caps)
  {
    var ds: seq<DiskParam> := [];
    for i := 0 to |t.disks|
      invariant ds == LimitedDisks(t, caps, t.disks[..i])
    {
      LimitedDisksSnoc(t, caps, t.disks[..i], t.disks[i]);
      assert t.disks[..i + 1] == t.disks[..i] + [t.disks[i]];
      var d := LimitedDisk(t, caps, t.disks[i]);
      if Sellable(d) { ds := ds + [d]; }
    }
    assert t.disks[..|t.disks|] == t.disks;
    r := t.(disks := ds, maxCpu := Min(t.maxCpu, MostCpu(t, ds, caps)),
            maxMemory := Min(t.maxMemory, MostMemory(t, ds, caps)));
  }

  lemma {:induction false} LimitedAllSnoc(ts: seq<CustomTemplate>, caps: seq<HostCapacity>, t: CustomTemplate)
    requires AllOk(caps)
    ensures LimitedAll(ts + [t], caps) == LimitedAll(ts, caps) + IfOffered(Limited(t, caps))
  {
    if ts == [] {
      assert ts + [t] == [t];
    } else {
      assert (ts + [t])[1..] == ts[1..] + [t];
      LimitedAllSnoc(ts[1..], caps, t);
    }
  }

  /** apply_host_capacity_limits: exactly the templates on sale, in order, each cut to what the hosts have. */
  method ApplyHostCapacityLimits(ts: seq<CustomTemplate>, caps: seq<HostCapacity>) returns (out: seq<CustomTemplate>)
    requires AllOk(caps)
    ensures out == LimitedAll(ts, caps)
    ensures exists at :: Answers(ts, caps, out, at)
  {
    ghost var at := AnswerExactly(ts, caps);
    out := [];
    for i := 0 to |ts|
      invariant out == LimitedAll(ts[..i], caps)
    {
      LimitedAllSnoc(ts[..i], caps, ts[i]);
      assert ts[..i + 1] == ts[..i] + [ts[i]];
      var t := LimitTemplate(ts[i], caps);
      if Offered(t) { out := out + [t]; }
    }
    assert ts[..|ts|] == ts;
  }
}
