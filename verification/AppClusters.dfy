/** Order-time admission of managed apps: clusters are never promised more than they have. */
module AppClusters {
  import opened Options
  import opened Numbers

  type Id = nat

  datatype AppCapacity = AppCapacity(cpuMilli: nat, memoryBytes: nat, storageBytes: nat) {
    function Plus(o: AppCapacity): AppCapacity {
      AppCapacity(cpuMilli + o.cpuMilli, memoryBytes + o.memoryBytes, storageBytes + o.storageBytes)
    }

    /** Subtraction that stops at zero in each dimension. */
    function Minus(o: AppCapacity): AppCapacity {
      AppCapacity(SaturatingSub(cpuMilli, o.cpuMilli),
                  SaturatingSub(memoryBytes, o.memoryBytes),
                  SaturatingSub(storageBytes, o.storageBytes))
    }

    predicate AtMost(o: AppCapacity) {
      cpuMilli <= o.cpuMilli && memoryBytes <= o.memoryBytes && storageBytes <= o.storageBytes
    }
  }

  const NOTHING := AppCapacity(0, 0, 0)

  datatype Cluster = Cluster(id: Id, regionId: Id, enabled: bool, capacity: AppCapacity, ingressDomain: string)

  datatype Deployment = Deployment(appId: Id, clusterId: Id, deleted: bool)

  /**
   * The catalogue, the clusters in listing order, and the deployments in order of their ids: a
   * deployment is only ever flagged as deleted, so the n-th inserted one has id n.
   */
  datatype Store = Store(apps: map<Id, AppCapacity>, clusters: seq<Cluster>, deployments: seq<Deployment>) {
    ghost predicate Valid() {
      forall i, j :: 0 <= i < j < |clusters| ==> clusters[i].id != clusters[j].id
    }
  }

  /** What one deployment takes from a cluster; a deployment of an unlisted app counts nothing. */
  function Share(apps: map<Id, AppCapacity>, d: Deployment, cluster: Id): AppCapacity {
    if !d.deleted && d.clusterId == cluster && d.appId in apps then apps[d.appId] else NOTHING
  }

  function UsedBy(apps: map<Id, AppCapacity>, ds: seq<Deployment>, cluster: Id): AppCapacity {
    if ds == [] then NOTHING
    else UsedBy(apps, ds[..|ds| - 1], cluster).Plus(Share(apps, ds[|ds| - 1], cluster))
  }

  function Used(s: Store, cluster: Id): AppCapacity {
    UsedBy(s.apps, s.deployments, cluster)
  }

  predicate Fits(s: Store, c: Cluster, need: AppCapacity) {
    need.AtMost(c.capacity.Minus(Used(s, c.id)))
  }

  /** The first enabled cluster of the region, in listing order, with room for the need. */
  function SelectFrom(s: Store, cs: seq<Cluster>, region: Id, need: AppCapacity): Option<Cluster> {
    if cs == [] then None
    else if cs[0].enabled && cs[0].regionId == region && Fits(s, cs[0], need) then Some(cs[0])
    else SelectFrom(s, cs[1..], region, need)
  }

  function SelectInRegion(s: Store, region: Id, need: AppCapacity): Option<Cluster> {
    SelectFrom(s, s.clusters, region, need)
  }

  // ----- runs of orders and deletions -----

  datatype Op = Deploy(region: Id, app: Id) | Delete(id: Id)

  /** The store once a deployment of the app is placed on a cluster chosen earlier. */
  function Placed(s: Store, app: Id, cluster: Id): Store {
    s.(deployments := s.deployments + [Deployment(app, cluster, false)])
  }

  function Apply(s: Store, op: Op): Store {
    match op
    case Deploy(region, app) =>
      if app !in s.apps then s
      else
        (match SelectInRegion(s, region, s.apps[app])
         case None => s
         case Some(c) => Placed(s, app, c.id))
    case Delete(id) =>
      if 1 <= id <= |s.deployments|
      then s.(deployments := s.deployments[id - 1 := s.deployments[id - 1].(deleted := true)])
      else s
  }

  function ApplyAll(s: Store, ops: seq<Op>): Store
    decreases |ops|
  {
    if ops == [] then s else ApplyAll(Apply(s, ops[0]), ops[1..])
  }

  /** No cluster's deployments need more than it has, in any dimension. */
  ghost predicate WithinCapacity(s: Store) {
    forall i :: 0 <= i < |s.clusters| ==> Used(s, s.clusters[i].id).AtMost(s.clusters[i].capacity)
  }

  predicate Eligible(s: Store, c: Cluster, region: Id, need: AppCapacity) {
    c.enabled && c.regionId == region && Fits(s, c, need)
  }

  /** The selection is the first eligible cluster of the list, and fails only when there is none. */
  lemma {:induction false} SelectsFirst(s: Store, cs: seq<Cluster>, region: Id, need: AppCapacity)
    ensures SelectFrom(s, cs, region, need).None? <==> forall i :: 0 <= i < |cs| ==> !Eligible(s, cs[i], region, need)
    ensures SelectFrom(s, cs, region, need).Some? ==>
              exists i :: 0 <= i < |cs| && SelectFrom(s, cs, region, need) == Some(cs[i])
                          && Eligible(s, cs[i], region, need)
                          && forall j :: 0 <= j < i ==> !Eligible(s, cs[j], region, need)
  {
    if cs != [] && !Eligible(s, cs[0], region, need) {
      SelectsFirst(s, cs[1..], region, need);
      assert forall i :: 0 < i < |cs| ==> cs[i] == cs[1..][i - 1];
      if SelectFrom(s, cs, region, need).Some? {
        var k :| 0 <= k < |cs[1..]| && SelectFrom(s, cs[1..], region, need) == Some(cs[1..][k])
                 && Eligible(s, cs[1..][k], region, need)
                 && forall j :: 0 <= j < k ==> !Eligible(s, cs[1..][j], region, need);
        assert cs[k + 1] == cs[1..][k];
      }
    }
  }

  lemma UsedSnoc(apps: map<Id, AppCapacity>, ds: seq<Deployment>, d: Deployment, cluster: Id)
    ensures UsedBy(apps, ds + [d], cluster) == UsedBy(apps, ds, cluster).Plus(Share(apps, d, cluster))
  {
    assert (ds + [d])[..|ds|] == ds;
  }

  lemma {:induction false} DeletingFrees(apps: map<Id, AppCapacity>, ds: seq<Deployment>, i: nat, cluster: Id)
    requires i < |ds|
    ensures UsedBy(apps, ds[i := ds[i].(deleted := true)], cluster).Plus(Share(apps, ds[i], cluster))
         == UsedBy(apps, ds, cluster)
    decreases |ds|
  {
    var after := ds[i := ds[i].(deleted := true)];
    var init, last := ds[..|ds| - 1], ds[|ds| - 1];
    if i == |ds| - 1 {
      assert after == init + [last.(deleted := true)];
      UsedSnoc(apps, init, last.(deleted := true), cluster);
    } else {
      var changed := init[i := init[i].(deleted := true)];
      assert after == changed + [last];
      DeletingFrees(apps, init, i, cluster);
      UsedSnoc(apps, changed, last, cluster);
      SwapTerms(UsedBy(apps, changed, cluster), Share(apps, last, cluster), Share(apps, ds[i], cluster));
    }
  }

  lemma SwapTerms(a: AppCapacity, b: AppCapacity, c: AppCapacity)
    ensures a.Plus(b).Plus(c) == a.Plus(c).Plus(b)
  {
  }

  lemma FitsMeansRoom(s: Store, c: Cluster, need: AppCapacity)
    requires Fits(s, c, need) && Used(s, c.id).AtMost(c.capacity)
    ensures Used(s, c.id).Plus(need).AtMost(c.capacity)
  {
  }

  lemma DeployStep(s: Store, region: Id, app: Id, i: nat)
    requires s.Valid() && WithinCapacity(s) && i < |s.clusters|
    ensures Used(Apply(s, Deploy(region, app)), s.clusters[i].id).AtMost(s.clusters[i].capacity)
  {
    var c := s.clusters[i];
    if app in s.apps && SelectInRegion(s, region, s.apps[app]).Some? {
      var chosen := SelectInRegion(s, region, s.apps[app]).value;
      SelectsFirst(s, s.clusters, region, s.apps[app]);
      UsedSnoc(s.apps, s.deployments, Deployment(app, chosen.id, false), c.id);
      if c.id == chosen.id {
        assert c == chosen;
        FitsMeansRoom(s, c, s.apps[app]);
      }
    }
  }

  lemma DeleteStep(s: Store, id: Id, i: nat)
    requires WithinCapacity(s) && i < |s.clusters|
    ensures Used(Apply(s, Delete(id)), s.clusters[i].id).AtMost(s.clusters[i].capacity)
  {
    if 1 <= id <= |s.deployments| { DeletingFrees(s.apps, s.deployments, id - 1, s.clusters[i].id); }
  }

  lemma CapacityStep(s: Store, op: Op)
    requires s.Valid() && WithinCapacity(s)
    ensures Apply(s, op).Valid() && WithinCapacity(Apply(s, op)) && Apply(s, op).clusters == s.clusters
  {
    var t := Apply(s, op);
    assert t.clusters == s.clusters;
    forall i | 0 <= i < |t.clusters| ensures Used(t, t.clusters[i].id).AtMost(t.clusters[i].capacity) {
      match op {
        case Deploy(region, app) => DeployStep(s, region, app, i);
        case Delete(id) => DeleteStep(s, id, i);
      }
    }
  }

  /** Over every run of placed orders and deletions, every cluster stays within its capacity. */
  lemma {:induction false} NeverOvercommitted(s: Store, ops: seq<Op>)
    requires s.Valid() && WithinCapacity(s)
    ensures WithinCapacity(ApplyAll(s, ops)) && ApplyAll(s, ops).clusters == s.clusters
    decreases |ops|
  {
    if ops != [] {
      CapacityStep(s, ops[0]);
      NeverOvercommitted(Apply(s, ops[0]), ops[1..]);
    }
  }

  lemma {:induction false} PlacedTakes(s: Store, app: Id, on: Id, cluster: Id)
    requires app in s.apps
    ensures Used(Placed(s, app, on), cluster)
         == if cluster == on then Used(s, on).Plus(s.apps[app]) else Used(s, cluster)
  {
    var d := Deployment(app, on, false);
    UsedSnoc(s.apps, s.deployments, d, cluster);
    PlusNothing(Used(s, cluster));
    assert Share(s.apps, d, cluster) == if cluster == on then s.apps[app] else NOTHING;
  }

  lemma PlusNothing(a: AppCapacity)
    ensures a.Plus(NOTHING) == a
  {
  }

  /**
   * Storing an order on a cluster chosen in an earlier state keeps every cluster within its
   * capacity exactly when the order still fits at the moment it is stored.
   */
  lemma {:induction false} LatePlacementKeepsCapacity(s: Store, c: Cluster, app: Id)
    requires s.Valid() && WithinCapacity(s) && c in s.clusters && app in s.apps
    ensures WithinCapacity(Placed(s, app, c.id)) <==> Fits(s, c, s.apps[app])
  {
    var t := Placed(s, app, c.id);
    forall i | 0 <= i < |s.clusters|
      ensures Used(t, s.clusters[i].id).AtMost(s.clusters[i].capacity)
         <==> s.clusters[i] != c || Fits(s, c, s.apps[app])
    {
      PlacedTakes(s, app, c.id, s.clusters[i].id);
      if s.clusters[i] == c { RoomMeansFits(Used(s, c.id), s.apps[app], c.capacity); }
    }
    assert t.clusters == s.clusters;
  }

  lemma RoomMeansFits(used: AppCapacity, need: AppCapacity, capacity: AppCapacity)
    requires used.AtMost(capacity)
    ensures used.Plus(need).AtMost(capacity) <==> need.AtMost(capacity.Minus(used))
  {
  }

  /**
   * Two orders for the same app that both select before either is stored end up on the same
   * cluster, and overcommit it exactly when its free room does not hold both.
   */
  lemma TwoOrdersAtOnce(s: Store, region: Id, app: Id, c: Cluster)
    requires s.Valid() && WithinCapacity(s) && app in s.apps && SelectInRegion(s, region, s.apps[app]) == Some(c)
    ensures WithinCapacity(Placed(Placed(s, app, c.id), app, c.id))
       <==> s.apps[app].Plus(s.apps[app]).AtMost(c.capacity.Minus(Used(s, c.id)))
  {
    SelectsFirst(s, s.clusters, region, s.apps[app]);
    LatePlacementKeepsCapacity(s, c, app);
    LatePlacementKeepsCapacity(Placed(s, app, c.id), c, app);
    UsedSnoc(s.apps, s.deployments, Deployment(app, c.id, false), c.id);
  }

  /** A placed order takes its need from the cluster it was placed on, and nothing from any other. */
  lemma {:induction false} DeployTakes(s: Store, region: Id, app: Id, c: Cluster, cluster: Id)
    requires app in s.apps && SelectInRegion(s, region, s.apps[app]) == Some(c)
    ensures var t := Apply(s, Deploy(region, app));
            && Used(t, c.id) == Used(s, c.id).Plus(s.apps[app])
            && (cluster != c.id ==> Used(t, cluster) == Used(s, cluster))
            && t.apps == s.apps && t.clusters == s.clusters
  {
    assert Apply(s, Deploy(region, app)) == Placed(s, app, c.id);
    PlacedTakes(s, app, c.id, c.id);
    PlacedTakes(s, app, c.id, cluster);
  }

  /** Deleting the deployment just placed gives back exactly what it took, on every cluster. */
  lemma {:induction false} DeleteUndoesDeploy(s: Store, region: Id, app: Id, cluster: Id)
    requires app in s.apps && SelectInRegion(s, region, s.apps[app]).Some?
    ensures var t := Apply(s, Deploy(region, app));
            Used(Apply(t, Delete(|t.deployments|)), cluster) == Used(s, cluster)
  {
    var c := SelectInRegion(s, region, s.apps[app]).value;
    var t := Placed(s, app, c.id);
    assert Apply(s, Deploy(region, app)) == t;
    var n := |s.deployments|;
    UsedSnoc(s.apps, s.deployments, t.deployments[n], cluster);
    DeletingFrees(t.apps, t.deployments, n, cluster);
    SameRest(Used(Apply(t, Delete(n + 1)), cluster), Used(s, cluster), Share(s.apps, t.deployments[n], cluster));
  }

  lemma SameRest(a: AppCapacity, b: AppCapacity, c: AppCapacity)
    requires a.Plus(c) == b.Plus(c)
    ensures a == b
  {
  }

  /** Running sums stay below the total, so below any width the capacity itself fits in. */
  lemma {:induction false} PartialSumsBounded(apps: map<Id, AppCapacity>, ds: seq<Deployment>, n: nat, cluster: Id)
    requires n <= |ds|
    ensures UsedBy(apps, ds[..n], cluster).AtMost(UsedBy(apps, ds, cluster))
    decreases |ds|
  {
    if n < |ds| {
      assert ds[..|ds| - 1][..n] == ds[..n];
      PartialSumsBounded(apps, ds[..|ds| - 1], n, cluster);
    } else {
      assert ds[..n] == ds;
    }
  }

  // ----- the region picker -----

  datatype RegionAvailability = RegionAvailability(regionId: Id, available: bool, ingressDomain: string)

  /** Each value once, at its first place. */
  function FirstSeen(ids: seq<Id>): (r: seq<Id>)
    ensures forall x :: x in r <==> x in ids
    ensures forall i, j :: 0 <= i < j < |r| ==> r[i] != r[j]
  {
    if ids == [] then []
    else
      var before := FirstSeen(ids[..|ids| - 1]);
      var last := ids[|ids| - 1];
      assert forall x :: x in ids <==> x in ids[..|ids| - 1] || x == last;
      if last in before then before else before + [last]
  }

  /** The first place of a value in a list. */
  function FirstPlace(ids: seq<Id>, x: Id): (r: nat)
    requires x in ids
    ensures r < |ids| && ids[r] == x && forall i :: 0 <= i < r ==> ids[i] != x
  {
    if ids[0] == x then 0 else 1 + FirstPlace(ids[1..], x)
  }

  /** A value that is first at a place is first there and nowhere else. */
  lemma FirstPlaceIs(ids: seq<Id>, x: Id, r: nat)
    requires r < |ids| && ids[r] == x && forall i :: 0 <= i < r ==> ids[i] != x
    ensures FirstPlace(ids, x) == r
  {
  }

  /** The values stand in the order in which each was first seen. */
  lemma {:induction false} FirstSeenInOrder(ids: seq<Id>, i: nat, j: nat)
    requires i < j < |FirstSeen(ids)|
    ensures FirstSeen(ids)[i] in ids && FirstSeen(ids)[j] in ids
    ensures FirstPlace(ids, FirstSeen(ids)[i]) < FirstPlace(ids, FirstSeen(ids)[j])
    decreases |ids|
  {
    var init, last := ids[..|ids| - 1], ids[|ids| - 1];
    var r, before := FirstSeen(ids), FirstSeen(init);
    assert r[i] in r && r[j] in r && before[i] in before;
    FirstPlaceIs(ids, r[i], FirstPlace(init, r[i]));
    if j < |before| {
      assert before[j] in before;
      FirstPlaceIs(ids, r[j], FirstPlace(init, r[j]));
      FirstSeenInOrder(init, i, j);
    } else {
      assert r[j] == last && last !in init;
      FirstPlaceIs(ids, last, |ids| - 1);
    }
  }

  function RegionsOf(cs: seq<Cluster>): (r: seq<Id>)
    ensures |r| == |cs| && forall i :: 0 <= i < |cs| ==> r[i] == cs[i].regionId
  {
    seq(|cs|, i requires 0 <= i < |cs| => cs[i].regionId)
  }

  /** The enabled clusters, in listing order. */
  function Enabled(cs: seq<Cluster>): (r: seq<Cluster>)
    ensures forall c :: c in r <==> c in cs && c.enabled
  {
    if cs == [] then [] else (if cs[0].enabled then [cs[0]] else []) + Enabled(cs[1..])
  }

  function InRegion(cs: seq<Cluster>, region: Id): (r: seq<Cluster>)
    ensures forall c :: c in r <==> c in cs && c.regionId == region
  {
    if cs == [] then [] else (if cs[0].regionId == region then [cs[0]] else []) + InRegion(cs[1..], region)
  }

  /** What the picker shows for a region: the cluster an order would go to, or else its first one. */
  ghost predicate Shows(s: Store, need: AppCapacity, a: RegionAvailability) {
    match SelectInRegion(s, a.regionId, need)
    case Some(c) => a.available && a.ingressDomain == c.ingressDomain
    case None =>
      !a.available && InRegion(Enabled(s.clusters), a.regionId) != [] &&
      a.ingressDomain == InRegion(Enabled(s.clusters), a.regionId)[0].ingressDomain
  }

  lemma {:induction false} SelectFromRegionList(s: Store, cs: seq<Cluster>, region: Id, need: AppCapacity)
    ensures SelectFrom(s, cs, region, need) == SelectFrom(s, InRegion(Enabled(cs), region), region, need)
  {
    if cs != [] {
      SelectFromRegionList(s, cs[1..], region, need);
      var rest := InRegion(Enabled(cs[1..]), region);
      if cs[0].enabled {
        assert Enabled(cs) == [cs[0]] + Enabled(cs[1..]);
        assert ([cs[0]] + Enabled(cs[1..]))[1..] == Enabled(cs[1..]);
        if cs[0].regionId == region {
          assert InRegion(Enabled(cs), region) == [cs[0]] + rest && ([cs[0]] + rest)[1..] == rest;
        } else {
          assert InRegion(Enabled(cs), region) == rest;
        }
      } else {
        assert Enabled(cs) == Enabled(cs[1..]);
      }
    }
  }

  /** Add up the footprints, deployment by deployment. */
  method SumUsed(apps: map<Id, AppCapacity>, ds: seq<Deployment>, cluster: Id) returns (used: AppCapacity)
    ensures used == UsedBy(apps, ds, cluster)
  {
    used := NOTHING;
    for i := 0 to |ds|
      invariant used == UsedBy(apps, ds[..i], cluster)
    {
      UsedSnoc(apps, ds[..i], ds[i], cluster);
      assert ds[..i + 1] == ds[..i] + [ds[i]];
      used := used.Plus(Share(apps, ds[i], cluster));
    }
    assert ds[..|ds|] == ds;
  }

  /** The database behind the service. */
  class AppDb {
    var store: Store

    method InsertAppDeployment(d: Deployment) returns (id: Id)
      modifies this
      ensures store == old(store).(deployments := old(store.deployments) + [d]) && id == |old(store.deployments)| + 1
    {
      id := |store.deployments| + 1;
      store := store.(deployments := store.deployments + [d]);
    }

    method DeleteAppDeployment(id: Id)
      modifies this
      ensures store == Apply(old(store), Delete(id))
    {
      if 1 <= id <= |store.deployments| {
        store := store.(deployments := store.deployments[id - 1 := store.deployments[id - 1].(deleted := true)]);
      }
    }

    /** used: the footprints of the live deployments of a cluster. */
    method CurrentlyUsed(cluster: Id) returns (used: AppCapacity)
      ensures used == Used(store, cluster)
    {
      used := SumUsed(store.apps, store.deployments, cluster);
    }

    method HasRoom(c: Cluster, need: AppCapacity) returns (fits: bool)
      ensures fits == Fits(store, c, need)
    {
      var used := CurrentlyUsed(c.id);
      fits := need.AtMost(c.capacity.Minus(used));
    }

    /** The first of some clusters that fits. */
    method FirstFitting(cs: seq<Cluster>, region: Id, need: AppCapacity) returns (r: Option<Cluster>)
      ensures r == SelectFrom(store, cs, region, need)
    {
      var i := 0;
      assert cs[0..] == cs;
      while i < |cs|
        invariant 0 <= i <= |cs| && SelectFrom(store, cs, region, need) == SelectFrom(store, cs[i..], region, need)
      {
        assert cs[i..][0] == cs[i] && cs[i..][1..] == cs[i + 1..];
        if cs[i].enabled && cs[i].regionId == region {
          var fits := HasRoom(cs[i], need);
          if fits { return Some(cs[i]); }
        }
        i := i + 1;
      }
      return None;
    }

    /** Order an app: place it, then store it. */
    method DeployApp(region: Id, app: Id) returns (id: Option<Id>)
      requires store.Valid() && WithinCapacity(store)
      modifies this
      ensures store == Apply(old(store), Deploy(region, app)) && WithinCapacity(store)
      ensures id == if store == old(store) then None else Some(|store.deployments|)
    {
      CapacityStep(store, Deploy(region, app));
      if app !in store.apps { return None; }
      var c := FirstFitting(store.clusters, region, store.apps[app]);
      if c.None? { return None; }
      var n := InsertAppDeployment(Deployment(app, c.value.id, false));
      id := Some(n);
    }

    /** regions_availability: every region with an enabled cluster once, in first-seen order. */
    method RegionsAvailability(need: AppCapacity) returns (out: seq<RegionAvailability>)
      ensures |out| == |FirstSeen(RegionsOf(Enabled(store.clusters)))|
      ensures forall i :: 0 <= i < |out| ==> out[i].regionId == FirstSeen(RegionsOf(Enabled(store.clusters)))[i]
      ensures forall i :: 0 <= i < |out| ==> Shows(store, need, out[i])
    {
      var clusters := Enabled(store.clusters);
      var regions := RegionIds(clusters);
      out := [];
      for i := 0 to |regions|
        invariant |out| == i
        invariant forall j :: 0 <= j < i ==> out[j].regionId == regions[j] && Shows(store, need, out[j])
      {
        assert regions[i] in RegionsOf(clusters);
        var entry := EntryFor(regions[i], need);
        out := out + [entry];
      }
    }

    /** One line of the region picker. */
    method EntryFor(region: Id, need: AppCapacity) returns (a: RegionAvailability)
      requires region in RegionsOf(Enabled(store.clusters))
      ensures a.regionId == region && Shows(store, need, a)
    {
      var mine := InRegion(Enabled(store.clusters), region);
      SelectFromRegionList(store, store.clusters, region, need);
      var chosen := FirstFitting(mine, region, need);
      ghost var j :| 0 <= j < |Enabled(store.clusters)| && RegionsOf(Enabled(store.clusters))[j] == region;
      assert Enabled(store.clusters)[j] in mine;
      var shown := if chosen.Some? then chosen.value else mine[0];
      a := RegionAvailability(region, chosen.Some?, shown.ingressDomain);
    }

    method RegionIds(clusters: seq<Cluster>) returns (ids: seq<Id>)
      ensures ids == FirstSeen(RegionsOf(clusters))
    {
      ids := [];
      var all := RegionsOf(clusters);
      for i := 0 to |all|
        invariant ids == FirstSeen(all[..i])
      {
        assert all[..i + 1][..i] == all[..i];
        if all[i] !in ids { ids := ids + [all[i]]; }
      }
      assert all[..|all|] == all;
    }
  }
}
