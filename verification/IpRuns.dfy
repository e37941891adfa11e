/** Address assignments of a sequential range of either family over any run of picks and releases. */
module IpRuns {
  import opened Options
  import opened Counting
  import opened IpNetworks
  import opened IpPicker
  import opened IpAccounting

  type Id = nat

  datatype Assignment = Assignment(vm: Id, rangeId: Id, ip: Option<IpAddr>, deleted: bool)

  type Table = map<Id, Assignment>

  /** A new row takes the largest id plus one. */
  ghost predicate IsNextId(t: Table, id: Id) {
    (forall k :: k in t ==> k < id) && (if t == map[] then id == 1 else id - 1 in t)
  }

  ghost function LiveIds(t: Table, rangeId: Id): set<Id> {
    set k | k in t && t[k].rangeId == rangeId && !t[k].deleted
  }

  ghost function LiveIps(t: Table, rangeId: Id): set<IpAddr> {
    set k | k in t && t[k].rangeId == rangeId && !t[k].deleted && t[k].ip.Some? :: t[k].ip.value
  }

  /** The addresses of the live rows, read in some order of the rows. */
  ghost predicate Lists(t: Table, rangeId: Id, order: seq<Id>, live: seq<Option<IpAddr>>) {
    && (forall i, j :: 0 <= i < j < |order| ==> order[i] != order[j])
    && (forall k :: k in order <==> k in LiveIds(t, rangeId))
    && |live| == |order| && (forall i :: 0 <= i < |order| ==> order[i] in t && live[i] == t[order[i]].ip)
  }

  /** A sequential range that a pick can be asked of. */
  predicate Pickable(r: IpRange) {
    r.Ok() && r.cidr.Some? && ParseGateway(r.gateway).Some? && r.mode == Sequential
  }

  // ----- one operation, as a relation between tables -----

  datatype Op =
    | PickAndInsert(vm: Id)
    | Release(id: Id)
    | ReleaseVm(vm: Id)
    | EraseVm(vm: Id)
    | InsertElsewhere(row: Assignment)

  /** Inserting under the next id. */
  ghost predicate Inserts(t: Table, row: Assignment, u: Table) {
    exists id :: IsNextId(t, id) && u == t[id := row]
  }

  ghost predicate Does(r: IpRange, t: Table, op: Op, u: Table)
    requires Pickable(r)
  {
    match op
    case PickAndInsert(vm) =>
      if Refuses(r, LiveIps(t, r.id)) then u == t
      else exists a :: Lowest(Free(r, LiveIps(t, r.id)), a) && Inserts(t, Assignment(vm, r.id, Some(a), false), u)
    case Release(id) => u == map k | k in t :: if k == id then t[k].(deleted := true) else t[k]
    case ReleaseVm(vm) => u == map k | k in t :: if t[k].vm == vm then t[k].(deleted := true) else t[k]
    case EraseVm(vm) => u == map k | k in t && t[k].vm != vm :: t[k]
    case InsertElsewhere(row) => if row.rangeId == r.id then u == t else Inserts(t, row, u)
  }

  /** The tables of a run, one operation after the other. */
  ghost predicate IsRun(r: IpRange, tables: seq<Table>, ops: seq<Op>)
    requires Pickable(r)
  {
    |tables| == |ops| + 1 && forall i :: 0 <= i < |ops| ==> Does(r, tables[i], ops[i], tables[i + 1])
  }

  /** Live addresses are different, in the range, never the gateway, and in IPv4 never network or broadcast. */
  ghost predicate Healthy(r: IpRange, t: Table)
    requires Pickable(r)
  {
    && (forall k :: k in LiveIds(t, r.id) ==> t[k].ip.Some? && Assignable(r, t[k].ip.value))
    && (forall k, l :: k in LiveIds(t, r.id) && l in LiveIds(t, r.id) && k != l ==> t[k].ip != t[l].ip)
  }

  lemma InsertKeepsHealthy(r: IpRange, t: Table, row: Assignment, u: Table)
    requires Pickable(r) && Healthy(r, t) && Inserts(t, row, u)
    requires row.rangeId == r.id && !row.deleted ==> row.ip.Some? && row.ip.value in Free(r, LiveIps(t, r.id))
    ensures Healthy(r, u)
  {
    var id :| IsNextId(t, id) && u == t[id := row];
    assert forall k :: k in LiveIds(u, r.id) && k != id ==> k in LiveIds(t, r.id);
    assert forall k :: k in LiveIds(t, r.id) ==> t[k].ip.value in LiveIps(t, r.id);
    if row.rangeId == r.id && !row.deleted { FreeIsAssignable(r, LiveIps(t, r.id), row.ip.value); }
  }

  lemma HealthyStep(r: IpRange, t: Table, op: Op, u: Table)
    requires Pickable(r) && Healthy(r, t) && Does(r, t, op, u)
    ensures Healthy(r, u)
  {
    match op {
      case PickAndInsert(vm) =>
        if !Refuses(r, LiveIps(t, r.id)) {
          var a :| Lowest(Free(r, LiveIps(t, r.id)), a) && Inserts(t, Assignment(vm, r.id, Some(a), false), u);
          InsertKeepsHealthy(r, t, Assignment(vm, r.id, Some(a), false), u);
        }
      case InsertElsewhere(row) =>
        if row.rangeId != r.id { InsertKeepsHealthy(r, t, row, u); }
      case _ =>
        assert forall k :: k in LiveIds(u, r.id) ==> k in LiveIds(t, r.id) && u[k] == t[k];
    }
  }

  /** From a range without live addresses, every table of every run is healthy. */
  lemma {:induction false} RunStaysHealthy(r: IpRange, tables: seq<Table>, ops: seq<Op>, i: nat)
    requires Pickable(r) && IsRun(r, tables, ops) && LiveIds(tables[0], r.id) == {} && i < |tables|
    ensures Healthy(r, tables[i])
  {
    if i > 0 {
      RunStaysHealthy(r, tables, ops, i - 1);
      HealthyStep(r, tables[i - 1], ops[i - 1], tables[i]);
    }
  }

  /** a can be handed out and is the lowest such address that is not live. */
  ghost predicate LowestLeft(r: IpRange, t: Table, a: IpAddr)
    requires Pickable(r)
  {
    && Assignable(r, a) && a !in LiveIps(t, r.id)
    && forall x :: Assignable(r, x) && x !in LiveIps(t, r.id) ==> a.value <= x.value
  }

  lemma LiveInRange(r: IpRange, t: Table)
    requires Pickable(r) && Healthy(r, t)
    ensures LiveIps(t, r.id) <= r.cidr.value.Addresses() - Reserved(r)
  {
    forall a | a in LiveIps(t, r.id) ensures a in r.cidr.value.Addresses() - Reserved(r) {
      var k :| k in t && t[k].rangeId == r.id && !t[k].deleted && t[k].ip == Some(a);
      assert k in LiveIds(t, r.id);
      FreeIsAssignable(r, {}, a);
    }
  }

  /**
   * In every run from an empty range, a pick adds nothing exactly when every address that can be
   * handed out is live, and otherwise adds the lowest one that is not.
   */
  lemma PickTakesLowest(r: IpRange, tables: seq<Table>, ops: seq<Op>, i: nat)
    requires Pickable(r) && IsRun(r, tables, ops) && LiveIds(tables[0], r.id) == {}
    requires i < |ops| && ops[i].PickAndInsert?
    ensures (forall x :: Assignable(r, x) ==> x in LiveIps(tables[i], r.id)) ==> tables[i + 1] == tables[i]
    ensures (exists x :: Assignable(r, x) && x !in LiveIps(tables[i], r.id)) ==>
              exists a :: LowestLeft(r, tables[i], a)
                          && Inserts(tables[i], Assignment(ops[i].vm, r.id, Some(a), false), tables[i + 1])
  {
    var t := tables[i];
    RunStaysHealthy(r, tables, ops, i);
    LiveInRange(r, t);
    RefusedExactlyWhenFull(r, LiveIps(t, r.id));
    assert Does(r, t, ops[i], tables[i + 1]);
    forall x ensures x in Free(r, LiveIps(t, r.id)) <==> Assignable(r, x) && x !in LiveIps(t, r.id) {
      FreeIsAssignable(r, LiveIps(t, r.id), x);
    }
    if !Refuses(r, LiveIps(t, r.id)) {
      var a :| Lowest(Free(r, LiveIps(t, r.id)), a)
               && Inserts(t, Assignment(ops[i].vm, r.id, Some(a), false), tables[i + 1]);
      assert LowestLeft(r, t, a);
    }
  }

  lemma ListingIsTidy(r: IpRange, t: Table, order: seq<Id>, live: seq<Option<IpAddr>>)
    requires Pickable(r) && Healthy(r, t) && Lists(t, r.id, order, live)
    ensures TidyAssignments(r, live) && Parsed(live) == LiveIps(t, r.id)
  {
    forall i | 0 <= i < |live| ensures live[i].Some? && live[i].value in r.cidr.value.Addresses() - Reserved(r) {
      assert order[i] in LiveIds(t, r.id);
      FreeIsAssignable(r, {}, live[i].value);
    }
    forall i, j | 0 <= i < j < |live| ensures live[i] != live[j] {
      assert order[i] in LiveIds(t, r.id) && order[j] in LiveIds(t, r.id);
    }
    forall a | a in LiveIps(t, r.id) ensures a in Parsed(live) {
      var k :| k in t && t[k].rangeId == r.id && !t[k].deleted && t[k].ip == Some(a);
      assert k in LiveIds(t, r.id) && k in order;
      var i :| 0 <= i < |order| && order[i] == k;
      assert live[i] == Some(a);
    }
    forall a | a in Parsed(live) ensures a in LiveIps(t, r.id) {
      var i :| 0 <= i < |live| && live[i] == Some(a);
      assert order[i] in LiveIds(t, r.id);
    }
  }

  /** Along such a run the counters are exact: they show just as many addresses as can still be picked. */
  lemma CountersExactAlongRuns(r: IpRange, tables: seq<Table>, ops: seq<Op>, i: nat, order: seq<Id>,
                               live: seq<Option<IpAddr>>)
    requires Pickable(r) && r.IsIpv4() && ReservedApart(r) && IsRun(r, tables, ops) && LiveIds(tables[0], r.id) == {}
    requires i < |tables| && Lists(tables[i], r.id, order, live)
    ensures CountAvailableIps(r, |live|) == Some(|Free(r, LiveIps(tables[i], r.id))|)
    ensures AvailableCapacity(r, |live|) == |Free(r, LiveIps(tables[i], r.id))|
  {
    RunStaysHealthy(r, tables, ops, i);
    ListingIsTidy(r, tables[i], order, live);
    CountAgainstList(r, live);
    CapacityIsCount(r, |live|);
  }

  // ----- the table itself -----

  class AssignmentTable {
    var rows: Table

    method MaxId() returns (id: Id)
      ensures forall k :: k in rows ==> k <= id
      ensures if rows == map[] then id == 0 else id in rows
    {
      id := 0;
      var todo := rows.Keys;
      if rows == map[] { return; }
      id :| id in rows;
      while todo != {}
        invariant todo <= rows.Keys && id in rows
        invariant forall k :: k in rows && k !in todo ==> k <= id
        decreases |todo|
      {
        var k :| k in todo;
        if id < k { id := k; }
        todo := todo - {k};
      }
    }

    method InsertVmIpAssignment(row: Assignment) returns (id: Id)
      modifies this
      ensures IsNextId(old(rows), id) && rows == old(rows)[id := row]
    {
      var top := MaxId();
      id := top + 1;
      rows := rows[id := row];
    }

    method DeleteVmIpAssignment(id: Id)
      modifies this
      ensures rows == map k | k in old(rows) :: if k == id then old(rows)[k].(deleted := true) else old(rows)[k]
    {
      if id in rows { rows := rows[id := rows[id].(deleted := true)]; }
    }

    /** The live rows of a range, in some order. */
    method ListInRange(rangeId: Id) returns (ghost order: seq<Id>, live: seq<Option<IpAddr>>)
      ensures Lists(rows, rangeId, order, live)
    {
      order, live := [], [];
      var todo := rows.Keys;
      while todo != {}
        invariant todo <= rows.Keys
        invariant forall i, j :: 0 <= i < j < |order| ==> order[i] != order[j]
        invariant forall k :: k in order <==> k in LiveIds(rows, rangeId) && k !in todo
        invariant |live| == |order| && forall i :: 0 <= i < |order| ==> live[i] == rows[order[i]].ip
        decreases |todo|
      {
        var k :| k in todo;
        if rows[k].rangeId == rangeId && !rows[k].deleted {
          order, live := order + [k], live + [rows[k].ip];
        }
        todo := todo - {k};
      }
    }

    /** Pick an address for a VM and store it. */
    method PickAndInsertFor(r: IpRange, vm: Id) returns (got: Option<AvailableIp>)
      requires Pickable(r) && Healthy(r, rows)
      modifies this
      ensures Does(r, old(rows), PickAndInsert(vm), rows) && Healthy(r, rows)
      ensures got.None? <==> Free(r, LiveIps(old(rows), r.id)) == {}
      ensures got.Some? ==> Lowest(Free(r, LiveIps(old(rows), r.id)), got.value.ip.ip)
      ensures got.None? <==> forall x :: Assignable(r, x) ==> x in LiveIps(old(rows), r.id)
      ensures got.Some? ==> LowestLeft(r, old(rows), got.value.ip.ip)
    {
      ghost var order;
      var live;
      order, live := ListInRange(r.id);
      ListingIsTidy(r, rows, order, live);
      LiveInRange(r, rows);
      RefusedExactlyWhenFull(r, LiveIps(rows, r.id));
      forall x ensures x in Free(r, LiveIps(rows, r.id)) <==> Assignable(r, x) && x !in LiveIps(rows, r.id) {
        FreeIsAssignable(r, LiveIps(rows, r.id), x);
      }
      var pick := PickIpFromRange(r, live, []);
      if pick.Refused? {
        return None;
      }
      got := Some(pick.available);
      ghost var before := rows;
      var id := InsertVmIpAssignment(Assignment(vm, r.id, Some(got.value.ip.ip), false));
      assert Inserts(before, Assignment(vm, r.id, Some(got.value.ip.ip), false), rows);
      HealthyStep(r, before, PickAndInsert(vm), rows);
    }
  }
}
