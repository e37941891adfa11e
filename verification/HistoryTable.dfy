/**
 * The in-memory VM history numbers a new entry by the size of the table plus one. The worker
 * model keeps history as the set of entries ever written; here is when the table does so too.
 */
module HistoryTable {
  import opened Billing

  type Rows = map<nat, HistoryRow>

  function Inserted(rows: Rows, row: HistoryRow): Rows {
    rows[|rows| + 1 := row]
  }

  /** The entries left when those of VM v are removed. */
  function Without(rows: Rows, v: Id): Rows {
    map id | id in rows && rows[id].vm != v :: rows[id]
  }

  function InsertedAll(rows: Rows, more: seq<HistoryRow>): Rows
    decreases |more|
  {
    if more == [] then rows else InsertedAll(Inserted(rows, more[0]), more[1..])
  }

  class Table {
    var rows: Rows

    constructor ()
      ensures rows == map[]
    {
      rows := map[];
    }

    method InsertVmHistory(row: HistoryRow) returns (id: nat)
      modifies this
      ensures id == |old(rows)| + 1 && rows == Inserted(old(rows), row)
    {
      id := |rows| + 1;
      rows := rows[id := row];
    }

    method DeleteHistoryOf(v: Id)
      modifies this
      ensures rows == Without(old(rows), v)
    {
      rows := map id | id in rows && rows[id].vm != v :: rows[id];
    }
  }

  /** The ids in use are 1 up to the size of the table. */
  ghost predicate Dense(rows: Rows) {
    forall id :: id in rows <==> 1 <= id <= |rows|
  }

  /** Nothing is lost by an insert exactly when the next id is unused. */
  lemma InsertKeepsEntries(rows: Rows, row: HistoryRow)
    ensures |rows| + 1 !in rows <==> |Inserted(rows, row)| == |rows| + 1
    ensures |rows| + 1 !in rows ==>
              forall id :: id in rows ==> id in Inserted(rows, row) && Inserted(rows, row)[id] == rows[id]
    ensures Dense(rows) ==> |rows| + 1 !in rows && Dense(Inserted(rows, row))
  {
    var next := Inserted(rows, row);
    assert next.Keys == rows.Keys + {|rows| + 1};
    assert |rows.Keys| == |rows| && |next.Keys| == |next|;
  }

  lemma {:induction false} RangeSize(n: nat, s: set<nat>)
    requires forall id :: id in s <==> 1 <= id <= n
    ensures |s| == n
  {
    if n == 0 {
      assert s == {};
    } else {
      RangeSize(n - 1, s - {n});
    }
  }

  /** Purging a VM leaves the numbering dense exactly when its entries are the newest ones. */
  lemma PurgeKeepsDense(rows: Rows, v: Id)
    requires Dense(rows)
    ensures Dense(Without(rows, v)) <==> forall i, j :: 1 <= i < j <= |rows| && rows[i].vm == v ==> rows[j].vm == v
  {
    var left := Without(rows, v);
    assert |left.Keys| == |left|;
    if forall i, j :: 1 <= i < j <= |rows| && rows[i].vm == v ==> rows[j].vm == v {
      var n: nat := |rows|;
      while n > 0 && rows[n].vm == v
        invariant n <= |rows| && forall i :: n < i <= |rows| ==> i in rows && rows[i].vm == v
      {
        n := n - 1;
      }
      forall i | 1 <= i <= n ensures i in left {
        assert n in rows && rows[n].vm != v;
      }
      RangeSize(n, left.Keys);
    } else {
      var i, j :| 1 <= i < j <= |rows| && rows[i].vm == v && rows[j].vm != v;
      assert j in left && i !in left;
    }
  }

  /** Once the next id is taken every later entry lands on it: the table never grows again. */
  lemma {:induction false} TableStuck(rows: Rows, more: seq<HistoryRow>)
    requires |rows| + 1 in rows
    ensures InsertedAll(rows, more) == if more == [] then rows else rows[|rows| + 1 := more[|more| - 1]]
    decreases |more|
  {
    if more != [] {
      var next := Inserted(rows, more[0]);
      assert next.Keys == rows.Keys;
      assert |next.Keys| == |next| && |rows.Keys| == |rows|;
      TableStuck(next, more[1..]);
      if |more| > 1 { assert more[1..][|more| - 2] == more[|more| - 1]; }
    }
  }

  /** Purging one VM and logging anything else then drops the Expired mark of another VM. */
  lemma PurgeCostsAnotherMark(at: int, row: HistoryRow) returns (rows: Rows)
    requires row.vm != 1
    ensures Dense(rows) && HistoryRow(2, Expired, at) in rows.Values && |rows| == 2
    ensures row != HistoryRow(2, Expired, at) ==> HistoryRow(2, Expired, at) !in Inserted(Without(rows, 1), row).Values
  {
    rows := map[1 := HistoryRow(1, Created, at), 2 := HistoryRow(2, Expired, at)];
    assert rows[2] in rows.Values;
    var left := Without(rows, 1);
    assert left == map[2 := rows[2]];
    assert Inserted(left, row) == map[2 := row];
  }
}
