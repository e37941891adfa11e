/** The in-memory database: tables held in fields and changed in place. */
module InMemoryDb {
  import opened Options
  import opened Clock
  import opened Billing

  class MockDb {
    const calendar: Calendar
    var subscriptions: map<Id, Subscription>
    var lineItems: map<Id, LineItem>
    var vms: map<Id, Vm>
    var payments: seq<Payment>
    var history: set<HistoryRow>

    ghost function Contents(): Db
      reads this
    {
      Db(subscriptions, lineItems, vms, payments, history)
    }

    constructor (calendar: Calendar)
      ensures Contents() == Db(map[], map[], map[], [], {}) && this.calendar == calendar
    {
      this.calendar := calendar;
      subscriptions, lineItems, vms, payments, history := map[], map[], map[], [], {};
    }

    /** Settle a payment: marked, credited and its VMs revived once, however often it is delivered. */
    method SubscriptionPaymentPaid(payment: Payment, now: Time)
      modifies this
      ensures Contents() == Settle(old(Contents()), payment, now, calendar)
    {
      var i := 0;
      while i < |payments| && payments[i].id != payment.id
        invariant 0 <= i <= |payments|
        invariant forall j :: 0 <= j < i ==> payments[j].id != payment.id
      {
        i := i + 1;
      }
      if i == |payments| || payments[i].isPaid {
        return;
      }
      assert FindPayment(payments, payment.id) == Some(i);
      payments := payments[i := payments[i].(isPaid := true)];
      if payment.subscription in subscriptions {
        subscriptions := subscriptions[payment.subscription :=
          Renew(subscriptions[payment.subscription], payment.timeValue, now, calendar)];
      }
      UndeleteVms(payment.subscription);
    }

    method UndeleteVms(k: Id)
      modifies this`vms
      ensures vms == Undeleted(old(Contents()), k)
    {
      var mine := set li | li in lineItems && lineItems[li].subscription == k;
      var todo := vms.Keys;
      while todo != {}
        invariant todo <= vms.Keys == old(vms.Keys)
        invariant forall v :: v in todo ==> vms[v] == old(vms)[v]
        invariant forall v :: v in vms && v !in todo ==> vms[v] == Undeleted(old(Contents()), k)[v]
        decreases |todo|
      {
        var v :| v in todo;
        if vms[v].lineItem in mine {
          vms := vms[v := vms[v].(deleted := false)];
        }
        todo := todo - {v};
      }
    }

    /** Fails when the subscription is not stored; otherwise replaces its whole row. */
    method UpdateSubscription(k: Id, row: Subscription) returns (ok: bool)
      modifies this`subscriptions
      ensures ok == (k in old(subscriptions))
      ensures subscriptions == if ok then old(subscriptions)[k := row] else old(subscriptions)
    {
      ok := k in subscriptions;
      if ok { subscriptions := subscriptions[k := row]; }
    }

    /** The live VM of a line item, searched in arbitrary row order. */
    method GetVmByLineItem(li: Id) returns (r: Option<Id>)
      ensures r.Some? ==> r.value in vms && !vms[r.value].deleted && vms[r.value].lineItem == li
      ensures r.None? ==> forall v :: v in vms && vms[v].lineItem == li ==> vms[v].deleted
    {
      var todo := vms.Keys;
      while todo != {}
        invariant todo <= vms.Keys
        invariant forall v :: v in vms && v !in todo ==> vms[v].deleted || vms[v].lineItem != li
        decreases |todo|
      {
        var v :| v in todo;
        if vms[v].lineItem == li && !vms[v].deleted {
          return Some(v);
        }
        todo := todo - {v};
      }
      return None;
    }

    method DeleteVm(v: Id)
      modifies this`vms
      ensures vms == if v in old(vms) then old(vms)[v := old(vms)[v].(deleted := true)] else old(vms)
    {
      if v in vms { vms := vms[v := vms[v].(deleted := true)]; }
    }

    method InsertVmHistory(row: HistoryRow)
      modifies this`history
      ensures history == old(history) + {row}
    {
      history := history + {row};
    }

    /** Remove a VM together with everything billed with it. */
    method HardDeleteVm(v: Id)
      modifies this
      ensures Contents() == Purged(old(Contents()), v)
    {
      var k := None;
      if v in vms && vms[v].lineItem in lineItems {
        k := Some(lineItems[vms[v].lineItem].subscription);
      }
      vms := vms - {v};
      history := set h | h in history && h.vm != v;
      if k.Some? {
        RetainPaymentsExcept(k.value);
        lineItems := map li | li in lineItems && lineItems[li].subscription != k.value :: lineItems[li];
        subscriptions := subscriptions - {k.value};
      }
    }

    method RetainPaymentsExcept(k: Id)
      modifies this`payments
      ensures payments == WithoutPaymentsOf(old(payments), k)
    {
      var kept, i := [], 0;
      while i < |payments|
        invariant 0 <= i <= |payments|
        invariant payments == old(payments) && kept == WithoutPaymentsOf(payments[..i], k)
      {
        WithoutPaymentsAppend(payments[..i], [payments[i]], k);
        assert payments[..i + 1] == payments[..i] + [payments[i]];
        if payments[i].subscription != k { kept := kept + [payments[i]]; }
        i := i + 1;
      }
      assert payments[..i] == payments;
      payments := kept;
    }

    /** Whether a payment of the VM's subscription still holds back its purge; unknown VMs have none. */
    method PurgeIsBlocked(v: Id, now: Time) returns (blocked: bool)
      ensures blocked == PaymentsBlockPurge(Contents(), v, now)
    {
      if v !in vms || vms[v].lineItem !in lineItems {
        return false;
      }
      var k := lineItems[vms[v].lineItem].subscription;
      var i := 0;
      while i < |payments|
        invariant 0 <= i <= |payments|
        invariant forall j :: 0 <= j < i ==> payments[j].subscription == k ==> !BlocksPurge(payments[j], now)
      {
        if payments[i].subscription == k && BlocksPurge(payments[i], now) {
          assert payments[i] in payments;
          return true;
        }
        i := i + 1;
      }
      return false;
    }
  }
}
