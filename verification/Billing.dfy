/** The billing tables as one value, and what each database operation does to that value. */
module Billing {
  import opened Options
  import opened Clock
  import opened Numbers

  type Id = nat

  datatype IntervalType = Day | Month | Year

  datatype Subscription = Subscription(
    created: Time,
    expires: Option<Time>,
    isActive: bool,
    isSetup: bool,
    intervalType: IntervalType,
    intervalAmount: nat)

  datatype ServiceKind = IpRange | AsnSponsoring | DnsHosting | Vps | App

  datatype LineItem = LineItem(subscription: Id, kind: ServiceKind)

  datatype Vm = Vm(lineItem: Id, deleted: bool)

  datatype PaymentMethod = Lightning | Revolut | Paypal | Stripe | OnChain

  datatype Payment = Payment(
    id: Id,
    subscription: Id,
    expires: Time,
    paymentMethod: PaymentMethod,
    externalId: Option<string>,
    isPaid: bool,
    timeValue: Option<nat>)

  datatype Action =
    | Created | Started | Stopped | Restarted | Deleted | Expired | Renewed
    | Reinstalled | StateChanged | PaymentReceived | ConfigurationChanged | Transferred

  datatype HistoryRow = HistoryRow(vm: Id, action: Action, at: Time)

  datatype Db = Db(
    subscriptions: map<Id, Subscription>,
    lineItems: map<Id, LineItem>,
    vms: map<Id, Vm>,
    payments: seq<Payment>,
    history: set<HistoryRow>)
  {
    /** The subscription a VM is billed under, resolved through its line item. */
    ghost predicate Bills(k: Id, v: Id) {
      v in vms && vms[v].lineItem in lineItems && lineItems[vms[v].lineItem].subscription == k
    }

    ghost predicate HasVps(k: Id) {
      exists li :: li in lineItems && lineItems[li] == LineItem(k, Vps)
    }

    /** v backs a VPS line item of k and its row is not soft-deleted. */
    ghost predicate LiveVm(k: Id, v: Id) {
      v in vms && !vms[v].deleted && vms[v].lineItem in lineItems && lineItems[vms[v].lineItem] == LineItem(k, Vps)
    }

    /** A line item backs at most one VM row, so looking a VM up by line item has one answer. */
    ghost predicate OneVmPerLineItem() {
      forall v, w :: v in vms && w in vms && vms[v].lineItem == vms[w].lineItem ==> v == w
    }

    /** Whether an expiry at e of subscription k left its mark in the VM history. */
    ghost predicate Marked(k: Id, e: Time) {
      exists h :: h in history && h.action == Expired && h.at >= e && LiveVm(k, h.vm)
    }

    /** The subscription is set up: its purchase payment was settled. */
    predicate SetUp(k: Id) {
      k in subscriptions && subscriptions[k].isSetup
    }

    predicate HasExpiry(k: Id) {
      k in subscriptions && subscriptions[k].expires.Some?
    }
  }

  // ----- grace period -----

  function AgeDays(created: Time, now: Time): nat {
    if now <= created then 0 else (now - created) / DAY
  }

  /** Newer subscriptions get shorter grace windows. */
  function GraceDays(created: Time, now: Time, deleteAfter: nat): nat {
    var age := AgeDays(created, now);
    if age <= 1 then 1
    else if age <= 7 then 2
    else if age <= 28 then 7
    else if age <= 180 then 14
    else deleteAfter
  }

  /** The deletion date shown to the customer at instant now. */
  function DeletingOn(s: Subscription, now: Time, deleteAfter: nat): Option<Time> {
    match s.expires
    case None => None
    case Some(e) => Some(e + GraceDays(s.created, now, deleteAfter) * DAY)
  }

  // ----- settlement -----

  /** Calendar addition of months, supplied by the date library; it never goes back in time. */
  type Calendar = c: (Time, nat) -> Time | forall t, n :: c(t, n) >= t
    witness (t: Time, n: nat) => t

  /** The new expiry when a payment worth timeValue is counted from base. */
  function Extended(s: Subscription, timeValue: Option<nat>, base: Time, calendar: Calendar): (r: Time)
    ensures base <= r
    ensures timeValue.Some? ==> r - base == timeValue.value * SECOND
  {
    match timeValue
    case Some(seconds) => base + seconds * SECOND
    case None =>
      match s.intervalType
      case Day => base + s.intervalAmount * DAY
      case Month => calendar(base, s.intervalAmount % U32)
      case Year => calendar(base, 12 * s.intervalAmount % U32)
  }

  /** Paid time counts from the current expiry, or from now when there is none or it has lapsed. */
  function Base(s: Subscription, now: Time): Time {
    match s.expires
    case None => now
    case Some(e) => Later(e, now)
  }

  function Renew(s: Subscription, timeValue: Option<nat>, now: Time, calendar: Calendar): Subscription {
    s.(expires := Some(Extended(s, timeValue, Base(s, now), calendar)), isActive := true, isSetup := true)
  }

  /** Index of the first stored payment with the given id. */
  function FindPayment(ps: seq<Payment>, id: Id): (r: Option<nat>)
    ensures r.None? ==> forall i :: 0 <= i < |ps| ==> ps[i].id != id
    ensures r.Some? ==> r.value < |ps| && ps[r.value].id == id
    ensures r.Some? ==> forall i :: 0 <= i < r.value ==> ps[i].id != id
  {
    if ps == [] then None
    else if ps[0].id == id then Some(0)
    else
      match FindPayment(ps[1..], id)
      case None => None
      case Some(i) =>
        assert forall j :: 0 < j < i + 1 ==> ps[j] == ps[1..][j - 1];
        Some(i + 1)
  }

  /** A delivery takes effect when its payment is stored and not yet marked paid. */
  predicate Unsettled(ps: seq<Payment>, id: Id) {
    FindPayment(ps, id).Some? && !ps[FindPayment(ps, id).value].isPaid
  }

  ghost function Undeleted(db: Db, k: Id): map<Id, Vm> {
    map v | v in db.vms :: if db.Bills(k, v) then db.vms[v].(deleted := false) else db.vms[v]
  }

  /** subscription_payment_paid: mark once, extend once, revive the VMs of the subscription. */
  ghost function Settle(db: Db, payment: Payment, now: Time, calendar: Calendar): Db {
    if !Unsettled(db.payments, payment.id) then db
    else
      var i := FindPayment(db.payments, payment.id).value;
      var k := payment.subscription;
      db.(payments := db.payments[i := db.payments[i].(isPaid := true)],
          subscriptions :=
            if k in db.subscriptions
            then db.subscriptions[k := Renew(db.subscriptions[k], payment.timeValue, now, calendar)]
            else db.subscriptions,
          vms := Undeleted(db, k))
  }

  // ----- deletion -----

  /** The payments left once those of subscription k are dropped, in their stored order. */
  function WithoutPaymentsOf(ps: seq<Payment>, k: Id): (r: seq<Payment>)
    ensures forall p :: p in r <==> p in ps && p.subscription != k
  {
    if ps == [] then []
    else (if ps[0].subscription == k then [] else [ps[0]]) + WithoutPaymentsOf(ps[1..], k)
  }

  lemma {:induction false} WithoutPaymentsAppend(ps: seq<Payment>, qs: seq<Payment>, k: Id)
    ensures WithoutPaymentsOf(ps + qs, k) == WithoutPaymentsOf(ps, k) + WithoutPaymentsOf(qs, k)
  {
    if ps == [] {
      assert ps + qs == qs;
    } else {
      assert (ps + qs)[1..] == ps[1..] + qs;
      WithoutPaymentsAppend(ps[1..], qs, k);
    }
  }

  /** hard_delete_vm: remove the VM, and with it the whole subscription it is billed under. */
  ghost function Purged(db: Db, v: Id): Db {
    var rest := db.(vms := db.vms - {v}, history := set h | h in db.history && h.vm != v);
    if v in db.vms && db.vms[v].lineItem in db.lineItems then
      var k := db.lineItems[db.vms[v].lineItem].subscription;
      rest.(payments := WithoutPaymentsOf(db.payments, k),
            lineItems := map li | li in db.lineItems && db.lineItems[li].subscription != k :: db.lineItems[li],
            subscriptions := db.subscriptions - {k})
    else rest
  }

  /** delete_vm on every live VM of k whose host deletion succeeded. */
  ghost function SoftDeleted(db: Db, k: Id, failing: set<Id>): map<Id, Vm> {
    map v | v in db.vms :: if db.LiveVm(k, v) && v !in failing then db.vms[v].(deleted := true) else db.vms[v]
  }

  /** A pending invoice, or a deposit seen on chain, holds back the purge of a never-paid VM. */
  predicate BlocksPurge(p: Payment, now: Time) {
    !p.isPaid && (p.expires > now || (p.paymentMethod == OnChain && p.externalId.Some?))
  }

  ghost predicate PaymentsBlockPurge(db: Db, v: Id, now: Time) {
    v in db.vms && db.vms[v].lineItem in db.lineItems &&
    exists p :: p in db.payments && p.subscription == db.lineItems[db.vms[v].lineItem].subscription
                && BlocksPurge(p, now)
  }
}
