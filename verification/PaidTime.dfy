/** Paid time is conserved: what moves a subscription's expiry, and by how much, over every run. */
module PaidTime {
  import opened Options
  import opened Clock
  import opened Numbers
  import opened Billing
  import opened Lifecycle
  import opened WorkerSystem
  import opened WorkerInvariants
  import opened Notices
  import opened ExpiryRuns

  /** The stored payment a settling step marks. */
  ghost function SettledPayment(s: State, step: Step, k: Id): Payment
    requires Settles(s, step, k)
  {
    s.db.payments[FindPayment(s.db.payments, step.id).value]
  }

  /** Time added by a settlement of k beyond the instant it counts from. */
  ghost function Credit(s: State, step: Step, k: Id): (r: int)
    ensures 0 <= r
  {
    if Settles(s, step, k) && k in s.db.subscriptions then
      var base := Base(s.db.subscriptions[k], step.now);
      Extended(s.db.subscriptions[k], SettledPayment(s, step, k).timeValue, base, step.calendar) - base
    else 0
  }

  /** Time k had been expired for when a settlement arrived; it is not charged. */
  ghost function Lapse(s: State, step: Step, k: Id): (r: int)
    ensures 0 <= r
  {
    if Settles(s, step, k) && s.db.HasExpiry(k) && s.db.subscriptions[k].expires.value < step.now
    then step.now - s.db.subscriptions[k].expires.value
    else 0
  }

  /** k is cancelled on a listed row whose expiry is no longer the stored one. */
  ghost predicate StaleCancel(s: State, step: Step, k: Id) {
    && Enabled(s, step) && step.HandleNext? && k in s.db.subscriptions
    && s.subCheck.pending[0].id == k && BranchOf(s, step) == GraceExceeded
    && s.subCheck.pending[0].row.expires != s.db.subscriptions[k].expires
  }

  /**
   * The one law of motion of an expiry. A first settlement sets it to that instant plus what was
   * bought; after that only settlements and stale cancellations move it.
   */
  lemma ExpiryMoves(s: State, step: Step, k: Id)
    requires k in Next(s, step).db.subscriptions
    ensures k in s.db.subscriptions
    ensures !StaleCancel(s, step, k) ==>
              Next(s, step).db.subscriptions[k].expires ==
              if s.db.HasExpiry(k) then
                Some(s.db.subscriptions[k].expires.value + Lapse(s, step, k) + Credit(s, step, k))
              else if Settles(s, step, k) then Some(step.now + Credit(s, step, k))
              else None
    ensures StaleCancel(s, step, k) ==>
              Next(s, step).db.subscriptions[k] == s.subCheck.pending[0].row.(isActive := false)
  {
    SubscriptionsShrink(s, step);
  }

  ghost predicate StaleCancelIn(s: State, steps: seq<Step>, k: Id)
    decreases |steps|
  {
    steps != [] && (StaleCancel(s, steps[0], k) || StaleCancelIn(Next(s, steps[0]), steps[1..], k))
  }

  ghost function Credits(s: State, steps: seq<Step>, k: Id): (r: int)
    ensures 0 <= r
    decreases |steps|
  {
    if steps == [] then 0 else Credit(s, steps[0], k) + Credits(Next(s, steps[0]), steps[1..], k)
  }

  ghost function Lapses(s: State, steps: seq<Step>, k: Id): (r: int)
    ensures 0 <= r
    decreases |steps|
  {
    if steps == [] then 0 else Lapse(s, steps[0], k) + Lapses(Next(s, steps[0]), steps[1..], k)
  }

  /** Where paid time is counted from: the expiry k has, or else the instant of its first settlement in the run. */
  ghost function Origin(s: State, steps: seq<Step>, k: Id): Option<Time>
    decreases |steps|
  {
    if s.db.HasExpiry(k) then s.db.subscriptions[k].expires
    else if steps == [] then None
    else if Settles(s, steps[0], k) then Some(steps[0].now)
    else Origin(Next(s, steps[0]), steps[1..], k)
  }

  /** The expiry k ends with when every settlement of the run counts. */
  ghost function FullExpiry(s: State, steps: seq<Step>, k: Id): Option<Time> {
    match Origin(s, steps, k)
    case None => None
    case Some(start) => Some(start + Credits(s, steps, k) + Lapses(s, steps, k))
  }

  /** One step, seen from the rest of the run. */
  lemma FullExpiryStep(s: State, steps: seq<Step>, k: Id)
    requires steps != [] && k in Next(s, steps[0]).db.subscriptions && !StaleCancel(s, steps[0], k)
    ensures FullExpiry(s, steps, k) == FullExpiry(Next(s, steps[0]), steps[1..], k)
  {
    ExpiryMoves(s, steps[0], k);
  }

  /**
   * Over every run that keeps k and has no stale cancellation of it, the expiry ends at its start
   * (or at the first settlement) plus paid plus lapsed time.
   */
  lemma {:induction false} PaidTimeConserved(s: State, steps: seq<Step>, k: Id)
    requires k in Run(s, steps).db.subscriptions && !StaleCancelIn(s, steps, k)
    ensures Run(s, steps).db.subscriptions[k].expires == FullExpiry(s, steps, k)
    decreases |steps|
  {
    KeysShrink(s, steps);
    if steps != [] {
      KeysShrink(Next(s, steps[0]), steps[1..]);
      FullExpiryStep(s, steps, k);
      PaidTimeConserved(Next(s, steps[0]), steps[1..], k);
    }
  }

  /** A stale cancellation takes time away: the stored expiry was later than the listed one. */
  lemma StaleCancelLoses(s: State, steps: seq<Step>, k: Id)
    requires steps != [] && NeverAhead(s, k) && StaleCancel(s, steps[0], k)
    ensures FullExpiry(s, steps, k).Some? && FullExpiry(Next(s, steps[0]), steps[1..], k).Some?
    ensures FullExpiry(Next(s, steps[0]), steps[1..], k).value < FullExpiry(s, steps, k).value
  {
    ExpiryMoves(s, steps[0], k);
    assert s.subCheck.pending[0].id == k;
  }

  /** In every run that keeps k, no time is made up, and some is lost exactly when a cancellation was stale. */
  lemma {:induction false} TimeLostExactly(s: State, steps: seq<Step>, k: Id)
    requires Valid(s) && NeverAhead(s, k) && k in Run(s, steps).db.subscriptions
    ensures var expires, full := Run(s, steps).db.subscriptions[k].expires, FullExpiry(s, steps, k);
            && (full.None? <==> expires.None?)
            && (full.Some? ==> expires.value <= full.value)
            && (expires == full <==> !StaleCancelIn(s, steps, k))
    decreases |steps|
  {
    KeysShrink(s, steps);
    if steps != [] {
      var t := Next(s, steps[0]);
      KeysShrink(t, steps[1..]);
      ValidStep(s, steps[0]);
      NeverAheadStep(s, steps[0], k);
      TimeLostExactly(t, steps[1..], k);
      if StaleCancel(s, steps[0], k) {
        StaleCancelLoses(s, steps, k);
      } else {
        FullExpiryStep(s, steps, k);
      }
    }
  }

  // ----- each stored payment is credited exactly once -----

  /**
   * Seconds bought by the payments of k marked paid: the time value of each, or what an interval of the
   * subscription is worth when it has none.
   */
  ghost function PaidSeconds(ps: seq<Payment>, k: Id, interval: nat): nat {
    if ps == [] then 0
    else PaidSeconds(ps[..|ps| - 1], k, interval) + Bought(ps[|ps| - 1], k, interval)
  }

  function Bought(p: Payment, k: Id, interval: nat): nat {
    if !p.isPaid || p.subscription != k then 0
    else if p.timeValue.Some? then p.timeValue.value
    else interval
  }

  ghost predicate Timed(ps: seq<Payment>, k: Id) {
    forall i :: 0 <= i < |ps| && ps[i].subscription == k ==> ps[i].timeValue.Some?
  }

  predicate DayRow(row: Subscription, interval: nat) {
    row.intervalType == Day && row.intervalAmount * 86_400 == interval
  }

  /** k is billed by the day, in its stored row and in any waiting one; an interval is worth this many seconds. */
  ghost predicate BilledByDay(s: State, k: Id, interval: nat) {
    && (k in s.db.subscriptions ==> DayRow(s.db.subscriptions[k], interval))
    && (s.subCheck.SubRunning? ==>
          forall i :: 0 <= i < |s.subCheck.pending| && s.subCheck.pending[i].id == k ==>
            DayRow(s.subCheck.pending[i].row, interval))
  }

  lemma BilledByDayStep(s: State, step: Step, k: Id, interval: nat)
    requires BilledByDay(s, k, interval)
    ensures BilledByDay(Next(s, step), k, interval)
  {
    var t := Next(s, step);
    SubscriptionsShrink(s, step);
    if t.subCheck.SubRunning? {
      forall i | 0 <= i < |t.subCheck.pending| && t.subCheck.pending[i].id == k
        ensures DayRow(t.subCheck.pending[i].row, interval)
      {
        WaitingRowOrigin(s, step, i);
      }
    }
  }

  /** What a payment of k buys is known: all have a time value, or k is billed by the day. */
  ghost predicate Metered(s: State, k: Id, interval: nat) {
    Timed(s.db.payments, k) || BilledByDay(s, k, interval)
  }

  lemma {:induction false} PaidSecondsUpdate(ps: seq<Payment>, i: nat, p: Payment, k: Id, interval: nat)
    requires i < |ps|
    ensures PaidSeconds(ps[i := p], k, interval)
         == PaidSeconds(ps, k, interval) - Bought(ps[i], k, interval) + Bought(p, k, interval)
    decreases |ps|
  {
    var init := ps[..|ps| - 1];
    if i == |ps| - 1 {
      assert ps[i := p][..|ps| - 1] == init;
    } else {
      assert ps[i := p][..|ps| - 1] == init[i := p];
      PaidSecondsUpdate(init, i, p, k, interval);
    }
  }

  lemma {:induction false} PaidSecondsAppend(ps: seq<Payment>, qs: seq<Payment>, k: Id, interval: nat)
    ensures PaidSeconds(ps + qs, k, interval) == PaidSeconds(ps, k, interval) + PaidSeconds(qs, k, interval)
    decreases |qs|
  {
    if qs == [] {
      assert ps + qs == ps;
    } else {
      assert (ps + qs)[..|ps + qs| - 1] == ps + qs[..|qs| - 1];
      PaidSecondsAppend(ps, qs[..|qs| - 1], k, interval);
    }
  }

  lemma {:induction false} PaidSecondsWithout(ps: seq<Payment>, j: Id, k: Id, interval: nat)
    requires j != k
    ensures PaidSeconds(WithoutPaymentsOf(ps, j), k, interval) == PaidSeconds(ps, k, interval)
    decreases |ps|
  {
    if ps != [] {
      var head := if ps[0].subscription == j then [] else [ps[0]];
      PaidSecondsWithout(ps[1..], j, k, interval);
      PaidSecondsAppend(head, WithoutPaymentsOf(ps[1..], j), k, interval);
      PaidSecondsAppend([ps[0]], ps[1..], k, interval);
      assert ps == [ps[0]] + ps[1..];
    }
  }

  ghost predicate TimedInvoice(step: Step, k: Id) {
    step.Invoice? && step.payment.subscription == k ==> step.payment.timeValue.Some?
  }

  lemma TimedStep(s: State, step: Step, k: Id)
    requires Timed(s.db.payments, k) && TimedInvoice(step, k)
    ensures Timed(Next(s, step).db.payments, k)
  {
    var qs := Next(s, step).db.payments;
    if Enabled(s, step) && step.PurgeNext? {
      forall i | 0 <= i < |qs| && qs[i].subscription == k ensures qs[i].timeValue.Some? {
        assert qs[i] in s.db.payments;
      }
    }
  }

  /** A step moves the seconds marked paid exactly by what it credits. */
  lemma CreditIsPaid(s: State, step: Step, k: Id, interval: nat)
    requires k in Next(s, step).db.subscriptions && Metered(s, k, interval)
    ensures PaidSeconds(Next(s, step).db.payments, k, interval) * SECOND
         == PaidSeconds(s.db.payments, k, interval) * SECOND + Credit(s, step, k)
  {
    var ps := s.db.payments;
    SubscriptionsShrink(s, step);
    if Enabled(s, step) {
      match step {
        case Deliver(id, now, _) =>
          if Unsettled(ps, id) {
            var i := FindPayment(ps, id).value;
            PaidSecondsUpdate(ps, i, ps[i].(isPaid := true), k, interval);
            SettledBuys(s, step, k, interval);
          }
        case Invoice(p) => PaidSecondsAppend(ps, [p], k, interval);
        case Deposit(id, outpoint) =>
          var i := FindPayment(ps, id).value;
          PaidSecondsUpdate(ps, i, ps[i].(externalId := Some(outpoint)), k, interval);
        case PurgeNext(succeeds) =>
          var v := s.vmCheck.stage.doomed.vm;
          if succeeds && v in s.db.vms && s.db.vms[v].lineItem in s.db.lineItems {
            PaidSecondsWithout(ps, s.db.lineItems[s.db.vms[v].lineItem].subscription, k, interval);
          }
        case _ =>
      }
    }
  }

  /** A settlement credits what its payment bought. */
  lemma SettledBuys(s: State, step: Step, k: Id, interval: nat)
    requires Enabled(s, step) && step.Deliver? && Unsettled(s.db.payments, step.id)
    requires k in s.db.subscriptions && Metered(s, k, interval)
    ensures var p := s.db.payments[FindPayment(s.db.payments, step.id).value];
            Credit(s, step, k) == Bought(p.(isPaid := true), k, interval) * SECOND
  {
  }

  /** The expiry k ends with when each payment that became paid counts once. */
  ghost function BoughtExpiry(s: State, steps: seq<Step>, k: Id, interval: nat, paid: seq<Payment>): Option<Time> {
    match Origin(s, steps, k)
    case None => None
    case Some(start) =>
      Some(start + Lapses(s, steps, k)
           + (PaidSeconds(paid, k, interval) - PaidSeconds(s.db.payments, k, interval)) * SECOND)
  }

  /** What the payments of k buy stays known over the run. */
  ghost predicate MeteredOver(s: State, steps: seq<Step>, k: Id, interval: nat) {
    || BilledByDay(s, k, interval)
    || (Timed(s.db.payments, k) && forall i :: 0 <= i < |steps| ==> TimedInvoice(steps[i], k))
  }

  /**
   * Whatever the order, repetition or interleaving of the deliveries, the expiry of k ends at its
   * start plus what the payments that became paid bought, plus the time it had lapsed for; from
   * a state in which no waiting row runs ahead, exactly if no cancellation of k was stale. A payment
   * buys its time value, or else an interval of a subscription billed by the day.
   */
  lemma EveryPaymentCreditedOnce(s: State, steps: seq<Step>, k: Id, interval: nat)
    requires k in Run(s, steps).db.subscriptions && MeteredOver(s, steps, k, interval)
    ensures var t := Run(s, steps).db;
            var credited := t.subscriptions[k].expires == BoughtExpiry(s, steps, k, interval, t.payments);
            && (!StaleCancelIn(s, steps, k) ==> credited)
            && (Valid(s) && NeverAhead(s, k) ==> (credited <==> !StaleCancelIn(s, steps, k)))
  {
    CreditsArePaid(s, steps, k, interval);
    if !StaleCancelIn(s, steps, k) { PaidTimeConserved(s, steps, k); }
    if Valid(s) && NeverAhead(s, k) { TimeLostExactly(s, steps, k); }
  }

  lemma MeteredStep(s: State, steps: seq<Step>, k: Id, interval: nat)
    requires steps != [] && MeteredOver(s, steps, k, interval)
    ensures Metered(s, k, interval) && MeteredOver(Next(s, steps[0]), steps[1..], k, interval)
  {
    if BilledByDay(s, k, interval) {
      BilledByDayStep(s, steps[0], k, interval);
    } else {
      TimedStep(s, steps[0], k);
    }
  }

  lemma {:induction false} CreditsArePaid(s: State, steps: seq<Step>, k: Id, interval: nat)
    requires k in Run(s, steps).db.subscriptions && MeteredOver(s, steps, k, interval)
    ensures PaidSeconds(Run(s, steps).db.payments, k, interval) * SECOND
         == PaidSeconds(s.db.payments, k, interval) * SECOND + Credits(s, steps, k)
    decreases |steps|
  {
    if steps != [] {
      KeysShrink(Next(s, steps[0]), steps[1..]);
      MeteredStep(s, steps, k, interval);
      CreditIsPaid(s, steps[0], k, interval);
      CreditsArePaid(Next(s, steps[0]), steps[1..], k, interval);
    }
  }

  // ----- payments without a time value -----

  /** A settlement of k by a payment without a time value. */
  ghost predicate SettlesUntimed(s: State, step: Step, k: Id) {
    Settles(s, step, k) && k in s.db.subscriptions && SettledPayment(s, step, k).timeValue.None?
  }

  /** The instant paid time counts from: the expiry, or the settlement when that is later or there is none. */
  function CountedFrom(row: Subscription, now: Time): Time {
    if row.expires.Some? && now < row.expires.value then row.expires.value else now
  }

  /** The intervals of an untimed payment: days as they are, months by the calendar. */
  lemma IntervalIsAdded(s: State, step: Step, k: Id)
    requires SettlesUntimed(s, step, k)
    ensures var row := s.db.subscriptions[k];
            var from, expires := CountedFrom(row, step.now), Next(s, step).db.subscriptions[k].expires;
            && (row.intervalType == Day ==> expires == Some(from + row.intervalAmount * 24 * HOUR))
            && (row.intervalType == Month ==> expires == Some(step.calendar(from, row.intervalAmount % U32)))
  {
  }

  /** The same state with the row of k billed at another interval. */
  ghost function Rebilled(s: State, k: Id, kind: IntervalType, amount: nat): State
    requires k in s.db.subscriptions
  {
    var row := s.db.subscriptions[k].(intervalType := kind, intervalAmount := amount);
    s.(db := s.db.(subscriptions := s.db.subscriptions[k := row]))
  }

  /** A year ends where twelve months do. */
  lemma YearIsTwelveMonths(s: State, step: Step, k: Id)
    requires SettlesUntimed(s, step, k) && s.db.subscriptions[k].intervalType == Year
    ensures var months := Rebilled(s, k, Month, 12 * s.db.subscriptions[k].intervalAmount);
            && SettlesUntimed(months, step, k)
            && Next(s, step).db.subscriptions[k].expires == Next(months, step).db.subscriptions[k].expires
  {
  }

  // ----- deliveries in any order, any number of times -----

  /** A run of settlement deliveries only, at non-decreasing times. */
  ghost predicate Deliveries(s: State, steps: seq<Step>)
    decreases |steps|
  {
    steps == [] || (steps[0].Deliver? && Enabled(s, steps[0]) && Deliveries(Next(s, steps[0]), steps[1..]))
  }

  ghost function DeliveredIds(steps: seq<Step>): set<Id> {
    set i | 0 <= i < |steps| && steps[i].Deliver? :: steps[i].id
  }

  /** The payments once every id in the set has been delivered at least once. */
  ghost function MarkedPaid(ps: seq<Payment>, ids: set<Id>): (r: seq<Payment>)
    ensures |r| == |ps|
    ensures forall i :: 0 <= i < |ps| ==>
              r[i] == if FirstOf(ps, i) && ps[i].id in ids then ps[i].(isPaid := true) else ps[i]
  {
    seq(|ps|, i requires 0 <= i < |ps| => if FirstOf(ps, i) && ps[i].id in ids then ps[i].(isPaid := true) else ps[i])
  }

  ghost predicate FirstOf(ps: seq<Payment>, i: int) {
    0 <= i < |ps| && FindPayment(ps, ps[i].id) == Some(i)
  }

  lemma {:induction false} FindSameIds(ps: seq<Payment>, qs: seq<Payment>, id: Id)
    requires |ps| == |qs| && forall i :: 0 <= i < |ps| ==> ps[i].id == qs[i].id
    ensures FindPayment(ps, id) == FindPayment(qs, id)
  {
    if ps != [] { FindSameIds(ps[1..], qs[1..], id); }
  }

  lemma DeliveryMarks(s: State, step: Step)
    requires step.Deliver? && Enabled(s, step)
    ensures Next(s, step).db.payments == MarkedPaid(s.db.payments, {step.id})
  {
  }

  lemma MarkedTwice(ps: seq<Payment>, a: set<Id>, b: set<Id>)
    ensures MarkedPaid(MarkedPaid(ps, a), b) == MarkedPaid(ps, a + b)
  {
    var qs := MarkedPaid(ps, a);
    forall i | 0 <= i < |ps| ensures FirstOf(ps, i) == FirstOf(qs, i) {
      FindSameIds(ps, qs, ps[i].id);
    }
  }

  lemma DeliveredFirst(steps: seq<Step>)
    requires steps != [] && steps[0].Deliver?
    ensures DeliveredIds(steps) == {steps[0].id} + DeliveredIds(steps[1..])
  {
    assert forall i :: 0 <= i < |steps| - 1 ==> steps[1..][i] == steps[i + 1];
    forall id | id in DeliveredIds(steps) ensures id in {steps[0].id} + DeliveredIds(steps[1..]) {
      var i :| 0 <= i < |steps| && steps[i].Deliver? && steps[i].id == id;
      if i > 0 { assert steps[1..][i - 1].id == id; }
    }
  }

  lemma {:induction false} DeliveriesMark(s: State, steps: seq<Step>)
    requires Deliveries(s, steps)
    ensures Run(s, steps).db.payments == MarkedPaid(s.db.payments, DeliveredIds(steps))
    decreases |steps|
  {
    if steps != [] {
      DeliveryMarks(s, steps[0]);
      DeliveriesMark(Next(s, steps[0]), steps[1..]);
      MarkedTwice(s.db.payments, {steps[0].id}, DeliveredIds(steps[1..]));
      DeliveredFirst(steps);
    }
  }

  /**
   * Where deliveries leave the expiry depends only on the set of delivered ids and on the lapses,
   * not on their order or on how often each was delivered.
   */
  lemma DeliveriesEndAt(s: State, steps: seq<Step>, ids: set<Id>, k: Id, interval: nat)
    requires DeliveredIds(steps) == ids && k in s.db.subscriptions && Metered(s, k, interval) && Deliveries(s, steps)
    ensures k in Run(s, steps).db.subscriptions
    ensures Run(s, steps).db.subscriptions[k].expires
         == BoughtExpiry(s, steps, k, interval, MarkedPaid(s.db.payments, ids))
  {
    DeliveriesMark(s, steps);
    DeliveriesNeverStale(s, steps, k);
    DeliveriesKeep(s, steps);
    EveryPaymentCreditedOnce(s, steps, k, interval);
  }

  /** Deliveries change nothing but payments, subscription rows and the deleted flags. */
  lemma {:induction false} DeliveriesKeep(s: State, steps: seq<Step>)
    requires Deliveries(s, steps)
    ensures var t := Run(s, steps);
            && t.db.subscriptions.Keys == s.db.subscriptions.Keys && t.db.lineItems == s.db.lineItems
            && t.vmCheck == s.vmCheck && (forall k, v :: s.db.Bills(k, v) ==> t.db.Bills(k, v))
    decreases |steps|
  {
    if steps != [] { DeliveriesKeep(Next(s, steps[0]), steps[1..]); }
  }

  lemma {:induction false} DeliveriesNeverStale(s: State, steps: seq<Step>, k: Id)
    requires Deliveries(s, steps)
    ensures !StaleCancelIn(s, steps, k) && forall i :: 0 <= i < |steps| ==> steps[i].Deliver?
    decreases |steps|
  {
    if steps != [] { DeliveriesNeverStale(Next(s, steps[0]), steps[1..], k); }
  }

  // ----- the lost update -----

  /**
   * A settlement of k that lands after k was listed and before its listed row is cancelled is
   * lost: the payment stays marked paid, yet the row goes back to the expiry it was listed with.
   */
  lemma SettlementLostToStaleCancel(s: State, settle: Step, handle: Step, k: Id)
    requires Valid(s) && k in s.db.subscriptions && Settles(s, settle, k)
    requires Handles(Next(s, settle), handle, k, s.db.subscriptions[k])
    requires BranchOf(Next(s, settle), handle) == GraceExceeded
    ensures var t := Next(Next(s, settle), handle);
            && t.db.subscriptions[k] == s.db.subscriptions[k].(isActive := false)
            && t.db.payments[FindPayment(s.db.payments, settle.id).value].isPaid
            && (Credit(s, settle, k) > 0 || Lapse(s, settle, k) > 0 ==> StaleCancel(Next(s, settle), handle, k))
  {
  }
}
