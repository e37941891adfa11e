/** What a whole VM check does to a subscription that was never paid for. */
module PurgeChecks {
  import opened Clock
  import opened Billing
  import opened WorkerSystem
  import opened WorkerInvariants
  import opened ExpiryRuns
  import opened PurgeRuns

  // ----- nothing holds the purge back -----

  /** No payment of k is pending: each is paid, or has run out without a deposit seen on chain. */
  ghost predicate Quiet(s: State, k: Id) {
    forall i :: 0 <= i < |s.db.payments| && s.db.payments[i].subscription == k ==>
      s.db.payments[i].isPaid ||
      (s.db.payments[i].expires <= s.clock
       && (s.db.payments[i].paymentMethod == OnChain ==> s.db.payments[i].externalId.None?))
  }

  /** A step that settles, invoices or sees a deposit for k, or whose host fails to delete a VM of k. */
  ghost predicate Disturbs(s: State, step: Step, k: Id) {
    Enabled(s, step) &&
    match step
    case Deliver(id, _, _) => Settles(s, step, k)
    case Invoice(p) => p.subscription == k
    case Deposit(id, _) => s.db.payments[FindPayment(s.db.payments, id).value].subscription == k
    case PurgeNext(succeeds) => !succeeds && InWindow(s, k)
    case _ => false
  }

  ghost predicate DisturbedIn(s: State, steps: seq<Step>, k: Id)
    decreases |steps|
  {
    steps != [] && (Disturbs(s, steps[0], k) || DisturbedIn(Next(s, steps[0]), steps[1..], k))
  }

  lemma QuietStep(s: State, step: Step, k: Id)
    requires PastOk(s) && Quiet(s, k) && !Disturbs(s, step, k)
    ensures Quiet(Next(s, step), k)
  {
    PastStep(s, step);
    var ps, qs := s.db.payments, Next(s, step).db.payments;
    if Enabled(s, step) && step.PurgeNext? {
      forall i | 0 <= i < |qs| ensures qs[i] in ps {
        assert qs[i] in qs;
      }
    }
  }

  lemma QuietNeverBlocks(s: State, k: Id, v: Id, now: Time)
    requires Quiet(s, k) && s.db.Bills(k, v) && s.clock <= now
    ensures !PaymentsBlockPurge(s.db, v, now)
  {
  }

  // ----- old enough -----

  /** k was created more than an hour ago, in its stored row and in any waiting one. */
  ghost predicate HourOld(s: State, k: Id) {
    && (k in s.db.subscriptions ==> s.db.subscriptions[k].created + HOUR < s.clock)
    && (s.subCheck.SubRunning? ==>
          forall i :: 0 <= i < |s.subCheck.pending| && s.subCheck.pending[i].id == k ==>
            s.subCheck.pending[i].row.created + HOUR < s.clock)
  }

  lemma HourOldStep(s: State, step: Step, k: Id)
    requires PastOk(s) && HourOld(s, k)
    ensures HourOld(Next(s, step), k)
  {
    PastStep(s, step);
    SubscriptionsShrink(s, step);
    var t := Next(s, step);
    if t.subCheck.SubRunning? {
      forall i | 0 <= i < |t.subCheck.pending| && t.subCheck.pending[i].id == k
        ensures t.subCheck.pending[i].row.created + HOUR < t.clock
      {
        WaitingRowOrigin(s, step, i);
      }
    }
  }

  // ----- in the check -----

  /** The VM is still to be looked at, noted down for deletion, or in its turn. */
  ghost predicate InCheck(c: VmCheck, d: Doomed) {
    match c
    case VmIdle => false
    case Classifying(listed, doomed) => d in listed || d in doomed
    case Deleting(doomed, stage) => d in doomed || (!stage.Between? && stage.doomed == d)
  }

  /** A VM of the never-paid k on its way through the check. */
  ghost predicate OnItsWay(s: State, k: Id, v: Id) {
    && k in s.db.subscriptions && NotSetUp(s, k) && Quiet(s, k) && HourOld(s, k)
    && s.db.Bills(k, v) && InCheck(s.vmCheck, Doomed(v, s.db.vms[v].lineItem))
  }

  /** Purging a VM of another subscription leaves the VMs of k. */
  lemma KeptBills(s: State, step: Step, k: Id, v: Id)
    requires s.db.Bills(k, v) && k in Next(s, step).db.subscriptions
    ensures Next(s, step).db.Bills(k, v) && Next(s, step).db.vms[v].lineItem == s.db.vms[v].lineItem
  {
  }

  lemma ClassifyKeepsWay(s: State, step: Step, k: Id, v: Id)
    requires Valid(s) && OnItsWay(s, k, v) && Enabled(s, step) && step.ClassifyNext?
    ensures InCheck(Next(s, step).vmCheck, Doomed(v, s.db.vms[v].lineItem))
  {
    var d, listed := Doomed(v, s.db.vms[v].lineItem), s.vmCheck.listed;
    assert listed == [listed[0]] + listed[1..];
    if d == listed[0] { assert IsDoomed(s.db, d, step.now); }
  }

  lemma RereadKeepsWay(s: State, step: Step, k: Id, v: Id)
    requires Valid(s) && OnItsWay(s, k, v) && Enabled(s, step) && step.RereadNext?
    ensures InCheck(Next(s, step).vmCheck, Doomed(v, s.db.vms[v].lineItem))
  {
    var d, doomed := Doomed(v, s.db.vms[v].lineItem), s.vmCheck.doomed;
    assert doomed == [doomed[0]] + doomed[1..];
    if d == doomed[0] { assert StillUnpaid(s.db, d); }
  }

  lemma InCheckStep(s: State, step: Step, k: Id, v: Id)
    requires Valid(s) && OnItsWay(s, k, v) && !Disturbs(s, step, k) && k in Next(s, step).db.subscriptions
    ensures InCheck(Next(s, step).vmCheck, Doomed(v, s.db.vms[v].lineItem))
  {
    if Enabled(s, step) {
      if step.ClassifyNext? {
        ClassifyKeepsWay(s, step, k, v);
      } else if step.RereadNext? {
        RereadKeepsWay(s, step, k, v);
      } else if step.ReadPayments? && s.vmCheck.stage.doomed.vm == v {
        QuietNeverBlocks(s, k, v, step.now);
      }
    }
  }

  lemma OnItsWayStep(s: State, step: Step, k: Id, v: Id)
    requires Valid(s) && OnItsWay(s, k, v) && !Disturbs(s, step, k) && k in Next(s, step).db.subscriptions
    ensures OnItsWay(Next(s, step), k, v)
  {
    NotSetUpStep(s, step, k);
    QuietStep(s, step, k);
    HourOldStep(s, step, k);
    KeptBills(s, step, k, v);
    InCheckStep(s, step, k, v);
  }

  // ----- the end of the check -----

  /** v is the only VM billed under k. */
  ghost predicate OnlyVm(db: Db, k: Id, v: Id) {
    forall w :: db.Bills(k, w) ==> w == v
  }

  lemma OnlyVmStep(s: State, step: Step, k: Id, v: Id)
    requires OnlyVm(s.db, k, v)
    ensures OnlyVm(Next(s, step).db, k, v)
    ensures k in s.db.subscriptions && k !in Next(s, step).db.subscriptions ==> v !in Next(s, step).db.vms
  {
    LineItemsShrink(s, step);
    forall w | Next(s, step).db.Bills(k, w) ensures w == v {
      VmsKeepLineItems(s, step, w);
      assert s.db.Bills(k, w);
    }
    if k in s.db.subscriptions && k !in Next(s, step).db.subscriptions {
      if !InWindow(s, k) { PurgeNeedsWindow(s, step, k); }
      assert s.db.Bills(k, s.vmCheck.stage.doomed.vm);
    }
  }

  lemma {:induction false} GoneStaysGone(s: State, steps: seq<Step>, v: Id)
    requires v !in s.db.vms
    ensures v !in Run(s, steps).db.vms
    decreases |steps|
  {
    if steps != [] {
      VmsKeepLineItems(s, steps[0], v);
      GoneStaysGone(Next(s, steps[0]), steps[1..], v);
    }
  }

  lemma {:induction false} WayEndsInPurge(s: State, steps: seq<Step>, k: Id, v: Id)
    requires Valid(s) && OnItsWay(s, k, v) && !DisturbedIn(s, steps, k) && Run(s, steps).vmCheck.VmIdle?
    ensures k !in Run(s, steps).db.subscriptions
    ensures OnlyVm(s.db, k, v) ==> v !in Run(s, steps).db.vms
    decreases |steps|
  {
    var t := Next(s, steps[0]);
    if OnlyVm(s.db, k, v) { OnlyVmStep(s, steps[0], k, v); }
    if k in t.db.subscriptions {
      ValidStep(s, steps[0]);
      OnItsWayStep(s, steps[0], k, v);
      WayEndsInPurge(t, steps[1..], k, v);
    } else {
      KeysShrink(t, steps[1..]);
      if OnlyVm(s.db, k, v) { GoneStaysGone(t, steps[1..], v); }
    }
  }

  /**
   * Every VM check that was started and is over has purged what was never paid for: a subscription
   * created more than an hour before the start, with a live VM then, is gone, and so is the VM if it
   * is its only one; with any steps in between, unless a payment of it is settled, invoiced or seen on
   * chain meanwhile or the host fails to delete.
   */
  lemma CheckPurgesUnpaid(s: State, start: Step, steps: seq<Step>, k: Id, v: Id)
    requires Valid(s) && Enabled(s, start) && start.StartVmCheck? && s.lastVmCheck + 30 * SECOND <= start.now
    requires k in s.db.subscriptions && s.db.Bills(k, v) && !s.db.vms[v].deleted
    requires NotSetUp(s, k) && Quiet(Next(s, start), k) && HourOld(Next(s, start), k)
    requires !DisturbedIn(Next(s, start), steps, k) && Run(Next(s, start), steps).vmCheck.VmIdle?
    ensures k !in Run(Next(s, start), steps).db.subscriptions
    ensures OnlyVm(s.db, k, v) ==> v !in Run(Next(s, start), steps).db.vms
  {
    var t := Next(s, start);
    ValidStep(s, start);
    NotSetUpStep(s, start, k);
    assert v in LiveVmIds(s.db) && v in start.order;
    var i :| 0 <= i < |start.order| && start.order[i] == v;
    assert !TooSoon(start.now, s.lastVmCheck);
    assert t.vmCheck.listed[i] == Doomed(v, s.db.vms[v].lineItem);
    WayEndsInPurge(t, steps, k, v);
  }

  // ----- the second VM of a subscription -----

  /** A VM row whose line item is gone, outside the last steps of its own deletion. */
  ghost predicate Orphaned(s: State, v: Id) {
    && v in s.db.vms && s.db.vms[v].lineItem !in s.db.lineItems
    && (s.vmCheck.Deleting? && !s.vmCheck.stage.Between? ==> s.vmCheck.stage.doomed.vm != v)
  }

  lemma OrphanedStep(s: State, step: Step, v: Id)
    requires Valid(s) && Orphaned(s, v)
    ensures Orphaned(Next(s, step), v)
  {
    LineItemsShrink(s, step);
    VmsKeepLineItems(s, step, v);
    if Enabled(s, step) && step.RereadNext? {
      assert Agrees(s.db, s.vmCheck.doomed[0]);
    }
  }

  /** The purge of one VM takes the line items of the others along, and then no run ever purges those. */
  lemma {:induction false} OrphanNeverPurged(s: State, steps: seq<Step>, v: Id)
    requires Valid(s) && Orphaned(s, v)
    ensures v in Run(s, steps).db.vms
    decreases |steps|
  {
    if steps != [] {
      ValidStep(s, steps[0]);
      OrphanedStep(s, steps[0], v);
      OrphanNeverPurged(Next(s, steps[0]), steps[1..], v);
    }
  }

  /** Every other VM of a purged subscription is left behind as such an orphan. */
  lemma SiblingIsOrphaned(s: State, k: Id, v: Id, w: Id)
    requires s.vmCheck.Deleting? && s.vmCheck.stage.Cleared? && s.vmCheck.stage.doomed.vm == v
    requires s.db.Bills(k, v) && s.db.Bills(k, w) && v != w
    ensures Orphaned(Next(s, PurgeNext(true)), w)
  {
  }
}
