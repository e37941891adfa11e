/**
 * The worker and the payment handlers as one step system. A subscription check is a snapshot
 * followed by one step per listed row; a VM check is a snapshot, one classification step per VM,
 * and for each doomed VM a re-read of its subscription, a read of its payments and the purge.
 * Settlements, new invoices and detected deposits may fall between any two of those steps.
 */
module WorkerSystem {
  import opened Options
  import opened Clock
  import opened Billing
  import opened Lifecycle

  const CHECK_SECONDS: int := 30

  /** A row as check_subscriptions listed it. */
  datatype Listed = Listed(id: Id, row: Subscription)

  datatype SubCheck = SubIdle | SubRunning(pending: seq<Listed>)

  /** A VM as check_vms listed it. */
  datatype Doomed = Doomed(vm: Id, lineItem: Id)

  /** Where the purge loop stands: between VMs, past the re-read, or past the payment read. */
  datatype Stage = Between | Unpaid(doomed: Doomed) | Cleared(doomed: Doomed)

  datatype VmCheck =
    | VmIdle
    | Classifying(listed: seq<Doomed>, doomed: seq<Doomed>)
    | Deleting(doomed: seq<Doomed>, stage: Stage)

  datatype State = State(
    db: Db,
    clock: Time,
    deleteAfter: nat,
    lastSubCheck: Time,
    subCheck: SubCheck,
    lastVmCheck: Time,
    vmCheck: VmCheck,
    notices: seq<Notice>)

  datatype Step =
    | Deliver(id: Id, now: Time, calendar: Calendar)
    | Invoice(payment: Payment)
    | Deposit(id: Id, outpoint: string)
    | StartSubCheck(now: Time, order: seq<Id>)
    | HandleNext(times: Reads, renewal: Renewal, failing: set<Id>)
    | FinishSubCheck(now: Time)
    | StartVmCheck(now: Time, order: seq<Id>)
    | ClassifyNext(now: Time)
    | RereadNext
    | ReadPayments(now: Time)
    | PurgeNext(succeeds: bool)
    | FinishVmCheck(now: Time)

  ghost predicate Enumerates(order: seq<Id>, ids: set<Id>) {
    && (forall i, j :: 0 <= i < j < |order| ==> order[i] != order[j])
    && (forall k :: k in order <==> k in ids)
  }

  /** list_lifecycle_subscriptions */
  ghost function LifecycleIds(db: Db): set<Id> {
    set k | k in db.subscriptions && db.subscriptions[k].isActive && db.subscriptions[k].expires.Some?
  }

  /** list_vms */
  ghost function LiveVmIds(db: Db): set<Id> {
    set v | v in db.vms && !db.vms[v].deleted
  }

  /** The rate limit, in whole seconds since the stored check time. */
  predicate TooSoon(now: Time, lastCheck: Time) {
    (now - lastCheck) / SECOND < CHECK_SECONDS
  }

  /** get_subscription_by_line_item_id */
  ghost function SubscriptionOf(db: Db, lineItem: Id): Option<Id> {
    if lineItem in db.lineItems && db.lineItems[lineItem].subscription in db.subscriptions
    then Some(db.lineItems[lineItem].subscription)
    else None
  }

  /** Whether a step can be taken now; the clock never runs backwards. */
  ghost predicate Enabled(s: State, step: Step) {
    match step
    case Deliver(id, now, _) => s.clock <= now
    case Invoice(p) => !p.isPaid && FindPayment(s.db.payments, p.id).None?
    case Deposit(id, _) => Unsettled(s.db.payments, id)
    case StartSubCheck(now, order) =>
      s.clock <= now && s.subCheck.SubIdle? && Enumerates(order, LifecycleIds(s.db))
    case HandleNext(times, _, _) =>
      s.clock <= times.now && times.Ordered() && s.subCheck.SubRunning? && s.subCheck.pending != []
    case FinishSubCheck(now) => s.clock <= now && s.subCheck == SubRunning([])
    case StartVmCheck(now, order) =>
      s.clock <= now && s.vmCheck.VmIdle? && Enumerates(order, LiveVmIds(s.db))
    case ClassifyNext(now) => s.clock <= now && s.vmCheck.Classifying? && s.vmCheck.listed != []
    case RereadNext =>
      (s.vmCheck.Deleting? && s.vmCheck.stage.Between? && s.vmCheck.doomed != []) ||
      (s.vmCheck.Classifying? && s.vmCheck.listed == [] && s.vmCheck.doomed != [])
    case ReadPayments(now) => s.clock <= now && s.vmCheck.Deleting? && s.vmCheck.stage.Unpaid?
    case PurgeNext(_) => s.vmCheck.Deleting? && s.vmCheck.stage.Cleared?
    case FinishVmCheck(now) =>
      s.clock <= now &&
      (s.vmCheck == Classifying([], []) || s.vmCheck == Deleting([], Between))
  }

  /** A delivery carries the stored payment row, as every caller loads it before settling. */
  ghost function Delivered(db: Db, id: Id, now: Time, calendar: Calendar): Db {
    match FindPayment(db.payments, id)
    case None => db
    case Some(i) => Settle(db, db.payments[i], now, calendar)
  }

  ghost function WithDeposit(ps: seq<Payment>, id: Id, outpoint: string): seq<Payment> {
    match FindPayment(ps, id)
    case None => ps
    case Some(i) => ps[i := ps[i].(externalId := Some(outpoint))]
  }

  ghost function ListRows(db: Db, order: seq<Id>): (r: seq<Listed>)
    requires forall k :: k in order ==> k in db.subscriptions
    ensures |r| == |order|
    ensures forall i :: 0 <= i < |r| ==> r[i] == Listed(order[i], db.subscriptions[order[i]])
  {
    seq(|order|, i requires 0 <= i < |order| => Listed(order[i], db.subscriptions[order[i]]))
  }

  ghost function ListVms(db: Db, order: seq<Id>): (r: seq<Doomed>)
    requires forall v :: v in order ==> v in db.vms
    ensures |r| == |order|
    ensures forall i :: 0 <= i < |r| ==> r[i] == Doomed(order[i], db.vms[order[i]].lineItem)
  {
    seq(|order|, i requires 0 <= i < |order| => Doomed(order[i], db.vms[order[i]].lineItem))
  }

  /** The first deletion-loop body: a never-paid VM older than an hour is doomed. */
  ghost predicate IsDoomed(db: Db, d: Doomed, now: Time) {
    var k := SubscriptionOf(db, d.lineItem);
    k.Some? && now - db.subscriptions[k.value].created > HOUR && !db.subscriptions[k.value].isSetup
  }

  /** The purge loop goes on with a VM only while its subscription is found and not set up. */
  ghost predicate StillUnpaid(db: Db, d: Doomed) {
    var k := SubscriptionOf(db, d.lineItem);
    k.Some? && !db.subscriptions[k.value].isSetup
  }

  ghost function HandleOne(s: State, times: Reads, renewal: Renewal, failing: set<Id>): Effect
    requires s.subCheck.SubRunning? && s.subCheck.pending != []
  {
    var listed := s.subCheck.pending[0];
    Handle(s.db, listed.id, listed.row, s.lastSubCheck, times, s.deleteAfter, renewal, failing)
  }

  ghost function Next(s: State, step: Step): State {
    if !Enabled(s, step) then s
    else
      match step
      case Deliver(id, now, calendar) => s.(db := Delivered(s.db, id, now, calendar), clock := now)
      case Invoice(p) => s.(db := s.db.(payments := s.db.payments + [p]))
      case Deposit(id, outpoint) => s.(db := s.db.(payments := WithDeposit(s.db.payments, id, outpoint)))
      case StartSubCheck(now, order) =>
        if TooSoon(now, s.lastSubCheck) then s.(clock := now)
        else s.(clock := now, subCheck := SubRunning(ListRows(s.db, order)))
      case HandleNext(times, renewal, failing) =>
        var effect := HandleOne(s, times, renewal, failing);
        s.(db := effect.db, notices := s.notices + effect.notices, clock := times.loggedAt,
           subCheck := SubRunning(s.subCheck.pending[1..]))
      case FinishSubCheck(now) => s.(clock := now, subCheck := SubIdle, lastSubCheck := Truncated(now))
      case StartVmCheck(now, order) =>
        if TooSoon(now, s.lastVmCheck) then s.(clock := now)
        else s.(clock := now, vmCheck := Classifying(ListVms(s.db, order), []))
      case ClassifyNext(now) =>
        var d := s.vmCheck.listed[0];
        s.(clock := now, vmCheck := Classifying(s.vmCheck.listed[1..],
                                                if IsDoomed(s.db, d, now) then s.vmCheck.doomed + [d]
                                                else s.vmCheck.doomed))
      case RereadNext =>
        var d := s.vmCheck.doomed[0];
        s.(vmCheck := Deleting(s.vmCheck.doomed[1..], if StillUnpaid(s.db, d) then Unpaid(d) else Between))
      case ReadPayments(now) =>
        var d := s.vmCheck.stage.doomed;
        s.(clock := now,
           vmCheck := s.vmCheck.(stage := if PaymentsBlockPurge(s.db, d.vm, now) then Between else Cleared(d)))
      case PurgeNext(succeeds) =>
        var v := s.vmCheck.stage.doomed.vm;
        s.(db := if succeeds && v in s.db.vms then Purged(s.db, v) else s.db,
           vmCheck := s.vmCheck.(stage := Between))
      case FinishVmCheck(now) => s.(clock := now, vmCheck := VmIdle, lastVmCheck := Truncated(now))
  }

  /** The state after a sequence of steps. */
  ghost function Run(s: State, steps: seq<Step>): State
    decreases |steps|
  {
    if steps == [] then s else Run(Next(s, steps[0]), steps[1..])
  }

  lemma {:induction false} RunAppend(s: State, xs: seq<Step>, ys: seq<Step>)
    ensures Run(s, xs + ys) == Run(Run(s, xs), ys)
    decreases |xs|
  {
    if xs == [] {
      assert xs + ys == ys;
    } else {
      assert (xs + ys)[1..] == xs[1..] + ys;
      RunAppend(Next(s, xs[0]), xs[1..], ys);
    }
  }

  /** Every step of the sequence is one that can be taken when its turn comes. */
  ghost predicate AllEnabled(s: State, steps: seq<Step>)
    decreases |steps|
  {
    steps == [] || (Enabled(s, steps[0]) && AllEnabled(Next(s, steps[0]), steps[1..]))
  }

  /** The steps lead from s to end, and none of them is idle. */
  ghost predicate Reaches(s: State, steps: seq<Step>, end: State) {
    AllEnabled(s, steps) && Run(s, steps) == end
  }

  /** A sequence of steps followed by another. */
  lemma {:induction false} Chain(s: State, xs: seq<Step>, mid: State, ys: seq<Step>, end: State)
    requires Reaches(s, xs, mid) && Reaches(mid, ys, end)
    ensures Reaches(s, xs + ys, end)
    decreases |xs|
  {
    if xs == [] {
      assert xs + ys == ys;
    } else {
      assert (xs + ys)[1..] == xs[1..] + ys;
      Chain(Next(s, xs[0]), xs[1..], mid, ys, end);
    }
  }

  lemma Extend(s: State, xs: seq<Step>, mid: State, step: Step, end: State)
    requires Reaches(s, xs, mid) && Enabled(mid, step) && Next(mid, step) == end
    ensures Reaches(s, xs + [step], end)
  {
    assert [step][1..] == [];
    assert Reaches(end, [], end);
    assert Reaches(mid, [step], end);
    Chain(s, xs, mid, [step], end);
  }
}
