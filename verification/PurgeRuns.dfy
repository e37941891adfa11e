/** Which VMs the purge of never-paid VMs can reach, with settlements falling between its reads. */
module PurgeRuns {
  import opened Clock
  import opened Billing
  import opened WorkerSystem
  import opened WorkerInvariants
  import opened ExpiryRuns
  import opened PaidTime

  /** Rows of k waiting to be handled were listed after k was set up. */
  ghost predicate ListedSetUp(s: State, k: Id) {
    s.subCheck.SubRunning? ==>
      forall i :: 0 <= i < |s.subCheck.pending| && s.subCheck.pending[i].id == k ==> s.subCheck.pending[i].row.isSetup
  }

  /** Where every active row with an expiry is paid for, no run lists a row of k before its set-up. */
  lemma PaidUpIsListedSetUp(s: State, steps: seq<Step>, k: Id)
    requires PaidUp(s)
    ensures ListedSetUp(Run(s, steps), k)
  {
    PaidUpRun(s, steps);
  }

  /** A settlement outside the purge window of k secures k for good. */
  lemma SettlementSecures(s: State, step: Step, k: Id)
    requires Settles(s, step, k) && k in s.db.subscriptions && !InWindow(s, k) && ListedSetUp(s, k)
    ensures Secured(Next(s, step), k)
  {
    assert forall v :: Next(s, step).db.Bills(k, v) ==> s.db.Bills(k, v);
  }

  /** Set up outside its window: no run purges the subscription or any of its VMs. */
  lemma {:induction false} SetUpNeverPurged(s: State, steps: seq<Step>, k: Id, v: Id)
    requires Valid(s) && Secured(s, k) && s.db.Bills(k, v)
    ensures Run(s, steps).db.SetUp(k) && Run(s, steps).db.Bills(k, v)
  {
    SecuredRun(s, steps, k);
  }

  // ----- what is purged was unpaid when it was re-read -----

  ghost predicate NotSetUp(s: State, k: Id) {
    !s.db.SetUp(k) &&
    (s.subCheck.SubRunning? ==>
       forall i :: 0 <= i < |s.subCheck.pending| && s.subCheck.pending[i].id == k ==>
         !s.subCheck.pending[i].row.isSetup)
  }

  lemma NotSetUpStep(s: State, step: Step, k: Id)
    requires NotSetUp(s, k) && !Settles(s, step, k)
    ensures NotSetUp(Next(s, step), k)
  {
    SubscriptionsShrink(s, step);
    var t := Next(s, step);
    if s.subCheck.SubRunning? && t.subCheck.SubRunning? {
      var p, q := s.subCheck.pending, t.subCheck.pending;
      assert q == p || q == p[1..];
    } else if t.subCheck.SubRunning? {
      forall i | 0 <= i < |step.order| ensures step.order[i] in s.db.subscriptions {
        assert step.order[i] in step.order;
      }
    }
  }

  /** Without a settlement since the re-read, whatever is purged is still not set up. */
  lemma {:induction false} UnpaidStaysUnpaid(s: State, steps: seq<Step>, k: Id)
    requires NotSetUp(s, k) && !SettlesIn(s, steps, k)
    ensures !Run(s, steps).db.SetUp(k)
    decreases |steps|
  {
    if steps != [] {
      NotSetUpStep(s, steps[0], k);
      UnpaidStaysUnpaid(Next(s, steps[0]), steps[1..], k);
    }
  }

  /** A VM enters its purge window only if its subscription is not set up at that moment. */
  lemma WindowOpensUnpaid(s: State, step: Step, k: Id)
    requires Valid(s) && !InWindow(s, k) && InWindow(Next(s, step), k)
    ensures step.RereadNext? && !s.db.SetUp(k)
  {
    VmsKeepLineItems(s, step, Next(s, step).vmCheck.stage.doomed.vm);
  }

  // ----- pending invoices and detected deposits -----

  /** An unpaid payment of k that blocks a purge at every instant up to the horizon. */
  ghost predicate Shield(db: Db, k: Id, horizon: Time) {
    exists i :: 0 <= i < |db.payments| && db.payments[i].subscription == k && Outstanding(db.payments[i], horizon)
  }

  /** Unpaid, with an invoice still valid at the horizon or a deposit seen on chain. */
  predicate Outstanding(p: Payment, horizon: Time) {
    !p.isPaid && (horizon < p.expires || (p.paymentMethod == OnChain && p.externalId.Some?))
  }

  ghost predicate ClearedFor(s: State, k: Id) {
    InWindow(s, k) && s.vmCheck.stage.Cleared?
  }

  /** Settlements of k avoid the purge windows of k, and rows of k listed before it was set up. */
  ghost predicate CleanSettlements(s: State, steps: seq<Step>, k: Id)
    decreases |steps|
  {
    steps == [] ||
    ((Settles(s, steps[0], k) ==> !InWindow(s, k) && ListedSetUp(s, k))
     && CleanSettlements(Next(s, steps[0]), steps[1..], k))
  }

  /** Settlements of k avoid the purge windows of k. */
  ghost predicate OutsideWindows(s: State, steps: seq<Step>, k: Id)
    decreases |steps|
  {
    steps == [] ||
    ((Settles(s, steps[0], k) ==> !InWindow(s, k)) && OutsideWindows(Next(s, steps[0]), steps[1..], k))
  }

  /** Where every active row with an expiry is paid for, avoiding the windows is all that is asked. */
  lemma {:induction false} CleanWhenPaidUp(s: State, steps: seq<Step>, k: Id)
    requires PaidUp(s)
    ensures CleanSettlements(s, steps, k) <==> OutsideWindows(s, steps, k)
    decreases |steps|
  {
    if steps != [] {
      PaidUpStep(s, steps[0]);
      CleanWhenPaidUp(Next(s, steps[0]), steps[1..], k);
    }
  }

  ghost predicate Protected(s: State, k: Id, horizon: Time) {
    k in s.db.subscriptions && (Secured(s, k) || (!ClearedFor(s, k) && Shield(s.db, k, horizon)))
  }

  lemma ShieldStep(s: State, step: Step, k: Id, horizon: Time)
    requires Shield(s.db, k, horizon) && !ClearedFor(s, k) && !Settles(s, step, k)
    ensures Shield(Next(s, step).db, k, horizon)
  {
    var ps, qs := s.db.payments, Next(s, step).db.payments;
    var i :| 0 <= i < |ps| && ps[i].subscription == k && Outstanding(ps[i], horizon);
    if Enabled(s, step) && step.PurgeNext? {
      assert ps[i] in qs;
      var j :| 0 <= j < |qs| && qs[j] == ps[i];
    } else {
      assert i < |qs| && qs[i].subscription == k && Outstanding(qs[i], horizon);
    }
  }

  /** A deposit seen on chain for an unpaid on-chain payment of k holds the purge back from then on. */
  lemma DepositShields(s: State, step: Step, k: Id, horizon: Time)
    requires Enabled(s, step) && step.Deposit?
    requires var p := s.db.payments[FindPayment(s.db.payments, step.id).value];
             p.subscription == k && p.paymentMethod == OnChain
    ensures Shield(Next(s, step).db, k, horizon)
  {
    var i := FindPayment(s.db.payments, step.id).value;
    assert Outstanding(Next(s, step).db.payments[i], horizon);
  }

  /** An invoice of k holds the purge back for as long as it is valid. */
  lemma InvoiceShields(s: State, step: Step, k: Id, horizon: Time)
    requires Enabled(s, step) && step.Invoice? && step.payment.subscription == k && horizon < step.payment.expires
    ensures Shield(Next(s, step).db, k, horizon)
  {
    var i := |s.db.payments|;
    assert Next(s, step).db.payments[i] == step.payment && Outstanding(step.payment, horizon);
  }

  lemma ProtectedKeepsVms(s: State, step: Step, k: Id, horizon: Time)
    requires Protected(s, k, horizon)
    ensures k in Next(s, step).db.subscriptions
    ensures forall v :: s.db.Bills(k, v) ==> Next(s, step).db.Bills(k, v)
  {
    if !InWindow(s, k) { PurgeNeedsWindow(s, step, k); }
  }

  lemma ReadBlocks(s: State, step: Step, k: Id, horizon: Time)
    requires Valid(s) && Shield(s.db, k, horizon) && !ClearedFor(s, k) && Next(s, step).clock <= horizon
    requires s.clock <= Next(s, step).clock
    ensures !ClearedFor(Next(s, step), k)
  {
    var t := Next(s, step);
    if t.vmCheck.Deleting? && !t.vmCheck.stage.Between? { VmsKeepLineItems(s, step, t.vmCheck.stage.doomed.vm); }
    LineItemsShrink(s, step);
    if Enabled(s, step) && step.ReadPayments? && InWindow(s, k) {
      var i :| 0 <= i < |s.db.payments| && s.db.payments[i].subscription == k && Outstanding(s.db.payments[i], horizon);
      assert s.db.payments[i] in s.db.payments && BlocksPurge(s.db.payments[i], step.now);
    }
  }

  lemma ProtectedStep(s: State, step: Step, k: Id, horizon: Time)
    requires Valid(s) && Protected(s, k, horizon) && Next(s, step).clock <= horizon
    requires Settles(s, step, k) ==> !InWindow(s, k) && ListedSetUp(s, k)
    ensures Protected(Next(s, step), k, horizon)
  {
    PastStep(s, step);
    ProtectedKeepsVms(s, step, k, horizon);
    if Secured(s, k) {
      SecuredStep(s, step, k);
    } else if Settles(s, step, k) {
      SettlementSecures(s, step, k);
    } else {
      ShieldStep(s, step, k, horizon);
      ReadBlocks(s, step, k, horizon);
    }
  }

  /**
   * A subscription that is set up, or has an invoice valid past the horizon or a deposit seen on
   * chain, keeps every VM over every run up to the horizon, provided no settlement of it falls
   * between the re-read and the purge of one of its VMs.
   */
  lemma {:induction false} ProtectedNeverPurged(s: State, steps: seq<Step>, k: Id, v: Id, horizon: Time)
    requires Valid(s) && Protected(s, k, horizon) && s.db.Bills(k, v)
    requires CleanSettlements(s, steps, k) && Run(s, steps).clock <= horizon
    ensures Run(s, steps).db.Bills(k, v) && k in Run(s, steps).db.subscriptions
    decreases |steps|
  {
    if steps != [] {
      var t := Next(s, steps[0]);
      ValidStep(s, steps[0]);
      ValidRun(t, steps[1..]);
      ProtectedStep(s, steps[0], k, horizon);
      ProtectedKeepsVms(s, steps[0], k, horizon);
      ProtectedNeverPurged(t, steps[1..], k, v, horizon);
    }
  }

  // ----- too young to be purged -----

  /** No VM of k is listed for deletion or being deleted. */
  ghost predicate NotDoomed(s: State, k: Id) {
    match s.vmCheck
    case VmIdle => true
    case Classifying(_, doomed) => NoneOf(s.db, doomed, k)
    case Deleting(doomed, stage) => NoneOf(s.db, doomed, k) && !InWindow(s, k)
  }

  ghost predicate NoneOf(db: Db, ds: seq<Doomed>, k: Id) {
    forall i :: 0 <= i < |ds| ==> !db.Bills(k, ds[i].vm)
  }

  /** k was created less than an hour before the limit, in its stored row and in any waiting one. */
  ghost predicate Young(s: State, k: Id, limit: Time) {
    && k in s.db.subscriptions && limit <= s.db.subscriptions[k].created + HOUR
    && (s.subCheck.SubRunning? ==>
          forall i :: 0 <= i < |s.subCheck.pending| && s.subCheck.pending[i].id == k ==>
            limit <= s.subCheck.pending[i].row.created + HOUR)
  }

  lemma YoungStep(s: State, step: Step, k: Id, limit: Time)
    requires Young(s, k, limit) && !InWindow(s, k)
    ensures Young(Next(s, step), k, limit)
  {
    PurgeNeedsWindow(s, step, k);
    var t := Next(s, step);
    if s.subCheck.SubRunning? && t.subCheck.SubRunning? {
      var p, q := s.subCheck.pending, t.subCheck.pending;
      assert q == p || q == p[1..];
    }
  }

  lemma NoneOfStep(s: State, step: Step, ds: seq<Doomed>, k: Id)
    requires NoneOf(s.db, ds, k)
    ensures NoneOf(Next(s, step).db, ds, k)
  {
    forall i | 0 <= i < |ds| ensures !Next(s, step).db.Bills(k, ds[i].vm) {
      assert !s.db.Bills(k, ds[i].vm);
      VmsKeepLineItems(s, step, ds[i].vm);
      LineItemsShrink(s, step);
    }
  }

  lemma ClassifyKeepsYoung(s: State, step: Step, k: Id, limit: Time)
    requires Valid(s) && Young(s, k, limit) && Enabled(s, step) && step.ClassifyNext? && step.now <= limit
    requires NotDoomed(s, k)
    ensures NotDoomed(Next(s, step), k)
  {
    var d := s.vmCheck.listed[0];
    assert Agrees(s.db, d);
    assert IsDoomed(s.db, d, step.now) ==> !s.db.Bills(k, d.vm);
  }

  lemma NotDoomedStep(s: State, step: Step, k: Id, limit: Time)
    requires Valid(s) && Young(s, k, limit) && NotDoomed(s, k) && Next(s, step).clock <= limit
    ensures NotDoomed(Next(s, step), k)
  {
    var t := Next(s, step);
    if Enabled(s, step) && step.ClassifyNext? {
      ClassifyKeepsYoung(s, step, k, limit);
    } else if s.vmCheck.Classifying? || s.vmCheck.Deleting? {
      NoneOfStep(s, step, s.vmCheck.doomed, k);
      if s.vmCheck.doomed != [] { assert !t.db.Bills(k, s.vmCheck.doomed[0].vm); }
      if s.vmCheck.Deleting? && !s.vmCheck.stage.Between? {
        NoneOfStep(s, step, [s.vmCheck.stage.doomed], k);
        assert !t.db.Bills(k, [s.vmCheck.stage.doomed][0].vm);
      }
    }
  }

  /** Within an hour of its creation no run purges a subscription or its VMs, paid or not. */
  lemma {:induction false} YoungNeverPurged(s: State, steps: seq<Step>, k: Id, v: Id, limit: Time)
    requires Valid(s) && Young(s, k, limit) && NotDoomed(s, k) && s.db.Bills(k, v) && Run(s, steps).clock <= limit
    ensures k in Run(s, steps).db.subscriptions && Run(s, steps).db.Bills(k, v)
    decreases |steps|
  {
    if steps != [] {
      var t := Next(s, steps[0]);
      ValidStep(s, steps[0]);
      ValidRun(t, steps[1..]);
      PurgeNeedsWindow(s, steps[0], k);
      YoungStep(s, steps[0], k, limit);
      NotDoomedStep(s, steps[0], k, limit);
      YoungNeverPurged(t, steps[1..], k, v, limit);
    }
  }

  /** And a never-paid VM that nothing holds back is purged when its turn comes. */
  lemma UnpaidIsPurged(s: State, d: Doomed, rest: seq<Doomed>, now: Time)
    requires s.vmCheck == Deleting([d] + rest, Between) && s.clock <= now && d.vm in s.db.vms
    requires StillUnpaid(s.db, d) && !PaymentsBlockPurge(s.db, d.vm, now)
    ensures var t := Next(Next(Next(s, RereadNext), ReadPayments(now)), PurgeNext(true));
            t.db == Purged(s.db, d.vm) && t.vmCheck == Deleting(rest, Between)
  {
    assert ([d] + rest)[1..] == rest;
  }

  /**
   * What a purge takes: the VM with its history, and the subscription with its line items and payments,
   * nothing of which is left, while every row of other subscriptions and VMs stays as it is.
   */
  lemma PurgeTakesAll(s: State, k: Id, v: Id)
    requires s.vmCheck.Deleting? && s.vmCheck.stage.Cleared? && s.vmCheck.stage.doomed.vm == v && s.db.Bills(k, v)
    ensures var t := Next(s, PurgeNext(true)).db;
            && v !in t.vms && k !in t.subscriptions
            && (forall h :: h in t.history <==> h in s.db.history && h.vm != v)
            && (forall li :: li in t.lineItems <==> li in s.db.lineItems && s.db.lineItems[li].subscription != k)
            && (forall p :: p in t.payments <==> p in s.db.payments && p.subscription != k)
            && (forall w :: w in s.db.vms && w != v ==> w in t.vms && t.vms[w] == s.db.vms[w])
            && (forall j :: j in s.db.subscriptions && j != k ==>
                  j in t.subscriptions && t.subscriptions[j] == s.db.subscriptions[j])
  {
  }

  // ----- the race that remains -----

  /**
   * A settlement of k inside the purge window of its VM does not stop the purge: the deposit that
   * would have blocked it is paid by then, and the set-up flag was read before.
   */
  lemma SettlementInWindowIsPurged(s: State, settle: Step, readAt: Time, k: Id, v: Id)
    requires Valid(s) && k in s.db.subscriptions && s.db.Bills(k, v)
    requires s.vmCheck.Deleting? && s.vmCheck.stage.Unpaid? && s.vmCheck.stage.doomed.vm == v
    requires Settles(s, settle, k) && settle.now <= readAt
    requires forall p :: p in s.db.payments && p.subscription == k && BlocksPurge(p, readAt) ==> p.id == settle.id
    requires UniqueIds(s.db.payments)
    ensures Next(s, settle).db.SetUp(k)
    ensures var t := Next(Next(Next(s, settle), ReadPayments(readAt)), PurgeNext(true));
            v !in t.db.vms && k !in t.db.subscriptions
  {
    var t := Next(s, settle);
    var ps, qs := s.db.payments, t.db.payments;
    var i := FindPayment(ps, settle.id).value;
    assert !PaymentsBlockPurge(t.db, v, readAt) by {
      forall p | p in qs && p.subscription == k ensures !BlocksPurge(p, readAt) {
        var j :| 0 <= j < |qs| && qs[j] == p;
        if j != i { assert qs[j] == ps[j] && ps[j] in ps; }
      }
    }
  }

  ghost predicate UniqueIds(ps: seq<Payment>) {
    forall i, j :: 0 <= i < j < |ps| ==> ps[i].id != ps[j].id
  }

  /** Every stored payment delivered once, all at the same instant. */
  ghost function DeliverAll(ps: seq<Payment>, now: Time): (r: seq<Step>)
    ensures |r| == |ps| && forall i :: 0 <= i < |r| ==> r[i].Deliver? && r[i].id == ps[i].id && r[i].now == now
  {
    seq(|ps|, i requires 0 <= i < |ps| => Deliver(ps[i].id, now, (t: Time, n: nat) => t))
  }

  lemma {:induction false} DeliveredNow(s: State, steps: seq<Step>)
    requires forall i :: 0 <= i < |steps| ==> steps[i].Deliver? && steps[i].now == s.clock
    ensures Deliveries(s, steps) && Run(s, steps).clock == s.clock
    decreases |steps|
  {
    if steps != [] { DeliveredNow(Next(s, steps[0]), steps[1..]); }
  }

  /** With unique ids, delivering every payment leaves none that blocks a purge. */
  lemma AllDelivered(s: State)
    requires UniqueIds(s.db.payments)
    ensures var t := Run(s, DeliverAll(s.db.payments, s.clock));
            && (forall i :: 0 <= i < |t.db.payments| ==> t.db.payments[i].isPaid)
            && t.vmCheck == s.vmCheck && t.clock == s.clock && (forall k, v :: s.db.Bills(k, v) ==> t.db.Bills(k, v))
  {
    var ps, steps := s.db.payments, DeliverAll(s.db.payments, s.clock);
    DeliveredNow(s, steps);
    DeliveriesMark(s, steps);
    DeliveriesKeep(s, steps);
    forall i | 0 <= i < |ps| ensures FirstOf(ps, i) && ps[i].id in DeliveredIds(steps) {
      assert steps[i].id == ps[i].id;
    }
  }

  /** The last two steps of a purge, once every payment is paid or the payments were read. */
  lemma WindowIsPurged(s: State, k: Id)
    requires InWindow(s, k)
    requires s.vmCheck.stage.Cleared? || forall i :: 0 <= i < |s.db.payments| ==> s.db.payments[i].isPaid
    ensures k !in Run(s, [ReadPayments(s.clock), PurgeNext(true)]).db.subscriptions
  {
    var steps := [ReadPayments(s.clock), PurgeNext(true)];
    var t := Next(s, steps[0]);
    assert t.vmCheck.Deleting? && t.vmCheck.stage == Cleared(s.vmCheck.stage.doomed) && t.db == s.db;
    assert steps[1..] == [PurgeNext(true)] && steps[1..][1..] == [];
    assert Run(s, steps) == Run(t, steps[1..]) == Run(Next(t, PurgeNext(true)), []);
  }

  /**
   * A paid subscription can still be purged exactly while one of its VMs is past its re-read:
   * inside that window the remaining settlements and the purge are a run that removes it, and
   * outside it no run does.
   */
  lemma PurgeableExactlyInWindow(s: State, k: Id)
    requires Valid(s) && s.db.SetUp(k) && ListedSetUp(s, k) && UniqueIds(s.db.payments)
    ensures InWindow(s, k) <==> exists steps :: k !in Run(s, steps).db.subscriptions
  {
    if InWindow(s, k) {
      var pay, purge := DeliverAll(s.db.payments, s.clock), [ReadPayments(s.clock), PurgeNext(true)];
      AllDelivered(s);
      WindowIsPurged(Run(s, pay), k);
      RunAppend(s, pay, purge);
      assert k !in Run(s, pay + purge).db.subscriptions;
    } else {
      forall steps ensures k in Run(s, steps).db.subscriptions {
        SecuredRun(s, steps, k);
      }
    }
  }
}
