/** Concrete runs in which a promise fails: notices doubled or never sent, paid time lost, paid VMs purged. */
module Counterexamples {
  import opened Options
  import opened Clock
  import opened Billing
  import opened Lifecycle
  import opened WorkerSystem
  import opened WorkerInvariants
  import opened Notices
  import opened ExpiryRuns
  import opened NoticeLimits
  import opened PaidTime
  import opened PurgeRuns

  /** One set-up subscription without line items, expiring at e; the worker has just started. */
  ghost function Lone(e: Time): State {
    State(Db(map[0 := Subscription(0, Some(e), true, true, Day, 1)], map[], map[], [], {}),
          0, 30, 0, SubIdle, 0, VmIdle, [])
  }

  /** A check at instant t that handles subscription 0 alone. */
  ghost function CheckAt(t: Time): seq<Step> {
    [StartSubCheck(t, [0]), HandleNext(Reads(t, t, t, t, t), NotAttempted, {}), FinishSubCheck(t)]
  }

  /** What such a check does when it is not rate limited and sends notice n without touching the database. */
  lemma CheckNotifies(s: State, t: Time, n: Notice)
    requires s.subCheck.SubIdle? && s.clock <= t && !TooSoon(t, s.lastSubCheck)
    requires LifecycleIds(s.db) == {0} && forall v :: !s.db.LiveVm(0, v)
    requires var row, r := s.db.subscriptions[0], Reads(t, t, t, t, t);
             && BranchFor(s.db, 0, row, s.lastSubCheck, r, s.deleteAfter) in {Soon, Lapsed}
             && Handle(s.db, 0, row, s.lastSubCheck, r, s.deleteAfter, NotAttempted, {}).notices == [n]
    ensures Run(s, CheckAt(t)) == s.(clock := t, lastSubCheck := Truncated(t), notices := s.notices + [n])
  {
    var steps := CheckAt(t);
    var row := Listed(0, s.db.subscriptions[0]);
    var s1 := Next(s, steps[0]);
    assert s1 == s.(clock := t, subCheck := SubRunning([row]));
    var s2 := Next(s1, steps[1]);
    assert s.db.history + ExpiredRows(s.db, 0, t) == s.db.history;
    assert s2 == s1.(notices := s.notices + [n], subCheck := SubRunning([]));
    assert steps[1..][1..] == [steps[2]];
    assert Run(s, steps) == Run(s1, steps[1..]) == Run(s2, [steps[2]]) == Run(Next(s2, steps[2]), []);
  }

  /** An expiry one nanosecond past a whole second, checked within that second, is warned about twice. */
  lemma SoonSentTwice() returns (s: State, steps: seq<Step>, e: Time)
    ensures Valid(s) && s.notices == []
    ensures Count(Run(s, steps).notices, 0, Soon, Some(e)) == 2
  {
    e := 100 * DAY + 1;
    s := Lone(e);
    var t, u := 99 * DAY + 2, 99 * DAY + 60 * SECOND;
    var n, m := Notice(0, SoonNotice, e, t), Notice(0, SoonNotice, e, u);
    assert LifecycleIds(s.db) == {0};
    CheckNotifies(s, t, n);
    var mid := Run(s, CheckAt(t));
    CheckNotifies(mid, u, m);
    steps := CheckAt(t) + CheckAt(u);
    RunAppend(s, CheckAt(t), CheckAt(u));
    CountSnoc([], n, 0, Soon, Some(e));
    CountSnoc([n], m, 0, Soon, Some(e));
    assert [] + [n] == [n];
  }

  /** Without a VPS, an expiry found by a check that ends in the same second is announced twice. */
  lemma ExpiredSentTwice() returns (s: State, steps: seq<Step>, e: Time)
    ensures Valid(s) && s.notices == [] && WholeSecond(e)
    ensures Count(Run(s, steps).notices, 0, Lapsed, Some(e)) == 2
  {
    e := 100 * DAY;
    s := Lone(e);
    var t, u := e + 1, e + 60 * SECOND;
    LoneIsAnnounced(s, e, t);
    var mid := Run(s, CheckAt(t));
    LoneIsAnnounced(mid, e, u);
    steps := CheckAt(t) + CheckAt(u);
    RunAppend(s, CheckAt(t), CheckAt(u));
    var n, m := Notice(0, ExpiredNotice, e, t), Notice(0, ExpiredNotice, e, u);
    CountSnoc([], n, 0, Lapsed, Some(e));
    CountSnoc([n], m, 0, Lapsed, Some(e));
    assert [] + [n] == [n];
  }

  lemma LoneIsAnnounced(s: State, e: Time, t: Time)
    requires s.db == Lone(e).db && s.subCheck.SubIdle? && s.deleteAfter == 30
    requires s.clock <= t && !TooSoon(t, s.lastSubCheck) && s.lastSubCheck <= e == 100 * DAY < t < e + DAY
    ensures Run(s, CheckAt(t))
         == s.(clock := t, lastSubCheck := Truncated(t), notices := s.notices + [Notice(0, ExpiredNotice, e, t)])
  {
    assert LifecycleIds(s.db) == {0};
    CheckNotifies(s, t, Notice(0, ExpiredNotice, e, t));
  }

  /** A VPS whose VM the customer or an administrator deleted is told of the same expiry by every check. */
  lemma ExpiredRepeatsAfterDelete() returns (s: State, steps: seq<Step>, e: Time)
    ensures Valid(s) && s.notices == [] && s.db.HasVps(0) && s.db.SetUp(0) && s.db.Bills(0, 0)
    ensures Count(Run(s, steps).notices, 0, Lapsed, Some(e)) == 2
  {
    e := 100 * DAY;
    s := Lone(e).(db := Lone(e).db.(lineItems := map[0 := LineItem(0, Vps)], vms := map[0 := Vm(0, true)]));
    assert s.db.lineItems[0] == LineItem(0, Vps);
    var t, u := e + 60 * SECOND, e + 120 * SECOND;
    DeletedVmIsAnnounced(s, e, t);
    var mid := Run(s, CheckAt(t));
    DeletedVmIsAnnounced(mid, e, u);
    steps := CheckAt(t) + CheckAt(u);
    RunAppend(s, CheckAt(t), CheckAt(u));
    var n, m := Notice(0, ExpiredNotice, e, t), Notice(0, ExpiredNotice, e, u);
    CountSnoc([], n, 0, Lapsed, Some(e));
    CountSnoc([n], m, 0, Lapsed, Some(e));
    assert [] + [n] == [n];
  }

  lemma DeletedVmIsAnnounced(s: State, e: Time, t: Time)
    requires s.db.subscriptions == map[0 := Subscription(0, Some(e), true, true, Day, 1)]
    requires e == 100 * DAY < t < e + DAY
    requires s.db.lineItems == map[0 := LineItem(0, Vps)] && s.db.vms == map[0 := Vm(0, true)]
    requires s.subCheck.SubIdle? && s.clock <= t && s.lastSubCheck + 60 * SECOND <= t && s.deleteAfter == 30
    ensures Run(s, CheckAt(t))
         == s.(clock := t, lastSubCheck := Truncated(t), notices := s.notices + [Notice(0, ExpiredNotice, e, t)])
  {
    assert LifecycleIds(s.db) == {0} && s.db.lineItems[0] == LineItem(0, Vps);
    CheckNotifies(s, t, Notice(0, ExpiredNotice, e, t));
  }

  // ----- notices that are never sent -----

  lemma Three(s: State, a: Step, b: Step, c: Step)
    ensures Run(s, [a, b, c]) == Next(Next(Next(s, a), b), c)
  {
    var s1 := Next(s, a);
    var s2 := Next(s1, b);
    assert [a, b, c][1..] == [b, c] && [b, c][1..] == [c] && [c][1..] == [];
    assert Run(s, [a, b, c]) == Run(s1, [b, c]);
    assert Run(s1, [b, c]) == Run(s2, [c]);
    assert Run(s2, [c]) == Run(Next(s2, c), []);
  }

  lemma Four(s: State, a: Step, b: Step, c: Step, d: Step)
    ensures Run(s, [a, b, c, d]) == Next(Next(Next(Next(s, a), b), c), d)
  {
    assert [a, b, c, d][1..] == [b, c, d];
    Three(Next(s, a), b, c, d);
  }

  /** The first check of a lone subscription, up to its end: it looks at instant t and ends at u. */
  lemma SlowCheck(e: Time, t: Time, u: Time) returns (steps: seq<Step>)
    requires 60 * SECOND <= t <= u && t < e
    ensures var s, r := Lone(e), Reads(t, t, t, t, t);
            Run(s, steps) == s.(clock := u, lastSubCheck := Truncated(u),
                                notices := Handle(s.db, 0, s.db.subscriptions[0], 0, r, 30, NotAttempted, {}).notices)
  {
    var s := Lone(e);
    var a, b, c := StartSubCheck(t, [0]), HandleNext(Reads(t, t, t, t, t), NotAttempted, {}), FinishSubCheck(u);
    steps := [a, b, c];
    Three(s, a, b, c);
    assert LifecycleIds(s.db) == {0};
    var s1 := Next(s, a);
    assert s1 == s.(clock := t, subCheck := SubRunning([Listed(0, s.db.subscriptions[0])]));
    var s2 := Next(s1, b);
    assert s2.db == s.db && s2.subCheck == SubRunning([]) && s2.clock == t;
  }

  lemma LoneIsValid(e: Time)
    ensures Valid(Lone(e)) && !Lone(e).db.HasVps(0)
  {
  }

  /** A check that looks one second before the expiry and ends two seconds after it: Expired is never sent. */
  lemma ExpiredNeverSent() returns (s: State, steps: seq<Step>, e: Time)
    ensures Valid(s) && s.notices == [] && !s.db.HasVps(0) && s.lastSubCheck < s.lastSubCheck + DAY < e
    ensures var t := Run(s, steps);
            && t.db == s.db && 0 in LifecycleIds(t.db) && t.db.subscriptions[0].expires == Some(e)
            && e < t.clock
    ensures forall more :: Count(Run(Run(s, steps), more).notices, 0, Lapsed, Some(e)) == 0
  {
    e := 100 * DAY;
    s := Lone(e);
    LoneIsValid(e);
    steps := SlowCheck(e, e - SECOND, e + 2 * SECOND);
    var t := Run(s, steps);
    ValidRun(s, steps);
    CountSnoc([], t.notices[0], 0, Lapsed, Some(e));
    assert t.notices == [] + [t.notices[0]];
    forall more ensures Count(Run(t, more).notices, 0, Lapsed, Some(e)) == 0 {
      PastCheckStaysSilent(t, more, 0, e);
    }
  }

  /** A check that looks one second before the last day and ends two seconds into it: the warning is never sent. */
  lemma WarningNeverSent() returns (s: State, steps: seq<Step>, e: Time)
    ensures Valid(s) && s.notices == [] && s.lastSubCheck + DAY < e
    ensures var t := Run(s, steps);
            && t.db == s.db && 0 in LifecycleIds(t.db) && t.db.subscriptions[0].expires == Some(e)
            && t.clock < e < t.clock + DAY
    ensures forall more :: Count(Run(Run(s, steps), more).notices, 0, Soon, Some(e)) == 0
  {
    e := 100 * DAY;
    s := Lone(e);
    LoneIsValid(e);
    steps := SlowCheck(e, e - DAY - SECOND, e - DAY + 2 * SECOND);
    var t := Run(s, steps);
    ValidRun(s, steps);
    assert t.notices == [];
    forall more ensures Count(Run(t, more).notices, 0, Soon, Some(e)) == 0 {
      PastWindowStaysSilent(t, more, 0, e);
    }
  }

  // ----- a settlement undone, and paid VMs purged -----

  /** One subscription with its VM and one unpaid payment of a thousand seconds. */
  ghost function Ordered(row: Subscription): State {
    State(Db(map[0 := row], map[0 := LineItem(0, Vps)], map[0 := Vm(0, false)], [OpenPayment()], {}),
          0, 30, 0, SubIdle, 0, VmIdle, [])
  }

  function OpenPayment(): Payment {
    Payment(0, 0, 0, OnChain, Some("outpoint"), false, Some(1000))
  }

  ghost predicate AllPaid(ps: seq<Payment>) {
    ps != [] && forall i :: 0 <= i < |ps| ==> ps[i].isPaid
  }

  function Deliver0(now: Time): Step {
    Deliver(0, now, (t: Time, n: nat) => t)
  }

  function HandleAt(t: Time): Step {
    HandleNext(Reads(t, t, t, t, t), NotAttempted, {})
  }

  const NOW: Time := 20 * DAY

  /** A check of either kind is due. */
  ghost predicate Due(s: State) {
    s.clock <= NOW && s.lastSubCheck == 0 && s.lastVmCheck == 0 && s.deleteAfter == 30
  }

  lemma Lists(s: State, row: Subscription)
    requires Due(s) && s.subCheck.SubIdle? && s.db.subscriptions == map[0 := row] && row.isActive && row.expires.Some?
    ensures Next(s, StartSubCheck(NOW, [0])) == s.(clock := NOW, subCheck := SubRunning([Listed(0, row)]))
  {
    assert LifecycleIds(s.db) == {0};
    IsDue();
    assert ListRows(s.db, [0]) == [Listed(0, row)];
  }

  lemma IsDue()
    ensures !TooSoon(NOW, 0)
  {
  }

  lemma Dooms(s: State, row: Subscription)
    requires Due(s) && s.vmCheck.VmIdle? && s.db.subscriptions == map[0 := row] && !row.isSetup && row.created == 0
    requires s.db.lineItems == map[0 := LineItem(0, Vps)] && s.db.vms == map[0 := Vm(0, false)]
    ensures Next(Next(s, StartVmCheck(NOW, [0])), ClassifyNext(NOW))
         == s.(clock := NOW, vmCheck := Classifying([], [Doomed(0, 0)]))
  {
    assert LiveVmIds(s.db) == {0};
    IsDue();
    assert ListVms(s.db, [0]) == [Doomed(0, 0)];
    var t := Next(s, StartVmCheck(NOW, [0]));
    assert t == s.(clock := NOW, vmCheck := Classifying([Doomed(0, 0)], []));
    assert [Doomed(0, 0)][1..] == [] && [] + [Doomed(0, 0)] == [Doomed(0, 0)];
  }

  lemma Pays(s: State, row: Subscription)
    requires s.clock == NOW && s.db.payments == [OpenPayment()] && s.db.subscriptions == map[0 := row]
    requires s.db.lineItems == map[0 := LineItem(0, Vps)] && s.db.vms == map[0 := Vm(0, false)]
    ensures var t := Next(s, Deliver0(NOW));
            && Settles(s, Deliver0(NOW), 0) && Credit(s, Deliver0(NOW), 0) == 1000 * SECOND
            && t == s.(db := t.db) && t.db.SetUp(0) && AllPaid(t.db.payments)
            && t.db.lineItems == s.db.lineItems && t.db.vms == s.db.vms
  {
    assert FindPayment([OpenPayment()], 0) == Some(0);
    assert Undeleted(s.db, 0) == s.db.vms;
  }

  /** The cancel branch on a row that expired on the first day. */
  lemma Cancels(s: State, row: Subscription)
    requires Due(s) && s.clock == NOW && s.subCheck == SubRunning([Listed(0, row)]) && 0 in s.db.subscriptions
    requires row.expires == Some(0) && row.created == 0
    ensures var t := Next(s, HandleAt(NOW));
            && Handles(s, HandleAt(NOW), 0, row) && BranchOf(s, HandleAt(NOW)) == GraceExceeded
            && t.db == s.db.(subscriptions := s.db.subscriptions[0 := row.(isActive := false)],
                             vms := SoftDeleted(s.db, 0, {}))
            && t.vmCheck == s.vmCheck && t.clock == NOW
  {
  }

  /** A settlement between listing and cancelling: the payment stays paid, the bought time is gone. */
  lemma PaidTimeLost() returns (s: State, steps: seq<Step>)
    ensures Valid(s) && PaidUp(s) && NeverAhead(s, 0) && s.db.payments == [OpenPayment()] && s.db.HasExpiry(0)
    ensures var t := Run(s, steps);
            && 0 in t.db.subscriptions && t.db.subscriptions[0] == s.db.subscriptions[0].(isActive := false)
            && AllPaid(t.db.payments) && Credits(s, steps, 0) == 1000 * SECOND && StaleCancelIn(s, steps, 0)
  {
    var row := Subscription(0, Some(0), true, true, Day, 1);
    s := Ordered(row);
    var a, b, c := StartSubCheck(NOW, [0]), Deliver0(NOW), HandleAt(NOW);
    steps := [a, b, c];
    Three(s, a, b, c);
    Lists(s, row);
    var s1 := Next(s, a);
    Pays(s1, row);
    var s2 := Next(s1, b);
    Cancels(s2, row);
    CreditsOfThree(s, a, b, c);
    SettlementLostToStaleCancel(s1, b, c, 0);
  }

  lemma CreditsOfThree(s: State, a: Step, b: Step, c: Step)
    requires a.StartSubCheck? && c.HandleNext?
    ensures Credits(s, [a, b, c], 0) == Credit(Next(s, a), b, 0)
    ensures StaleCancel(Next(Next(s, a), b), c, 0) ==> StaleCancelIn(s, [a, b, c], 0)
  {
    assert [a, b, c][1..] == [b, c] && [b, c][1..] == [c] && [c][1..] == [];
    var s2 := Next(Next(s, a), b);
    assert Credits(s2, [c], 0) == Credit(s2, c, 0) + Credits(Next(s2, c), [], 0);
    assert StaleCancelIn(s2, [c], 0) <==> StaleCancel(s2, c, 0);
    assert StaleCancelIn(Next(s, a), [b, c], 0) <== StaleCancelIn(s2, [c], 0);
  }

  /** A deposit that settles after the re-read: paid for, and purged in the same turn. */
  lemma PaidVmPurged() returns (s: State, before: seq<Step>, purge: seq<Step>)
    ensures Valid(s) && PaidUp(s) && Run(s, before).db.SetUp(0) && AllPaid(Run(s, before).db.payments)
    ensures Run(s, before + purge).db.subscriptions == map[]
  {
    var row := Subscription(0, None, false, false, Day, 1);
    s := Ordered(row);
    var a, b, c, d := StartVmCheck(NOW, [0]), ClassifyNext(NOW), RereadNext, Deliver0(NOW);
    before := [a, b, c, d];
    Four(s, a, b, c, d);
    Dooms(s, row);
    var s2 := Next(Next(s, a), b);
    var s3 := Next(s2, c);
    assert [Doomed(0, 0)][1..] == [] && StillUnpaid(s2.db, Doomed(0, 0));
    assert s3 == s2.(vmCheck := Deleting([], Unpaid(Doomed(0, 0))));
    Pays(s3, row);
    var t := Next(s3, d);
    purge := [ReadPayments(t.clock), PurgeNext(true)];
    WindowIsPurged(t, 0);
    RunAppend(s, before, purge);
    NothingLeft(s, before + purge);
  }

  lemma NothingLeft(s: State, steps: seq<Step>)
    requires s.db.subscriptions.Keys == {0} && 0 !in Run(s, steps).db.subscriptions
    ensures Run(s, steps).db.subscriptions == map[]
  {
    KeysShrink(s, steps);
    assert Run(s, steps).db.subscriptions.Keys == {};
  }

  /**
   * A subscription created active and expired but never paid, as an administrator can: its settlement
   * outside every window is undone by the stale cancellation, set-up flag included, and the VM
   * check that doomed it before goes on to purge it.
   */
  lemma PaidVmPurgedOutsideWindow() returns (s: State, before: seq<Step>, after: seq<Step>)
    ensures Valid(s) && !PaidUp(s)
    ensures var t := Run(s, before); t.db.SetUp(0) && !InWindow(t, 0) && !ListedSetUp(t, 0) && AllPaid(t.db.payments)
    ensures Run(s, before + after).db.subscriptions == map[]
  {
    var row := Subscription(0, Some(0), true, false, Day, 1);
    s := Ordered(row);
    assert 0 in LifecycleIds(s.db);
    var a, b, c, d := StartSubCheck(NOW, [0]), StartVmCheck(NOW, [0]), ClassifyNext(NOW), Deliver0(NOW);
    before := [a, b, c, d];
    Four(s, a, b, c, d);
    Lists(s, row);
    Dooms(Next(s, a), row);
    var s3 := Next(Next(Next(s, a), b), c);
    Pays(s3, row);
    var t := Next(s3, d);
    assert t.subCheck.pending[0] == Listed(0, row);
    after := CancelThenPurge(t, row);
    RunAppend(s, before, after);
    NothingLeft(s, before + after);
  }

  /** From a doomed VM and a waiting row that was never set up: cancel on it, re-read, purge. */
  lemma CancelThenPurge(t: State, row: Subscription) returns (steps: seq<Step>)
    requires Due(t) && t.clock == NOW && row == Subscription(0, Some(0), true, false, Day, 1) && 0 in t.db.subscriptions
    requires t.subCheck == SubRunning([Listed(0, row)]) && t.vmCheck == Classifying([], [Doomed(0, 0)])
    requires t.db.lineItems == map[0 := LineItem(0, Vps)] && t.db.vms == map[0 := Vm(0, false)]
    requires AllPaid(t.db.payments)
    ensures 0 !in Run(t, steps).db.subscriptions
  {
    var a, b := HandleAt(NOW), RereadNext;
    Cancels(t, row);
    var t1 := Next(t, a);
    var t2 := Next(t1, b);
    assert t2.vmCheck == Deleting([], Unpaid(Doomed(0, 0))) && t2.db == t1.db;
    WindowIsPurged(t2, 0);
    steps := [a, b, ReadPayments(NOW), PurgeNext(true)];
    assert steps[1..] == [b, ReadPayments(NOW), PurgeNext(true)];
    assert steps[1..][1..] == [ReadPayments(NOW), PurgeNext(true)];
    assert Run(t, steps) == Run(t1, steps[1..]) == Run(t2, steps[1..][1..]);
  }
}
