/** The notices without a VM marker: where "at most once" holds, and exactly where it breaks. */
module NoticeLimits {
  import opened Options
  import opened Clock
  import opened Numbers
  import opened Billing
  import opened Lifecycle
  import opened WorkerSystem
  import opened WorkerInvariants
  import opened Notices
  import opened ExpiryRuns

  // ----- a VPS line item without a live VM -----

  /** k has a VPS line item, but every VM row of it is gone or soft-deleted. */
  ghost predicate VpsWithoutLiveVm(db: Db, k: Id) {
    db.HasVps(k) && forall v :: !db.LiveVm(k, v)
  }

  ghost predicate NoVmRow(db: Db, k: Id) {
    forall v :: !db.Bills(k, v)
  }

  ghost function Landings(s: State, steps: seq<Step>, k: Id, e: Time): nat
    decreases |steps|
  {
    if steps == [] then 0
    else (if Lands(s, steps[0], k, e) then 1 else 0) + Landings(Next(s, steps[0]), steps[1..], k, e)
  }

  lemma NoVmRowStep(s: State, step: Step, k: Id)
    requires NoVmRow(s.db, k)
    ensures NoVmRow(Next(s, step).db, k)
  {
    LineItemsShrink(s, step);
    forall v ensures !Next(s, step).db.Bills(k, v) {
      assert !s.db.Bills(k, v);
      VmsKeepLineItems(s, step, v);
    }
  }

  /** A step that keeps k keeps its line items. */
  lemma KeptKeepsVps(s: State, step: Step, k: Id)
    requires s.db.HasVps(k) && k in Next(s, step).db.subscriptions
    ensures Next(s, step).db.HasVps(k)
  {
    var li :| li in s.db.lineItems && s.db.lineItems[li] == LineItem(k, Vps);
    assert li in Next(s, step).db.lineItems && Next(s, step).db.lineItems[li] == LineItem(k, Vps);
  }

  /** Only a settlement of k brings a VM of k back. */
  lemma NoLiveVmStep(s: State, step: Step, k: Id, v: Id)
    requires !s.db.LiveVm(k, v) && !Settles(s, step, k)
    ensures !Next(s, step).db.LiveVm(k, v)
  {
    VmsKeepLineItems(s, step, v);
    LineItemsShrink(s, step);
  }

  lemma WithoutLiveVmStep(s: State, step: Step, k: Id)
    requires VpsWithoutLiveVm(s.db, k)
    requires (!Settles(s, step, k) && k in Next(s, step).db.subscriptions) || NoVmRow(s.db, k)
    ensures VpsWithoutLiveVm(Next(s, step).db, k)
  {
    if NoVmRow(s.db, k) {
      PurgeNeedsWindow(s, step, k);
      NoVmRowStep(s, step, k);
      assert forall v :: Next(s, step).db.LiveVm(k, v) ==> Next(s, step).db.Bills(k, v);
    } else {
      KeptKeepsVps(s, step, k);
      forall v ensures !Next(s, step).db.LiveVm(k, v) {
        NoLiveVmStep(s, step, k, v);
      }
    }
  }

  /**
   * Without a live VM there is nowhere to leave a mark, or to find one: every landing check sends
   * the notice again, until a settlement brings the VM back or k is purged.
   */
  lemma {:induction false} ExpiredRepeatsWithoutVm(s: State, steps: seq<Step>, k: Id, e: Time)
    requires VpsWithoutLiveVm(s.db, k)
    requires (!SettlesIn(s, steps, k) && k in Run(s, steps).db.subscriptions) || NoVmRow(s.db, k)
    ensures Count(Run(s, steps).notices, k, Lapsed, Some(e))
         == Count(s.notices, k, Lapsed, Some(e)) + Landings(s, steps, k, e)
    decreases |steps|
  {
    if steps != [] {
      var step := steps[0];
      KeysShrink(Next(s, step), steps[1..]);
      WithoutLiveVmStep(s, step, k);
      if NoVmRow(s.db, k) { NoVmRowStep(s, step, k); }
      CountStep(s, step, k, Lapsed, Some(e));
      assert Lands(s, step, k, e) <==> Fires(s, step, k, Lapsed, e);
      ExpiredRepeatsWithoutVm(Next(s, step), steps[1..], k, e);
    }
  }

  // ----- Expiring Soon -----

  /** The check ends in the same second in which its one-day window reached e. */
  predicate SoonStraddles(step: Step, e: Time) {
    step.FinishSubCheck? && Truncated(step.now) + DAY < e < step.now + DAY
  }

  ghost predicate SoonStraddlesIn(s: State, steps: seq<Step>, e: Time)
    decreases |steps|
  {
    steps != [] &&
    ((Enabled(s, steps[0]) && SoonStraddles(steps[0], e)) || SoonStraddlesIn(Next(s, steps[0]), steps[1..], e))
  }

  ghost predicate SoonSpent(s: State, k: Id, e: Time) {
    e <= s.lastSubCheck + DAY || (s.subCheck.SubRunning? && !Pending(s, k) && e < s.clock + DAY)
  }

  lemma HandledOnceEach(s: State, step: Step, k: Id, r: Subscription)
    requires Valid(s) && Handles(s, step, k, r)
    ensures !Pending(Next(s, step), k)
  {
    var p := s.subCheck.pending;
    assert forall i :: 0 <= i < |p| - 1 ==> p[1..][i] == p[i + 1];
  }

  lemma NotPendingStep(s: State, step: Step, k: Id)
    requires s.subCheck.SubRunning? && !Pending(s, k)
    ensures !Pending(Next(s, step), k)
  {
    var p := s.subCheck.pending;
    assert forall i :: 0 <= i < |p| - 1 ==> p[1..][i] == p[i + 1];
  }

  lemma SoonSpentStep(s: State, step: Step, k: Id, e: Time)
    requires Valid(s) && SoonSpent(s, k, e) && !(Enabled(s, step) && SoonStraddles(step, e))
    ensures SoonSpent(Next(s, step), k, e)
  {
    PastStep(s, step);
    if s.subCheck.SubRunning? && !Pending(s, k) { NotPendingStep(s, step, k); }
  }

  /** Over every run the warning for one expiry value is sent at most once, and never after it. */
  lemma {:induction false} SoonAtMostOnce(s: State, steps: seq<Step>, k: Id, e: Time)
    requires Valid(s) && !SoonStraddlesIn(s, steps, e)
    ensures Count(Run(s, steps).notices, k, Soon, Some(e))
         <= Count(s.notices, k, Soon, Some(e)) + (if SoonSpent(s, k, e) then 0 else 1)
    decreases |steps|
  {
    if steps != [] {
      var step := steps[0];
      ValidStep(s, step);
      CountStep(s, step, k, Soon, Some(e));
      if Fires(s, step, k, Soon, e) {
        HandledOnceEach(s, step, k, s.subCheck.pending[0].row);
      } else if SoonSpent(s, k, e) {
        SoonSpentStep(s, step, k, e);
      }
      SoonAtMostOnce(Next(s, step), steps[1..], k, e);
    }
  }

  lemma SoonIsAhead(s: State, step: Step, k: Id, e: Time)
    requires Fires(s, step, k, Soon, e)
    ensures step.times.now < e
  {
  }

  /** An expiry on a whole second, as the subscription table stores it, is never straddled. */
  lemma WholeSecondsNeverStraddle(step: Step, e: Time)
    requires WholeSecond(e)
    ensures !SoonStraddles(step, e)
  {
  }

  /** Once a check straddles e, every later look at k before e sends the warning again. */
  lemma StraddlingWarnsAgain(s: State, finish: Step, t: State, step: Step, k: Id, r: Subscription, e: Time)
    requires Enabled(s, finish) && SoonStraddles(finish, e)
    requires t.lastSubCheck == Next(s, finish).lastSubCheck && finish.now <= t.clock
    requires Handles(t, step, k, r) && r.expires == Some(e) && step.times.now < e
    ensures Fires(t, step, k, Soon, e)
  {
  }

  // ----- Expired, no VPS line item: the stored check time is the marker -----

  /** The check ends after e but in the same second as e. */
  predicate ExpiryStraddles(step: Step, e: Time) {
    step.FinishSubCheck? && Truncated(step.now) <= e < step.now
  }

  ghost predicate ExpiryStraddlesIn(s: State, steps: seq<Step>, e: Time)
    decreases |steps|
  {
    steps != [] &&
    ((Enabled(s, steps[0]) && ExpiryStraddles(steps[0], e)) || ExpiryStraddlesIn(Next(s, steps[0]), steps[1..], e))
  }

  ghost predicate ExpirySpent(s: State, k: Id, e: Time) {
    e < s.lastSubCheck || (s.subCheck.SubRunning? && !Pending(s, k) && e < s.clock)
  }

  lemma ExpirySpentStep(s: State, step: Step, k: Id, e: Time)
    requires Valid(s) && ExpirySpent(s, k, e) && !(Enabled(s, step) && ExpiryStraddles(step, e))
    ensures ExpirySpent(Next(s, step), k, e)
  {
    PastStep(s, step);
    if s.subCheck.SubRunning? && !Pending(s, k) { NotPendingStep(s, step, k); }
  }

  /** Over every run a subscription without a VPS is told at most once that e has passed. */
  lemma {:induction false} ExpiredAtMostOnceWithoutVps(s: State, steps: seq<Step>, k: Id, e: Time)
    requires Valid(s) && !s.db.HasVps(k) && !ExpiryStraddlesIn(s, steps, e)
    ensures Count(Run(s, steps).notices, k, Lapsed, Some(e))
         <= Count(s.notices, k, Lapsed, Some(e)) + (if ExpirySpent(s, k, e) then 0 else 1)
    decreases |steps|
  {
    if steps != [] {
      var step := steps[0];
      ValidStep(s, step);
      LineItemsShrink(s, step);
      CountStep(s, step, k, Lapsed, Some(e));
      if Fires(s, step, k, Lapsed, e) {
        HandledOnceEach(s, step, k, s.subCheck.pending[0].row);
      } else if ExpirySpent(s, k, e) {
        ExpirySpentStep(s, step, k, e);
      }
      ExpiredAtMostOnceWithoutVps(Next(s, step), steps[1..], k, e);
    }
  }

  /** On a clock that only shows whole seconds no check straddles an expiry. */
  lemma WholeSecondClockNeverStraddles(step: Step, e: Time)
    requires step.FinishSubCheck? ==> WholeSecond(step.now)
    ensures !ExpiryStraddles(step, e) && !SoonStraddles(step, e)
  {
  }

  lemma MarkNeedsVps(db: Db, k: Id, e: Time)
    ensures db.Marked(k, e) ==> db.HasVps(k)
  {
    if db.Marked(k, e) {
      var h :| h in db.history && h.action == Expired && h.at >= e && db.LiveVm(k, h.vm);
      assert db.lineItems[db.vms[h.vm].lineItem] == LineItem(k, Vps);
    }
  }

  /** Once a check straddles e, the next landing check announces the expiry again. */
  lemma StraddlingExpiresAgain(s: State, finish: Step, t: State, step: Step, k: Id, e: Time)
    requires Enabled(s, finish) && ExpiryStraddles(finish, e)
    requires t.lastSubCheck == Next(s, finish).lastSubCheck && !t.db.HasVps(k)
    requires Lands(t, step, k, e)
    ensures Fires(t, step, k, Lapsed, e)
  {
    MarkNeedsVps(t.db, k, e);
  }

  // ----- when a due notice goes out, and when it is lost -----

  /** A check warns k exactly when it finds k in its last day and the previous check ended before that day began. */
  lemma WarningInWindow(s: State, step: Step, k: Id, r: Subscription, e: Time)
    requires Handles(s, step, k, r) && r.expires == Some(e)
    ensures Fires(s, step, k, Soon, e)
       <==> step.times.now < e < step.times.now + DAY && s.lastSubCheck + DAY < e
  {
  }

  /** A check that lands on k without a VPS announces the expiry exactly when the previous check ended by then. */
  lemma LandingWithoutVps(s: State, step: Step, k: Id, e: Time)
    requires Lands(s, step, k, e) && !s.db.HasVps(k)
    ensures Fires(s, step, k, Lapsed, e) <==> s.lastSubCheck <= e
  {
    MarkNeedsVps(s.db, k, e);
  }

  lemma LastCheckGrows(s: State, step: Step)
    requires Valid(s)
    ensures s.lastSubCheck <= Next(s, step).lastSubCheck
  {
  }

  lemma {:induction false} PastCheckStaysSilent(s: State, steps: seq<Step>, k: Id, e: Time)
    requires Valid(s) && !s.db.HasVps(k) && e < s.lastSubCheck
    ensures Count(Run(s, steps).notices, k, Lapsed, Some(e)) == Count(s.notices, k, Lapsed, Some(e))
    decreases |steps|
  {
    if steps != [] {
      ValidStep(s, steps[0]);
      LastCheckGrows(s, steps[0]);
      LineItemsShrink(s, steps[0]);
      CountStep(s, steps[0], k, Lapsed, Some(e));
      PastCheckStaysSilent(Next(s, steps[0]), steps[1..], k, e);
    }
  }

  /**
   * A check that looked at k before e and ends a second or more after e loses the notice: no later
   * step of any run announces e to a subscription without a VPS.
   */
  lemma SlowCheckLosesExpiry(s: State, finish: Step, steps: seq<Step>, k: Id, e: Time)
    requires Valid(s) && !s.db.HasVps(k) && Enabled(s, finish) && finish.FinishSubCheck? && e < Truncated(finish.now)
    ensures Count(Run(Next(s, finish), steps).notices, k, Lapsed, Some(e)) == Count(s.notices, k, Lapsed, Some(e))
  {
    ValidStep(s, finish);
    PastCheckStaysSilent(Next(s, finish), steps, k, e);
  }

  lemma {:induction false} PastWindowStaysSilent(s: State, steps: seq<Step>, k: Id, e: Time)
    requires Valid(s) && e <= s.lastSubCheck + DAY
    ensures Count(Run(s, steps).notices, k, Soon, Some(e)) == Count(s.notices, k, Soon, Some(e))
    decreases |steps|
  {
    if steps != [] {
      ValidStep(s, steps[0]);
      LastCheckGrows(s, steps[0]);
      CountStep(s, steps[0], k, Soon, Some(e));
      PastWindowStaysSilent(Next(s, steps[0]), steps[1..], k, e);
    }
  }

  /** Likewise a check that ends inside the last day of k, having looked at k before it, loses the warning. */
  lemma SlowCheckLosesWarning(s: State, finish: Step, steps: seq<Step>, k: Id, e: Time)
    requires Valid(s) && Enabled(s, finish) && finish.FinishSubCheck? && e <= Truncated(finish.now) + DAY
    ensures Count(Run(Next(s, finish), steps).notices, k, Soon, Some(e)) == Count(s.notices, k, Soon, Some(e))
  {
    ValidStep(s, finish);
    PastWindowStaysSilent(Next(s, finish), steps, k, e);
  }

  // ----- Cancelled -----

  ghost predicate CancelSpent(s: State, k: Id) {
    !Pending(s, k) && (k in s.db.subscriptions ==> !s.db.subscriptions[k].isActive)
  }

  lemma CancelSpentStep(s: State, step: Step, k: Id)
    requires Valid(s) && CancelSpent(s, k) && !Settles(s, step, k)
    ensures CancelSpent(Next(s, step), k)
  {
    var t := Next(s, step);
    SubscriptionsShrink(s, step);
    if s.subCheck.SubRunning? {
      NotPendingStep(s, step, k);
    } else {
      OnlyActiveIsListed(s, step, k);
    }
  }

  lemma OnlyActiveIsListed(s: State, step: Step, k: Id)
    requires s.subCheck.SubIdle?
    ensures Pending(Next(s, step), k) ==> k in LifecycleIds(s.db)
  {
    var t := Next(s, step);
    if Pending(t, k) {
      var i :| 0 <= i < |t.subCheck.pending| && t.subCheck.pending[i].id == k;
      assert step.order[i] in step.order;
    }
  }

  /** Between two settlements a subscription is cancelled, and told so, at most once. */
  lemma {:induction false} CancelledAtMostOnce(s: State, steps: seq<Step>, k: Id)
    requires Valid(s) && !SettlesIn(s, steps, k)
    ensures Count(Run(s, steps).notices, k, GraceExceeded, None)
         <= Count(s.notices, k, GraceExceeded, None) + (if CancelSpent(s, k) then 0 else 1)
    decreases |steps|
  {
    if steps != [] {
      var step := steps[0];
      ValidStep(s, step);
      CountStep(s, step, k, GraceExceeded, None);
      if FiresAbout(s, step, k, GraceExceeded, None) {
        HandledOnceEach(s, step, k, s.subCheck.pending[0].row);
      } else if CancelSpent(s, k) {
        CancelSpentStep(s, step, k);
      }
      CancelledAtMostOnce(Next(s, step), steps[1..], k);
    }
  }

  /** In one turn: never before e plus min(1, delete_after) days, always past e plus max(14, delete_after) days. */
  lemma CancelBounds(s: State, step: Step, k: Id, r: Subscription, e: Time)
    requires Handles(s, step, k, r) && r.expires == Some(e)
    ensures BranchOf(s, step) == GraceExceeded ==> e + Min(1, s.deleteAfter) * DAY < step.times.deadlineAt
    ensures e + Max(14, s.deleteAfter) * DAY < step.times.now && k in s.db.subscriptions ==>
              Fires(s, step, k, GraceExceeded, e) && !Next(s, step).db.subscriptions[k].isActive
  {
  }

  /** No Cancelled notice on record was sent earlier than min(1, delete_after) days after its expiry. */
  ghost predicate NoEarlyCancel(s: State) {
    forall i :: 0 <= i < |s.notices| && s.notices[i].kind == CancelledNotice ==>
      s.notices[i].expires + Min(1, s.deleteAfter) * DAY < s.notices[i].at
  }

  lemma NoEarlyCancelStep(s: State, step: Step)
    requires NoEarlyCancel(s)
    ensures NoEarlyCancel(Next(s, step))
  {
    var t := Next(s, step);
    NoticesStep(s, step);
    if Enabled(s, step) && step.HandleNext? {
      var row := s.subCheck.pending[0];
      if row.row.expires.Some? { CancelBounds(s, step, row.id, row.row, row.row.expires.value); }
    }
  }

  /** Over every run no subscription is cancelled earlier than that. */
  lemma {:induction false} NeverCancelledEarly(s: State, steps: seq<Step>)
    requires NoEarlyCancel(s)
    ensures NoEarlyCancel(Run(s, steps))
    decreases |steps|
  {
    if steps != [] {
      NoEarlyCancelStep(s, steps[0]);
      NeverCancelledEarly(Next(s, steps[0]), steps[1..]);
    }
  }

  /** A row of k that expires at e waits to be handled. */
  ghost predicate Waits(s: State, k: Id, e: Time) {
    s.subCheck.SubRunning? &&
    exists i :: 0 <= i < |s.subCheck.pending| && s.subCheck.pending[i].id == k
                && s.subCheck.pending[i].row.expires == Some(e)
  }

  predicate Overdue(s: State, e: Time) {
    e + Max(14, s.deleteAfter) * DAY < s.clock
  }

  lemma WaitsStep(s: State, step: Step, k: Id, e: Time)
    requires Valid(s) && Waits(s, k, e)
    ensures Waits(Next(s, step), k, e) || exists r :: Handles(s, step, k, r) && r.expires == Some(e)
  {
    var p := s.subCheck.pending;
    var i :| 0 <= i < |p| && p[i].id == k && p[i].row.expires == Some(e);
    if Enabled(s, step) && step.HandleNext? {
      if i == 0 {
        assert Handles(s, step, k, p[0].row);
      } else {
        assert Next(s, step).subCheck.pending[i - 1] == p[i];
      }
    } else {
      assert Next(s, step).subCheck == s.subCheck;
    }
  }

  /** An overdue row that waited and no longer waits was cancelled, whatever happened in between. */
  lemma {:induction false} OverdueRowIsCancelled(s: State, steps: seq<Step>, k: Id, e: Time)
    requires Valid(s) && Waits(s, k, e) && Overdue(s, e)
    requires !Waits(Run(s, steps), k, e) && k in Run(s, steps).db.subscriptions
    ensures Count(s.notices, k, GraceExceeded, Some(e)) < Count(Run(s, steps).notices, k, GraceExceeded, Some(e))
    decreases |steps|
  {
    var step := steps[0];
    var t := Next(s, step);
    KeysShrink(s, steps);
    CountStep(s, step, k, GraceExceeded, Some(e));
    if r :| Handles(s, step, k, r) && r.expires == Some(e) {
      CancelBounds(s, step, k, r, e);
      CountGrows(t, steps[1..], k, GraceExceeded, Some(e));
    } else {
      WaitsStep(s, step, k, e);
      ValidStep(s, step);
      PastStep(s, step);
      assert t.deleteAfter == s.deleteAfter;
      OverdueRowIsCancelled(t, steps[1..], k, e);
    }
  }

  /**
   * Every completed check cancels what was overdue when it started: an active subscription past its
   * expiry plus max(14, delete_after) days gets its Cancelled notice before the check is over,
   * with any steps in between, unless it is purged meanwhile.
   */
  lemma CheckCancelsOverdue(s: State, start: Step, steps: seq<Step>, k: Id, e: Time)
    requires Valid(s) && Enabled(s, start) && start.StartSubCheck? && s.lastSubCheck + 30 * SECOND <= start.now
    requires k in s.db.subscriptions && s.db.subscriptions[k].isActive && s.db.subscriptions[k].expires == Some(e)
    requires e + Max(14, s.deleteAfter) * DAY < start.now
    requires Run(Next(s, start), steps).subCheck.SubIdle? && k in Run(Next(s, start), steps).db.subscriptions
    ensures Count(s.notices, k, GraceExceeded, Some(e))
          < Count(Run(Next(s, start), steps).notices, k, GraceExceeded, Some(e))
  {
    var t := Next(s, start);
    ValidStep(s, start);
    assert k in LifecycleIds(s.db) && k in start.order;
    assert !TooSoon(start.now, s.lastSubCheck);
    var i :| 0 <= i < |start.order| && start.order[i] == k;
    assert t.subCheck.pending[i] == Listed(k, s.db.subscriptions[k]);
    OverdueRowIsCancelled(t, steps, k, e);
  }

  /** A check less than thirty seconds after the stored end of the last one, and no other, is skipped. */
  lemma RateLimitExactly(s: State, step: Step)
    requires Enabled(s, step) && step.StartSubCheck?
    ensures Next(s, step).subCheck.SubIdle? <==> step.now < s.lastSubCheck + 30 * SECOND
  {
    assert (step.now - s.lastSubCheck) / SECOND < 30 <==> step.now - s.lastSubCheck < 30 * SECOND;
  }

  lemma VmRateLimitExactly(s: State, step: Step)
    requires Enabled(s, step) && step.StartVmCheck?
    ensures Next(s, step).vmCheck.VmIdle? <==> step.now < s.lastVmCheck + 30 * SECOND
  {
    assert (step.now - s.lastVmCheck) / SECOND < 30 <==> step.now - s.lastVmCheck < 30 * SECOND;
  }

  /** The end of a check is what the next one goes by, to the second. */
  lemma FinishRecordsTime(s: State, step: Step)
    requires Enabled(s, step)
    ensures step.FinishSubCheck? ==>
              Next(s, step).lastSubCheck <= step.now < Next(s, step).lastSubCheck + SECOND
              && Next(s, step).lastVmCheck == s.lastVmCheck
    ensures step.FinishVmCheck? ==>
              Next(s, step).lastVmCheck <= step.now < Next(s, step).lastVmCheck + SECOND
              && Next(s, step).lastSubCheck == s.lastSubCheck
    ensures !step.FinishSubCheck? && !step.FinishVmCheck? ==>
              Next(s, step).lastSubCheck == s.lastSubCheck && Next(s, step).lastVmCheck == s.lastVmCheck
  {
  }

  /** Announcing an expiry leaves one Expired entry for each live VM of k, at one instant, and nothing else. */
  lemma ExpiryLogsExactly(s: State, step: Step, k: Id, e: Time)
    requires Fires(s, step, k, Lapsed, e)
    ensures var t := Next(s, step).db;
            && t == s.db.(history := t.history)
            && forall h :: h in t.history <==>
                 h in s.db.history || (h == HistoryRow(h.vm, Expired, step.times.loggedAt) && s.db.LiveVm(k, h.vm))
  {
  }

  /** A warning says that the subscription was renewed exactly when the attempt succeeded. */
  lemma RenewalDecidesWarning(s: State, step: Step, k: Id, e: Time)
    requires Fires(s, step, k, Soon, e)
    ensures var ns := Next(s, step).notices;
            && |ns| == |s.notices| + 1 && ns[..|s.notices|] == s.notices
            && (ns[|s.notices|].kind == RenewedNotice <==> step.renewal == Succeeded)
            && (ns[|s.notices|].kind == SoonNotice <==> step.renewal != Succeeded)
            && Next(s, step).db == s.db
  {
  }

  /** Cancelling deactivates k and deletes its live VMs, but for those whose host fails, and touches no other VM. */
  lemma CancelDeletesVms(s: State, step: Step, k: Id, e: Time)
    requires Fires(s, step, k, GraceExceeded, e)
    ensures var t := Next(s, step).db;
            && !t.subscriptions[k].isActive && t.vms.Keys == s.db.vms.Keys
            && (forall v :: t.LiveVm(k, v) <==> s.db.LiveVm(k, v) && v in step.failing)
            && (forall v :: v in s.db.vms && !s.db.LiveVm(k, v) ==> t.vms[v] == s.db.vms[v])
            && (forall v :: v in s.db.vms ==> t.vms[v].lineItem == s.db.vms[v].lineItem)
  {
  }

  // ----- cancelling and paying again -----

  /** A settlement after a cancellation brings every VM of k back and makes k active again. */
  lemma SettlementUndoesCancel(s: State, cancel: Step, settle: Step, k: Id, e: Time)
    requires Fires(s, cancel, k, GraceExceeded, e) && Settles(Next(s, cancel), settle, k)
    ensures var t := Next(Next(s, cancel), settle);
            t.db.subscriptions[k].isActive && t.db.vms == Undeleted(s.db, k)
            && forall v :: s.db.LiveVm(k, v) ==> t.db.LiveVm(k, v)
  {
    var mid := Next(s, cancel);
    assert mid.db.vms == SoftDeleted(s.db, k, cancel.failing) && mid.db.lineItems == s.db.lineItems;
    ReviveDeleted(s.db, mid.db, k, cancel.failing);
  }

  lemma ReviveDeleted(db: Db, after: Db, k: Id, failing: set<Id>)
    requires after.vms == SoftDeleted(db, k, failing) && after.lineItems == db.lineItems
    ensures Undeleted(after, k) == Undeleted(db, k)
  {
    assert forall v :: v in db.vms ==>
        after.vms[v].lineItem == db.vms[v].lineItem && (after.Bills(k, v) <==> db.Bills(k, v));
  }
}
