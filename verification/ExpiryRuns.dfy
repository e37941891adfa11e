/** How often the notices of the subscription check go out, over every run of the worker system. */
module ExpiryRuns {
  import opened Options
  import opened Clock
  import opened Billing
  import opened Lifecycle
  import opened WorkerSystem
  import opened WorkerInvariants
  import opened Notices

  // ----- Expired, with a VM: the history row is the marker -----

  ghost predicate HasMarker(db: Db, v: Id, e: Time) {
    exists h :: h in db.history && h.vm == v && h.action == Expired && h.at >= e
  }

  lemma MarkerStays(s: State, step: Step, k: Id, v: Id, e: Time)
    requires Valid(s) && Guarded(s, k, v) && HasMarker(s.db, v, e)
    ensures HasMarker(Next(s, step).db, v, e)
  {
    var h :| h in s.db.history && h.vm == v && h.action == Expired && h.at >= e;
    assert h in Next(s, step).db.history by {
      if Enabled(s, step) && step.PurgeNext? { assert s.db.Bills(k, v); }
    }
  }

  /** While a row of k waits to be handled, k is active, so its VM is live. */
  lemma PendingIsLive(s: State, step: Step, k: Id, v: Id, r: Subscription)
    requires Valid(s) && Guarded(s, k, v) && Handles(s, step, k, r)
    ensures s.db.LiveVm(k, v)
  {
    assert s.subCheck.pending[0].id in s.db.subscriptions;
  }

  lemma ExpiredFiresOnce(s: State, step: Step, k: Id, v: Id, e: Time)
    requires Valid(s) && Guarded(s, k, v) && Fires(s, step, k, Lapsed, e)
    ensures !HasMarker(s.db, v, e) && HasMarker(Next(s, step).db, v, e)
  {
    PendingIsLive(s, step, k, v, s.subCheck.pending[0].row);
    assert HasMarker(s.db, v, e) ==> s.db.Marked(k, e);
    assert HistoryRow(v, Expired, step.times.loggedAt) in Next(s, step).db.history;
  }

  /** Over every run, a subscription with a VM is told at most once that a given expiry has passed. */
  lemma {:induction false} ExpiredAtMostOnce(s: State, steps: seq<Step>, k: Id, v: Id, e: Time)
    requires Valid(s) && Guarded(s, k, v)
    requires Count(s.notices, k, Lapsed, Some(e)) <= (if HasMarker(s.db, v, e) then 1 else 0)
    ensures Count(Run(s, steps).notices, k, Lapsed, Some(e)) <= 1
    decreases |steps|
  {
    if steps != [] {
      var step := steps[0];
      ValidStep(s, step);
      GuardedStep(s, step, k, v);
      CountStep(s, step, k, Lapsed, Some(e));
      if FiresAbout(s, step, k, Lapsed, Some(e)) {
        ExpiredFiresOnce(s, step, k, v, e);
      } else if HasMarker(s.db, v, e) {
        MarkerStays(s, step, k, v, e);
      }
      ExpiredAtMostOnce(Next(s, step), steps[1..], k, v, e);
    }
  }

  // ----- exactly once between two settlements -----

  /** A check that finds k after expiry e and within its grace period. */
  ghost predicate Lands(s: State, step: Step, k: Id, e: Time) {
    && Enabled(s, step) && step.HandleNext?
    && s.subCheck.pending[0].id == k && s.subCheck.pending[0].row.expires == Some(e)
    && e < step.times.expiredAt
    && !(BranchOf(s, step) == Soon) && !(BranchOf(s, step) == GraceExceeded)
  }

  ghost predicate LandsIn(s: State, steps: seq<Step>, k: Id, e: Time)
    decreases |steps|
  {
    steps != [] && (Lands(s, steps[0], k, e) || LandsIn(Next(s, steps[0]), steps[1..], k, e))
  }

  /** The step settles a stored, still unpaid payment of k. */
  ghost predicate Settles(s: State, step: Step, k: Id) {
    && Enabled(s, step) && step.Deliver? && Unsettled(s.db.payments, step.id)
    && s.db.payments[FindPayment(s.db.payments, step.id).value].subscription == k
  }

  ghost predicate SettlesIn(s: State, steps: seq<Step>, k: Id)
    decreases |steps|
  {
    steps != [] && (Settles(s, steps[0], k) || SettlesIn(Next(s, steps[0]), steps[1..], k))
  }

  /** The row of k, stored and as listed for handling, expires at e. */
  ghost predicate ExpiresAt(s: State, k: Id, e: Time) {
    && k in s.db.subscriptions && s.db.subscriptions[k].expires == Some(e)
    && (s.subCheck.SubRunning? ==>
          forall i :: 0 <= i < |s.subCheck.pending| && s.subCheck.pending[i].id == k ==>
            s.subCheck.pending[i].row.expires == Some(e))
  }

  /** No VPS of k has an Expired entry at or after e. */
  ghost predicate Unmarked(db: Db, k: Id, e: Time) {
    forall h :: h in db.history && h.action == Expired && db.Bills(k, h.vm) ==> h.at < e
  }

  lemma ExpiresAtStep(s: State, step: Step, k: Id, e: Time)
    requires Valid(s) && Secured(s, k) && ExpiresAt(s, k, e) && !Settles(s, step, k)
    ensures ExpiresAt(Next(s, step), k, e)
  {
    var t := Next(s, step);
    PurgeNeedsWindow(s, step, k);
    if s.subCheck.SubRunning? && t.subCheck.SubRunning? {
      var p, q := s.subCheck.pending, t.subCheck.pending;
      assert q == p || q == p[1..];
    }
  }

  lemma UnmarkedStep(s: State, step: Step, k: Id, e: Time)
    requires Valid(s) && Secured(s, k) && ExpiresAt(s, k, e) && Unmarked(s.db, k, e)
    requires !Fires(s, step, k, Lapsed, e)
    ensures Unmarked(Next(s, step).db, k, e)
  {
    var t := Next(s, step);
    forall h | h in t.db.history && h.action == Expired && t.db.Bills(k, h.vm) ensures h.at < e {
      VmsKeepLineItems(s, step, h.vm);
      LineItemsShrink(s, step);
    }
  }

  lemma LineItemsShrink(s: State, step: Step)
    ensures forall li :: li in Next(s, step).db.lineItems ==>
                li in s.db.lineItems && Next(s, step).db.lineItems[li] == s.db.lineItems[li]
  {
  }

  lemma LandingFires(s: State, step: Step, k: Id, v: Id, e: Time)
    requires Valid(s) && Guarded(s, k, v) && Unmarked(s.db, k, e) && Lands(s, step, k, e)
    ensures Fires(s, step, k, Lapsed, e)
  {
    PendingIsLive(s, step, k, v, s.subCheck.pending[0].row);
    assert s.db.HasVps(k);
  }

  /**
   * Between two settlements of k the expiry e is announced exactly once if some check finds k
   * expired and within grace, and never otherwise.
   */
  lemma {:induction false} ExpiredExactlyOnce(s: State, steps: seq<Step>, k: Id, v: Id, e: Time)
    requires Valid(s) && Guarded(s, k, v) && ExpiresAt(s, k, e)
    requires Unmarked(s.db, k, e) && Count(s.notices, k, Lapsed, Some(e)) == 0
    requires !SettlesIn(s, steps, k)
    ensures Count(Run(s, steps).notices, k, Lapsed, Some(e)) == (if LandsIn(s, steps, k, e) then 1 else 0)
    decreases |steps|
  {
    if steps != [] {
      var step := steps[0];
      var t := Next(s, step);
      ValidStep(s, step);
      GuardedStep(s, step, k, v);
      ExpiresAtStep(s, step, k, e);
      CountStep(s, step, k, Lapsed, Some(e));
      if Lands(s, step, k, e) { LandingFires(s, step, k, v, e); }
      if Fires(s, step, k, Lapsed, e) {
        ExpiredFiresOnce(s, step, k, v, e);
        CountGrows(t, steps[1..], k, Lapsed, Some(e));
        ExpiredAtMostOnce(t, steps[1..], k, v, e);
      } else {
        UnmarkedStep(s, step, k, e);
        ExpiredExactlyOnce(t, steps[1..], k, v, e);
      }
    }
  }

  lemma {:induction false} CountGrows(s: State, steps: seq<Step>, k: Id, b: Branch, about: Option<Time>)
    requires b != Nothing
    ensures Count(s.notices, k, b, about) <= Count(Run(s, steps).notices, k, b, about)
    decreases |steps|
  {
    if steps != [] {
      CountStep(s, steps[0], k, b, about);
      CountGrows(Next(s, steps[0]), steps[1..], k, b, about);
    }
  }

  lemma {:induction false} CountZero(ns: seq<Notice>, k: Id, b: Branch, about: Option<Time>)
    requires forall i :: 0 <= i < |ns| ==> !Matches(ns[i], k, b, about)
    ensures Count(ns, k, b, about) == 0
    decreases |ns|
  {
    if ns != [] { CountZero(ns[..|ns| - 1], k, b, about); }
  }

  /**
   * A settlement that adds time re-arms the notice: the new expiry is later than every Expired
   * entry and has never been announced; if no row of k waits, every row of k expires then.
   */
  lemma SettlementRearms(s: State, step: Step, k: Id, v: Id)
    requires Valid(s) && Guarded(s, k, v) && Settles(s, step, k)
    requires var p := s.db.payments[FindPayment(s.db.payments, step.id).value];
             var row := s.db.subscriptions[k];
             Base(row, step.now) < Extended(row, p.timeValue, Base(row, step.now), step.calendar)
    ensures var t := Next(s, step);
            Valid(t) && Guarded(t, k, v) && t.db.HasExpiry(k) &&
            var e := t.db.subscriptions[k].expires.value;
            Unmarked(t.db, k, e) && Count(t.notices, k, Lapsed, Some(e)) == 0 && (!Pending(s, k) ==> ExpiresAt(t, k, e))
  {
    var t := Next(s, step);
    ValidStep(s, step);
    GuardedStep(s, step, k, v);
    var e := t.db.subscriptions[k].expires.value;
    assert step.now < e;
    forall i | 0 <= i < |t.notices| ensures !Matches(t.notices[i], k, Lapsed, Some(e)) {
    }
    CountZero(t.notices, k, Lapsed, Some(e));
  }
}
