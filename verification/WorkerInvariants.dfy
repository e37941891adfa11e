/** What every step of the worker system keeps. */
module WorkerInvariants {
  import opened Clock
  import opened Billing
  import opened Lifecycle
  import opened WorkerSystem

  ghost predicate PendingOk(s: State) {
    s.subCheck.SubRunning? ==>
      var p := s.subCheck.pending;
      && (forall i, j :: 0 <= i < j < |p| ==> p[i].id != p[j].id)
      && (forall i :: 0 <= i < |p| ==> p[i].row.expires.Some? && p[i].row.isActive)
      && (forall i :: 0 <= i < |p| && p[i].id in s.db.subscriptions ==> s.db.subscriptions[p[i].id].isActive)
  }

  /** A row of subscription k still waits to be handled in the running check. */
  ghost predicate Pending(s: State, k: Id) {
    s.subCheck.SubRunning? && exists i :: 0 <= i < |s.subCheck.pending| && s.subCheck.pending[i].id == k
  }

  /** Times on record lie in the past. */
  ghost predicate PastOk(s: State) {
    && s.lastSubCheck <= s.clock && WholeSecond(s.lastSubCheck)
    && (forall h :: h in s.db.history ==> h.at <= s.clock)
    && (forall i :: 0 <= i < |s.notices| ==> s.notices[i].at <= s.clock)
    && (forall i :: 0 <= i < |s.notices| && s.notices[i].kind == ExpiredNotice ==>
          s.notices[i].expires < s.notices[i].at)
  }

  ghost predicate Agrees(db: Db, d: Doomed) {
    d.vm in db.vms ==> db.vms[d.vm].lineItem == d.lineItem
  }

  ghost predicate AllAgree(db: Db, ds: seq<Doomed>) {
    forall i :: 0 <= i < |ds| ==> Agrees(db, ds[i])
  }

  /** The line items a VM check noted down are those the VMs still have. */
  ghost predicate VmCheckOk(s: State) {
    match s.vmCheck
    case VmIdle => true
    case Classifying(listed, doomed) => AllAgree(s.db, listed) && AllAgree(s.db, doomed)
    case Deleting(doomed, stage) => AllAgree(s.db, doomed) && (!stage.Between? ==> Agrees(s.db, stage.doomed))
  }

  ghost predicate Valid(s: State) {
    PendingOk(s) && PastOk(s) && VmCheckOk(s)
  }

  // ----- no step rewires an existing VM -----

  lemma VmsKeepLineItems(s: State, step: Step, v: Id)
    ensures v in Next(s, step).db.vms ==> v in s.db.vms && Next(s, step).db.vms[v].lineItem == s.db.vms[v].lineItem
  {
  }

  lemma AgreeStep(s: State, step: Step, ds: seq<Doomed>)
    requires AllAgree(s.db, ds)
    ensures AllAgree(Next(s, step).db, ds)
  {
    forall i | 0 <= i < |ds| ensures Agrees(Next(s, step).db, ds[i]) {
      assert Agrees(s.db, ds[i]);
      VmsKeepLineItems(s, step, ds[i].vm);
    }
  }

  lemma VmCheckStep(s: State, step: Step)
    requires VmCheckOk(s)
    ensures VmCheckOk(Next(s, step))
  {
    var t := Next(s, step);
    match s.vmCheck {
      case VmIdle =>
        if t.vmCheck.Classifying? {
          assert AllAgree(t.db, t.vmCheck.listed);
        }
      case Classifying(listed, doomed) =>
        AgreeStep(s, step, listed);
        AgreeStep(s, step, doomed);
      case Deleting(doomed, stage) =>
        AgreeStep(s, step, doomed);
        if !stage.Between? { AgreeStep(s, step, [stage.doomed]); assert Agrees(t.db, [stage.doomed][0]); }
    }
  }

  lemma PastStep(s: State, step: Step)
    requires PastOk(s)
    ensures PastOk(Next(s, step)) && s.clock <= Next(s, step).clock
  {
  }

  /** Only handling a subscription, or purging it, takes its active flag away. */
  lemma ActiveStep(s: State, step: Step, k: Id)
    requires k in s.db.subscriptions && s.db.subscriptions[k].isActive
    requires k in Next(s, step).db.subscriptions
    requires Enabled(s, step) && step.HandleNext? ==> s.subCheck.pending[0].id != k
    ensures Next(s, step).db.subscriptions[k].isActive
  {
  }

  /** No step creates a subscription. */
  lemma SubscriptionsShrink(s: State, step: Step)
    ensures Next(s, step).db.subscriptions.Keys <= s.db.subscriptions.Keys
  {
  }

  lemma {:induction false} KeysShrink(s: State, steps: seq<Step>)
    ensures Run(s, steps).db.subscriptions.Keys <= s.db.subscriptions.Keys
    decreases |steps|
  {
    if steps != [] {
      SubscriptionsShrink(s, steps[0]);
      KeysShrink(Next(s, steps[0]), steps[1..]);
    }
  }

  lemma PendingStep(s: State, step: Step)
    requires PendingOk(s)
    ensures PendingOk(Next(s, step))
  {
    var t := Next(s, step);
    if s.subCheck.SubRunning? && t.subCheck.SubRunning? {
      SubscriptionsShrink(s, step);
      var p, q := s.subCheck.pending, t.subCheck.pending;
      var off := if q == p then 0 else 1;
      assert q == p[off..];
      forall i | 0 <= i < |q| && q[i].id in t.db.subscriptions ensures t.db.subscriptions[q[i].id].isActive {
        assert q[i] == p[i + off];
        if Enabled(s, step) && step.HandleNext? { assert p[0].id != q[i].id; }
        ActiveStep(s, step, q[i].id);
      }
    } else if t.subCheck.SubRunning? {
      forall i | 0 <= i < |step.order| ensures step.order[i] in LifecycleIds(s.db) {
        assert step.order[i] in step.order;
      }
    }
  }

  lemma ValidStep(s: State, step: Step)
    requires Valid(s)
    ensures Valid(Next(s, step))
  {
    VmCheckStep(s, step);
    PastStep(s, step);
    PendingStep(s, step);
  }

  lemma {:induction false} ValidRun(s: State, steps: seq<Step>)
    requires Valid(s)
    ensures Valid(Run(s, steps)) && s.clock <= Run(s, steps).clock
    decreases |steps|
  {
    if steps != [] {
      ValidStep(s, steps[0]);
      PastStep(s, steps[0]);
      ValidRun(Next(s, steps[0]), steps[1..]);
    }
  }

  // ----- rows with an expiry were paid for, and waiting rows never run ahead -----

  /** Every active row with an expiry is set up, stored or waiting. */
  ghost predicate PaidUp(s: State) {
    && (forall k :: k in LifecycleIds(s.db) ==> s.db.subscriptions[k].isSetup)
    && (s.subCheck.SubRunning? ==> forall i :: 0 <= i < |s.subCheck.pending| ==> s.subCheck.pending[i].row.isSetup)
  }

  /** A waiting row of k expires no later than the stored one. */
  ghost predicate NeverAhead(s: State, k: Id) {
    s.subCheck.SubRunning? && k in s.db.subscriptions ==>
      forall i :: 0 <= i < |s.subCheck.pending| && s.subCheck.pending[i].id == k ==>
        && s.subCheck.pending[i].row.expires.Some? && s.db.subscriptions[k].expires.Some?
        && s.subCheck.pending[i].row.expires.value <= s.db.subscriptions[k].expires.value
  }

  /** The rows that wait after a step waited before it, or were listed by it from the stored ones. */
  lemma WaitingRowOrigin(s: State, step: Step, i: nat)
    requires Next(s, step).subCheck.SubRunning? && i < |Next(s, step).subCheck.pending|
    ensures var row := Next(s, step).subCheck.pending[i];
            if s.subCheck.SubRunning? then
              exists j :: i <= j < |s.subCheck.pending| && s.subCheck.pending[j] == row
                          && (Enabled(s, step) && step.HandleNext? ==> 0 < j)
            else row.id in LifecycleIds(s.db) && row.row == s.db.subscriptions[row.id] && Next(s, step).db == s.db
  {
    if s.subCheck.SubRunning? {
      var p, q := s.subCheck.pending, Next(s, step).subCheck.pending;
      assert q == p || q == p[1..];
      var j := if q == p then i else i + 1;
      assert p[j] == q[i];
    } else {
      assert step.order[i] in step.order;
    }
  }

  lemma PaidUpStep(s: State, step: Step)
    requires PaidUp(s)
    ensures PaidUp(Next(s, step))
  {
    var t := Next(s, step);
    if t.subCheck.SubRunning? {
      forall i | 0 <= i < |t.subCheck.pending| ensures t.subCheck.pending[i].row.isSetup {
        WaitingRowOrigin(s, step, i);
      }
    }
    forall k | k in LifecycleIds(t.db) ensures t.db.subscriptions[k].isSetup {
      SubscriptionsShrink(s, step);
      assert k in s.db.subscriptions;
      LifecycleRowStep(s, step, k);
    }
  }

  /** A row that is active with an expiry was so before, or has just been settled. */
  lemma LifecycleRowStep(s: State, step: Step, k: Id)
    requires k in LifecycleIds(Next(s, step).db) && k in s.db.subscriptions
    ensures Next(s, step).db.subscriptions[k].isSetup
         || (k in LifecycleIds(s.db) && Next(s, step).db.subscriptions[k] == s.db.subscriptions[k])
  {
  }

  lemma {:induction false} PaidUpRun(s: State, steps: seq<Step>)
    requires PaidUp(s)
    ensures PaidUp(Run(s, steps))
    decreases |steps|
  {
    if steps != [] {
      PaidUpStep(s, steps[0]);
      PaidUpRun(Next(s, steps[0]), steps[1..]);
    }
  }

  /** Only handling a waiting row of k can take its expiry back. */
  lemma ExpiryKept(s: State, step: Step, k: Id)
    requires k in s.db.subscriptions && k in Next(s, step).db.subscriptions && s.db.HasExpiry(k)
    requires Enabled(s, step) && step.HandleNext? ==> s.subCheck.pending[0].id != k
    ensures Next(s, step).db.HasExpiry(k)
    ensures s.db.subscriptions[k].expires.value <= Next(s, step).db.subscriptions[k].expires.value
  {
  }

  lemma NeverAheadStep(s: State, step: Step, k: Id)
    requires Valid(s) && NeverAhead(s, k)
    ensures NeverAhead(Next(s, step), k)
  {
    var t := Next(s, step);
    SubscriptionsShrink(s, step);
    if t.subCheck.SubRunning? && k in t.db.subscriptions {
      forall i | 0 <= i < |t.subCheck.pending| && t.subCheck.pending[i].id == k
        ensures t.subCheck.pending[i].row.expires.Some? && t.db.HasExpiry(k)
        ensures t.subCheck.pending[i].row.expires.value <= t.db.subscriptions[k].expires.value
      {
        WaitingRowOrigin(s, step, i);
        if s.subCheck.SubRunning? {
          ExpiryKept(s, step, k);
        }
      }
    }
  }

  // ----- a set-up subscription outside every purge window -----

  /** A VM billed under k is past its re-read in the purge loop. */
  ghost predicate InWindow(s: State, k: Id) {
    s.vmCheck.Deleting? && !s.vmCheck.stage.Between? && s.db.Bills(k, s.vmCheck.stage.doomed.vm)
  }

  /**
   * k is set up, no VM of k is in its purge window, and no waiting row of k predates its set-up
   * (cancelling writes the listed row back, set-up flag included).
   */
  ghost predicate Secured(s: State, k: Id) {
    && s.db.SetUp(k) && !InWindow(s, k)
    && (s.subCheck.SubRunning? ==>
          forall i :: 0 <= i < |s.subCheck.pending| && s.subCheck.pending[i].id == k ==>
            s.subCheck.pending[i].row.isSetup)
  }

  /** A purge that removes k, or a VM of k, only happens inside a window of k. */
  lemma PurgeNeedsWindow(s: State, step: Step, k: Id)
    requires !InWindow(s, k)
    ensures forall v :: s.db.Bills(k, v) ==> Next(s, step).db.Bills(k, v)
    ensures k in s.db.subscriptions ==> k in Next(s, step).db.subscriptions
    ensures forall li :: li in s.db.lineItems && s.db.lineItems[li].subscription == k ==>
                li in Next(s, step).db.lineItems && Next(s, step).db.lineItems[li] == s.db.lineItems[li]
  {
  }

  lemma SecuredStep(s: State, step: Step, k: Id)
    requires Valid(s) && Secured(s, k)
    ensures Secured(Next(s, step), k)
  {
    var t := Next(s, step);
    PurgeNeedsWindow(s, step, k);
    if t.subCheck.SubRunning? {
      if s.subCheck.SubRunning? {
        var p, q := s.subCheck.pending, t.subCheck.pending;
        assert q == p || q == p[1..];
      }
    }
    if InWindow(t, k) {
      var d := t.vmCheck.stage.doomed;
      VmsKeepLineItems(s, step, d.vm);
      assert false;
    }
  }

  lemma {:induction false} SecuredRun(s: State, steps: seq<Step>, k: Id)
    requires Valid(s) && Secured(s, k)
    ensures Secured(Run(s, steps), k) && Valid(Run(s, steps))
    ensures forall v :: s.db.Bills(k, v) ==> Run(s, steps).db.Bills(k, v)
    decreases |steps|
  {
    if steps != [] {
      ValidStep(s, steps[0]);
      SecuredStep(s, steps[0], k);
      PurgeNeedsWindow(s, steps[0], k);
      SecuredRun(Next(s, steps[0]), steps[1..], k);
    }
  }

  /** v backs a VPS line item of the secured subscription k, and is live while k is active. */
  ghost predicate Guarded(s: State, k: Id, v: Id) {
    && Secured(s, k)
    && v in s.db.vms && s.db.vms[v].lineItem in s.db.lineItems
    && s.db.lineItems[s.db.vms[v].lineItem] == LineItem(k, Vps)
    && (s.db.subscriptions[k].isActive ==> !s.db.vms[v].deleted)
  }

  lemma GuardedStep(s: State, step: Step, k: Id, v: Id)
    requires Valid(s) && Guarded(s, k, v)
    ensures Guarded(Next(s, step), k, v)
  {
    SecuredStep(s, step, k);
    PurgeNeedsWindow(s, step, k);
    assert s.db.Bills(k, v);
    VmsKeepLineItems(s, step, v);
  }
}
