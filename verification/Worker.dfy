/**
 * The worker object. Its checks run uninterrupted here: each returns the run of the step system
 * it went through, so everything proved of all runs holds of it.
 */
module BackgroundWorker {
  import opened Options
  import opened Clock
  import opened Billing
  import opened Lifecycle
  import opened WorkerSystem
  import opened InMemoryDb

  class Worker {
    const db: MockDb
    const deleteAfter: nat
    var clock: Time
    var lastSubCheck: Time
    var lastVmCheck: Time
    var queued: seq<Notice>

    ghost function At(subCheck: SubCheck, vmCheck: VmCheck): State
      reads this, db
    {
      State(db.Contents(), clock, deleteAfter, lastSubCheck, subCheck, lastVmCheck, vmCheck, queued)
    }

    ghost function Idle(): State
      reads this, db
    {
      At(SubIdle, VmIdle)
    }

    constructor (db: MockDb, deleteAfter: nat)
      ensures this.db == db && this.deleteAfter == deleteAfter
      ensures lastSubCheck == 0 && lastVmCheck == 0 && clock == 0 && queued == []
    {
      this.db, this.deleteAfter := db, deleteAfter;
      clock, lastSubCheck, lastVmCheck, queued := 0, 0, 0, [];
    }

    /** The time of day: any later instant. */
    method Now() returns (t: Time)
      modifies this`clock
      ensures old(clock) <= t == clock
    {
      var elapsed :| 0 <= elapsed;
      clock := clock + elapsed;
      t := clock;
    }

    static method AnyOrder(ids: set<Id>) returns (order: seq<Id>)
      ensures Enumerates(order, ids)
    {
      order := [];
      var todo := ids;
      while todo != {}
        invariant todo <= ids
        invariant forall i, j :: 0 <= i < j < |order| ==> order[i] != order[j]
        invariant forall k :: k in order <==> k in ids && k !in todo
        decreases |todo|
      {
        var k :| k in todo;
        order := order + [k];
        todo := todo - {k};
      }
    }

    /** Whether the live VM of a line item has an Expired entry at or after e. */
    method LineItemMarked(li: Id, e: Time) returns (marked: bool)
      requires db.Contents().OneVmPerLineItem()
      ensures marked == MarkedBy(db.Contents(), li, e)
    {
      var vm := db.GetVmByLineItem(li);
      marked := vm.Some? && exists h :: h in db.history && h.vm == vm.value && h.action == Expired && h.at >= e;
    }

    /** Whether the expiry at e was handled before: any Expired entry, else the stored check time. */
    method ExpiryAlreadyHandled(k: Id, e: Time, lastCheck: Time) returns (handled: bool)
      requires db.Contents().OneVmPerLineItem()
      ensures handled == AlreadyHandled(db.Contents(), k, e, lastCheck)
    {
      MarkedByItems(db.Contents(), k, e);
      var items := db.lineItems.Keys;
      var hasVps := false;
      while items != {}
        invariant items <= db.lineItems.Keys
        invariant hasVps == exists li :: li in db.lineItems.Keys - items && db.lineItems[li] == LineItem(k, Vps)
        invariant forall li :: li in db.lineItems.Keys - items && db.lineItems[li] == LineItem(k, Vps) ==>
                    !MarkedBy(db.Contents(), li, e)
        decreases |items|
      {
        var li :| li in items;
        if db.lineItems[li] == LineItem(k, Vps) {
          hasVps := true;
          var marked := LineItemMarked(li, e);
          if marked {
            return true;
          }
        }
        items := items - {li};
      }
      handled := !hasVps && e < lastCheck;
    }

    /** Delete the VM of one line item, unless its host fails. */
    method DeleteVmOf(li: Id, failing: set<Id>)
      requires db.Contents().OneVmPerLineItem()
      modifies db`vms
      ensures db.vms.Keys == old(db.vms.Keys)
      ensures forall v :: v in db.vms ==>
                db.vms[v] ==
                if old(db.vms)[v].lineItem == li && v !in failing then old(db.vms)[v].(deleted := true)
                else old(db.vms)[v]
    {
      var vm := db.GetVmByLineItem(li);
      if vm.Some? && vm.value !in failing {
        db.DeleteVm(vm.value);
      }
    }

    /** Delete the VMs of a cancelled subscription; hosts that fail keep theirs. */
    method DeleteVmsOf(k: Id, failing: set<Id>)
      requires db.Contents().OneVmPerLineItem()
      modifies db`vms
      ensures db.vms == SoftDeleted(old(db.Contents()), k, failing)
    {
      ghost var before := db.Contents();
      var items := set li | li in db.lineItems && db.lineItems[li] == LineItem(k, Vps);
      while items != {}
        invariant forall li :: li in items ==> li in before.lineItems && before.lineItems[li] == LineItem(k, Vps)
        invariant SoftDeletedExcept(before, k, failing, items, db.vms)
        decreases |items|
      {
        var li :| li in items;
        ghost var was := db.vms;
        ExceptKeepsOneVm(before, k, failing, items, was);
        DeleteVmOf(li, failing);
        ExceptStep(before, k, failing, items, li, was, db.vms);
        items := items - {li};
      }
    }

    /** Record the expiry of every live VM of the subscription. */
    method LogVmsExpired(k: Id, at: Time)
      requires db.Contents().OneVmPerLineItem()
      modifies db`history
      ensures db.history == old(db.history) + ExpiredRows(old(db.Contents()), k, at)
    {
      ghost var before := db.Contents();
      var items := set li | li in db.lineItems && db.lineItems[li] == LineItem(k, Vps);
      while items != {}
        invariant items <= set li | li in db.lineItems && db.lineItems[li] == LineItem(k, Vps)
        invariant db.vms == before.vms && before.OneVmPerLineItem()
        invariant before.history <= db.history <= before.history + ExpiredRows(before, k, at)
        invariant forall v :: before.LiveVm(k, v) && before.vms[v].lineItem !in items ==>
                    HistoryRow(v, Expired, at) in db.history
        decreases |items|
      {
        var li :| li in items;
        var vm := db.GetVmByLineItem(li);
        assert forall v :: before.LiveVm(k, v) && before.vms[v].lineItem == li ==> vm == Some(v);
        if vm.Some? {
          db.InsertVmHistory(HistoryRow(vm.value, Expired, at));
        }
        items := items - {li};
      }
    }

    /** Cancel on the listed row; nothing happens when the subscription is gone. */
    method Cancel(k: Id, row: Subscription, e: Time, at: Time, failing: set<Id>)
      requires db.Contents().OneVmPerLineItem()
      modifies this`queued, db
      ensures k in old(db.subscriptions) ==>
                && db.Contents() == old(db.Contents()).(
                     subscriptions := old(db.subscriptions)[k := row.(isActive := false)],
                     vms := SoftDeleted(old(db.Contents()), k, failing))
                && queued == old(queued) + [Notice(k, CancelledNotice, e, at)]
      ensures k !in old(db.subscriptions) ==> db.Contents() == old(db.Contents()) && queued == old(queued) + []
    {
      ghost var vms := SoftDeleted(db.Contents(), k, failing);
      var ok := db.UpdateSubscription(k, row.(isActive := false));
      if !ok {
        return;
      }
      assert SoftDeleted(db.Contents(), k, failing) == vms;
      queued := queued + [Notice(k, CancelledNotice, e, at)];
      DeleteVmsOf(k, failing);
    }

    /** One turn of the subscription check, on the row the check listed. */
    method HandleSubscriptionState(k: Id, row: Subscription, lastCheck: Time, renewal: Renewal, failing: set<Id>)
      returns (ghost r: Reads)
      requires db.Contents().OneVmPerLineItem()
      modifies this`clock, this`queued, db
      ensures old(clock) <= r.now && r.Ordered() && clock == r.loggedAt
      ensures var effect := Handle(old(db.Contents()), k, row, lastCheck, r, deleteAfter, renewal, failing);
              db.Contents() == effect.db && queued == old(queued) + effect.notices
    {
      var now := clock;
      r := Reads(now, now, now, now, now);
      if row.expires.None? {
        assert queued == queued + [];
        return;
      }
      var e := row.expires.value;
      now := Now();
      r := Reads(now, now, now, now, now);
      if now < e < now + DAY && lastCheck + DAY < e {
        queued := queued + [Notice(k, SoonKind(renewal), e, now)];
        return;
      }
      var graceAt := Now();
      var deadlineAt := Now();
      r := Reads(now, graceAt, deadlineAt, deadlineAt, deadlineAt);
      if e + GraceDays(row.created, graceAt, deleteAfter) * DAY < deadlineAt {
        Cancel(k, row, e, deadlineAt, failing);
        return;
      }
      var expiredAt := Now();
      r := Reads(now, graceAt, deadlineAt, expiredAt, expiredAt);
      if e < expiredAt {
        var handled := ExpiryAlreadyHandled(k, e, lastCheck);
        if !handled {
          queued := queued + [Notice(k, ExpiredNotice, e, expiredAt)];
          var loggedAt := Now();
          r := Reads(now, graceAt, deadlineAt, expiredAt, loggedAt);
          LogVmsExpired(k, loggedAt);
          return;
        }
      }
      assert queued == queued + [];
    }

    /** The loop of check_subscriptions over the rows it listed. */
    method HandleListed(rows: seq<Listed>) returns (ghost trace: seq<Step>)
      requires db.Contents().OneVmPerLineItem()
      modifies this`clock, this`queued, db
      ensures db.Contents().OneVmPerLineItem()
      ensures Reaches(old(At(SubRunning(rows), VmIdle)), trace, At(SubRunning([]), VmIdle))
      ensures forall i :: 0 <= i < |trace| ==> trace[i].HandleNext?
    {
      ghost var before := At(SubRunning(rows), VmIdle);
      var i := 0;
      trace := [];
      assert rows[0..] == rows;
      while i < |rows|
        invariant 0 <= i <= |rows|
        invariant db.Contents().OneVmPerLineItem()
        invariant Reaches(before, trace, At(SubRunning(rows[i..]), VmIdle))
        invariant forall j :: 0 <= j < |trace| ==> trace[j].HandleNext?
      {
        var renewal: Renewal := *;
        var failing: set<Id> := *;
        ghost var s := At(SubRunning(rows[i..]), VmIdle);
        ghost var r := HandleSubscriptionState(rows[i].id, rows[i].row, lastSubCheck, renewal, failing);
        HandleKeepsOneVm(s.db, rows[i].id, rows[i].row, lastSubCheck, r, deleteAfter, renewal, failing);
        assert rows[i..][0] == rows[i] && rows[i..][1..] == rows[i + 1..];
        assert Next(s, HandleNext(r, renewal, failing)) == At(SubRunning(rows[i + 1..]), VmIdle);
        Extend(before, trace, s, HandleNext(r, renewal, failing), At(SubRunning(rows[i + 1..]), VmIdle));
        trace := trace + [HandleNext(r, renewal, failing)];
        i := i + 1;
      }
      assert rows[i..] == [];
    }

    /** check_subscriptions, left alone: a run of the step system from idle to idle, through every listed row. */
    method CheckSubscriptions() returns (ghost trace: seq<Step>)
      requires db.Contents().OneVmPerLineItem()
      modifies this, db
      ensures db.Contents().OneVmPerLineItem()
      ensures Reaches(old(Idle()), trace, Idle())
      ensures forall i :: 0 <= i < |trace| ==>
                trace[i].StartSubCheck? || trace[i].HandleNext? || trace[i].FinishSubCheck?
      ensures trace != [] && trace[0].StartSubCheck?
      ensures !TooSoon(trace[0].now, old(lastSubCheck)) ==> trace[|trace| - 1].FinishSubCheck?
    {
      ghost var s0 := Idle();
      var now := Now();
      var order, rows := ListLifecycle();
      var skip := TooSoon(now, lastSubCheck);
      ghost var s1 := At(if skip then SubIdle else SubRunning(rows), VmIdle);
      Extend(s0, [], s0, StartSubCheck(now, order), s1);
      trace := [] + [StartSubCheck(now, order)];
      if skip {
        return;
      }
      ghost var turns := HandleListed(rows);
      ghost var s2 := At(SubRunning([]), VmIdle);
      Chain(s0, trace, s1, turns, s2);
      trace := trace + turns;
      now := Now();
      lastSubCheck := Truncated(now);
      Extend(s0, trace, s2, FinishSubCheck(now), Idle());
      trace := trace + [FinishSubCheck(now)];
    }

    /** The rows check_subscriptions starts from, in arbitrary order. */
    method ListLifecycle() returns (order: seq<Id>, rows: seq<Listed>)
      ensures Enumerates(order, LifecycleIds(db.Contents()))
      ensures forall k :: k in order ==> k in db.subscriptions
      ensures rows == ListRows(db.Contents(), order)
    {
      var subs := db.subscriptions;
      order := AnyOrder(set k | k in subs && subs[k].isActive && subs[k].expires.Some?);
      assert forall k :: k in order ==> k in subs;
      rows := seq(|order|, i requires 0 <= i < |order| && order[i] in subs => Listed(order[i], subs[order[i]]));
    }

    /** The first pass of check_vms: note down the VMs that were never paid and are an hour old. */
    method Classify(listed: seq<Doomed>) returns (doomed: seq<Doomed>, ghost trace: seq<Step>)
      modifies this`clock
      ensures Reaches(old(At(SubIdle, Classifying(listed, []))), trace, At(SubIdle, Classifying([], doomed)))
      ensures forall i :: 0 <= i < |trace| ==> trace[i].ClassifyNext?
    {
      ghost var before := At(SubIdle, Classifying(listed, []));
      var i := 0;
      doomed, trace := [], [];
      assert listed[0..] == listed;
      while i < |listed|
        invariant 0 <= i <= |listed|
        invariant Reaches(before, trace, At(SubIdle, Classifying(listed[i..], doomed)))
        invariant forall j :: 0 <= j < |trace| ==> trace[j].ClassifyNext?
      {
        ghost var s := At(SubIdle, Classifying(listed[i..], doomed));
        var now := Now();
        var li := listed[i].lineItem;
        if li in db.lineItems && db.lineItems[li].subscription in db.subscriptions {
          var sub := db.subscriptions[db.lineItems[li].subscription];
          if now - sub.created > HOUR && !sub.isSetup {
            doomed := doomed + [listed[i]];
          }
        }
        assert listed[i..][0] == listed[i] && listed[i..][1..] == listed[i + 1..];
        assert Next(s, ClassifyNext(now)) == At(SubIdle, Classifying(listed[i + 1..], doomed));
        Extend(before, trace, s, ClassifyNext(now), At(SubIdle, Classifying(listed[i + 1..], doomed)));
        trace := trace + [ClassifyNext(now)];
        i := i + 1;
      }
      assert listed[i..] == [];
    }

    /** Re-read the subscription of a doomed VM: is it found and still not set up? */
    method StillNeverPaid(d: Doomed) returns (unpaid: bool)
      ensures unpaid == StillUnpaid(db.Contents(), d)
    {
      if d.lineItem !in db.lineItems || db.lineItems[d.lineItem].subscription !in db.subscriptions {
        return false;
      }
      unpaid := !db.subscriptions[db.lineItems[d.lineItem].subscription].isSetup;
    }

    /** Delete the VM on its host and, when that works, from the database. */
    method DeleteUnpaid(v: Id) returns (hostOk: bool)
      modifies db
      ensures db.Contents() == if hostOk && v in old(db.vms) then Purged(old(db.Contents()), v) else old(db.Contents())
    {
      hostOk := *;
      if hostOk && v in db.vms {
        db.HardDeleteVm(v);
      }
    }

    /** One turn of the purge loop: re-read the subscription, then its payments, then delete. */
    method PurgeOne(d: Doomed, rest: seq<Doomed>, ghost start: VmCheck) returns (ghost trace: seq<Step>)
      requires start == Classifying([], [d] + rest) || start == Deleting([d] + rest, Between)
      modifies this`clock, db
      ensures Reaches(old(At(SubIdle, start)), trace, At(SubIdle, Deleting(rest, Between)))
      ensures forall i :: 0 <= i < |trace| ==> trace[i].RereadNext? || trace[i].ReadPayments? || trace[i].PurgeNext?
    {
      ghost var s0 := At(SubIdle, start);
      var unpaid := StillNeverPaid(d);
      ghost var s1 := At(SubIdle, Deleting(rest, if unpaid then Unpaid(d) else Between));
      Rereads(s0, d, rest);
      Extend(s0, [], s0, RereadNext, s1);
      trace := [] + [RereadNext];
      if !unpaid {
        return;
      }
      var now := Now();
      var blocked := db.PurgeIsBlocked(d.vm, now);
      ghost var s2 := At(SubIdle, Deleting(rest, if blocked then Between else Cleared(d)));
      ReadsPayments(s1, now);
      Extend(s0, trace, s1, ReadPayments(now), s2);
      trace := trace + [ReadPayments(now)];
      if blocked {
        return;
      }
      var hostOk := DeleteUnpaid(d.vm);
      PurgesNext(s2, hostOk);
      Extend(s0, trace, s2, PurgeNext(hostOk), At(SubIdle, Deleting(rest, Between)));
      trace := trace + [PurgeNext(hostOk)];
    }

    /** The VMs check_vms starts from, in arbitrary order. */
    method ListLive() returns (order: seq<Id>, listed: seq<Doomed>)
      ensures Enumerates(order, LiveVmIds(db.Contents()))
      ensures forall v :: v in order ==> v in db.vms
      ensures listed == ListVms(db.Contents(), order)
    {
      var vms := db.vms;
      order := AnyOrder(set v | v in vms && !vms[v].deleted);
      assert forall v :: v in order ==> v in vms;
      listed := seq(|order|, i requires 0 <= i < |order| && order[i] in vms =>
                      Doomed(order[i], vms[order[i]].lineItem));
    }

    /** check_vms, left alone: a run of the step system from idle to idle, through every listed VM. */
    method CheckVms() returns (ghost trace: seq<Step>)
      modifies this, db
      ensures Reaches(old(Idle()), trace, Idle())
      ensures forall i :: 0 <= i < |trace| ==> !(trace[i].Deliver? || trace[i].Invoice? || trace[i].Deposit?)
      ensures trace != [] && trace[0].StartVmCheck?
      ensures !TooSoon(trace[0].now, old(lastVmCheck)) ==> trace[|trace| - 1].FinishVmCheck?
    {
      ghost var s0 := Idle();
      var now := Now();
      var order, listed := ListLive();
      var skip := TooSoon(now, lastVmCheck);
      StartsVmCheck(s0, now, order);
      Extend(s0, [], s0, StartVmCheck(now, order), At(SubIdle, if skip then VmIdle else Classifying(listed, [])));
      trace := [] + [StartVmCheck(now, order)];
      if !skip {
        ghost var s1 := At(SubIdle, Classifying(listed, []));
        ghost var turns := SweepVms(listed);
        Chain(s0, trace, s1, turns, Idle());
        trace := trace + turns;
      }
    }

    /** The passes of check_vms over the VMs it listed, up to storing the check time. */
    method SweepVms(listed: seq<Doomed>) returns (ghost trace: seq<Step>)
      modifies this, db
      ensures Reaches(old(At(SubIdle, Classifying(listed, []))), trace, Idle())
      ensures trace != [] && trace[|trace| - 1].FinishVmCheck?
      ensures forall i :: 0 <= i < |trace| ==> !(trace[i].Deliver? || trace[i].Invoice? || trace[i].Deposit?)
    {
      ghost var s1 := At(SubIdle, Classifying(listed, []));
      var doomed;
      doomed, trace := Classify(listed);
      ghost var s2 := At(SubIdle, Classifying([], doomed));
      ghost var turns := PurgeDoomed(doomed);
      ghost var s3 := At(SubIdle, if doomed == [] then Classifying([], []) else Deleting([], Between));
      Chain(s1, trace, s2, turns, s3);
      trace := trace + turns;
      var now := Now();
      lastVmCheck := Truncated(now);
      FinishesVmCheck(s3, now);
      Extend(s1, trace, s3, FinishVmCheck(now), Idle());
      trace := trace + [FinishVmCheck(now)];
    }

    /** The purge loop over every VM noted down. */
    method PurgeDoomed(doomed: seq<Doomed>) returns (ghost trace: seq<Step>)
      modifies this`clock, db
      ensures Reaches(old(At(SubIdle, Classifying([], doomed))), trace,
                      At(SubIdle, if doomed == [] then Classifying([], []) else Deleting([], Between)))
      ensures forall i :: 0 <= i < |trace| ==> trace[i].RereadNext? || trace[i].ReadPayments? || trace[i].PurgeNext?
    {
      ghost var before := At(SubIdle, Classifying([], doomed));
      var i := 0;
      trace := [];
      ghost var check := Classifying([], doomed);
      while i < |doomed|
        invariant 0 <= i <= |doomed|
        invariant check == if i == 0 then Classifying([], doomed) else Deleting(doomed[i..], Between)
        invariant Reaches(before, trace, At(SubIdle, check))
        invariant forall j :: 0 <= j < |trace| ==> trace[j].RereadNext? || trace[j].ReadPayments? || trace[j].PurgeNext?
      {
        assert doomed[i..] == [doomed[i]] + doomed[i + 1..];
        assert doomed[0..] == doomed;
        ghost var was := At(SubIdle, check);
        ghost var turn := PurgeOne(doomed[i], doomed[i + 1..], check);
        check := Deleting(doomed[i + 1..], Between);
        Chain(before, trace, was, turn, At(SubIdle, check));
        trace := trace + turn;
        i := i + 1;
      }
    }
  }

  /** The VMs of k deleted, but for those of the line items still to come. */
  ghost predicate SoftDeletedExcept(before: Db, k: Id, failing: set<Id>, items: set<Id>, vms: map<Id, Vm>) {
    vms.Keys == before.vms.Keys &&
    forall v :: v in before.vms ==>
      vms[v] == if before.vms[v].lineItem in items then before.vms[v] else SoftDeleted(before, k, failing)[v]
  }

  lemma ExceptKeepsOneVm(before: Db, k: Id, failing: set<Id>, items: set<Id>, vms: map<Id, Vm>)
    requires before.OneVmPerLineItem() && SoftDeletedExcept(before, k, failing, items, vms)
    ensures before.(vms := vms).OneVmPerLineItem()
  {
    assert forall v :: v in vms ==> vms[v].lineItem == before.vms[v].lineItem;
  }

  lemma ExceptStep(before: Db, k: Id, failing: set<Id>, items: set<Id>, li: Id, was: map<Id, Vm>, vms: map<Id, Vm>)
    requires SoftDeletedExcept(before, k, failing, items, was)
    requires li in items && li in before.lineItems && before.lineItems[li] == LineItem(k, Vps)
    requires vms.Keys == was.Keys
    requires forall v :: v in vms ==>
               vms[v] == if was[v].lineItem == li && v !in failing then was[v].(deleted := true) else was[v]
    ensures SoftDeletedExcept(before, k, failing, items - {li}, vms)
  {
  }

  // ----- single steps of the VM check, spelled out -----

  lemma StartsVmCheck(s: State, now: Time, order: seq<Id>)
    requires s.clock <= now && s.vmCheck.VmIdle? && Enumerates(order, LiveVmIds(s.db))
    ensures forall v :: v in order ==> v in s.db.vms
    ensures Next(s, StartVmCheck(now, order))
         == s.(clock := now,
               vmCheck := if TooSoon(now, s.lastVmCheck) then VmIdle else Classifying(ListVms(s.db, order), []))
  {
  }

  lemma FinishesVmCheck(s: State, now: Time)
    requires s.clock <= now && (s.vmCheck == Classifying([], []) || s.vmCheck == Deleting([], Between))
    ensures Next(s, FinishVmCheck(now)) == s.(clock := now, vmCheck := VmIdle, lastVmCheck := Truncated(now))
  {
  }

  lemma Rereads(s: State, d: Doomed, rest: seq<Doomed>)
    requires s.vmCheck == Classifying([], [d] + rest) || s.vmCheck == Deleting([d] + rest, Between)
    ensures Next(s, RereadNext) == s.(vmCheck := Deleting(rest, if StillUnpaid(s.db, d) then Unpaid(d) else Between))
  {
    assert ([d] + rest)[1..] == rest;
  }

  lemma ReadsPayments(s: State, now: Time)
    requires s.clock <= now && s.vmCheck.Deleting? && s.vmCheck.stage.Unpaid?
    ensures Next(s, ReadPayments(now))
         == s.(clock := now, vmCheck := Deleting(s.vmCheck.doomed,
                 if PaymentsBlockPurge(s.db, s.vmCheck.stage.doomed.vm, now) then Between
                 else Cleared(s.vmCheck.stage.doomed)))
  {
  }

  lemma PurgesNext(s: State, hostOk: bool)
    requires s.vmCheck.Deleting? && s.vmCheck.stage.Cleared?
    ensures Next(s, PurgeNext(hostOk))
         == s.(vmCheck := Deleting(s.vmCheck.doomed, Between),
               db := if hostOk && s.vmCheck.stage.doomed.vm in s.db.vms then Purged(s.db, s.vmCheck.stage.doomed.vm)
                     else s.db)
  {
  }

  ghost predicate MarkedBy(db: Db, li: Id, e: Time) {
    exists h :: h in db.history && h.action == Expired && h.at >= e && h.vm in db.vms && !db.vms[h.vm].deleted
                && db.vms[h.vm].lineItem == li
  }

  lemma MarkedByItems(db: Db, k: Id, e: Time)
    ensures db.Marked(k, e)
       <==> exists li :: li in db.lineItems && db.lineItems[li] == LineItem(k, Vps) && MarkedBy(db, li, e)
  {
    if db.Marked(k, e) {
      var h :| h in db.history && h.action == Expired && h.at >= e && db.LiveVm(k, h.vm);
      assert MarkedBy(db, db.vms[h.vm].lineItem, e);
    }
  }

  /** Handling a subscription leaves every line item with at most one VM. */
  lemma HandleKeepsOneVm(db: Db, k: Id, row: Subscription, lastCheck: Time, r: Reads, deleteAfter: nat,
                         renewal: Renewal, failing: set<Id>)
    requires db.OneVmPerLineItem()
    ensures Handle(db, k, row, lastCheck, r, deleteAfter, renewal, failing).db.OneVmPerLineItem()
  {
  }
}
