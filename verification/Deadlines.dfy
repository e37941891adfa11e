/** The deletion date shown to the customer, the worker's own deadline, and how both move. */
module Deadlines {
  import opened Options
  import opened Clock
  import opened Billing
  import opened Lifecycle

  /** The worker cancels at an instant exactly when the deletion date shown at that instant has passed. */
  lemma CancelsWhenShownDatePasses(db: Db, k: Id, s: Subscription, lastCheck: Time, t: Time, deleteAfter: nat)
    requires s.expires.Some?
    ensures BranchFor(db, k, s, lastCheck, Reads(t, t, t, t, t), deleteAfter) == GraceExceeded
       <==> DeletingOn(s, t, deleteAfter).value < t
  {
  }

  /** The grace tiers by elapsed time: age is counted in whole days. */
  lemma GraceTiers(created: Time, now: Time, deleteAfter: nat)
    ensures GraceDays(created, now, deleteAfter) ==
            if now < created + 2 * DAY then 1
            else if now < created + 8 * DAY then 2
            else if now < created + 29 * DAY then 7
            else if now < created + 181 * DAY then 14
            else deleteAfter
  {
  }

  lemma ShownDateStep(s: Subscription, t: Time, u: Time, deleteAfter: nat)
    requires s.expires.Some? && t <= u && 14 <= deleteAfter
    ensures DeletingOn(s, t, deleteAfter).value <= DeletingOn(s, u, deleteAfter).value
  {
  }

  /** The shown deletion date never moves closer, for any subscription, exactly when delete_after is at least 14. */
  lemma ShownDateNeverMovesCloser(deleteAfter: nat)
    ensures 14 <= deleteAfter <==>
            forall s: Subscription, t, u :: s.expires.Some? && t <= u ==>
              DeletingOn(s, t, deleteAfter).value <= DeletingOn(s, u, deleteAfter).value
  {
    if 14 <= deleteAfter {
      forall s: Subscription, t, u | s.expires.Some? && t <= u
        ensures DeletingOn(s, t, deleteAfter).value <= DeletingOn(s, u, deleteAfter).value
      {
        ShownDateStep(s, t, u, deleteAfter);
      }
    } else {
      var s := Subscription(0, Some(0), true, true, Day, 1);
      assert DeletingOn(s, 180 * DAY, deleteAfter).value > DeletingOn(s, 181 * DAY, deleteAfter).value;
    }
  }

  /** Past the deadline now, within grace again half a day later: a higher age tier gives more days. */
  lemma PassedDeadlineCanReopen(deleteAfter: nat) returns (s: Subscription, t: Time, u: Time)
    ensures s.expires.Some? && t < u
    ensures DeletingOn(s, t, deleteAfter).value < t && u <= DeletingOn(s, u, deleteAfter).value
  {
    s := Subscription(0, Some(5 * DAY), true, true, Day, 1);
    t, u := 7 * DAY + 12 * HOUR, 8 * DAY;
  }

  /** The deletion date shown at t has passed at t. */
  predicate Passed(s: Subscription, t: Time, deleteAfter: nat)
    requires s.expires.Some?
  {
    DeletingOn(s, t, deleteAfter).value < t
  }

  /** The instant at which a subscription enters its next age tier, counted in days. */
  predicate TierStart(s: Subscription, b: Time) {
    b == s.created + 2 * DAY || b == s.created + 8 * DAY || b == s.created + 29 * DAY || b == s.created + 181 * DAY
  }

  /** The start of the tier that u lies in, unless t lies in the same one. */
  lemma SameTierOrLater(s: Subscription, t: Time, u: Time, deleteAfter: nat) returns (b: Time)
    requires t <= u
    ensures GraceDays(s.created, u, deleteAfter) == GraceDays(s.created, t, deleteAfter)
         || (TierStart(s, b) && t < b <= u
             && GraceDays(s.created, u, deleteAfter) == GraceDays(s.created, b, deleteAfter))
  {
    GraceTiers(s.created, t, deleteAfter);
    GraceTiers(s.created, u, deleteAfter);
    b := s.created + (if u < s.created + 8 * DAY then 2 else if u < s.created + 29 * DAY then 8
                      else if u < s.created + 181 * DAY then 29 else 181) * DAY;
    GraceTiers(s.created, b, deleteAfter);
  }

  /** A passed deadline opens again exactly when the subscription enters a later tier within the grace of that tier. */
  lemma ReopensExactly(s: Subscription, t: Time, deleteAfter: nat)
    requires s.expires.Some? && Passed(s, t, deleteAfter)
    ensures (exists u :: t <= u && !Passed(s, u, deleteAfter))
       <==> exists b :: TierStart(s, b) && t < b && !Passed(s, b, deleteAfter)
  {
    if u :| t <= u && !Passed(s, u, deleteAfter) {
      var b := SameTierOrLater(s, t, u, deleteAfter);
      assert !Passed(s, b, deleteAfter);
    }
  }
}
