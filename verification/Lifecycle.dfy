/** One subscription's turn in a subscription check: which branch is taken and what it changes. */
module Lifecycle {
  import opened Clock
  import opened Billing

  /** The successive clock reads made while one subscription is handled. */
  datatype Reads = Reads(now: Time, graceAt: Time, deadlineAt: Time, expiredAt: Time, loggedAt: Time) {
    predicate Ordered() {
      now <= graceAt <= deadlineAt <= expiredAt <= loggedAt
    }
  }

  /** How the automatic renewal attempt went, when there was a saved payment method to try. */
  datatype Renewal = NotAttempted | Succeeded | Failed

  datatype NoticeKind = SoonNotice | RenewedNotice | CancelledNotice | ExpiredNotice

  /** A message queued to the customer about subscription k with the expiry it was judged by. */
  datatype Notice = Notice(subscription: Id, kind: NoticeKind, expires: Time, at: Time)

  datatype Branch = Nothing | Soon | GraceExceeded | Lapsed

  /** Whether the one-shot expiry handling already ran: VM history decides when there is a VPS. */
  ghost predicate AlreadyHandled(db: Db, k: Id, e: Time, lastCheck: Time) {
    db.Marked(k, e) || (!db.HasVps(k) && e < lastCheck)
  }

  /** The branch handle_subscription_state takes for row s of subscription k. */
  ghost function BranchFor(db: Db, k: Id, s: Subscription, lastCheck: Time, r: Reads, deleteAfter: nat): Branch {
    match s.expires
    case None => Nothing
    case Some(e) =>
      if r.now < e < r.now + DAY && lastCheck + DAY < e then Soon
      else if e + GraceDays(s.created, r.graceAt, deleteAfter) * DAY < r.deadlineAt then GraceExceeded
      else if e < r.expiredAt && !AlreadyHandled(db, k, e, lastCheck) then Lapsed
      else Nothing
  }

  datatype Effect = Effect(db: Db, notices: seq<Notice>)

  function SoonKind(renewal: Renewal): NoticeKind {
    if renewal == Succeeded then RenewedNotice else SoonNotice
  }

  ghost function ExpiredRows(db: Db, k: Id, at: Time): set<HistoryRow> {
    set v | v in db.vms && db.LiveVm(k, v) :: HistoryRow(v, Expired, at)
  }

  /**
   * handle_subscription_state on the row s that the check listed earlier. The cancel branch writes
   * that row back as it was listed, and gives up when the subscription no longer exists.
   */
  ghost function Handle(db: Db, k: Id, s: Subscription, lastCheck: Time, r: Reads, deleteAfter: nat,
                        renewal: Renewal, failing: set<Id>): Effect {
    match BranchFor(db, k, s, lastCheck, r, deleteAfter)
    case Nothing => Effect(db, [])
    case Soon => Effect(db, [Notice(k, SoonKind(renewal), s.expires.value, r.now)])
    case GraceExceeded =>
      if k !in db.subscriptions then Effect(db, [])
      else Effect(db.(subscriptions := db.subscriptions[k := s.(isActive := false)],
                      vms := SoftDeleted(db, k, failing)),
                  [Notice(k, CancelledNotice, s.expires.value, r.deadlineAt)])
    case Lapsed =>
      Effect(db.(history := db.history + ExpiredRows(db, k, r.loggedAt)),
             [Notice(k, ExpiredNotice, s.expires.value, r.expiredAt)])
  }
}
