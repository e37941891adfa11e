/** Counting notices along a run, and which step adds one. */
module Notices {
  import opened Options
  import opened Clock
  import opened Billing
  import opened Lifecycle
  import opened WorkerSystem

  /** The branch that sends a kind of notice. */
  function Topic(kind: NoticeKind): Branch {
    match kind
    case SoonNotice => Soon
    case RenewedNotice => Soon
    case CancelledNotice => GraceExceeded
    case ExpiredNotice => Lapsed
  }

  predicate Matches(n: Notice, k: Id, b: Branch, about: Option<Time>) {
    n.subscription == k && Topic(n.kind) == b && (about.Some? ==> n.expires == about.value)
  }

  /** How many notices on topic b went to subscription k, for one expiry value or for all of them. */
  function Count(ns: seq<Notice>, k: Id, b: Branch, about: Option<Time>): nat {
    if ns == [] then 0
    else Count(ns[..|ns| - 1], k, b, about) + (if Matches(ns[|ns| - 1], k, b, about) then 1 else 0)
  }

  /** A step in which subscription k is handled on the row r it was listed with. */
  ghost predicate Handles(s: State, step: Step, k: Id, r: Subscription) {
    Enabled(s, step) && step.HandleNext? && s.subCheck.pending[0] == Listed(k, r)
  }

  ghost function BranchOf(s: State, step: Step): Branch
    requires Enabled(s, step) && step.HandleNext?
  {
    BranchFor(s.db, s.subCheck.pending[0].id, s.subCheck.pending[0].row, s.lastSubCheck, step.times, s.deleteAfter)
  }

  /** A step that sends k a notice on topic b, judged by expiry e. */
  ghost predicate Fires(s: State, step: Step, k: Id, b: Branch, e: Time) {
    && Enabled(s, step) && step.HandleNext?
    && s.subCheck.pending[0].id == k
    && s.subCheck.pending[0].row.expires == Some(e)
    && b != Nothing && BranchOf(s, step) == b
    && (b == GraceExceeded ==> k in s.db.subscriptions)
  }

  ghost predicate FiresAbout(s: State, step: Step, k: Id, b: Branch, about: Option<Time>) {
    exists e :: Fires(s, step, k, b, e) && (about.Some? ==> e == about.value)
  }

  lemma CountSnoc(ns: seq<Notice>, n: Notice, k: Id, b: Branch, about: Option<Time>)
    ensures Count(ns + [n], k, b, about) == Count(ns, k, b, about) + (if Matches(n, k, b, about) then 1 else 0)
  {
    assert (ns + [n])[..|ns|] == ns;
  }

  /** Only handling a row adds to the notices, and at most one. */
  lemma NoticesStep(s: State, step: Step)
    ensures !(Enabled(s, step) && step.HandleNext?) ==> Next(s, step).notices == s.notices
    ensures Enabled(s, step) && step.HandleNext? ==>
              Next(s, step).notices == s.notices + HandleOne(s, step.times, step.renewal, step.failing).notices
  {
  }

  /** The notice a handled row sends is on the topic of its branch, about the expiry it was listed with. */
  lemma NoticeOfRow(s: State, step: Step)
    requires Enabled(s, step) && step.HandleNext?
    ensures var ns, row := HandleOne(s, step.times, step.renewal, step.failing).notices, s.subCheck.pending[0];
            && (ns == [] || (|ns| == 1 && ns[0].subscription == row.id && Topic(ns[0].kind) == BranchOf(s, step)
                             && row.row.expires == Some(ns[0].expires)
                             && Fires(s, step, row.id, BranchOf(s, step), ns[0].expires)))
            && (ns == [] ==> forall k, b, e :: !Fires(s, step, k, b, e))
  {
  }

  /** Along any step the count moves exactly when that step fires the notice. */
  lemma CountStep(s: State, step: Step, k: Id, b: Branch, about: Option<Time>)
    requires b != Nothing
    ensures Count(Next(s, step).notices, k, b, about)
         == Count(s.notices, k, b, about) + (if FiresAbout(s, step, k, b, about) then 1 else 0)
  {
    NoticesStep(s, step);
    if Enabled(s, step) && step.HandleNext? {
      var ns := HandleOne(s, step.times, step.renewal, step.failing).notices;
      NoticeOfRow(s, step);
      if ns == [] {
        assert s.notices + ns == s.notices;
      } else {
        assert ns == [ns[0]];
        CountSnoc(s.notices, ns[0], k, b, about);
        FiresMatches(s, step, ns[0], k, b, about);
      }
    }
  }

  lemma FiresMatches(s: State, step: Step, n: Notice, k: Id, b: Branch, about: Option<Time>)
    requires Enabled(s, step) && step.HandleNext? && b != Nothing
    requires n.subscription == s.subCheck.pending[0].id && Topic(n.kind) == BranchOf(s, step)
    requires Fires(s, step, n.subscription, BranchOf(s, step), n.expires)
    ensures FiresAbout(s, step, k, b, about) <==> Matches(n, k, b, about)
  {
  }
}
