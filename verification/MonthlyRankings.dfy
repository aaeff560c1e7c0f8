/** The two monthly rankings: their cohorts, and the initial scores captured once. */
module MonthlyRankings {
  import opened Collections
  import opened JsArray
  import opened Tiebreak
  import opened Domain
  import opened Book
  import opened BookRun
  import opened Window
  import opened PeriodRanking

  datatype SubscriptionStatus = ACTIVE_PLAN | EXPIRED | CANCELLED_PLAN
  datatype Subscription = Subscription(status: SubscriptionStatus, startAt: Time, endAt: Option<Time>)

  predicate ActivePro(subscriptions: map<UserId, Subscription>, u: UserId, at: Time) {
    && u in subscriptions
    && var s := subscriptions[u];
      s.status != EXPIRED && s.startAt <= at && (s.endAt.Some? ==> s.endAt.value > at)
  }

  /** A participant of a monthly ranking; every ranking has at most one per user. */
  datatype Entry = Entry(scoreInitial: int, scoreInitialCapturedAt: Option<Time>, score: int, approvedAt: Time)
  type Cohort = map<UserId, Entry>

  datatype Month = Month(general: Cohort, pro: Cohort, rounds: set<RoundNo>)

  // ---- the reference round ----

  function ClosingWithin(b: Book, numbers: seq<RoundNo>, start: Time, end: Time): seq<RoundNo> {
    if numbers == [] then []
    else
      var before, last := ClosingWithin(b, numbers[..|numbers| - 1], start, end), numbers[|numbers| - 1];
      var closeAt := CloseAtOf(b, last);
      if closeAt.Some? && start <= closeAt.value < end then before + [last] else before
  }

  function EarlierClosing(b: Book): (RoundNo, RoundNo) -> int {
    (r, s) =>
      var (x, y) := (CloseAtOf(b, r).GetOr(0), CloseAtOf(b, s).GetOr(0));
      if x != y then x - y else r - s
  }

  /** The first round of the period to close, by number among equals. */
  function FirstRound(b: Book, start: Time, end: Time): Option<RoundNo> {
    var rounds := Sort(ClosingWithin(b, b.numbers, start, end), EarlierClosing(b));
    if rounds == [] then None else Some(rounds[0])
  }

  predicate RegistrationOpenFor(b: Book, first: RoundNo, now: Time) {
    && !HasStatus(b, first, RoundStatus.CLOSED) && !HasStatus(b, first, SCORED) && !HasStatus(b, first, CANCELLED)
    && CloseAtOf(b, first).GetOr(now) > now
  }

  // ---- cohorts ----

  function CreatedBefore(b: Book, cutoff: Time): set<UserId> {
    set u | u in b.users && b.users[u].createdAt < cutoff
  }

  /** Those among the users who are PRO at `at`; the account exists at `until`. */
  function ProAmong(b: Book, users: set<UserId>, subscriptions: map<UserId, Subscription>, until: Time,
                    at: Time): set<UserId> {
    set u | u in users && u in b.users && b.users[u].createdAt <= until && ActivePro(subscriptions, u, at)
  }

  /** `createMany` with `skipDuplicates`. */
  function WithEntries(cohort: Cohort, users: set<UserId>, now: Time): Cohort {
    map u | u in cohort.Keys + users :: if u in cohort then cohort[u] else Entry(0, None, 0, now)
  }

  /** `deleteMany`: who is not eligible, has no score and has not been captured goes. */
  function WithoutIneligible(cohort: Cohort, eligible: set<UserId>): Cohort {
    map u | u in cohort && (u in eligible || cohort[u].score != 0 || cohort[u].scoreInitialCapturedAt.Some?) ::
      cohort[u]
  }

  function CapturedEntry(b: Book, u: UserId, e: Entry, reference: RoundNo, now: Time): Entry {
    if e.scoreInitialCapturedAt.Some? then e
    else e.(scoreInitial := TotalOf(Latest(b.history, u, ScoredUpTo(b, reference), BY_NUMBER), Score),
            scoreInitialCapturedAt := Some(now))
  }

  function Pending(cohort: Cohort): set<UserId> {
    set u | u in cohort && cohort[u].scoreInitialCapturedAt.None?
  }

  function WithCapture(b: Book, cohort: Cohort, reference: RoundNo, now: Time): Cohort {
    map u | u in cohort :: CapturedEntry(b, u, cohort[u], reference, now)
  }

  // ---- one run ----

  /** The users a run adds: everybody created before the cut-off, and the PRO among them. */
  function Everybody(b: Book, first: RoundNo, now: Time): set<UserId> {
    CreatedBefore(b, if RegistrationOpenFor(b, first, now) then now else CloseAtOf(b, first).GetOr(now))
  }

  function Subscribers(b: Book, subscriptions: map<UserId, Subscription>, first: RoundNo, now: Time): set<UserId> {
    var closing := CloseAtOf(b, first).GetOr(now);
    ProAmong(b, Everybody(b, first, now), subscriptions, closing,
             if RegistrationOpenFor(b, first, now) then now else closing)
  }

  /** PRO when the reference round closed. */
  function EligiblePro(b: Book, subscriptions: map<UserId, Subscription>, first: RoundNo, now: Time): set<UserId> {
    var closing := CloseAtOf(b, first).GetOr(now);
    ProAmong(b, Everybody(b, first, now), subscriptions, closing, closing)
  }

  function Reconciled(b: Book, m: Month, eligible: set<UserId>, reference: RoundNo, now: Time): Month {
    m.(general := WithCapture(b, m.general, reference, now),
       pro := WithCapture(b, WithEntries(WithoutIneligible(m.pro, eligible), eligible, now), reference, now))
  }

  /** Everybody enrolled, nobody captured yet. */
  function Joined(b: Book, m: Month, subscriptions: map<UserId, Subscription>, first: RoundNo, now: Time): Month {
    Month(WithEntries(m.general, Everybody(b, first, now), now),
          WithEntries(m.pro, Subscribers(b, subscriptions, first, now), now), m.rounds + {first})
  }

  /** ... and, once the reference round is scored, reconciled and captured. */
  function AllJoined(b: Book, m: Month, subscriptions: map<UserId, Subscription>, first: RoundNo, now: Time): Month {
    var joined := Joined(b, m, subscriptions, first, now);
    if !HasStatus(b, first, SCORED) then joined
    else Reconciled(b, joined, EligiblePro(b, subscriptions, first, now), first, now)
  }

  function Synchronized(b: Book, m: Month, subscriptions: map<UserId, Subscription>, start: Time, end: Time,
                        now: Time): Month {
    var first := FirstRound(b, start, end);
    if first.None? then m else AllJoined(b, m, subscriptions, first.value, now)
  }

  /** The dates of both rankings. */
  datatype Period = Period(startDate: Time, endDate: Time)

  /** The audit row of a run. */
  datatype Audit = Audit(
    firstRound: RoundNo,
    registrationOpen: bool,
    referenceScored: bool,
    proEligibilityDate: Time,
    generalAdded: nat,
    proAdded: nat,
    proRemoved: nat,
    initialCaptured: nat)

  /** Whom the reconciliation leaves in the PRO cohort, nobody captured yet. */
  function Eligible(pro: Cohort, eligible: set<UserId>, now: Time): Cohort {
    WithEntries(WithoutIneligible(pro, eligible), eligible, now)
  }

  function RemovedFrom(pro: Cohort, eligible: set<UserId>): nat {
    |pro.Keys - WithoutIneligible(pro, eligible).Keys|
  }

  function CapturedIn(m: Month, eligible: set<UserId>, now: Time): nat {
    |Pending(m.general)| + |Pending(Eligible(m.pro, eligible, now))|
  }

  function AuditFor(b: Book, m: Month, subscriptions: map<UserId, Subscription>, first: RoundNo, now: Time): Audit {
    var joined := Joined(b, m, subscriptions, first, now);
    var scored, eligible := HasStatus(b, first, SCORED), EligiblePro(b, subscriptions, first, now);
    Audit(first, RegistrationOpenFor(b, first, now), scored, CloseAtOf(b, first).GetOr(now),
          |Everybody(b, first, now) - m.general.Keys|, |Subscribers(b, subscriptions, first, now) - m.pro.Keys|,
          if scored then RemovedFrom(joined.pro, eligible) else 0,
          if scored then CapturedIn(joined, eligible, now) else 0)
  }

  /** A run is recorded when it has added, removed or captured somebody. */
  predicate Recorded(a: Audit) {
    a.generalAdded > 0 || a.proAdded > 0 || a.proRemoved > 0 || a.initialCaptured > 0
  }

  function AuditsOf(b: Book, m: Month, subscriptions: map<UserId, Subscription>, start: Time, end: Time,
                    now: Time): seq<Audit> {
    var first := FirstRound(b, start, end);
    if first.None? then []
    else
      var audit := AuditFor(b, m, subscriptions, first.value, now);
      if Recorded(audit) then [audit] else []
  }

  // ---- the service ----

  class Rankings {
    var period: Option<Period>
    var audits: seq<Audit>
    var general: Cohort
    var pro: Cohort
    var rounds: set<RoundNo>

    function View(): Month
      reads this
    {
      Month(general, pro, rounds)
    }

    constructor ()
      ensures View() == Month(map[], map[], {}) && period == None && audits == []
    {
      general, pro, rounds := map[], map[], {};
      period, audits := None, [];
    }

    method Enroll(b: Book, subscriptions: map<UserId, Subscription>, first: RoundNo, now: Time)
      returns (generalAdded: nat, proAdded: nat)
      modifies this`general, this`pro, this`rounds
      ensures View() == Joined(b, old(View()), subscriptions, first, now)
      ensures generalAdded == |Everybody(b, first, now) - old(general).Keys|
      ensures proAdded == |Subscribers(b, subscriptions, first, now) - old(pro).Keys|
    {
      rounds := rounds + {first};
      var users, proUsers := Everybody(b, first, now), Subscribers(b, subscriptions, first, now);
      generalAdded, proAdded := |users - general.Keys|, |proUsers - pro.Keys|;
      general, pro := WithEntries(general, users, now), WithEntries(pro, proUsers, now);
    }

    method Reconcile(b: Book, eligible: set<UserId>, first: RoundNo, now: Time)
      returns (proRemoved: nat, initialCaptured: nat)
      requires UniqueRows(b.history)
      modifies this`general, this`pro
      ensures View() == Reconciled(b, old(View()), eligible, first, now)
      ensures proRemoved == RemovedFrom(old(pro), eligible)
      ensures initialCaptured == CapturedIn(old(View()), eligible, now)
    {
      proRemoved := |pro.Keys - WithoutIneligible(pro, eligible).Keys|;
      pro := WithoutIneligible(pro, eligible);
      pro := WithEntries(pro, eligible, now);
      var generalCaptured, proCaptured;
      general, generalCaptured := CaptureInitialScores(b, general, first, now);
      pro, proCaptured := CaptureInitialScores(b, pro, first, now);
      initialCaptured := generalCaptured + proCaptured;
    }

    /** What follows once there is a reference round. */
    method Synchronize(b: Book, subscriptions: map<UserId, Subscription>, first: RoundNo, now: Time)
      returns (registrationOpen: bool, generalAdded: nat, proAdded: nat)
      requires UniqueRows(b.history)
      modifies this`general, this`pro, this`rounds, this`audits
      ensures View() == AllJoined(b, old(View()), subscriptions, first, now)
      ensures var audit := AuditFor(b, old(View()), subscriptions, first, now);
        && audits == old(audits) + (if Recorded(audit) then [audit] else [])
        && registrationOpen == audit.registrationOpen
        && generalAdded == audit.generalAdded && proAdded == audit.proAdded
    {
      registrationOpen := RegistrationOpenFor(b, first, now);
      generalAdded, proAdded := Enroll(b, subscriptions, first, now);
      var referenceScored, proRemoved, initialCaptured := HasStatus(b, first, SCORED), 0, 0;
      if referenceScored {
        proRemoved, initialCaptured := Reconcile(b, EligiblePro(b, subscriptions, first, now), first, now);
      }
      if generalAdded > 0 || proAdded > 0 || proRemoved > 0 || initialCaptured > 0 {
        audits := audits + [Audit(first, registrationOpen, referenceScored, CloseAtOf(b, first).GetOr(now),
                                  generalAdded, proAdded, proRemoved, initialCaptured)];
      }
    }

    /** The history has one row per user and round, as its unique index demands. */
    method Execute(b: Book, subscriptions: map<UserId, Subscription>, start: Time, end: Time, now: Time)
      returns (registrationOpen: bool, firstRound: Option<RoundNo>, generalAdded: nat, proAdded: nat)
      requires UniqueRows(b.history)
      modifies this
      ensures View() == Synchronized(b, old(View()), subscriptions, start, end, now)
      ensures period == Some(Period(start, end - 1)) && firstRound == FirstRound(b, start, end)
      ensures audits == old(audits) + AuditsOf(b, old(View()), subscriptions, start, end, now)
      ensures FirstRound(b, start, end).None? ==> !registrationOpen && generalAdded == 0 && proAdded == 0
      ensures FirstRound(b, start, end).Some? ==>
        && registrationOpen == RegistrationOpenFor(b, FirstRound(b, start, end).value, now)
        && generalAdded == |Everybody(b, FirstRound(b, start, end).value, now) - old(general).Keys|
        && proAdded == |Subscribers(b, subscriptions, FirstRound(b, start, end).value, now) - old(pro).Keys|
    {
      firstRound := FirstRound(b, start, end);
      period := Some(Period(start, end - 1));
      if firstRound.None? {
        return false, None, 0, 0;
      }
      registrationOpen, generalAdded, proAdded := Synchronize(b, subscriptions, firstRound.value, now);
    }
  }

  method CaptureInitialScores(b: Book, cohort: Cohort, reference: RoundNo, now: Time)
    returns (after: Cohort, captured: nat)
    requires UniqueRows(b.history)
    ensures after == WithCapture(b, cohort, reference, now)
    ensures captured == |Pending(cohort)|
  {
    var baseline := FillBaselines(Query(b.history, ScoredUpTo(b, reference)));
    var pending := Listed(Pending(cohort));
    after, captured := cohort, 0;
    for k := 0 to |pending|
      invariant after.Keys == cohort.Keys && captured == k
      invariant forall u :: u in cohort ==>
        after[u] == if u in pending[..k] then CapturedEntry(b, u, cohort[u], reference, now) else cohort[u]
    {
      PrefixGrows(pending, k);
      assert pending[k] in pending;
      var u := pending[k];
      FirstIsLatest(b.history, ScoredUpTo(b, reference), u);
      var scoreInitial := if u in baseline then baseline[u].totals.score else 0;
      after := after[u := after[u].(scoreInitial := scoreInitial, scoreInitialCapturedAt := Some(now))];
      captured := captured + 1;
    }
    assert pending[..|pending|] == pending;
    PendingCount(cohort, pending);
  }

  lemma {:induction false} PendingCount(cohort: Cohort, pending: seq<UserId>)
    requires Distinct(pending)
    requires forall u :: u in pending <==> u in cohort && cohort[u].scoreInitialCapturedAt.None?
    ensures |pending| == |Pending(cohort)|
  {
    DistinctCardinality(pending);
    forall u: UserId | true ensures u in Elements(pending) <==> u in Pending(cohort) {}
    assert Elements(pending) == Pending(cohort);
  }

  // ---- what runs promise ----

  lemma {:induction false} FirstRoundCloses(b: Book, numbers: seq<RoundNo>, start: Time, end: Time, n: RoundNo)
    requires n in ClosingWithin(b, numbers, start, end)
    ensures n in numbers && CloseAtOf(b, n).Some? && start <= CloseAtOf(b, n).value < end
  {
    var init := numbers[..|numbers| - 1];
    assert numbers == init + [numbers[|numbers| - 1]];
    if n in ClosingWithin(b, init, start, end) {
      FirstRoundCloses(b, init, start, end, n);
    }
  }

  lemma {:induction false} EveryClosing(b: Book, numbers: seq<RoundNo>, start: Time, end: Time, n: RoundNo)
    requires n in numbers && CloseAtOf(b, n).Some? && start <= CloseAtOf(b, n).value < end
    ensures n in ClosingWithin(b, numbers, start, end)
  {
    var init := numbers[..|numbers| - 1];
    assert numbers == init + [numbers[|numbers| - 1]];
    if n in init {
      EveryClosing(b, init, start, end, n);
    }
  }

  lemma {:induction false} EarlierClosingIsTotal(b: Book)
    ensures TotalPreorder(EarlierClosing(b))
  {}

  lemma {:induction false} FirstRoundIsOne(b: Book, start: Time, end: Time)
    requires FirstRound(b, start, end).Some?
    ensures CloseAtOf(b, FirstRound(b, start, end).value).Some?
    ensures start <= CloseAtOf(b, FirstRound(b, start, end).value).value < end
  {
    var sorted := Sort(ClosingWithin(b, b.numbers, start, end), EarlierClosing(b));
    assert sorted[0] in multiset(sorted);
    FirstRoundCloses(b, b.numbers, start, end, sorted[0]);
  }

  /** The reference round is the one of the period that closes first, by number among equals. */
  lemma {:induction false} FirstRoundIsFirst(b: Book, start: Time, end: Time, n: RoundNo)
    requires n in b.numbers && CloseAtOf(b, n).Some? && start <= CloseAtOf(b, n).value < end
    ensures FirstRound(b, start, end).Some?
    ensures var first := FirstRound(b, start, end).value;
      && CloseAtOf(b, first).Some? && CloseAtOf(b, first).value <= CloseAtOf(b, n).value
      && (CloseAtOf(b, first) == CloseAtOf(b, n) ==> first <= n)
  {
    var rounds := ClosingWithin(b, b.numbers, start, end);
    var sorted := Sort(rounds, EarlierClosing(b));
    EveryClosing(b, b.numbers, start, end, n);
    assert n in multiset(sorted);
    var i :| 0 <= i < |sorted| && sorted[i] == n;
    FirstRoundIsOne(b, start, end);
    EarlierClosingIsTotal(b);
    SortOrders(rounds, EarlierClosing(b));
    assert i > 0 ==> EarlierClosing(b)(sorted[0], sorted[i]) <= 0;
  }

  /** Once the reference round is scored, what a run adds and whom it finds eligible no longer
      depends on when it runs. */
  lemma {:induction false} ScoredFixesCohorts(b: Book, subscriptions: map<UserId, Subscription>, first: RoundNo,
                                              now: Time, later: Time)
    requires HasStatus(b, first, SCORED) && CloseAtOf(b, first).Some?
    ensures Everybody(b, first, later) == Everybody(b, first, now)
    ensures Subscribers(b, subscriptions, first, now) == EligiblePro(b, subscriptions, first, now)
    ensures EligiblePro(b, subscriptions, first, later) == EligiblePro(b, subscriptions, first, now)
  {}

  ghost predicate Captured(cohort: Cohort) {
    forall u :: u in cohort ==> cohort[u].scoreInitialCapturedAt.Some?
  }

  /** After a run that sees the reference round scored, every eligible user is in the PRO
      cohort, everybody is in the general one, and all of both are captured. */
  lemma {:induction false} ScoredRunCompletes(b: Book, m: Month, subscriptions: map<UserId, Subscription>,
                                              start: Time, end: Time, now: Time)
    requires FirstRound(b, start, end).Some? && HasStatus(b, FirstRound(b, start, end).value, SCORED)
    ensures var (after, first) := (Synchronized(b, m, subscriptions, start, end, now), FirstRound(b, start, end).value);
      && EligiblePro(b, subscriptions, first, now) <= after.pro.Keys
      && Everybody(b, first, now) <= after.general.Keys
      && Captured(after.general) && Captured(after.pro)
  {}

  lemma {:induction false} NothingToDo(b: Book, cohort: Cohort, users: set<UserId>, eligible: set<UserId>,
                                       reference: RoundNo, now: Time)
    requires Captured(cohort)
    ensures users <= cohort.Keys ==> WithEntries(cohort, users, now) == cohort
    ensures WithoutIneligible(cohort, eligible) == cohort
    ensures WithCapture(b, cohort, reference, now) == cohort
  {
    forall u | u in cohort ensures u in WithoutIneligible(cohort, eligible) {}
  }

  lemma {:induction false} NoneMissing(users: set<UserId>, others: set<UserId>)
    ensures |users - others| == 0 <==> forall u :: u in users ==> u in others
  {
    if forall u :: u in users ==> u in others {
      assert users - others == {};
    } else {
      var u :| u in users && u !in others;
      assert u in users - others;
    }
  }

  lemma {:induction false} NonePending(cohort: Cohort)
    ensures |Pending(cohort)| == 0 <==> Captured(cohort)
  {
    NoneMissing(Pending(cohort), {});
    assert Pending(cohort) - {} == Pending(cohort);
    if !Captured(cohort) {
      var u :| u in cohort && cohort[u].scoreInitialCapturedAt.None?;
      assert u in Pending(cohort);
    } else {
      assert forall u :: u in Pending(cohort) ==> u in {};
    }
  }

  lemma {:induction false} EnrolledExactly(cohort: Cohort, users: set<UserId>, now: Time)
    ensures WithEntries(cohort, users, now) == cohort <==> |users - cohort.Keys| == 0
  {
    NoneMissing(users, cohort.Keys);
    var joined := WithEntries(cohort, users, now);
    assert forall u :: u in users ==> u in joined;
    if forall u :: u in users ==> u in cohort.Keys {
      assert joined.Keys == cohort.Keys;
      assert joined == cohort;
    }
  }

  lemma {:induction false} CapturedExactly(b: Book, cohort: Cohort, reference: RoundNo, now: Time)
    ensures WithCapture(b, cohort, reference, now) == cohort <==> |Pending(cohort)| == 0
  {
    NonePending(cohort);
    if !Captured(cohort) {
      var u :| u in cohort && cohort[u].scoreInitialCapturedAt.None?;
      assert WithCapture(b, cohort, reference, now)[u] != cohort[u];
    }
  }

  lemma {:induction false} RemovedExactly(cohort: Cohort, eligible: set<UserId>)
    ensures WithoutIneligible(cohort, eligible) == cohort <==> RemovedFrom(cohort, eligible) == 0
  {
    NoneMissing(cohort.Keys, WithoutIneligible(cohort, eligible).Keys);
  }

  /** Whoever is enrolled is eligible and stays. */
  lemma {:induction false} EligibleStay(pro: Cohort, eligible: set<UserId>, now: Time)
    ensures var joined := WithEntries(pro, eligible, now);
      Eligible(joined, eligible, now) == WithoutIneligible(joined, eligible)
  {
    var joined := WithEntries(pro, eligible, now);
    assert eligible <= WithoutIneligible(joined, eligible).Keys;
  }

  lemma {:induction false} CaptureKeepsUsers(b: Book, cohort: Cohort, reference: RoundNo, now: Time)
    ensures WithCapture(b, cohort, reference, now).Keys == cohort.Keys
  {}

  /** Enrolling, removing and capturing add up to nothing only if each of them does nothing. */
  lemma {:induction false} NothingUndone(b: Book, pro: Cohort, eligible: set<UserId>, reference: RoundNo, now: Time,
                                         joined: Cohort, kept: Cohort)
    requires joined == WithEntries(pro, eligible, now) && kept == WithoutIneligible(joined, eligible)
    requires WithCapture(b, kept, reference, now) == pro
    ensures joined == pro && kept == pro
  {
    CaptureKeepsUsers(b, kept, reference, now);
    assert kept.Keys <= joined.Keys && pro.Keys <= joined.Keys && eligible <= kept.Keys;
    assert kept.Keys == pro.Keys;
  }

  lemma {:induction false} ProChangesExactly(b: Book, pro: Cohort, eligible: set<UserId>, reference: RoundNo, now: Time)
    ensures var joined := WithEntries(pro, eligible, now);
      var nothing :=
        |eligible - pro.Keys| == 0 && RemovedFrom(joined, eligible) == 0
        && |Pending(Eligible(joined, eligible, now))| == 0;
      WithCapture(b, Eligible(joined, eligible, now), reference, now) == pro <==> nothing
  {
    var joined := WithEntries(pro, eligible, now);
    var kept := WithoutIneligible(joined, eligible);
    EligibleStay(pro, eligible, now);
    EnrolledExactly(pro, eligible, now);
    RemovedExactly(joined, eligible);
    CapturedExactly(b, kept, reference, now);
    if WithCapture(b, kept, reference, now) == pro {
      NothingUndone(b, pro, eligible, reference, now, joined, kept);
    }
  }

  /** A run is recorded if and only if it has changed somebody's participation. */
  lemma {:induction false} RecordedExactly(b: Book, m: Month, subscriptions: map<UserId, Subscription>, start: Time,
                                           end: Time, now: Time)
    ensures var after := Synchronized(b, m, subscriptions, start, end, now);
      AuditsOf(b, m, subscriptions, start, end, now) != [] <==> after.general != m.general || after.pro != m.pro
  {
    var first := FirstRound(b, start, end);
    if first.Some? {
      FirstRoundIsOne(b, start, end);
      if HasStatus(b, first.value, SCORED) {
        ScoredRunRecorded(b, m, subscriptions, first.value, now);
      } else {
        EnrolledExactly(m.general, Everybody(b, first.value, now), now);
        EnrolledExactly(m.pro, Subscribers(b, subscriptions, first.value, now), now);
      }
    }
  }

  lemma {:induction false} ScoredRunRecorded(b: Book, m: Month, subscriptions: map<UserId, Subscription>,
                                             first: RoundNo, now: Time)
    requires HasStatus(b, first, SCORED) && CloseAtOf(b, first).Some?
    ensures var after := AllJoined(b, m, subscriptions, first, now);
      Recorded(AuditFor(b, m, subscriptions, first, now)) <==> after.general != m.general || after.pro != m.pro
  {
    var users, eligible := Everybody(b, first, now), EligiblePro(b, subscriptions, first, now);
    ScoredFixesCohorts(b, subscriptions, first, now, now);
    ProChangesExactly(b, m.pro, eligible, first, now);
    EnrolledExactly(m.general, users, now);
    CapturedExactly(b, WithEntries(m.general, users, now), first, now);
    CaptureKeepsUsers(b, WithEntries(m.general, users, now), first, now);
    NoneMissing(users, m.general.Keys);
  }

  /** The fixpoint: a second run on that state, whenever it comes, changes and records nothing. */
  lemma {:induction false} SecondRunChangesNothing(b: Book, m: Month, subscriptions: map<UserId, Subscription>,
                                                   start: Time, end: Time,
                                                   now: Time, later: Time)
    requires FirstRound(b, start, end).Some? && HasStatus(b, FirstRound(b, start, end).value, SCORED)
    ensures var after := Synchronized(b, m, subscriptions, start, end, now);
      && Synchronized(b, after, subscriptions, start, end, later) == after
      && AuditsOf(b, after, subscriptions, start, end, later) == []
  {
    var (after, first) := (Synchronized(b, m, subscriptions, start, end, now), FirstRound(b, start, end).value);
    var eligible := EligiblePro(b, subscriptions, first, now);
    FirstRoundIsOne(b, start, end);
    ScoredFixesCohorts(b, subscriptions, first, now, later);
    ScoredFixesCohorts(b, subscriptions, first, later, now);
    ScoredRunCompletes(b, m, subscriptions, start, end, now);
    NothingToDo(b, after.general, Everybody(b, first, now), eligible, first, later);
    NothingToDo(b, after.pro, eligible, eligible, first, later);
    assert after.rounds + {first} == after.rounds;
    RecordedExactly(b, after, subscriptions, start, end, later);
  }

  /** Captured entries are still there, unaltered. */
  ghost predicate KeepsCaptured(cohort: Cohort, after: Cohort) {
    forall u :: u in cohort && cohort[u].scoreInitialCapturedAt.Some? ==> u in after && after[u] == cohort[u]
  }

  lemma {:induction false} StepsKeepCaptured(b: Book, cohort: Cohort, users: set<UserId>, reference: RoundNo, now: Time)
    ensures KeepsCaptured(cohort, WithEntries(cohort, users, now))
    ensures KeepsCaptured(cohort, WithoutIneligible(cohort, users))
    ensures KeepsCaptured(cohort, WithCapture(b, cohort, reference, now))
  {}

  lemma {:induction false} KeepsCapturedTwice(a: Cohort, b: Cohort, c: Cohort)
    requires KeepsCaptured(a, b) && KeepsCaptured(b, c)
    ensures KeepsCaptured(a, c)
  {}

  lemma {:induction false} ReconcileKeepsCaptured(b: Book, m: Month, eligible: set<UserId>, reference: RoundNo,
                                                  now: Time)
    ensures KeepsCaptured(m.general, Reconciled(b, m, eligible, reference, now).general)
    ensures KeepsCaptured(m.pro, Reconciled(b, m, eligible, reference, now).pro)
  {}

  /** No run ever alters or drops a captured participant. */
  lemma {:induction false} CapturedStays(b: Book, m: Month, subscriptions: map<UserId, Subscription>, start: Time,
                                         end: Time, now: Time)
    ensures KeepsCaptured(m.general, Synchronized(b, m, subscriptions, start, end, now).general)
    ensures KeepsCaptured(m.pro, Synchronized(b, m, subscriptions, start, end, now).pro)
  {
    var first := FirstRound(b, start, end);
    if first.Some? {
      var everybody, subscribers := Everybody(b, first.value, now), Subscribers(b, subscriptions, first.value, now);
      var joined := Joined(b, m, subscriptions, first.value, now);
      StepsKeepCaptured(b, m.general, everybody, first.value, now);
      StepsKeepCaptured(b, m.pro, subscribers, first.value, now);
      var after := Reconciled(b, joined, EligiblePro(b, subscriptions, first.value, now), first.value, now);
      ReconcileKeepsCaptured(b, joined, EligiblePro(b, subscriptions, first.value, now), first.value, now);
      KeepsCapturedTwice(m.general, joined.general, after.general);
      KeepsCapturedTwice(m.pro, joined.pro, after.pro);
    }
  }

  /** The user has an account of the age and a subscription that runs at the time. */
  predicate IsSubscriber(b: Book, subscriptions: map<UserId, Subscription>, u: UserId, created: Time, at: Time) {
    && u in b.users && b.users[u].createdAt < created && u in subscriptions
    && subscriptions[u].status != EXPIRED && subscriptions[u].startAt <= at
    && (subscriptions[u].endAt.None? || at < subscriptions[u].endAt.value)
  }

  /** The reference round is still to close, and takes tickets or is being prepared. */
  predicate StillOpen(round: Round, closing: Time, now: Time) {
    round.status != RoundStatus.CLOSED && round.status != SCORED && round.status != CANCELLED && now < closing
  }

  /** Who is in the general ranking after a run: who was in it, and whoever had an account when the
      reference round closed -- or has one now, as long as it is still to close. */
  lemma {:induction false} GeneralCohortExactly(b: Book, m: Month, subscriptions: map<UserId, Subscription>,
    start: Time,
                                                end: Time, now: Time, first: RoundNo, closing: Time, u: UserId)
    requires FirstRound(b, start, end) == Some(first) && first in b.rounds && b.rounds[first].closeAt == Some(closing)
    ensures u in Synchronized(b, m, subscriptions, start, end, now).general
      <==> (|| u in m.general
            || (u in b.users
                && b.users[u].createdAt < if StillOpen(b.rounds[first], closing, now) then now else closing))
  {}

  /** Who is in the PRO ranking after a run. Until the reference round is scored: who was in it, and
      whoever subscribes now, or did when the round closed. Once it is scored: whoever subscribed
      when it closed, and those of before who had a score or had been captured. */
  lemma {:induction false} ProCohortExactly(b: Book, m: Month, subscriptions: map<UserId, Subscription>, start: Time,
                                            end: Time, now: Time, first: RoundNo, closing: Time, u: UserId)
    requires FirstRound(b, start, end) == Some(first) && first in b.rounds && b.rounds[first].closeAt == Some(closing)
    ensures b.rounds[first].status == SCORED ==>
      (u in Synchronized(b, m, subscriptions, start, end, now).pro
       <==> (|| IsSubscriber(b, subscriptions, u, closing, closing)
             || (u in m.pro && (m.pro[u].score != 0 || m.pro[u].scoreInitialCapturedAt.Some?))))
    ensures b.rounds[first].status != SCORED ==>
      var at := if StillOpen(b.rounds[first], closing, now) then now else closing;
      (u in Synchronized(b, m, subscriptions, start, end, now).pro
       <==> u in m.pro || IsSubscriber(b, subscriptions, u, at, at))
  {}

  /** The entry, captured now if it had not been; nothing else has changed. */
  predicate CapturedSince(e: Entry, after: Entry, now: Time) {
    after == e.(scoreInitial := after.scoreInitial, scoreInitialCapturedAt := Some(e.scoreInitialCapturedAt.GetOr(now)))
  }

  /** Without a round in the period a run changes nobody; a new participant starts from nothing,
      approved now, until the initial scores are captured. */
  lemma {:induction false} EntriesExactly(b: Book, m: Month, subscriptions: map<UserId, Subscription>, start: Time,
                                          end: Time, now: Time, u: UserId)
    ensures var (first, after) := (FirstRound(b, start, end), Synchronized(b, m, subscriptions, start, end, now));
      && (first.None? ==> after == m) && (first.Some? ==> after.rounds == m.rounds + {first.value})
      && (first.Some? && !HasStatus(b, first.value, SCORED) ==>
        && (u in m.general ==> after.general[u] == m.general[u])
        && (u in m.pro ==> after.pro[u] == m.pro[u])
        && (u in after.general && u !in m.general ==> after.general[u] == Entry(0, None, 0, now))
        && (u in after.pro && u !in m.pro ==> after.pro[u] == Entry(0, None, 0, now)))
      && (first.Some? && HasStatus(b, first.value, SCORED) ==>
        && (u in m.general ==> u in after.general && CapturedSince(m.general[u], after.general[u], now))
        && (u in m.pro && u in after.pro ==> CapturedSince(m.pro[u], after.pro[u], now))
        && (u in after.general && u !in m.general ==>
          after.general[u] == Entry(after.general[u].scoreInitial, Some(now), 0, now))
        && (u in after.pro && u !in m.pro ==> after.pro[u] == Entry(after.pro[u].scoreInitial, Some(now), 0, now)))
  {}

  // ---- what the audit says ----

  /** Who is in the second cohort and not in the first. */
  ghost function Added(before: Cohort, after: Cohort): set<UserId> {
    set u | u in after && u !in before
  }

  ghost function NewlyCaptured(before: Cohort, after: Cohort): set<UserId> {
    set u | u in after && after[u].scoreInitialCapturedAt.Some?
      && !(u in before && before[u].scoreInitialCapturedAt.Some?)
  }

  lemma {:induction false} EnrolledAre(cohort: Cohort, users: set<UserId>, now: Time)
    ensures users - cohort.Keys == Added(cohort, WithEntries(cohort, users, now))
    ensures Added(WithEntries(cohort, users, now), cohort) == {}
    ensures NewlyCaptured(cohort, WithEntries(cohort, users, now)) == {}
  {}

  lemma {:induction false} CapturedAre(b: Book, cohort: Cohort, joined: Cohort, reference: RoundNo, now: Time)
    requires forall u :: u in joined ==>
      joined[u].scoreInitialCapturedAt == if u in cohort then cohort[u].scoreInitialCapturedAt else None
    ensures Pending(joined) == NewlyCaptured(cohort, WithCapture(b, joined, reference, now))
  {}

  lemma {:induction false} ReconciledAre(b: Book, pro: Cohort, eligible: set<UserId>, reference: RoundNo, now: Time)
    ensures var joined := WithEntries(pro, eligible, now);
      var after := WithCapture(b, Eligible(joined, eligible, now), reference, now);
      && eligible - pro.Keys == Added(pro, after)
      && joined.Keys - WithoutIneligible(joined, eligible).Keys == Added(after, pro)
      && Pending(Eligible(joined, eligible, now)) == NewlyCaptured(pro, after)
  {
    var joined := WithEntries(pro, eligible, now);
    CapturedAre(b, pro, Eligible(joined, eligible, now), reference, now);
  }

  lemma {:induction false} GeneralCapturedAre(b: Book, general: Cohort, users: set<UserId>, reference: RoundNo,
                                              now: Time)
    ensures var joined := WithEntries(general, users, now);
      var after := WithCapture(b, joined, reference, now);
      && users - general.Keys == Added(general, after)
      && Pending(joined) == NewlyCaptured(general, after)
  {
    CapturedAre(b, general, WithEntries(general, users, now), reference, now);
  }

  /** The audit row of a run counts what the run has changed: who is new in either ranking, who is
      gone from the PRO one, and whose initial score has been captured in either. */
  lemma {:induction false} AuditIsTrue(b: Book, m: Month, subscriptions: map<UserId, Subscription>, start: Time,
                                       end: Time, now: Time, first: RoundNo, closing: Time, audit: Audit)
    requires FirstRound(b, start, end) == Some(first) && first in b.rounds && b.rounds[first].closeAt == Some(closing)
    requires AuditsOf(b, m, subscriptions, start, end, now) == [audit]
    ensures audit.firstRound == first && audit.proEligibilityDate == closing
    ensures audit.registrationOpen <==> StillOpen(b.rounds[first], closing, now)
    ensures audit.referenceScored <==> b.rounds[first].status == SCORED
    ensures var after := Synchronized(b, m, subscriptions, start, end, now);
      && audit.generalAdded == |Added(m.general, after.general)| && audit.proAdded == |Added(m.pro, after.pro)|
      && audit.proRemoved == |Added(after.pro, m.pro)|
      && audit.initialCaptured == |NewlyCaptured(m.general, after.general)| + |NewlyCaptured(m.pro, after.pro)|
  {
    var users, subscribers := Everybody(b, first, now), Subscribers(b, subscriptions, first, now);
    if HasStatus(b, first, SCORED) {
      ScoredFixesCohorts(b, subscriptions, first, now, now);
      GeneralCapturedAre(b, m.general, users, first, now);
      ReconciledAre(b, m.pro, subscribers, first, now);
    } else {
      EnrolledAre(m.general, users, now);
      EnrolledAre(m.pro, subscribers, now);
    }
  }

  /** A captured initial score is what the user had earned up to the reference round. */
  lemma {:induction false} CaptureIsWhatWasEarned(b: Book, m: Month, subscriptions: map<UserId, Subscription>,
                                                  start: Time, end: Time, now: Time, u: UserId, first: RoundNo,
                                                  rounds: set<RoundNo>)
    requires HistoryOk(b) && FirstRound(b, start, end) == Some(first) && HasStatus(b, first, SCORED)
    requires forall n :: n in rounds <==> n in b.rounds && b.rounds[n].status == SCORED && n <= first
    ensures var after := Synchronized(b, m, subscriptions, start, end, now);
      && (u in after.general && !(u in m.general && m.general[u].scoreInitialCapturedAt.Some?) ==>
        after.general[u].scoreInitial == Earned(b.history, u, rounds, Score))
      && (u in after.pro && !(u in m.pro && m.pro[u].scoreInitialCapturedAt.Some?) ==>
        after.pro[u].scoreInitial == Earned(b.history, u, rounds, Score))
  {
    forall n: RoundNo | true ensures n in rounds <==> n in ScoredUpTo(b, first) {}
    assert rounds == ScoredUpTo(b, first);
    ScoredUpToIsClosed(b, first);
    LatestTotalsAreTheSum(b.history, u, ScoredUpTo(b, first), BY_NUMBER, Score);
  }
}
