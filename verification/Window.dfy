/** The rows of a Mesa: what each participant scored inside its window, ranked. */
module Window {
  import opened Collections
  import opened Tiebreak
  import opened Prize
  import opened Domain
  import opened Book
  import opened BookRun

  datatype Row = Row(
    userId: UserId,
    score: int,
    scoreRound: int,
    scoreInitial: int,
    scoreTotalCurrent: int,
    hits: Hits,
    userCreatedAt: Time,
    previousScore: int,
    previousPosition: Option<int>)

  /** Does the Mesa follow the reference-round lifecycle? Older Mesas do not. */
  predicate ReferenceLifecycle(ms: Milestones) {
    ms.referenceRound.Some? || ms.initializationStatus.Some?
  }

  predicate AllCaptured(approved: seq<Participant>) {
    forall p :: p in approved ==> p.scoreInitialCapturedAt.Some?
  }

  /** The global barrier: every initial score has been captured. */
  predicate BarrierMet(ms: Milestones, approved: seq<Participant>) {
    && ms.initializationStatus == Some(READY) && ms.scoreInitialCapturedAt.Some? && ms.referenceRound.Some?
    && AllCaptured(approved)
  }

  function UserOf(b: Book, u: UserId): User {
    if u in b.users then b.users[u] else User("", 0, 0)
  }

  function ByCloseAt(b: Book): RoundNo -> int {
    n => CloseAtOf(b, n).GetOr(0)
  }

  function ClosedBefore(b: Book, date: Time): set<RoundNo> {
    set n | n in b.rounds && b.rounds[n].closeAt.Some? && b.rounds[n].closeAt.value < date
  }

  function ClosedBy(b: Book, end: Time): set<RoundNo> {
    set n | n in b.rounds && b.rounds[n].closeAt.Some? && b.rounds[n].closeAt.value <= end
  }

  /** The rounds that count: scored, after the reference, closed by the end. */
  function Counted(b: Book, reference: RoundNo, end: Time): set<RoundNo> {
    set n | n in ClosedBy(b, end) && b.rounds[n].status == SCORED && n > reference
  }

  /** The rounds at or before the reference that the query sees. */
  function SeenBaseline(b: Book, reference: RoundNo, end: Time): set<RoundNo> {
    set n | n in ClosedBy(b, end) && b.rounds[n].status == SCORED && n <= reference
  }

  function GetScoreTotalBefore(b: Book, u: UserId, date: Time): int {
    TotalOf(Latest(b.history, u, ClosedBefore(b, date), ByCloseAt(b)), Score)
  }

  function Placeholder(b: Book, p: Participant): Ranked<Row> {
    Ranked(Row(p.userId, 0, 0, p.scoreInitial, p.scoreInitial, Hits(0, 0), UserOf(b, p.userId).createdAt, p.score,
      p.position), 0)
  }

  function ScoreRoundOf(b: Book, latest: Option<History>, startDate: Option<Time>): int {
    if latest.Some? && CloseAtOf(b, latest.value.round).Some?
       && (startDate.None? || CloseAtOf(b, latest.value.round).value >= startDate.value)
    then latest.value.earned.score else 0
  }

  /** The row of a participant of a Mesa that follows the lifecycle. */
  function ReferenceRow(b: Book, p: Participant, startDate: Option<Time>, reference: RoundNo, end: Time): Row {
    var latest := Latest(b.history, p.userId, Counted(b, reference, end), BY_NUMBER);
    var baseline := Latest(b.history, p.userId, SeenBaseline(b, reference, end), BY_NUMBER);
    var scoreTotalCurrent := if latest.Some? then TotalOf(latest, Score) else p.scoreInitial;
    Row(p.userId, scoreTotalCurrent - p.scoreInitial, ScoreRoundOf(b, latest, startDate), p.scoreInitial,
        scoreTotalCurrent, CalculateWindowHits(HitsOf(if latest.Some? then latest else baseline), HitsOf(baseline)),
        UserOf(b, p.userId).createdAt, p.score, p.position)
  }

  predicate JoinedBefore(p: Participant, startDate: Option<Time>) {
    startDate.Some? && p.approvedAt.Some? && p.approvedAt.value < startDate.value
  }

  function LegacyBaseline(b: Book, u: UserId, startDate: Option<Time>, within: set<RoundNo>): Option<History> {
    if startDate.None? then None
    else Latest(b.history, u, within * ClosedBefore(b, startDate.value), ByCloseAt(b))
  }

  /** What a participant of an older Mesa starts from: the row before the start for who joined
      before it, otherwise what was stored when joining. */
  function LegacyInitial(b: Book, p: Participant, startDate: Option<Time>, within: set<RoundNo>): int {
    var baseline := LegacyBaseline(b, p.userId, startDate, within);
    if JoinedBefore(p, startDate) && baseline.Some? then TotalOf(baseline, Score) else p.scoreInitial
  }

  /** The row of a participant of an older Mesa. */
  function LegacyRow(b: Book, p: Participant, startDate: Option<Time>, endDate: Option<Time>, now: Time): Row {
    var within := ClosedBy(b, endDate.GetOr(now));
    var latest := Latest(b.history, p.userId, within, ByCloseAt(b));
    var baseline := LegacyBaseline(b, p.userId, startDate, within);
    var scoreInitial := LegacyInitial(b, p, startDate, within);
    var scoreTotalCurrent :=
      if startDate.Some? && now < startDate.value then scoreInitial
      else if endDate.Some? && now > endDate.value then (if latest.Some? then TotalOf(latest, Score) else scoreInitial)
      else UserOf(b, p.userId).scoreTotal;
    Row(p.userId, scoreTotalCurrent - scoreInitial, ScoreRoundOf(b, latest, startDate), scoreInitial, scoreTotalCurrent,
        CalculateWindowHits(HitsOf(latest), HitsOf(baseline)), UserOf(b, p.userId).createdAt, p.score, p.position)
  }

  function WindowRow(b: Book, t: Terms, ms: Milestones, endDate: Option<Time>, p: Participant, now: Time): Row {
    if ReferenceLifecycle(ms) && ms.referenceRound.Some?
    then ReferenceRow(b, p, t.startDate, ms.referenceRound.value, endDate.GetOr(now))
    else LegacyRow(b, p, t.startDate, endDate, now)
  }

  function RowMetrics(row: Row): Metrics {
    Metrics(row.userId, row.score, row.hits.superDoubleHits, row.hits.doubleHits, row.userCreatedAt)
  }

  /** `buildRows`; `endDate` is the end of the Mesa as its caller has read it. */
  function BuildRows(b: Book, t: Terms, ms: Milestones, endDate: Option<Time>, approved: seq<Participant>, now: Time)
    : (rows: seq<Ranked<Row>>)
    ensures |rows| == |approved|
  {
    if ReferenceLifecycle(ms) && !BarrierMet(ms, approved)
    then seq(|approved|, i requires 0 <= i < |approved| => Placeholder(b, approved[i]))
    else Ranking(WindowRows(b, t, ms, endDate, approved, now), RowMetrics)
  }

  function WindowRows(b: Book, t: Terms, ms: Milestones, endDate: Option<Time>, approved: seq<Participant>, now: Time)
    : (rows: seq<Row>)
    ensures |rows| == |approved|
  {
    seq(|approved|, i requires 0 <= i < |approved| => WindowRow(b, t, ms, endDate, approved[i], now))
  }

  // ---- the queries are sums ----

  lemma {:induction false} ScoredUpToIsClosed(b: Book, n: RoundNo)
    requires HistoryOk(b)
    ensures DownwardClosed(b.history, ScoredUpTo(b, n))
  {}

  lemma {:induction false} CountedIsClosed(b: Book, reference: RoundNo, end: Time)
    requires HistoryOk(b) && ClosingsOk(b)
    ensures DownwardClosed(b.history, ScoredUpTo(b, reference) + Counted(b, reference, end))
  {}

  /** If some round counts, the query sees the whole baseline. */
  lemma {:induction false} BaselineIsSeen(b: Book, reference: RoundNo, end: Time)
    requires ClosingsOk(b) && Counted(b, reference, end) != {}
    ensures SeenBaseline(b, reference, end) == ScoredUpTo(b, reference)
  {
    var n :| n in Counted(b, reference, end);
    forall r | r in ScoredUpTo(b, reference) ensures r in SeenBaseline(b, reference, end) {
      assert HasStatus(b, r, SCORED) && HasStatus(b, n, SCORED);
      assert CloseAtOf(b, r).value < CloseAtOf(b, n).value;
    }
  }

  lemma {:induction false} LatestInNothing(h: seq<History>, u: UserId, key: RoundNo -> int, f: Figure)
    ensures Latest(h, u, {}, key).None? && Earned(h, u, {}, f) == 0
  {
    if h != [] {
      LatestInNothing(h[..|h| - 1], u, key, f);
    }
  }

  /** Latest less baseline, with the service's fall-back when nothing counts. */
  lemma {:induction false} CountedFigure(b: Book, u: UserId, reference: RoundNo, end: Time, f: Figure)
    requires HistoryOk(b) && ClosingsOk(b)
    ensures var latest := Latest(b.history, u, Counted(b, reference, end), BY_NUMBER);
      var seen := Latest(b.history, u, SeenBaseline(b, reference, end), BY_NUMBER);
      TotalOf(if latest.Some? then latest else seen, f) - TotalOf(seen, f)
        == Earned(b.history, u, Counted(b, reference, end), f)
  {
    if Counted(b, reference, end) == {} {
      LatestInNothing(b.history, u, BY_NUMBER, f);
    } else {
      BaselineIsSeen(b, reference, end);
      ScoredUpToIsClosed(b, reference);
      CountedIsClosed(b, reference, end);
      WindowIsTheSum(b.history, u, ScoredUpTo(b, reference), Counted(b, reference, end), f);
    }
  }

  lemma {:induction false} CountedScore(b: Book, u: UserId, reference: RoundNo, end: Time)
    requires HistoryOk(b) && ClosingsOk(b)
    ensures var latest := Latest(b.history, u, Counted(b, reference, end), BY_NUMBER);
      latest.Some? ==>
        TotalOf(latest, Score) - Earned(b.history, u, ScoredUpTo(b, reference), Score)
          == Earned(b.history, u, Counted(b, reference, end), Score)
    ensures var latest := Latest(b.history, u, Counted(b, reference, end), BY_NUMBER);
      latest.None? ==> Earned(b.history, u, Counted(b, reference, end), Score) == 0
  {
    ScoredUpToIsClosed(b, reference);
    CountedIsClosed(b, reference, end);
    WindowIsTheSum(b.history, u, ScoredUpTo(b, reference), Counted(b, reference, end), Score);
    LatestTotalsAreTheSum(b.history, u, ScoredUpTo(b, reference), BY_NUMBER, Score);
  }

  /** Once captured, a participant's score and hits are the plain sums over the rounds that
      count, whatever the end date -- 0 when none does, or when the user played in none. */
  lemma {:induction false} ReferenceRowIsTheSum(b: Book, p: Participant, startDate: Option<Time>, reference: RoundNo,
                                                end: Time)
    requires HistoryOk(b) && ClosingsOk(b)
    requires p.scoreInitial == Earned(b.history, p.userId, ScoredUpTo(b, reference), Score)
    ensures var row := ReferenceRow(b, p, startDate, reference, end);
      && row.score == Earned(b.history, p.userId, Counted(b, reference, end), Score)
      && row.hits.superDoubleHits == Earned(b.history, p.userId, Counted(b, reference, end), SuperDoubles)
      && row.hits.doubleHits == Earned(b.history, p.userId, Counted(b, reference, end), Doubles)
  {
    CountedScore(b, p.userId, reference, end);
    CountedFigure(b, p.userId, reference, end, SuperDoubles);
    CountedFigure(b, p.userId, reference, end, Doubles);
  }

  /** What else a row shows: what the participant showed before, the age of the account, and what
      its score is made of. */
  lemma {:induction false} RowShows(b: Book, t: Terms, ms: Milestones, end: Option<Time>, p: Participant, now: Time)
    ensures var row := WindowRow(b, t, ms, end, p, now);
      && row.userId == p.userId && row.score == row.scoreTotalCurrent - row.scoreInitial
      && row.previousScore == p.score && row.previousPosition == p.position
      && (p.userId in b.users ==> row.userCreatedAt == b.users[p.userId].createdAt)
      && (ms.referenceRound.Some? ==> row.scoreInitial == p.scoreInitial)
  {}

  /** Within the lifecycle the round score is that of the user's last round that counts, if that has
      closed since the start. */
  lemma {:induction false} RoundScoreIs(b: Book, p: Participant, startDate: Option<Time>, reference: RoundNo, end: Time,
                                        last: History)
    requires HistoryOk(b) && last in b.history && last.userId == p.userId && last.round in Counted(b, reference, end)
    requires forall row :: row in b.history && row.userId == p.userId && row.round in Counted(b, reference, end) ==>
      row.round < last.round || row == last
    ensures ReferenceRow(b, p, startDate, reference, end).scoreRound
      == if startDate.None? || b.rounds[last.round].closeAt.value >= startDate.value then last.earned.score else 0
  {
    LatestAmong(b.history, p.userId, Counted(b, reference, end), last);
  }

  lemma {:induction false} LatestAmong(h: seq<History>, u: UserId, within: set<RoundNo>, last: History)
    requires last in h && last.userId == u && last.round in within
    requires forall row :: row in h && row.userId == u && row.round in within ==> row.round < last.round || row == last
    ensures Latest(h, u, within, BY_NUMBER) == Some(last)
  {
    var init, row := h[..|h| - 1], h[|h| - 1];
    assert h == init + [row];
    LatestIsARow(init, u, within, BY_NUMBER);
    if row != last {
      LatestAmong(init, u, within, last);
    }
  }

  /** Until the barrier is met, everybody is shown without score and position. */
  lemma {:induction false} PlaceholdersUntilCaptured(b: Book, t: Terms, ms: Milestones, end: Option<Time>,
                                                     ps: seq<Participant>, now: Time, i: nat)
    requires i < |ps| && ReferenceLifecycle(ms) && !BarrierMet(ms, ps)
    ensures var shown := BuildRows(b, t, ms, end, ps, now)[i];
      && shown.position == 0 && shown.row.userId == ps[i].userId
      && shown.row.score == 0 && shown.row.scoreRound == 0 && shown.row.hits == Hits(0, 0)
      && shown.row.scoreInitial == shown.row.scoreTotalCurrent == ps[i].scoreInitial
      && shown.row.previousScore == ps[i].score && shown.row.previousPosition == ps[i].position
  {}

  /** The score with which a join starts is the sum over the rounds closed before its start. */
  lemma {:induction false} ScoreTotalBeforeIsTheSum(b: Book, u: UserId, date: Time)
    requires HistoryOk(b) && ClosingsOk(b)
    ensures GetScoreTotalBefore(b, u, date) == Earned(b.history, u, ClosedBefore(b, date), Score)
  {
    var within := ClosedBefore(b, date);
    forall x, y | x in b.history && y in b.history && x.round <= y.round && y.round in within
      ensures x.round in within && ByCloseAt(b)(x.round) <= ByCloseAt(b)(y.round)
    {
      assert x.round < y.round ==> CloseAtOf(b, x.round).value < CloseAtOf(b, y.round).value;
    }
    LatestTotalsAreTheSum(b.history, u, within, ByCloseAt(b), Score);
  }

  lemma {:induction false} ClosedSetsAreClosed(b: Book, within: set<RoundNo>)
    requires HistoryOk(b) && ClosingsOk(b)
    requires forall r, s ::
      (CloseAtOf(b, r).Some? && CloseAtOf(b, s).Some? && CloseAtOf(b, r).value <= CloseAtOf(b, s).value && s in within)
      ==> r in within
    requires forall r :: r in within ==> CloseAtOf(b, r).Some?
    ensures DownwardClosed(b.history, within) && KeyFollowsNumber(b.history, within, ByCloseAt(b))
  {}

  lemma {:induction false} LegacyFigure(b: Book, u: UserId, start: Time, end: Time, f: Figure)
    requires HistoryOk(b) && ClosingsOk(b) && start <= end
    ensures var (within, before) := (ClosedBy(b, end), ClosedBefore(b, start));
      TotalOf(Latest(b.history, u, within, ByCloseAt(b)), f)
        - TotalOf(Latest(b.history, u, within * before, ByCloseAt(b)), f)
        == Earned(b.history, u, within - before, f)
  {
    var within, before := ClosedBy(b, end), ClosedBefore(b, start);
    assert within * before == before;
    ClosedSetsAreClosed(b, within);
    ClosedSetsAreClosed(b, before);
    LatestTotalsAreTheSum(b.history, u, within, ByCloseAt(b), f);
    LatestTotalsAreTheSum(b.history, u, before, ByCloseAt(b), f);
    EarnedOverDisjoint(b.history, u, before, within - before, f);
    assert before + (within - before) == within;
  }

  /** What the user had earned before the start. */
  function EarnedBefore(b: Book, u: UserId, start: Time): int {
    Earned(b.history, u, ClosedBefore(b, start), Score)
  }

  /** The participant starts from what was earned before the start: exactly when that was stored
      on joining, or the participant joined before the start and has a row before it. */
  lemma {:induction false} LegacyInitialExactly(b: Book, p: Participant, start: Time, within: set<RoundNo>)
    requires HistoryOk(b) && ClosingsOk(b) && ClosedBefore(b, start) <= within
    ensures LegacyInitial(b, p, Some(start), within) == EarnedBefore(b, p.userId, start)
      <==> (|| p.scoreInitial == EarnedBefore(b, p.userId, start)
            || (&& JoinedBefore(p, Some(start))
                && exists row :: row in b.history && row.userId == p.userId && row.round in ClosedBefore(b, start)))
  {
    var before := ClosedBefore(b, start);
    assert within * before == before;
    ClosedSetsAreClosed(b, before);
    LatestTotalsAreTheSum(b.history, p.userId, before, ByCloseAt(b), Score);
    LatestIsARow(b.history, p.userId, before, ByCloseAt(b));
  }

  lemma {:induction false} EarnedSince(b: Book, u: UserId, before: set<RoundNo>, f: Figure)
    ensures EarnedEver(b.history, u, f)
      == Earned(b.history, u, before, f) + Earned(b.history, u, RoundsIn(b.history) - before, f)
  {
    AllRowsInside(b.history, u, before + (RoundsIn(b.history) - before), f);
    EarnedOverDisjoint(b.history, u, before, RoundsIn(b.history) - before, f);
  }

  /** A Mesa older than the lifecycle. Before its start everybody has 0. While it runs, who starts
      from what was earned before has all that was earned in the other rounds; once it has ended,
      what was earned in the rounds closed from the start to the end. The hits are always those of
      the rounds closed from the start to the end, or to now when there is no end. */
  lemma {:induction false} LegacyRowIsTheSum(b: Book, p: Participant, start: Time, endDate: Option<Time>, now: Time)
    requires HistoryOk(b) && ClosingsOk(b) && UsersOk(b) && p.userId in b.users
    requires endDate.Some? ==> start <= endDate.value
    requires now >= start ==>
      LegacyInitial(b, p, Some(start), ClosedBy(b, endDate.GetOr(now))) == EarnedBefore(b, p.userId, start)
    ensures var row := LegacyRow(b, p, Some(start), endDate, now);
      var (u, rounds) := (p.userId, ClosedBy(b, endDate.GetOr(now)) - ClosedBefore(b, start));
      && row.hits == Hits(Earned(b.history, u, rounds, SuperDoubles), Earned(b.history, u, rounds, Doubles))
      && row.score == if now < start then 0
                      else if endDate.Some? && now > endDate.value then Earned(b.history, u, rounds, Score)
                      else Earned(b.history, u, RoundsIn(b.history) - ClosedBefore(b, start), Score)
  {
    var end := endDate.GetOr(now);
    if start <= end {
      LegacyFigure(b, p.userId, start, end, SuperDoubles);
      LegacyFigure(b, p.userId, start, end, Doubles);
      EarnedSince(b, p.userId, ClosedBefore(b, start), Score);
      LegacyTotal(b, p.userId, start, end);
    } else {
      NothingClosedYet(b, p.userId, start, end);
    }
  }

  /** Before the start, the latest row is the baseline, and no round counts. */
  lemma {:induction false} NothingClosedYet(b: Book, u: UserId, start: Time, end: Time)
    requires end < start
    ensures LegacyBaseline(b, u, Some(start), ClosedBy(b, end)) == Latest(b.history, u, ClosedBy(b, end), ByCloseAt(b))
    ensures forall f :: Earned(b.history, u, ClosedBy(b, end) - ClosedBefore(b, start), f) == 0
  {
    assert ClosedBy(b, end) * ClosedBefore(b, start) == ClosedBy(b, end);
    assert ClosedBy(b, end) - ClosedBefore(b, start) == {};
    forall f | true ensures Earned(b.history, u, {}, f) == 0 {
      LatestInNothing(b.history, u, BY_NUMBER, f);
    }
  }

  /** Without a row by the end, nothing was earned by then. */
  lemma {:induction false} LegacyTotal(b: Book, u: UserId, start: Time, end: Time)
    requires HistoryOk(b) && ClosingsOk(b) && start <= end
    ensures var latest := Latest(b.history, u, ClosedBy(b, end), ByCloseAt(b));
      && (latest.None? ==> Earned(b.history, u, ClosedBy(b, end) - ClosedBefore(b, start), Score) == 0)
      && (latest.Some? ==>
        TotalOf(latest, Score)
          == EarnedBefore(b, u, start) + Earned(b.history, u, ClosedBy(b, end) - ClosedBefore(b, start), Score))
  {
    var within, before := ClosedBy(b, end), ClosedBefore(b, start);
    ClosedSetsAreClosed(b, within);
    LatestTotalsAreTheSum(b.history, u, within, ByCloseAt(b), Score);
    EarnedOverDisjoint(b.history, u, before, within - before, Score);
    assert before + (within - before) == within;
    LatestIsARow(b.history, u, within, ByCloseAt(b));
    if Latest(b.history, u, within, ByCloseAt(b)).None? {
      EarnedNothing(b.history, u, within - before, Score);
    }
  }

  lemma {:induction false} ClosedByTotal(b: Book, u: UserId, end: Time, f: Figure)
    requires HistoryOk(b) && ClosingsOk(b)
    ensures TotalOf(Latest(b.history, u, ClosedBy(b, end), ByCloseAt(b)), f)
      == Earned(b.history, u, ClosedBy(b, end), f)
  {
    ClosedSetsAreClosed(b, ClosedBy(b, end));
    LatestTotalsAreTheSum(b.history, u, ClosedBy(b, end), ByCloseAt(b), f);
  }

  /** An older Mesa without a start date counts from the moment at which the participant joined:
      the score is what was earned in the rounds closed since then, the hits are all those of the
      rounds closed by the end, or by now. */
  lemma {:induction false} LegacyWithoutStart(b: Book, p: Participant, joined: Time, endDate: Option<Time>, now: Time)
    requires HistoryOk(b) && ClosingsOk(b) && UsersOk(b) && p.userId in b.users && joined <= endDate.GetOr(now)
    requires p.scoreInitial == EarnedBefore(b, p.userId, joined)
    ensures var row := LegacyRow(b, p, None, endDate, now);
      var (u, rounds) := (p.userId, ClosedBy(b, endDate.GetOr(now)));
      && row.hits == Hits(Earned(b.history, u, rounds, SuperDoubles), Earned(b.history, u, rounds, Doubles))
      && row.score == if endDate.Some? && now > endDate.value
                      then Earned(b.history, u, rounds - ClosedBefore(b, joined), Score)
                      else Earned(b.history, u, RoundsIn(b.history) - ClosedBefore(b, joined), Score)
  {
    var end := endDate.GetOr(now);
    ClosedByTotal(b, p.userId, end, SuperDoubles);
    ClosedByTotal(b, p.userId, end, Doubles);
    EarnedSince(b, p.userId, ClosedBefore(b, joined), Score);
    LegacyTotal(b, p.userId, joined, end);
  }
}
