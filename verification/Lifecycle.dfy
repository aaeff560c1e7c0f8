/** The temporal milestones of a Mesa: closing by date, capturing the initial scores, finding
    the end date from the scored rounds. */
module Lifecycle {
  import opened Collections
  import opened JsArray
  import opened Tiebreak
  import Apportionment
  import opened Prize
  import opened Domain
  import opened Book
  import opened BookRun
  import opened Window

  // ---- closing by date ----

  predicate CloseIsDue(m: Mesa, now: Time) {
    && m.status == ACTIVE && !ByCapacity(m.terms) && m.milestones.registrationClosedAt.None?
    && m.terms.entryEndDate.Some? && m.terms.entryEndDate.value <= now
  }

  function CloseDue(m: Mesa, open: Option<RoundNo>, now: Time): Mesa {
    if !CloseIsDue(m, now) then m
    else
      var closed := m.milestones.(registrationClosedAt := m.terms.entryEndDate);
      m.(milestones := if open.None? then closed else closed.(
           referenceRound := open, initializationStatus := Some(WAITING_FOR_REFERENCE_ROUND),
           scoreInitialCapturedAt := None))
  }

  // ---- capturing the initial scores ----

  predicate CaptureIsPending(m: Mesa) {
    var ms := m.milestones;
    && m.status == ACTIVE && ms.referenceRound.Some? && ms.registrationClosedAt.Some? && ms.scoreInitialCapturedAt.None?
    && (ms.initializationStatus == Some(WAITING_FOR_REFERENCE_ROUND)
        || ms.initializationStatus == Some(WAITING_FOR_BASELINE_CAPTURE))
  }

  predicate Takes(ps: seq<Participant>, u: UserId) {
    exists p :: p in ps && p.userId == u
  }

  predicate HasScoredRow(b: Book, u: UserId, n: RoundNo) {
    exists row :: row in b.history && row.userId == u && row.round == n && HasStatus(b, n, SCORED)
  }

  /** Every ticket of the participants up to the reference has its history row. A ticket of a
      cancelled round needs none. */
  predicate HistoryComplete(b: Book, approved: seq<Participant>, reference: RoundNo) {
    forall t ::
      (&& t in b.tickets && Takes(approved, t.userId) && t.round in b.rounds && t.round <= reference
       && b.rounds[t.round].status != CANCELLED)
      ==> HasScoredRow(b, t.userId, t.round)
  }

  predicate ReadyToCapture(b: Book, m: Mesa, reference: RoundNo) {
    var approved := Approved(m.participants);
    && approved != [] && |approved| == m.counters.currentParticipants
    && HistoryComplete(b, approved, reference)
  }

  function CapturedRow(b: Book, p: Participant, reference: RoundNo, now: Time): Participant {
    if p.status != APPROVED || p.scoreInitialCapturedAt.Some? then p
    else p.(scoreInitial := TotalOf(Latest(b.history, p.userId, ScoredUpTo(b, reference), BY_NUMBER), Score),
            scoreInitialCapturedAt := Some(now))
  }

  function CapturedRows(b: Book, ps: seq<Participant>, reference: RoundNo, now: Time): (captured: seq<Participant>)
    ensures |captured| == |ps|
  {
    seq(|ps|, i requires 0 <= i < |ps| => CapturedRow(b, ps[i], reference, now))
  }

  function Capture(b: Book, m: Mesa, now: Time): Mesa {
    if !CaptureIsPending(m) then m
    else
      var ms, reference := m.milestones, m.milestones.referenceRound.value;
      if !HasStatus(b, reference, SCORED) then m
      else if !ReadyToCapture(b, m, reference)
      then m.(milestones := ms.(initializationStatus := Some(WAITING_FOR_BASELINE_CAPTURE)))
      else m.(milestones := ms.(initializationStatus := Some(READY), scoreInitialCapturedAt := Some(now)),
              participants := CapturedRows(b, m.participants, reference, now))
  }

  // ---- the end date ----

  /** Scored rounds after the reference that have closed, in ascending order. */
  function ScoredAfter(b: Book, numbers: seq<RoundNo>, reference: RoundNo): (after: seq<RoundNo>)
    ensures forall n :: n in after <==>
      (n in numbers && HasStatus(b, n, SCORED) && n > reference && CloseAtOf(b, n).Some?)
  {
    if numbers == [] then []
    else
      var init, last := numbers[..|numbers| - 1], numbers[|numbers| - 1];
      assert numbers == init + [last];
      ScoredAfter(b, init, reference)
        + if HasStatus(b, last, SCORED) && last > reference && CloseAtOf(b, last).Some? then [last] else []
  }

  /** Scored rounds that closed after a date, in the order of closing. */
  function ScoredSince(b: Book, numbers: seq<RoundNo>, date: Time): seq<RoundNo> {
    if numbers == [] then []
    else
      var init, last := numbers[..|numbers| - 1], numbers[|numbers| - 1];
      ScoredSince(b, init, date)
        + if HasStatus(b, last, SCORED) && CloseAtOf(b, last).GetOr(date) > date then [last] else []
  }

  function ByClosing(b: Book): (RoundNo, RoundNo) -> int {
    (r, s) => CloseAtOf(b, r).GetOr(0) - CloseAtOf(b, s).GetOr(0)
  }

  /** `rounds[count - 1]?.closeAt` */
  function ClosingOf(b: Book, rounds: seq<RoundNo>, count: int): Option<Time> {
    if 1 <= count <= |rounds| then CloseAtOf(b, rounds[count - 1]) else None
  }

  /** When the `count` rounds of a Mesa are over. */
  function DueDate(b: Book, reference: RoundNo, count: int): Option<Time> {
    ClosingOf(b, ScoredAfter(b, b.numbers, reference), count)
  }

  predicate FinishIsPending(m: Mesa) {
    && m.status == ACTIVE && m.terms.durationMode == ROUNDS && m.terms.durationRounds.GetOr(0) != 0
    && m.milestones.registrationClosedAt.Some?
    && (m.milestones.endDate.None? || m.terms.category == FREE)
    && (ReferenceLifecycle(m.milestones) ==>
      && BarrierMet(m.milestones, Approved(m.participants)) && Approved(m.participants) != [])
  }

  function LastRoundClosing(b: Book, m: Mesa): Option<Time>
    requires FinishIsPending(m)
  {
    var (ms, count) := (m.milestones, m.terms.durationRounds.value);
    if ReferenceLifecycle(ms) then DueDate(b, ms.referenceRound.value, count)
    else ClosingOf(b, Sort(ScoredSince(b, b.numbers, ms.registrationClosedAt.value), ByClosing(b)), count)
  }

  function FinishDue(b: Book, m: Mesa): Mesa {
    if !FinishIsPending(m) then m
    else
      var closing, end := LastRoundClosing(b, m), m.milestones.endDate;
      if closing.None? || (end.Some? && end.value <= closing.value) then m
      else m.(milestones := m.milestones.(endDate := closing))
  }

  // ---- the jobs, in the columns ----

  /** Registration closes by date exactly for an active Mesa with an end of the entries that has
      passed and that has not closed yet: at that date, on the round open now if there is one. */
  lemma {:induction false} CloseDueExactly(m: Mesa, open: Option<RoundNo>, now: Time)
    ensures var (ms, after) := (m.milestones, CloseDue(m, open, now));
      if && m.status == ACTIVE && m.terms.registrationCloseMode == DATE && ms.registrationClosedAt.None?
         && m.terms.entryEndDate.Some? && m.terms.entryEndDate.value <= now
      then
        && (open.None? ==> after == m.(milestones := ms.(registrationClosedAt := m.terms.entryEndDate)))
        && (open.Some? ==> after == m.(milestones := ms.(
          registrationClosedAt := m.terms.entryEndDate, referenceRound := open, scoreInitialCapturedAt := None,
          initializationStatus := Some(WAITING_FOR_REFERENCE_ROUND))))
      else after == m
  {}

  /** A Mesa waits for its end while it is active, lasts by rounds, has closed its registration and has
      no end -- a FREE one may have -- and, within the lifecycle, has started. */
  predicate WaitsForItsEnd(m: Mesa) {
    && m.status == ACTIVE && m.terms.durationMode == ROUNDS
    && m.terms.durationRounds.Some? && m.terms.durationRounds.value != 0
    && m.milestones.registrationClosedAt.Some? && (m.milestones.endDate.None? || m.terms.category == FREE)
    && (m.milestones.referenceRound.Some? || m.milestones.initializationStatus.Some? ==>
      && m.milestones.initializationStatus == Some(READY) && m.milestones.scoreInitialCapturedAt.Some?
      && m.milestones.referenceRound.Some?
      && (exists p :: p in m.participants && p.status == APPROVED)
      && forall p :: p in m.participants && p.status == APPROVED ==> p.scoreInitialCapturedAt.Some?)
  }

  lemma {:induction false} WaitsExactly(m: Mesa)
    ensures FinishIsPending(m) <==> WaitsForItsEnd(m)
  {
    var approved := Approved(m.participants);
    if approved != [] {
      assert approved[0] in approved;
    }
  }

  /** ... and then it gets the closing of its last round, unless it has an earlier end. */
  lemma {:induction false} FinishExactly(b: Book, m: Mesa)
    ensures !WaitsForItsEnd(m) ==> FinishDue(b, m) == m
    ensures WaitsForItsEnd(m) ==> FinishIsPending(m)
    ensures WaitsForItsEnd(m) ==> var (closing, end) := (LastRoundClosing(b, m), m.milestones.endDate);
      FinishDue(b, m)
        == if closing.Some? && (end.None? || closing.value < end.value)
           then m.(milestones := m.milestones.(endDate := closing)) else m
  {
    WaitsExactly(m);
  }

  /** The scored rounds that have closed since the date. */
  ghost predicate AreScoredSince(b: Book, date: Time, rounds: set<RoundNo>) {
    forall n :: n in rounds
      <==> (&& n in b.rounds && b.rounds[n].status == SCORED
            && b.rounds[n].closeAt.Some? && b.rounds[n].closeAt.value > date)
  }

  lemma {:induction false} ScoredSinceHolds(b: Book, numbers: seq<RoundNo>, date: Time)
    requires Distinct(numbers)
    ensures Distinct(ScoredSince(b, numbers, date))
    ensures forall n :: n in ScoredSince(b, numbers, date) <==>
      n in numbers && HasStatus(b, n, SCORED) && CloseAtOf(b, n).Some? && CloseAtOf(b, n).value > date
  {
    if numbers != [] {
      var init, last := numbers[..|numbers| - 1], numbers[|numbers| - 1];
      assert numbers == init + [last];
      ScoredSinceHolds(b, init, date);
      PrefixGrows(numbers, |init|);
      assert numbers[..|init| + 1] == numbers;
    }
  }

  lemma {:induction false} SortedOnce(b: Book, rounds: seq<RoundNo>)
    requires Distinct(rounds)
    ensures var sorted := Sort(rounds, ByClosing(b));
      && Distinct(sorted) && (forall n :: n in sorted <==> n in rounds)
      && forall i, j :: 0 <= i < j < |sorted| ==>
        CloseAtOf(b, sorted[i]).GetOr(0) <= CloseAtOf(b, sorted[j]).GetOr(0)
  {
    var sorted := Sort(rounds, ByClosing(b));
    SortOrders(rounds, ByClosing(b));
    DistinctPermuted(rounds, sorted);
    forall n: RoundNo | true ensures n in sorted <==> n in rounds {
      assert n in sorted <==> n in multiset(sorted);
      assert n in rounds <==> n in multiset(rounds);
    }
    forall i, j | 0 <= i < j < |sorted|
      ensures CloseAtOf(b, sorted[i]).GetOr(0) <= CloseAtOf(b, sorted[j]).GetOr(0)
    {
      assert ByClosing(b)(sorted[i], sorted[j]) <= 0;
    }
  }

  /** A closing that fewer than `count` of the rounds precede, and at least `count` do not follow. */
  ghost predicate IsNthClosing(b: Book, rounds: set<RoundNo>, count: int, closing: Time) {
    && (exists n :: n in rounds && CloseAtOf(b, n) == Some(closing))
    && |set n | n in rounds && CloseAtOf(b, n).GetOr(0) < closing| < count
    && count <= |set n | n in rounds && CloseAtOf(b, n).GetOr(0) <= closing|
  }

  lemma {:induction false} NthOfSorted(b: Book, sorted: seq<RoundNo>, rounds: set<RoundNo>, count: int)
    requires Distinct(sorted) && (forall n :: n in sorted <==> n in rounds) && 1 <= count <= |sorted|
    requires forall n :: n in rounds ==> CloseAtOf(b, n).Some?
    requires forall i, j :: 0 <= i < j < |sorted| ==>
      CloseAtOf(b, sorted[i]).GetOr(0) <= CloseAtOf(b, sorted[j]).GetOr(0)
    ensures CloseAtOf(b, sorted[count - 1]).Some?
    ensures IsNthClosing(b, rounds, count, CloseAtOf(b, sorted[count - 1]).value)
  {
    assert sorted[count - 1] in sorted;
    var closing := CloseAtOf(b, sorted[count - 1]).value;
    var earlier := set n | n in rounds && CloseAtOf(b, n).GetOr(0) < closing;
    var until := set n | n in rounds && CloseAtOf(b, n).GetOr(0) <= closing;
    forall n | n in earlier ensures n in Elements(sorted[..count - 1]) {
      var i :| 0 <= i < |sorted| && sorted[i] == n;
      assert i < count - 1;
      assert sorted[..count - 1][i] == n;
    }
    forall n | n in Elements(sorted[..count]) ensures n in until {
      var i :| 0 <= i < count && sorted[i] == n;
      assert sorted[i] in sorted;
    }
    DistinctCardinality(sorted[..count - 1]);
    DistinctCardinality(sorted[..count]);
    Apportionment.SubsetSize(earlier, Elements(sorted[..count - 1]));
    Apportionment.SubsetSize(Elements(sorted[..count]), until);
  }

  lemma {:induction false} SameRounds(b: Book, sorted: seq<RoundNo>, date: Time, rounds: set<RoundNo>)
    requires NumbersOk(b) && AreScoredSince(b, date, rounds)
    requires forall n :: n in sorted <==>
      n in b.numbers && HasStatus(b, n, SCORED) && CloseAtOf(b, n).Some? && CloseAtOf(b, n).value > date
    ensures forall n :: n in sorted <==> n in rounds
    ensures Elements(sorted) == rounds
  {
    forall n: RoundNo | true ensures n in sorted <==> n in rounds {
      assert n in b.numbers <==> n in b.rounds;
    }
  }

  /** The end of a Mesa older than the lifecycle: the closing of its last round, counted by closing
      from the closing of its registration; none before there are so many. */
  lemma {:induction false} LegacyEndExactly(b: Book, m: Mesa, rounds: set<RoundNo>)
    requires NumbersOk(b) && FinishIsPending(m)
    requires m.milestones.referenceRound.None? && m.milestones.initializationStatus.None?
    requires AreScoredSince(b, m.milestones.registrationClosedAt.value, rounds)
    ensures LastRoundClosing(b, m).Some? <==> 1 <= m.terms.durationRounds.value <= |rounds|
    ensures LastRoundClosing(b, m).Some? ==>
      IsNthClosing(b, rounds, m.terms.durationRounds.value, LastRoundClosing(b, m).value)
  {
    var since := ScoredSince(b, b.numbers, m.milestones.registrationClosedAt.value);
    ScoredSinceHolds(b, b.numbers, m.milestones.registrationClosedAt.value);
    SortedOnce(b, since);
    var sorted := Sort(since, ByClosing(b));
    assert forall n :: n in sorted <==> n in since;
    SameRounds(b, sorted, m.milestones.registrationClosedAt.value, rounds);
    DistinctCardinality(sorted);
    if 1 <= m.terms.durationRounds.value <= |sorted| {
      NthOfSorted(b, sorted, rounds, m.terms.durationRounds.value);
    }
  }

  // ---- laws ----

  ghost predicate StrictlyAscending(s: seq<RoundNo>) {
    forall i, j :: 0 <= i < j < |s| ==> s[i] < s[j]
  }

  lemma {:induction false} AscendingAppend(some: seq<RoundNo>, numbers: seq<RoundNo>)
    requires numbers != [] && StrictlyAscending(numbers) && StrictlyAscending(some)
    requires forall n :: n in some ==> n in numbers[..|numbers| - 1]
    ensures StrictlyAscending(some + [numbers[|numbers| - 1]])
  {
    forall i | 0 <= i < |some| ensures some[i] < numbers[|numbers| - 1] {
      assert some[i] in some;
    }
  }

  lemma {:induction false} ScoredAfterAscends(b: Book, numbers: seq<RoundNo>, reference: RoundNo)
    requires StrictlyAscending(numbers)
    ensures StrictlyAscending(ScoredAfter(b, numbers, reference))
  {
    if numbers != [] {
      var init := numbers[..|numbers| - 1];
      ScoredAfterAscends(b, init, reference);
      AscendingAppend(ScoredAfter(b, init, reference), numbers);
    }
  }

  lemma {:induction false} SameLeast(a: seq<RoundNo>, b: seq<RoundNo>)
    requires StrictlyAscending(a) && StrictlyAscending(b) && a != []
    requires forall x :: x in a ==> x in b
    requires forall x, y :: x in b && x !in a && y in a ==> y < x
    ensures b != [] && b[0] == a[0]
  {
    assert a[0] in a;
    assert a[0] in b && b[0] in b;
    if b[0] in a {
      var i :| 0 <= i < |b| && b[i] == a[0];
      var j :| 0 <= j < |a| && a[j] == b[0];
    }
  }

  /** Of two ascending lists, the one whose surplus is greater than all of the other continues it. */
  lemma {:induction false} AscendingPrefix(a: seq<RoundNo>, b: seq<RoundNo>)
    requires StrictlyAscending(a) && StrictlyAscending(b)
    requires forall x :: x in a ==> x in b
    requires forall x, y :: x in b && x !in a && y in a ==> y < x
    ensures a <= b
  {
    if a != [] {
      SameLeast(a, b);
      forall x | x in a[1..] ensures x in b[1..] {
        assert x in a && x != b[0];
      }
      forall x, y | x in b[1..] && x !in a[1..] && y in a[1..] ensures y < x {
        assert x in b && x != a[0] && y in a;
      }
      AscendingPrefix(a[1..], b[1..]);
      assert a == [a[0]] + a[1..] && b == [b[0]] + b[1..];
    }
  }

  lemma {:induction false} ScoredAfterGrows(b: Book, later: Book, reference: RoundNo)
    requires NumbersOk(b) && NumbersOk(later) && Extends(b, later)
    ensures ScoredAfter(b, b.numbers, reference) <= ScoredAfter(later, later.numbers, reference)
  {
    var before, after := ScoredAfter(b, b.numbers, reference), ScoredAfter(later, later.numbers, reference);
    ScoredAfterAscends(b, b.numbers, reference);
    ScoredAfterAscends(later, later.numbers, reference);
    AscendingPrefix(before, after);
  }

  /** Once the rounds of a Mesa are over, their end never moves. */
  lemma {:induction false} DueDateStays(b: Book, later: Book, reference: RoundNo, count: int)
    requires NumbersOk(b) && NumbersOk(later) && Extends(b, later)
    requires DueDate(b, reference, count).Some?
    ensures DueDate(later, reference, count) == DueDate(b, reference, count)
  {
    ScoredAfterGrows(b, later, reference);
    var n := ScoredAfter(b, b.numbers, reference)[count - 1];
    assert n in ScoredAfter(b, b.numbers, reference);
  }

  /** The first `count` scored rounds after the reference. */
  ghost function FirstRounds(b: Book, reference: RoundNo, count: nat): set<RoundNo>
    requires count <= |ScoredAfter(b, b.numbers, reference)|
  {
    Elements(ScoredAfter(b, b.numbers, reference)[..count])
  }

  lemma {:induction false} ClosingsFollow(b: Book, r: RoundNo, s: RoundNo)
    requires ClosingsOk(b) && HasStatus(b, r, SCORED) && HasStatus(b, s, SCORED)
    ensures CloseAtOf(b, r).Some? && CloseAtOf(b, s).Some?
    ensures CloseAtOf(b, r).value <= CloseAtOf(b, s).value <==> r <= s
  {}

  lemma {:induction false} TakenAreTheSmallest(s: seq<RoundNo>, count: nat, n: RoundNo)
    requires StrictlyAscending(s) && 1 <= count <= |s| && n in s
    ensures n in s[..count] <==> n <= s[count - 1]
  {}

  /** The rounds that count by the due date are exactly the first `count` after the reference. */
  lemma {:induction false} CountedByDueDate(b: Book, reference: RoundNo, count: int)
    requires NumbersOk(b) && ClosingsOk(b) && DueDate(b, reference, count).Some?
    ensures 1 <= count <= |ScoredAfter(b, b.numbers, reference)|
    ensures Counted(b, reference, DueDate(b, reference, count).value) == FirstRounds(b, reference, count)
    ensures |FirstRounds(b, reference, count)| == count
  {
    var after := ScoredAfter(b, b.numbers, reference);
    ScoredAfterAscends(b, b.numbers, reference);
    DistinctCardinality(after[..count]);
    var last := after[count - 1];
    assert last in after;
    forall n | n in after
      ensures n in FirstRounds(b, reference, count) <==> CloseAtOf(b, n).value <= CloseAtOf(b, last).value {
      ClosingsFollow(b, n, last);
      TakenAreTheSmallest(after, count, n);
    }
  }
}
