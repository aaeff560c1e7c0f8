/** Rounds, tickets and the score history, with the running totals that scoring keeps. */
module Book {
  import opened Collections
  import opened Tiebreak
  import opened Domain

  datatype RoundStatus = DRAFT | PENDING | OPEN | CLOSED | SCORED | CANCELLED
  datatype Round = Round(status: RoundStatus, closeAt: Option<Time>)

  /** What is counted for a ticket: its score and its hits. */
  datatype Figure = Score | SuperDoubles | Doubles

  datatype Points = Points(score: int, superDoubles: int, doubles: int) {
    function Get(f: Figure): int {
      match f
      case Score => score
      case SuperDoubles => superDoubles
      case Doubles => doubles
    }
  }

  /** A `user_score_history` row. Of `earned` only the score is stored, as `scoreRound`;
      `totals` are the columns `scoreTotal`, `totalSuperDoubles` and `totalDoubles`. */
  datatype History = History(userId: UserId, round: RoundNo, earned: Points, totals: Points)
  datatype Ticket = Ticket(userId: UserId, round: RoundNo)
  datatype User = User(name: string, createdAt: Time, scoreTotal: int)

  /** Tables in the order in which their rows were created. A round is known by its unique
      number; `numbers` lists the known ones in ascending order. */
  datatype Book = Book(
    numbers: seq<RoundNo>,
    rounds: map<RoundNo, Round>,
    tickets: seq<Ticket>,
    history: seq<History>,
    users: map<UserId, User>)

  const EMPTY_BOOK := Book([], map[], [], [], map[])

  // ---- queries ----

  predicate HasStatus(b: Book, n: RoundNo, status: RoundStatus) {
    n in b.rounds && b.rounds[n].status == status
  }

  function CloseAtOf(b: Book, n: RoundNo): Option<Time> {
    if n in b.rounds then b.rounds[n].closeAt else None
  }

  function FirstOpen(b: Book, numbers: seq<RoundNo>): (open: Option<RoundNo>)
    ensures open.Some? ==> open.value in numbers && HasStatus(b, open.value, OPEN)
    ensures open.None? ==> forall n :: n in numbers ==> !HasStatus(b, n, OPEN)
  {
    if numbers == [] then None
    else if HasStatus(b, numbers[0], OPEN) then Some(numbers[0])
    else FirstOpen(b, numbers[1..])
  }

  /** `status: 'SCORED', number: { lte: n }` */
  function ScoredUpTo(b: Book, n: RoundNo): set<RoundNo> {
    set r | r in b.rounds && b.rounds[r].status == SCORED && r <= n
  }

  /** The row with the greatest key, the later one among equals: what a `findFirst` in
      descending order returns, and what `find` returns on rows so ordered. */
  function Latest(h: seq<History>, u: UserId, within: set<RoundNo>, key: RoundNo -> int): Option<History> {
    if h == [] then None
    else
      var before := Latest(h[..|h| - 1], u, within, key);
      var last := h[|h| - 1];
      if last.userId == u && last.round in within && (before.None? || key(before.value.round) <= key(last.round))
      then Some(last)
      else before
  }

  const BY_NUMBER: RoundNo -> int := n => n

  /** A total of a row; without a row, nothing has been earned. */
  function TotalOf(row: Option<History>, f: Figure): int {
    if row.Some? then row.value.totals.Get(f) else 0
  }

  function HitsOf(row: Option<History>): Option<AccumulatedHits> {
    if row.Some? then Some(AccumulatedHits(row.value.totals.superDoubles, row.value.totals.doubles)) else None
  }

  /** What the user earned in the given rounds, row by row. */
  function Earned(h: seq<History>, u: UserId, within: set<RoundNo>, f: Figure): int {
    if h == [] then 0
    else
      var last := h[|h| - 1];
      Earned(h[..|h| - 1], u, within, f) + if last.userId == u && last.round in within then last.earned.Get(f) else 0
  }

  // ---- running totals ----

  /** What the user earned in all rounds. */
  function EarnedEver(h: seq<History>, u: UserId, f: Figure): int {
    if h == [] then 0
    else
      var last := h[|h| - 1];
      EarnedEver(h[..|h| - 1], u, f) + if last.userId == u then last.earned.Get(f) else 0
  }

  /** Rows come in round-number order, one for each user of a round, and each carries what
      its user has earned up to and including it. */
  ghost predicate Running(h: seq<History>) {
    h != [] ==>
      var init, last := h[..|h| - 1], h[|h| - 1];
      && Running(init)
      && (forall row :: row in init ==>
        row.round < last.round || (row.round == last.round && row.userId != last.userId))
      && (forall f :: last.totals.Get(f) == EarnedEver(h, last.userId, f))
  }

  /** No row inside the set comes after a row outside it. */
  ghost predicate DownwardClosed(h: seq<History>, within: set<RoundNo>) {
    forall a, b :: a in h && b in h && a.round <= b.round && b.round in within ==> a.round in within
  }

  ghost predicate KeyFollowsNumber(h: seq<History>, within: set<RoundNo>, key: RoundNo -> int) {
    forall a, b :: a in h && b in h && a.round in within && b.round in within && a.round <= b.round
      ==> key(a.round) <= key(b.round)
  }

  lemma {:induction false} AllRowsInside(h: seq<History>, u: UserId, within: set<RoundNo>, f: Figure)
    requires forall row :: row in h ==> row.round in within
    ensures Earned(h, u, within, f) == EarnedEver(h, u, f)
  {
    if h != [] {
      AllRowsInside(h[..|h| - 1], u, within, f);
    }
  }

  lemma {:induction false} LatestIsARow(h: seq<History>, u: UserId, within: set<RoundNo>, key: RoundNo -> int)
    ensures var latest := Latest(h, u, within, key);
      latest.Some? ==> latest.value in h && latest.value.userId == u && latest.value.round in within
    ensures Latest(h, u, within, key).None? ==> forall row :: row in h && row.userId == u ==> row.round !in within
  {
    if h != [] {
      LatestIsARow(h[..|h| - 1], u, within, key);
      assert h == h[..|h| - 1] + [h[|h| - 1]];
    }
  }

  /** Up to any point, the totals of the latest row are the sum of what was earned. */
  lemma {:induction false} LatestTotalsAreTheSum(h: seq<History>, u: UserId, within: set<RoundNo>,
                                                 key: RoundNo -> int, f: Figure)
    requires Running(h) && DownwardClosed(h, within) && KeyFollowsNumber(h, within, key)
    ensures TotalOf(Latest(h, u, within, key), f) == Earned(h, u, within, f)
  {
    if h != [] {
      var init, last := h[..|h| - 1], h[|h| - 1];
      assert h == init + [last];
      if last.userId == u && last.round in within {
        LatestIsARow(init, u, within, key);
        AllRowsInside(h, u, within, f);
      } else {
        LatestTotalsAreTheSum(init, u, within, key, f);
      }
    }
  }

  lemma {:induction false} EarnedNothing(h: seq<History>, u: UserId, within: set<RoundNo>, f: Figure)
    requires forall row :: row in h && row.userId == u ==> row.round !in within
    ensures Earned(h, u, within, f) == 0
  {
    if h != [] {
      EarnedNothing(h[..|h| - 1], u, within, f);
    }
  }

  lemma {:induction false} EarnedOverDisjoint(h: seq<History>, u: UserId, a: set<RoundNo>, b: set<RoundNo>, f: Figure)
    requires a !! b
    ensures Earned(h, u, a + b, f) == Earned(h, u, a, f) + Earned(h, u, b, f)
  {
    if h != [] {
      EarnedOverDisjoint(h[..|h| - 1], u, a, b, f);
    }
  }

  /** The window theorem: the latest totals up to the end, less those up to the start, are
      what was earned in between -- even for a user without any row in between. */
  lemma {:induction false} WindowIsTheSum(h: seq<History>, u: UserId, before: set<RoundNo>, window: set<RoundNo>,
                                          f: Figure)
    requires Running(h) && before !! window
    requires DownwardClosed(h, before) && DownwardClosed(h, before + window)
    ensures var baseline := TotalOf(Latest(h, u, before, BY_NUMBER), f);
      var latest := Latest(h, u, window, BY_NUMBER);
      (if latest.Some? then TotalOf(latest, f) else baseline) - baseline == Earned(h, u, window, f)
  {
    LatestTotalsAreTheSum(h, u, before, BY_NUMBER, f);
    if Latest(h, u, window, BY_NUMBER).None? {
      LatestIsARow(h, u, window, BY_NUMBER);
      EarnedNothing(h, u, window, f);
    } else {
      LatestIgnoresBefore(h, u, before, window);
      LatestTotalsAreTheSum(h, u, before + window, BY_NUMBER, f);
      EarnedOverDisjoint(h, u, before, window, f);
    }
  }

  lemma {:induction false} LatestIgnoresBefore(h: seq<History>, u: UserId, before: set<RoundNo>, window: set<RoundNo>)
    requires before !! window && DownwardClosed(h, before)
    requires Latest(h, u, window, BY_NUMBER).Some?
    ensures Latest(h, u, before + window, BY_NUMBER) == Latest(h, u, window, BY_NUMBER)
  {
    var init, last := h[..|h| - 1], h[|h| - 1];
    assert h == init + [last];
    LatestIsARow(init, u, window, BY_NUMBER);
    LatestIsARow(init, u, before + window, BY_NUMBER);
    if Latest(init, u, window, BY_NUMBER).Some? {
      LatestIgnoresBefore(init, u, before, window);
    } else {
      var earlier := Latest(init, u, before + window, BY_NUMBER);
      assert earlier.Some? ==> earlier.value.round <= last.round;
    }
  }
}
