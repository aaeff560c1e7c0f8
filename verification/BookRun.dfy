/** How the book changes: rounds are drafted, opened, closed, cancelled and scored. */
module BookRun {
  import opened Collections
  import opened JsArray
  import opened Tiebreak
  import opened Domain
  import opened Book

  // ---- scoring ----

  function RoundsIn(h: seq<History>): set<RoundNo> {
    set row | row in h :: row.round
  }

  /** The users holding a ticket of the round, in ticket order. */
  function Players(tickets: seq<Ticket>, n: RoundNo): (players: seq<UserId>)
    ensures forall u :: u in players <==> Ticket(u, n) in tickets
  {
    if tickets == [] then []
    else
      var last := tickets[|tickets| - 1];
      assert tickets == tickets[..|tickets| - 1] + [last];
      Players(tickets[..|tickets| - 1], n) + if last.round == n then [last.userId] else []
  }

  function ScoreOf(b: Book, u: UserId): int {
    if u in b.users then b.users[u].scoreTotal else 0
  }

  /** The new row of a scored ticket: the score on the user's own total, the hits on those of
      the user's latest row. */
  function TicketRow(b: Book, u: UserId, n: RoundNo, earned: Points): History {
    var last := Latest(b.history, u, RoundsIn(b.history), BY_NUMBER);
    History(u, n, earned, Points(ScoreOf(b, u) + earned.score,
                                 TotalOf(last, SuperDoubles) + earned.superDoubles,
                                 TotalOf(last, Doubles) + earned.doubles))
  }

  function ScoreTicket(b: Book, u: UserId, n: RoundNo, earned: Points): Book {
    var row := TicketRow(b, u, n, earned);
    b.(users := if u in b.users then b.users[u := b.users[u].(scoreTotal := row.totals.score)] else b.users,
       history := b.history + [row])
  }

  function ScoreTickets(b: Book, players: seq<UserId>, n: RoundNo, detail: UserId -> Points): Book {
    if players == [] then b
    else
      var last := players[|players| - 1];
      ScoreTicket(ScoreTickets(b, players[..|players| - 1], n, detail), last, n, detail(last))
  }

  function WithRound(b: Book, n: RoundNo, round: Round): Book {
    b.(rounds := b.rounds[n := round])
  }

  /** `ScoreRoundService.execute`; `detail` is what the calculator makes of each ticket. */
  function ScoreRound(b: Book, n: RoundNo, detail: UserId -> Points): Book {
    if !HasStatus(b, n, RoundStatus.CLOSED) then b
    else WithRound(ScoreTickets(b, Players(b.tickets, n), n, detail), n, b.rounds[n].(status := SCORED))
  }

  // ---- events ----

  datatype BookEvent =
    | UserRegistered(userId: UserId, name: string, createdAt: Time)
    | RoundDrafted(number: RoundNo, closeAt: Option<Time>)
    | RoundOpened(number: RoundNo)
    | TicketSubmitted(userId: UserId, number: RoundNo)
    | RoundClosed(number: RoundNo)
    | RoundCancelled(number: RoundNo, now: Time)
    | RoundScored(number: RoundNo, detail: UserId -> Points)

  /** What each service demands. Scoring also carries the assumption of this model: rounds are
      scored in number order, and a round scored later has closed later. */
  ghost predicate Allowed(b: Book, e: BookEvent) {
    match e
    case UserRegistered(u, _, _) => u !in b.users
    case RoundDrafted(n, _) => n in b.rounds ==> b.rounds[n].status == RoundStatus.DRAFT
    case RoundOpened(n) => HasStatus(b, n, RoundStatus.DRAFT) && FirstOpen(b, b.numbers).None?
    case TicketSubmitted(u, n) => HasStatus(b, n, OPEN) && u in b.users && Ticket(u, n) !in b.tickets
    case RoundClosed(n) => HasStatus(b, n, OPEN)
    case RoundCancelled(n, _) => HasStatus(b, n, RoundStatus.DRAFT)
      || (HasStatus(b, n, OPEN) && Players(b.tickets, n) == [])
    case RoundScored(n, _) =>
      && HasStatus(b, n, RoundStatus.CLOSED) && b.rounds[n].closeAt.Some?
      && forall r :: HasStatus(b, r, SCORED) ==>
        r < n && CloseAtOf(b, r).Some? && CloseAtOf(b, r).value < b.rounds[n].closeAt.value
  }

  function Ascending(a: RoundNo, b: RoundNo): int {
    a - b
  }

  function Next(b: Book, e: BookEvent): Book {
    match e
    case UserRegistered(u, name, createdAt) => b.(users := b.users[u := User(name, createdAt, 0)])
    case RoundDrafted(n, closeAt) =>
      var numbers := if n in b.numbers then b.numbers else Insert(n, b.numbers, Ascending);
      WithRound(b, n, Round(RoundStatus.DRAFT, closeAt)).(numbers := numbers)
    case RoundOpened(n) => if n in b.rounds then WithRound(b, n, b.rounds[n].(status := OPEN)) else b
    case TicketSubmitted(u, n) => b.(tickets := b.tickets + [Ticket(u, n)])
    case RoundClosed(n) => if n in b.rounds then WithRound(b, n, b.rounds[n].(status := RoundStatus.CLOSED)) else b
    case RoundCancelled(n, now) =>
      if n !in b.rounds then b
      else if b.rounds[n].status == OPEN then WithRound(b, n, Round(CANCELLED, Some(now)))
      else WithRound(b, n, b.rounds[n].(status := CANCELLED))
    case RoundScored(n, detail) => ScoreRound(b, n, detail)
  }

  // ---- what every run keeps ----

  ghost predicate NumbersOk(b: Book) {
    && (forall i, j :: 0 <= i < j < |b.numbers| ==> b.numbers[i] < b.numbers[j])
    && (forall n :: n in b.numbers <==> n in b.rounds)
  }

  /** Scored rounds have closed, the later numbers later. */
  ghost predicate ClosingsOk(b: Book) {
    && (forall r :: HasStatus(b, r, SCORED) ==> CloseAtOf(b, r).Some?)
    && (forall r, s :: HasStatus(b, r, SCORED) && HasStatus(b, s, SCORED) && r < s ==>
      CloseAtOf(b, r).value < CloseAtOf(b, s).value)
  }

  /** History is kept for scored rounds only, for every ticket, and never twice. */
  ghost predicate HistoryOk(b: Book) {
    && Running(b.history)
    && (forall row :: row in b.history ==> HasStatus(b, row.round, SCORED) && row.userId in b.users)
    && (forall t :: t in b.tickets && HasStatus(b, t.round, SCORED) ==> HasRow(b.history, t.userId, t.round))
  }

  ghost predicate HasRow(h: seq<History>, u: UserId, n: RoundNo) {
    exists row :: row in h && row.userId == u && row.round == n
  }

  ghost predicate TicketsOk(b: Book) {
    && Distinct(b.tickets)
    && (forall t :: t in b.tickets ==> t.userId in b.users)
  }

  ghost predicate UsersOk(b: Book) {
    forall u :: u in b.users ==> b.users[u].scoreTotal == EarnedEver(b.history, u, Score)
  }

  ghost predicate BookOk(b: Book) {
    NumbersOk(b) && ClosingsOk(b) && HistoryOk(b) && TicketsOk(b) && UsersOk(b)
  }

  // ---- scoring keeps the running totals ----

  /** While round `n` is being scored, exactly the players in `done` have their row of it. */
  ghost predicate Recording(h: seq<History>, n: RoundNo, done: seq<UserId>) {
    && Running(h)
    && (forall row :: row in h ==> row.round < n || (row.round == n && row.userId in done))
    && (forall u :: u in done ==> HasRow(h, u, n))
  }

  lemma {:induction false} LatestEverIsTheSum(h: seq<History>, u: UserId, f: Figure)
    requires Running(h)
    ensures TotalOf(Latest(h, u, RoundsIn(h), BY_NUMBER), f) == EarnedEver(h, u, f)
  {
    LatestTotalsAreTheSum(h, u, RoundsIn(h), BY_NUMBER, f);
    AllRowsInside(h, u, RoundsIn(h), f);
  }

  lemma {:induction false} RowAdded(h: seq<History>, row: History, u: UserId, f: Figure)
    ensures EarnedEver(h + [row], u, f) == EarnedEver(h, u, f) + if row.userId == u then row.earned.Get(f) else 0
  {}

  /** The row adds what its ticket earned to what its user has earned so far. */
  ghost predicate RunsOn(h: seq<History>, row: History) {
    forall f :: row.totals.Get(f) == EarnedEver(h, row.userId, f) + row.earned.Get(f)
  }

  lemma {:induction false} RecordingGrows(h: seq<History>, row: History, n: RoundNo, done: seq<UserId>)
    requires Recording(h, n, done) && row.round == n && row.userId !in done
    requires RunsOn(h, row)
    ensures Recording(h + [row], n, done + [row.userId])
  {}

  lemma {:induction false} TicketRowRuns(b: Book, u: UserId, n: RoundNo, earned: Points)
    requires Running(b.history) && UsersOk(b) && u in b.users
    ensures RunsOn(b.history, TicketRow(b, u, n, earned))
  {
    LatestEverIsTheSum(b.history, u, SuperDoubles);
    LatestEverIsTheSum(b.history, u, Doubles);
  }

  lemma {:induction false} ScoreTicketKeeps(b: Book, n: RoundNo, done: seq<UserId>, u: UserId, earned: Points)
    requires Recording(b.history, n, done) && UsersOk(b) && u !in done && u in b.users
    ensures Recording(ScoreTicket(b, u, n, earned).history, n, done + [u]) && UsersOk(ScoreTicket(b, u, n, earned))
  {
    var after, row := ScoreTicket(b, u, n, earned), TicketRow(b, u, n, earned);
    TicketRowRuns(b, u, n, earned);
    RecordingGrows(b.history, row, n, done);
    forall v | v in after.users ensures after.users[v].scoreTotal == EarnedEver(after.history, v, Score) {
      RowAdded(b.history, row, v, Score);
    }
  }

  /** Scoring tickets adds rows of the round and of its players. */
  lemma {:induction false} ScoreTicketsAdds(b: Book, players: seq<UserId>, n: RoundNo, detail: UserId -> Points)
    ensures var after := ScoreTickets(b, players, n, detail);
      && b.history <= after.history
      && forall k :: |b.history| <= k < |after.history| ==>
        after.history[k].round == n && after.history[k].userId in players
  {
    if players != [] {
      assert players == players[..|players| - 1] + [players[|players| - 1]];
      ScoreTicketsAdds(b, players[..|players| - 1], n, detail);
    }
  }

  lemma {:induction false} ScoreTicketsKeeps(b: Book, players: seq<UserId>, n: RoundNo, detail: UserId -> Points)
    requires Recording(b.history, n, []) && UsersOk(b)
    requires Distinct(players) && forall u :: u in players ==> u in b.users
    ensures var after := ScoreTickets(b, players, n, detail);
      && Recording(after.history, n, players) && UsersOk(after)
      && after == b.(users := after.users, history := after.history)
      && after.users.Keys == b.users.Keys
  {
    if players != [] {
      var init, last := players[..|players| - 1], players[|players| - 1];
      assert players == init + [last];
      ScoreTicketsKeeps(b, init, n, detail);
      ScoreTicketKeeps(ScoreTickets(b, init, n, detail), n, init, last, detail(last));
    }
  }

  lemma {:induction false} PlayersAreDistinct(tickets: seq<Ticket>, n: RoundNo)
    requires Distinct(tickets)
    ensures Distinct(Players(tickets, n))
  {
    if tickets != [] {
      PlayersAreDistinct(tickets[..|tickets| - 1], n);
    }
  }

  // ---- a later book ----

  /** What was scored stays as it is, and what is scored later is later. */
  ghost predicate Extends(b: Book, later: Book) {
    && (forall r :: HasStatus(b, r, SCORED) ==> r in later.rounds && later.rounds[r] == b.rounds[r])
    && (forall r, s :: HasStatus(b, r, SCORED) && HasStatus(later, s, SCORED) && !HasStatus(b, s, SCORED) ==> r < s)
    && b.history <= later.history
    && (forall k :: |b.history| <= k < |later.history| ==> !HasStatus(b, later.history[k].round, SCORED))
  }

  /** Nothing was scored in between. */
  ghost predicate SameScores(b: Book, later: Book) {
    && later.history == b.history
    && (forall r :: HasStatus(b, r, SCORED) <==> HasStatus(later, r, SCORED))
    && (forall r :: HasStatus(b, r, SCORED) ==> later.rounds[r] == b.rounds[r])
  }

  lemma {:induction false} InsertedNumbers(n: RoundNo, numbers: seq<RoundNo>)
    requires n !in numbers && forall i, j :: 0 <= i < j < |numbers| ==> numbers[i] < numbers[j]
    ensures var inserted := Insert(n, numbers, Ascending);
      && (forall i, j :: 0 <= i < j < |inserted| ==> inserted[i] < inserted[j])
      && (forall m :: m in inserted <==> m in numbers || m == n)
  {
    if numbers != [] && n > numbers[0] {
      InsertedNumbers(n, numbers[1..]);
      var rest := Insert(n, numbers[1..], Ascending);
      forall j | 0 <= j < |rest| ensures numbers[0] < rest[j] {
        assert rest[j] in numbers[1..] || rest[j] == n;
      }
    }
  }

  lemma {:induction false} OtherEventsKeepScores(b: Book, e: BookEvent)
    requires BookOk(b) && Allowed(b, e) && !e.RoundScored?
    ensures SameScores(b, Next(b, e)) && NumbersOk(Next(b, e))
  {
    if e.RoundDrafted? && e.number !in b.rounds {
      InsertedNumbers(e.number, b.numbers);
    }
  }

  lemma {:induction false} EarnedNothingEver(h: seq<History>, u: UserId, f: Figure)
    requires forall row :: row in h ==> row.userId != u
    ensures EarnedEver(h, u, f) == 0
  {
    if h != [] {
      EarnedNothingEver(h[..|h| - 1], u, f);
    }
  }

  lemma {:induction false} OtherEventsKeepBook(b: Book, e: BookEvent)
    requires BookOk(b) && Allowed(b, e) && !e.RoundScored?
    ensures BookOk(Next(b, e))
  {
    OtherEventsKeepScores(b, e);
    if e.UserRegistered? {
      EarnedNothingEver(b.history, e.userId, Score);
    }
  }

  lemma {:induction false} ScoringKeepsHistory(b: Book, after: Book, n: RoundNo)
    requires HistoryOk(b) && n in b.rounds && !HasStatus(b, n, SCORED)
    requires after.rounds == b.rounds[n := b.rounds[n].(status := SCORED)]
    requires b.history <= after.history && after.tickets == b.tickets && after.users.Keys == b.users.Keys
    requires Recording(after.history, n, Players(b.tickets, n))
    requires forall k :: |b.history| <= k < |after.history| ==>
      after.history[k].round == n && after.history[k].userId in b.users
    ensures HistoryOk(after)
  {}

  lemma {:induction false} ScoringKeepsClosings(b: Book, after: Book, n: RoundNo, detail: UserId -> Points)
    requires BookOk(b) && Allowed(b, RoundScored(n, detail))
    requires after.rounds == b.rounds[n := b.rounds[n].(status := SCORED)] && after.numbers == b.numbers
    ensures ClosingsOk(after) && NumbersOk(after)
    ensures forall r, s :: HasStatus(b, r, SCORED) && HasStatus(after, s, SCORED) && !HasStatus(b, s, SCORED) ==> r < s
  {
    forall r | HasStatus(after, r, SCORED) ensures r == n || HasStatus(b, r, SCORED) {}
    assert CloseAtOf(after, n) == b.rounds[n].closeAt;
    assert forall r :: r != n ==> CloseAtOf(after, r) == CloseAtOf(b, r);
  }

  lemma {:induction false} ScoringStarts(b: Book, n: RoundNo, detail: UserId -> Points)
    requires BookOk(b) && Allowed(b, RoundScored(n, detail))
    ensures Recording(b.history, n, []) && Distinct(Players(b.tickets, n))
    ensures forall u :: u in Players(b.tickets, n) ==> u in b.users
  {
    PlayersAreDistinct(b.tickets, n);
  }

  lemma {:induction false} ScoringExtends(b: Book, after: Book, n: RoundNo)
    requires !HasStatus(b, n, SCORED) && n in b.rounds
    requires after.rounds == b.rounds[n := b.rounds[n].(status := SCORED)] && b.history <= after.history
    requires forall k :: |b.history| <= k < |after.history| ==>
      after.history[k].round == n && after.history[k].userId in b.users
    requires forall r, s :: HasStatus(b, r, SCORED) && HasStatus(after, s, SCORED) && !HasStatus(b, s, SCORED) ==> r < s
    ensures Extends(b, after)
  {}

  lemma {:induction false} ScoringKeepsBook(b: Book, n: RoundNo, detail: UserId -> Points)
    requires BookOk(b) && Allowed(b, RoundScored(n, detail))
    ensures BookOk(ScoreRound(b, n, detail)) && Extends(b, ScoreRound(b, n, detail))
  {
    ScoringStarts(b, n, detail);
    ScoreTicketsKeeps(b, Players(b.tickets, n), n, detail);
    ScoreTicketsAdds(b, Players(b.tickets, n), n, detail);
    var after := ScoreRound(b, n, detail);
    ScoringKeepsHistory(b, after, n);
    ScoringKeepsClosings(b, after, n, detail);
    ScoringExtends(b, after, n);
  }

  /** Every run keeps the book in order, and what has been scored stays. */
  lemma {:induction false} BookStep(b: Book, e: BookEvent)
    requires BookOk(b) && Allowed(b, e)
    ensures BookOk(Next(b, e)) && Extends(b, Next(b, e))
  {
    if e.RoundScored? {
      ScoringKeepsBook(b, e.number, e.detail);
    } else {
      OtherEventsKeepScores(b, e);
      OtherEventsKeepBook(b, e);
    }
  }

  // ---- what the events write ----

  predicate IsRowOf(row: History, u: UserId, n: RoundNo, detail: UserId -> Points) {
    row.userId == u && row.round == n && row.earned == detail(u)
  }

  lemma {:induction false} ScoreTicketsPays(b: Book, players: seq<UserId>, n: RoundNo, detail: UserId -> Points,
                                            u: UserId)
    requires Distinct(players)
    ensures var after := ScoreTickets(b, players, n, detail);
      && |after.history| == |b.history| + |players|
      && (forall k :: 0 <= k < |players| ==> IsRowOf(after.history[|b.history| + k], players[k], n, detail))
      && after.users.Keys == b.users.Keys
      && (u in b.users ==>
        after.users[u] == b.users[u].(
          scoreTotal := b.users[u].scoreTotal + if u in players then detail(u).score else 0))
  {
    if players != [] {
      var init, last := players[..|players| - 1], players[|players| - 1];
      assert players == init + [last];
      ScoreTicketsPays(b, init, n, detail, u);
    }
  }

  /** Scoring a round writes one row for every ticket of the round, with what that ticket has earned,
      and adds it to the total of its user; nothing else changes but the status of the round. */
  lemma {:induction false} ScoredExactly(b: Book, n: RoundNo, detail: UserId -> Points, u: UserId)
    requires BookOk(b) && HasStatus(b, n, RoundStatus.CLOSED)
    ensures var after := ScoreRound(b, n, detail);
      && after == b.(users := after.users, history := after.history,
                     rounds := b.rounds[n := Round(SCORED, b.rounds[n].closeAt)])
      && b.history <= after.history
      && (forall row :: row in after.history[|b.history|..] ==>
        row.round == n && Ticket(row.userId, n) in b.tickets && row.earned == detail(row.userId))
      && (forall i, j :: |b.history| <= i < j < |after.history| ==> after.history[i].userId != after.history[j].userId)
      && (Ticket(u, n) in b.tickets ==> exists row :: row in after.history[|b.history|..] && row.userId == u)
      && (u in after.users <==> u in b.users)
      && (u in b.users ==>
        after.users[u] == b.users[u].(
          scoreTotal := b.users[u].scoreTotal + if Ticket(u, n) in b.tickets then detail(u).score else 0))
  {
    var players, after := Players(b.tickets, n), ScoreRound(b, n, detail);
    PlayersAreDistinct(b.tickets, n);
    ScoreTicketsPays(b, players, n, detail, u);
    ScoreTicketsAdds(b, players, n, detail);
    ScoreTicketsKeepRest(b, players, n, detail);
    RowsOfPlayers(b.history, after.history, players, n, detail);
  }

  lemma {:induction false} RowsOfPlayers(h: seq<History>, after: seq<History>, players: seq<UserId>, n: RoundNo,
                                         detail: UserId -> Points)
    requires Distinct(players) && |after| == |h| + |players|
    requires forall k :: 0 <= k < |players| ==> IsRowOf(after[|h| + k], players[k], n, detail)
    ensures forall row :: row in after[|h|..] ==> row.userId in players && IsRowOf(row, row.userId, n, detail)
    ensures forall i, j :: |h| <= i < j < |after| ==> after[i].userId != after[j].userId
    ensures forall u :: u in players ==> exists row :: row in after[|h|..] && row.userId == u
  {
    forall row | row in after[|h|..] ensures row.userId in players && IsRowOf(row, row.userId, n, detail) {
      var k :| 0 <= k < |players| && after[|h|..][k] == row;
      assert IsRowOf(after[|h| + k], players[k], n, detail);
    }
    forall i, j | |h| <= i < j < |after| ensures after[i].userId != after[j].userId {
      assert IsRowOf(after[|h| + (i - |h|)], players[i - |h|], n, detail);
      assert IsRowOf(after[|h| + (j - |h|)], players[j - |h|], n, detail);
    }
    forall u | u in players ensures exists row :: row in after[|h|..] && row.userId == u {
      var k :| 0 <= k < |players| && players[k] == u;
      assert after[|h|..][k] == after[|h| + k];
    }
  }

  lemma {:induction false} ScoreTicketsKeepRest(b: Book, players: seq<UserId>, n: RoundNo, detail: UserId -> Points)
    ensures var after := ScoreTickets(b, players, n, detail);
      after == b.(users := after.users, history := after.history)
  {
    if players != [] {
      ScoreTicketsKeepRest(b, players[..|players| - 1], n, detail);
    }
  }

  /** How the round looks after it has moved on: drafts open or are cancelled, open rounds close or
      are cancelled, at the moment of the cancellation; closed ones are scored. */
  ghost predicate MovesTo(e: BookEvent, n: RoundNo, before: Round, after: Round) {
    || (&& e.RoundDrafted? && e.number == n && before.status == RoundStatus.DRAFT
        && after == Round(RoundStatus.DRAFT, e.closeAt))
    || (e == RoundOpened(n) && before.status == RoundStatus.DRAFT && after == Round(OPEN, before.closeAt))
    || (e == RoundClosed(n) && before.status == OPEN && after == Round(RoundStatus.CLOSED, before.closeAt))
    || (&& e.RoundCancelled? && e.number == n && before.status == RoundStatus.DRAFT
        && after == Round(CANCELLED, before.closeAt))
    || (&& e.RoundCancelled? && e.number == n && before.status == OPEN
        && after == Round(CANCELLED, Some(e.now)))
    || (&& e.RoundScored? && e.number == n && before.status == RoundStatus.CLOSED
        && after == Round(SCORED, before.closeAt))
  }

  /** The round that the event is about, if any. */
  function Concerned(e: BookEvent): Option<RoundNo> {
    match e
    case RoundDrafted(n, _) => Some(n)
    case RoundOpened(n) => Some(n)
    case RoundClosed(n) => Some(n)
    case RoundCancelled(n, _) => Some(n)
    case RoundScored(n, _) => Some(n)
    case _ => None
  }

  /** An event moves its round on, or drafts it, and no other. Users, tickets and history change by
      registering, by submitting a ticket, and by scoring alone. */
  lemma {:induction false} EventsMoveRounds(b: Book, e: BookEvent, n: RoundNo)
    requires BookOk(b) && Allowed(b, e)
    ensures var after := Next(b, e);
      && (n in after.rounds <==> n in b.rounds || (e.RoundDrafted? && e.number == n))
      && (Concerned(e) != Some(n) && n in b.rounds ==> after.rounds[n] == b.rounds[n])
      && (Concerned(e) == Some(n) && n in b.rounds ==> MovesTo(e, n, b.rounds[n], after.rounds[n]))
      && (Concerned(e) == Some(n) && n !in b.rounds ==> after.rounds[n] == Round(RoundStatus.DRAFT, e.closeAt))
      && (after.users == b.users || e.RoundScored?
          || (e.UserRegistered? && after.users == b.users[e.userId := User(e.name, e.createdAt, 0)]))
      && (after.tickets == b.tickets
        || (e.TicketSubmitted? && after.tickets == b.tickets + [Ticket(e.userId, e.number)]))
      && (after.history == b.history || e.RoundScored?)
      && (e.UserRegistered? ==> e.userId in after.users)
      && (e.TicketSubmitted? ==> Ticket(e.userId, e.number) in after.tickets)
  {
    if e.RoundScored? {
      ScoredExactly(b, e.number, e.detail, 0);
    }
  }
}
