/** The session store: sessions that expire, and for every user a timed index of them. */
module RedisSessions {
  import opened Collections

  type Sid = int
  type SessionUser = int
  type Second = int

  /** Keys with their expiry; a key is there until that instant. */
  datatype Session = Session(user: Option<SessionUser>, expires: Second)
  datatype Index = Index(members: set<Sid>, expires: Second)
  datatype Store = Store(now: Second, sessions: map<Sid, Session>, indexes: map<SessionUser, Index>)

  predicate LiveSession(s: Store, sid: Sid) {
    sid in s.sessions && s.now < s.sessions[sid].expires
  }

  predicate LiveIndex(s: Store, u: SessionUser) {
    u in s.indexes && s.now < s.indexes[u].expires
  }

  /** `maxAge` in milliseconds; without one, or with zero, the idle limit counts. */
  function TtlSeconds(maxAge: Option<int>, idle: int): int {
    var cookieTtl := if maxAge.GetOr(0) == 0 then idle else Ceiling(maxAge.value, 1000);
    Max(1, Min(cookieTtl, idle))
  }

  function Ceiling(a: int, b: int): (c: int)
    requires b > 0
    ensures b * (c - 1) < a <= b * c
  {
    -((-a) / b)
  }

  function Max(a: int, b: int): int {
    if a > b then a else b
  }

  function Min(a: int, b: int): int {
    if a < b then a else b
  }

  /** A session lives at least a second, never longer than the idle limit allows, and as long as
      its cookie when that is shorter. */
  lemma {:induction false} TtlBounds(maxAge: Option<int>, idle: int)
    ensures 1 <= TtlSeconds(maxAge, idle) <= Max(1, idle)
    ensures maxAge.GetOr(0) > 0 && maxAge.value <= 1000 * idle ==>
      maxAge.value <= 1000 * TtlSeconds(maxAge, idle) < maxAge.value + 1000
    ensures maxAge.GetOr(0) == 0 || maxAge.value > 1000 * idle ==> TtlSeconds(maxAge, idle) == Max(1, idle)
  {}

  // ---- what the operations do ----

  function Ticked(s: Store, later: Second): Store {
    s.(now := Max(s.now, later))
  }

  function Members(s: Store, u: SessionUser): set<Sid> {
    if LiveIndex(s, u) then s.indexes[u].members else {}
  }

  function Persisted(s: Store, sid: Sid, user: Option<SessionUser>, ttl: int): Store {
    s.(sessions := s.sessions[sid := Session(user, s.now + ttl)],
       indexes := if user.None? then s.indexes
                  else s.indexes[user.value := Index(Members(s, user.value) + {sid}, s.now + ttl)])
  }

  function Removed(s: Store, sid: Sid): Store {
    var gone := s.(sessions := s.sessions - {sid});
    if !LiveSession(s, sid) || s.sessions[sid].user.None? then gone
    else
      var u := s.sessions[sid].user.value;
      if !LiveIndex(s, u) then gone
      else gone.(indexes := s.indexes[u := s.indexes[u].(members := s.indexes[u].members - {sid})])
  }

  function Revoked(s: Store, u: SessionUser): Store {
    s.(sessions := s.sessions - Members(s, u), indexes := s.indexes - {u})
  }

  // ---- the store ----

  class RedisSessionStore {
    const idleTtlSeconds: int
    var now: Second
    var sessions: map<Sid, Session>
    var indexes: map<SessionUser, Index>

    function View(): Store
      reads this
    {
      Store(now, sessions, indexes)
    }

    constructor (idle: int)
      ensures idleTtlSeconds == idle && View() == Store(0, map[], map[])
    {
      idleTtlSeconds := idle;
      now, sessions, indexes := 0, map[], map[];
    }

    /** `SADD` and `EXPIRE` on the user's index. */
    method AddToIndex(u: SessionUser, sid: Sid, ttl: int)
      modifies this`indexes
      ensures indexes == old(indexes)[u := Index(Members(old(View()), u) + {sid}, now + ttl)]
    {
      if u !in indexes || indexes[u].expires <= now {
        indexes := indexes[u := Index({}, now + ttl)];
      }
      indexes := indexes[u := indexes[u].(members := indexes[u].members + {sid})];
      indexes := indexes[u := indexes[u].(expires := now + ttl)];
    }

    method Persist(sid: Sid, user: Option<SessionUser>, maxAge: Option<int>)
      modifies this
      ensures View() == Persisted(old(View()), sid, user, TtlSeconds(maxAge, idleTtlSeconds))
    {
      var ttl := TtlSeconds(maxAge, idleTtlSeconds);
      sessions := sessions[sid := Session(user, now + ttl)];
      if user.Some? {
        AddToIndex(user.value, sid, ttl);
      }
    }

    method Remove(sid: Sid)
      modifies this
      ensures View() == Removed(old(View()), sid)
    {
      var serialized := if sid in sessions && now < sessions[sid].expires then Some(sessions[sid]) else None;
      sessions := sessions - {sid};
      if serialized.None? || serialized.value.user.None? {
        return;
      }
      var u := serialized.value.user.value;
      if u in indexes && now < indexes[u].expires {
        indexes := indexes[u := indexes[u].(members := indexes[u].members - {sid})];
      }
    }

    method RevokeUserSessions(u: SessionUser)
      modifies this
      ensures View() == Revoked(old(View()), u)
    {
      var sessionIds := if u in indexes && now < indexes[u].expires then indexes[u].members else {};
      if |sessionIds| > 0 {
        sessions := sessions - sessionIds;
      }
      assert sessions == old(sessions) - sessionIds;
      indexes := indexes - {u};
    }
  }

  // ---- the index covers the live sessions ----

  /** The live session is in the live index of its user, which outlives it. */
  ghost predicate CoveredSession(s: Store, sid: Sid, u: SessionUser) {
    && sid in s.sessions && LiveIndex(s, u)
    && sid in s.indexes[u].members && s.indexes[u].expires >= s.sessions[sid].expires
  }

  ghost predicate Covered(s: Store) {
    forall sid, u :: LiveSession(s, sid) && s.sessions[sid].user == Some(u) ==> CoveredSession(s, sid, u)
  }

  /** No other live session of the user would outlive an index that expires at `until`. */
  ghost predicate NoneOutlives(s: Store, sid: Sid, u: SessionUser, until: Second) {
    forall other :: other != sid && LiveSession(s, other) && s.sessions[other].user == Some(u) ==>
      s.sessions[other].expires <= until
  }

  lemma {:induction false} TickKeeps(s: Store, later: Second)
    requires Covered(s)
    ensures Covered(Ticked(s, later))
  {}

  lemma {:induction false} RemoveKeeps(s: Store, sid: Sid)
    requires Covered(s)
    ensures Covered(Removed(s, sid))
  {}

  lemma {:induction false} RevokeKeeps(s: Store, u: SessionUser)
    requires Covered(s)
    ensures Covered(Revoked(s, u))
  {}

  /** Saving a session of a user shortens the life of the whole index: it goes on covering
      exactly when no other live session of the user was to expire later. */
  lemma {:induction false} PersistKeepsExactly(s: Store, sid: Sid, u: SessionUser, ttl: int)
    requires Covered(s) && ttl > 0
    ensures Covered(Persisted(s, sid, Some(u), ttl)) <==> NoneOutlives(s, sid, u, s.now + ttl)
  {
    var after := Persisted(s, sid, Some(u), ttl);
    forall other, v | LiveSession(s, other) && s.sessions[other].user == Some(v) ensures CoveredSession(s, other, v) {}
    if Covered(after) {
      forall other | other != sid && LiveSession(s, other) && s.sessions[other].user == Some(u)
        ensures s.sessions[other].expires <= s.now + ttl
      {
        assert LiveSession(after, other) && CoveredSession(after, other, u);
      }
    }
    if NoneOutlives(s, sid, u, s.now + ttl) {
      forall other, v | LiveSession(after, other) && after.sessions[other].user == Some(v)
        ensures CoveredSession(after, other, v) {
        assert other != sid ==> LiveSession(s, other) && CoveredSession(s, other, v);
      }
    }
  }

  lemma {:induction false} PersistAnonymousKeeps(s: Store, sid: Sid, ttl: int)
    requires Covered(s)
    ensures Covered(Persisted(s, sid, None, ttl))
  {}

  /** Revoking a covered user leaves no live session of that user, and takes no session away
      but those of the user's index. */
  lemma {:induction false} RevokeRevokes(s: Store, u: SessionUser, sid: Sid)
    requires Covered(s)
    ensures LiveSession(Revoked(s, u), sid) ==> Revoked(s, u).sessions[sid].user != Some(u)
    ensures LiveSession(s, sid) && sid !in Members(s, u) ==>
      LiveSession(Revoked(s, u), sid) && Revoked(s, u).sessions[sid] == s.sessions[sid]
  {}

  /** Without that condition revocation can miss a live session: a long session of user 7,
      then a short one, and the index is gone before the long session is. */
  lemma {:induction false} ShortSessionUncovers()
    ensures var s := Ticked(Persisted(Persisted(Store(0, map[], map[]), 1, Some(7), 100), 2, Some(7), 1), 50);
      LiveSession(Revoked(s, 7), 1) && Revoked(s, 7).sessions[1].user == Some(7)
  {}

  // ---- runs ----

  // ---- what is there afterwards ----

  /** A saved session is there with its new expiry, and so is the index of its user, which lists it
      beside what the live index listed; nothing else changes. */
  lemma {:induction false} PersistWrites(s: Store, sid: Sid, user: Option<SessionUser>, ttl: int)
    requires ttl > 0
    ensures var after := Persisted(s, sid, user, ttl);
      && LiveSession(after, sid) && after.now == s.now
      && after.sessions[sid].user == user && after.sessions[sid].expires == s.now + ttl
      && (forall other :: other != sid ==>
        (other in after.sessions <==> other in s.sessions)
        && (other in s.sessions ==> after.sessions[other] == s.sessions[other]))
      && (user.Some? ==>
        && LiveIndex(after, user.value) && after.indexes[user.value].expires == s.now + ttl
        && forall other :: other in after.indexes[user.value].members <==>
          other == sid || (LiveIndex(s, user.value) && other in s.indexes[user.value].members))
      && (forall u :: user != Some(u) ==>
        (u in after.indexes <==> u in s.indexes) && (u in s.indexes ==> after.indexes[u] == s.indexes[u]))
  {}

  /** A removed session is gone, and from the live index of its user; nothing else changes. */
  lemma {:induction false} RemoveRemoves(s: Store, sid: Sid)
    ensures var after := Removed(s, sid);
      && sid !in after.sessions && after.now == s.now && after.indexes.Keys == s.indexes.Keys
      && (forall other :: other != sid ==>
        (other in after.sessions <==> other in s.sessions)
        && (other in s.sessions ==> after.sessions[other] == s.sessions[other]))
      && forall u :: u in s.indexes ==>
        && after.indexes[u].expires == s.indexes[u].expires
        && after.indexes[u].members
          == if LiveSession(s, sid) && s.sessions[sid].user == Some(u) && LiveIndex(s, u)
             then s.indexes[u].members - {sid} else s.indexes[u].members
  {}

  /** Revocation takes away the sessions that the live index lists, and the index; nothing else. */
  lemma {:induction false} RevokeTakesAway(s: Store, u: SessionUser, sid: Sid)
    ensures var after := Revoked(s, u);
      && u !in after.indexes && after.now == s.now
      && (sid in after.sessions <==> sid in s.sessions && !(LiveIndex(s, u) && sid in s.indexes[u].members))
      && (sid in after.sessions ==> after.sessions[sid] == s.sessions[sid])
      && (forall v :: v != u ==>
        (v in after.indexes <==> v in s.indexes) && (v in s.indexes ==> after.indexes[v] == s.indexes[v]))
  {}

  datatype Operation =
    | Tick(later: Second)
    | Persist(sid: Sid, user: Option<SessionUser>, maxAge: Option<int>)
    | Remove(sid: Sid)
    | Revoke(owner: SessionUser)

  function After(s: Store, idle: int, op: Operation): Store {
    match op
    case Tick(later) => Ticked(s, later)
    case Persist(sid, user, maxAge) => Persisted(s, sid, user, TtlSeconds(maxAge, idle))
    case Remove(sid) => Removed(s, sid)
    case Revoke(u) => Revoked(s, u)
  }

  function AfterAll(s: Store, idle: int, ops: seq<Operation>): Store {
    if ops == [] then s else After(AfterAll(s, idle, ops[..|ops| - 1]), idle, ops[|ops| - 1])
  }

  /** Expiry instants do not decrease: no session of a user is saved to expire before another
      live one of the same user. */
  ghost predicate NonDecreasing(s: Store, idle: int, ops: seq<Operation>) {
    forall i :: 0 <= i < |ops| ==> match ops[i] {
      case Persist(sid, Some(u), maxAge) =>
        var before := AfterAll(s, idle, ops[..i]);
        NoneOutlives(before, sid, u, before.now + TtlSeconds(maxAge, idle))
      case _ => true
    }
  }

  lemma {:induction false} NonDecreasingPrefix(s: Store, idle: int, ops: seq<Operation>)
    requires ops != [] && NonDecreasing(s, idle, ops)
    ensures NonDecreasing(s, idle, ops[..|ops| - 1])
  {
    var init := ops[..|ops| - 1];
    forall i | 0 <= i < |init| ensures init[..i] == ops[..i] && init[i] == ops[i] {}
  }

  /** Then, after any run, every live session is in its user's live index. */
  lemma {:induction false} RunsCover(s: Store, idle: int, ops: seq<Operation>)
    requires Covered(s) && NonDecreasing(s, idle, ops)
    ensures Covered(AfterAll(s, idle, ops))
  {
    if ops != [] {
      var before, last := AfterAll(s, idle, ops[..|ops| - 1]), ops[|ops| - 1];
      NonDecreasingPrefix(s, idle, ops);
      RunsCover(s, idle, ops[..|ops| - 1]);
      match last {
        case Tick(later) => TickKeeps(before, later);
        case Persist(sid, user, maxAge) =>
          if user.None? {
            PersistAnonymousKeeps(before, sid, TtlSeconds(maxAge, idle));
          } else {
            assert NoneOutlives(before, sid, user.value, before.now + TtlSeconds(maxAge, idle));
            PersistKeepsExactly(before, sid, user.value, TtlSeconds(maxAge, idle));
          }
        case Remove(sid) => RemoveKeeps(before, sid);
        case Revoke(u) => RevokeKeeps(before, u);
      }
    }
  }

  /** All sessions expire within the idle limit ... */
  ghost predicate WithinIdle(s: Store, idle: int) {
    forall sid :: sid in s.sessions ==> s.sessions[sid].expires <= s.now + Max(1, idle)
  }

  lemma {:induction false} RunsStayWithinIdle(s: Store, idle: int, ops: seq<Operation>)
    requires WithinIdle(s, idle)
    ensures WithinIdle(AfterAll(s, idle, ops), idle)
  {
    if ops != [] {
      RunsStayWithinIdle(s, idle, ops[..|ops| - 1]);
    }
  }

  /** ... so sessions whose cookie does not shorten it never uncover each other. */
  lemma {:induction false} IdleSessionsCover(s: Store, idle: int, ops: seq<Operation>)
    requires Covered(s) && WithinIdle(s, idle)
    requires forall i :: 0 <= i < |ops| && ops[i].Persist? ==> TtlSeconds(ops[i].maxAge, idle) == Max(1, idle)
    ensures Covered(AfterAll(s, idle, ops))
  {
    forall i | 0 <= i < |ops| && ops[i].Persist? && ops[i].user.Some?
      ensures NoneOutlives(AfterAll(s, idle, ops[..i]), ops[i].sid, ops[i].user.value,
                           AfterAll(s, idle, ops[..i]).now + TtlSeconds(ops[i].maxAge, idle))
    {
      RunsStayWithinIdle(s, idle, ops[..i]);
    }
    RunsCover(s, idle, ops);
  }
}
