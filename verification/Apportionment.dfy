/** Largest-remainder apportionment of an integer pool over real weights. */
module Apportionment {
  import opened Collections
  import opened JsArray

  function Sum(ws: seq<real>): real {
    if ws == [] then 0.0 else Sum(ws[..|ws| - 1]) + ws[|ws| - 1]
  }

  function SumInt(ns: seq<int>): int {
    if ns == [] then 0 else SumInt(ns[..|ns| - 1]) + ns[|ns| - 1]
  }

  /** The share of a pool `p` that a weight `w` has among weights of total `t`. */
  function Quotient(p: int, w: real, t: real): real
    requires t != 0.0
  {
    p as real * w / t
  }

  /** The exact shares of a pool over weights. */
  function Exacts(pool: int, ws: seq<real>): (exacts: seq<real>)
    requires Sum(ws) != 0.0
    ensures |exacts| == |ws|
  {
    seq(|ws|, i requires 0 <= i < |ws| => Quotient(pool, ws[i], Sum(ws)))
  }

  function Floors(exacts: seq<real>): (floors: seq<int>)
    ensures |floors| == |exacts|
  {
    seq(|exacts|, i requires 0 <= i < |exacts| => exacts[i].Floor)
  }

  /** What the floors leave out of each exact share. */
  function Remainders(exacts: seq<real>): (rs: seq<real>)
    ensures |rs| == |exacts|
  {
    seq(|exacts|, i requires 0 <= i < |exacts| => exacts[i] - exacts[i].Floor as real)
  }

  /** Entry `j` is served before entry `i`: bigger remainder, then earlier. */
  predicate ServedBefore(rs: seq<real>, j: nat, i: nat)
    requires i < |rs| && j < |rs|
  {
    rs[j] > rs[i] || (rs[j] == rs[i] && j < i)
  }

  /** How many entries are served before entry `i`. */
  function Turn(rs: seq<real>, i: nat): nat
    requires i < |rs|
  {
    |set j: nat | j < |rs| && ServedBefore(rs, j, i)|
  }

  /** Specification: every entry gets the floor of its exact share, and one unit more when its
      turn comes before what the floors left of the pool is used up. */
  function Rounded(pool: int, exacts: seq<real>): (amounts: seq<int>)
    ensures |amounts| == |exacts|
  {
    var leftover := pool - SumInt(Floors(exacts));
    seq(|exacts|, i requires 0 <= i < |exacts| =>
      exacts[i].Floor + if Turn(Remainders(exacts), i) < leftover then 1 else 0)
  }

  function Amounts(pool: int, ws: seq<real>): (amounts: seq<int>)
    requires Sum(ws) != 0.0
    ensures |amounts| == |ws|
  {
    Rounded(pool, Exacts(pool, ws))
  }

  // ---- the exact shares add up to the pool ----

  lemma {:induction false} QuotientTimes(p: int, w: real, t: real)
    requires t != 0.0
    ensures Quotient(p, w, t) * t == p as real * w
  {}

  lemma {:induction false} Cancel(a: real, t: real, b: real, u: real)
    requires t != 0.0 && t == u && a * t == b * u
    ensures a == b
  {}

  lemma {:induction false} SumOfShares(ws: seq<real>, shares: seq<real>, p: real, t: real)
    requires |shares| == |ws| && forall i :: 0 <= i < |ws| ==> shares[i] * t == p * ws[i]
    ensures Sum(shares) * t == p * Sum(ws)
  {
    if ws != [] {
      SumOfShares(ws[..|ws| - 1], shares[..|ws| - 1], p, t);
    }
  }

  lemma {:induction false} SharesAddUp(ws: seq<real>, shares: seq<real>, p: real)
    requires Sum(ws) != 0.0
    requires |shares| == |ws| && forall i :: 0 <= i < |ws| ==> shares[i] * Sum(ws) == p * ws[i]
    ensures Sum(shares) == p
  {
    SumOfShares(ws, shares, p, Sum(ws));
    Cancel(Sum(shares), Sum(ws), p, Sum(ws));
  }

  lemma {:induction false} ExactsAddUp(pool: int, ws: seq<real>)
    requires Sum(ws) != 0.0
    ensures Sum(Exacts(pool, ws)) == pool as real
  {
    var shares := Exacts(pool, ws);
    forall i | 0 <= i < |ws| ensures shares[i] * Sum(ws) == pool as real * ws[i] {
      QuotientTimes(pool, ws[i], Sum(ws));
    }
    SharesAddUp(ws, shares, pool as real);
  }

  lemma {:induction false} FloorsStayClose(exacts: seq<real>, floors: seq<int>)
    requires |floors| == |exacts| && forall i :: 0 <= i < |exacts| ==> floors[i] == exacts[i].Floor
    ensures SumInt(floors) as real <= Sum(exacts)
    ensures exacts != [] ==> Sum(exacts) < SumInt(floors) as real + |exacts| as real
  {
    if exacts != [] {
      FloorsStayClose(exacts[..|exacts| - 1], floors[..|floors| - 1]);
    }
  }

  /** The leftover is never negative and always smaller than the number of entries. */
  lemma {:induction false} LeftoverIsSmall(pool: int, exacts: seq<real>)
    requires exacts != [] && Sum(exacts) == pool as real
    ensures 0 <= pool - SumInt(Floors(exacts)) < |exacts|
  {
    FloorsStayClose(exacts, Floors(exacts));
  }

  // ---- the service's order: by remainder descending, then by entry ----

  datatype Share = Share(order: nat, remainder: real)

  function CompareRemainder(a: Share, b: Share): int {
    if b.remainder > a.remainder then 1
    else if b.remainder < a.remainder then -1
    else a.order - b.order
  }

  function Shares(rs: seq<real>): seq<Share> {
    seq(|rs|, i requires 0 <= i < |rs| => Share(i, rs[i]))
  }

  function RemainderOrder(rs: seq<real>): (order: seq<Share>)
    ensures |order| == |rs|
  {
    Sort(Shares(rs), CompareRemainder)
  }

  lemma {:induction false} RemainderOrderFacts(rs: seq<real>)
    ensures Distinct(RemainderOrder(rs))
    ensures Ordered(RemainderOrder(rs), CompareRemainder)
    ensures forall x :: x in RemainderOrder(rs) <==> x.order < |rs| && x.remainder == rs[x.order]
  {
    var shares, order := Shares(rs), RemainderOrder(rs);
    DistinctPermuted(shares, order);
    SortOrders(shares, CompareRemainder);
    forall x ensures x in order <==> x.order < |rs| && x.remainder == rs[x.order] {
      assert x in order <==> x in multiset(shares);
      assert x.order < |rs| ==> shares[x.order].order == x.order;
    }
  }

  /** The entries in the order in which the service serves them. */
  function Entries(rs: seq<real>): (entries: seq<nat>)
    ensures |entries| == |rs|
  {
    seq(|rs|, t requires 0 <= t < |rs| => RemainderOrder(rs)[t].order)
  }

  lemma {:induction false} EntriesArePermutation(rs: seq<real>)
    ensures Distinct(Entries(rs))
    ensures forall i: nat :: i in Entries(rs) <==> i < |rs|
  {
    RemainderOrderFacts(rs);
    var order, entries := RemainderOrder(rs), Entries(rs);
    forall t | 0 <= t < |rs| ensures entries[t] < |rs| && order[t].remainder == rs[entries[t]] {
      assert order[t] in order;
    }
    forall i: nat | i < |rs| ensures i in entries {
      assert Share(i, rs[i]) in order;
      var t :| 0 <= t < |order| && order[t] == Share(i, rs[i]);
      assert entries[t] == i;
    }
  }

  lemma {:induction false} EntriesAreServedInOrder(rs: seq<real>, s: nat, t: nat)
    requires s < t < |rs|
    ensures Entries(rs)[s] < |rs| && Entries(rs)[t] < |rs| && ServedBefore(rs, Entries(rs)[s], Entries(rs)[t])
  {
    RemainderOrderFacts(rs);
    var order := RemainderOrder(rs);
    assert order[s] in order && order[t] in order;
    assert order[s] != order[t];
    assert CompareRemainder(order[s], order[t]) <= 0;
  }

  /** The entry at place `t` of the service's order is the one whose turn is `t`. */
  lemma {:induction false} TurnIsPlace(rs: seq<real>, t: nat)
    requires t < |rs|
    ensures Entries(rs)[t] < |rs| && Turn(rs, Entries(rs)[t]) == t
  {
    EntriesArePermutation(rs);
    var entries := Entries(rs);
    assert entries[t] in entries;
    var before := set j: nat | j < |rs| && ServedBefore(rs, j, entries[t]);
    assert forall j: nat :: j in entries[..t] ==> j in entries;
    forall j: nat ensures j in before <==> j in entries[..t] {
      if j < |rs| {
        assert j in entries;
        var s :| 0 <= s < |rs| && entries[s] == j;
        if s < t {
          EntriesAreServedInOrder(rs, s, t);
          assert entries[..t][s] == j;
        } else if t < s {
          EntriesAreServedInOrder(rs, t, s);
        }
      }
    }
    assert before == Elements(entries[..t]);
    DistinctCardinality(entries[..t]);
  }

  /** The turns of the entries: the inverse of the service's order. */
  function Turns(rs: seq<real>): (turns: seq<nat>)
    ensures |turns| == |rs|
  {
    seq(|rs|, i requires 0 <= i < |rs| => Turn(rs, i))
  }

  lemma {:induction false} TurnsInvertEntries(rs: seq<real>)
    ensures forall t :: 0 <= t < |rs| ==> Entries(rs)[t] < |rs| && Turns(rs)[Entries(rs)[t]] == t
    ensures forall i :: 0 <= i < |rs| ==> Turns(rs)[i] < |rs| && Entries(rs)[Turns(rs)[i]] == i
  {
    forall t | 0 <= t < |rs| ensures Entries(rs)[t] < |rs| && Turns(rs)[Entries(rs)[t]] == t {
      TurnIsPlace(rs, t);
    }
    EntriesArePermutation(rs);
    forall i | 0 <= i < |rs| ensures Turns(rs)[i] < |rs| && Entries(rs)[Turns(rs)[i]] == i {
      assert i in Entries(rs);
    }
  }

  // ---- what the apportionment promises ----

  lemma {:induction false} SumWithBonus(floors: seq<int>, amounts: seq<int>, bonus: set<nat>)
    requires |amounts| == |floors|
    requires forall i: nat :: i in bonus ==> i < |floors|
    requires forall i: nat :: i < |floors| ==> amounts[i] == floors[i] + if i in bonus then 1 else 0
    ensures SumInt(amounts) == SumInt(floors) + |bonus|
  {
    if floors == [] {
      assert bonus == {};
    } else {
      var last := |floors| - 1;
      SumWithBonus(floors[..last], amounts[..last], bonus - {last});
      assert last in bonus ==> |bonus| == |bonus - {last}| + 1;
      assert last !in bonus ==> bonus == bonus - {last};
    }
  }

  lemma {:induction false} RoundedConservesPool(pool: int, exacts: seq<real>)
    requires exacts != [] && Sum(exacts) == pool as real
    ensures SumInt(Rounded(pool, exacts)) == pool
  {
    LeftoverIsSmall(pool, exacts);
    var rs, leftover := Remainders(exacts), pool - SumInt(Floors(exacts));
    var first := Entries(rs)[..leftover];
    TurnsInvertEntries(rs);
    EntriesArePermutation(rs);
    DistinctCardinality(first);
    forall i: nat | i < |rs| ensures Turn(rs, i) < leftover <==> i in Elements(first) {
      assert Turns(rs)[i] == Turn(rs, i);
      if Turn(rs, i) < leftover {
        assert first[Turn(rs, i)] == i;
      }
    }
    assert forall i: nat :: i in Elements(first) ==> i in Entries(rs);
    SumWithBonus(Floors(exacts), Rounded(pool, exacts), Elements(first));
  }

  /** The pool is given away to the last unit. */
  lemma {:induction false} AmountsConservePool(pool: int, ws: seq<real>)
    requires Sum(ws) != 0.0
    ensures SumInt(Amounts(pool, ws)) == pool
  {
    ExactsAddUp(pool, ws);
    RoundedConservesPool(pool, Exacts(pool, ws));
  }

  lemma {:induction false} SubsetSize<T>(a: set<T>, b: set<T>)
    requires a <= b
    ensures |a| <= |b|
  {
    if a != {} {
      var x :| x in a;
      SubsetSize(a - {x}, b - {x});
    }
  }

  lemma {:induction false} LaterTurn(rs: seq<real>, j: nat, i: nat)
    requires i < |rs| && j < |rs| && ServedBefore(rs, j, i)
    ensures Turn(rs, j) < Turn(rs, i)
  {
    var beforeJ := set k: nat | k < |rs| && ServedBefore(rs, k, j);
    var beforeI := set k: nat | k < |rs| && ServedBefore(rs, k, i);
    assert j in beforeI && j !in beforeJ;
    assert beforeJ + {j} <= beforeI;
    SubsetSize(beforeJ + {j}, beforeI);
  }

  lemma {:induction false} RoundedFollowsExacts(pool: int, exacts: seq<real>, i: nat, j: nat)
    requires i < |exacts| && j < |exacts|
    ensures exacts[i] > exacts[j] ==> Rounded(pool, exacts)[i] >= Rounded(pool, exacts)[j]
    ensures exacts[i] == exacts[j] && i < j ==>
      Rounded(pool, exacts)[j] <= Rounded(pool, exacts)[i] <= Rounded(pool, exacts)[j] + 1
  {
    if ServedBefore(Remainders(exacts), i, j) {
      LaterTurn(Remainders(exacts), i, j);
    }
  }

  lemma {:induction false} ExactsFollowWeights(pool: int, ws: seq<real>, i: nat, j: nat)
    requires pool > 0 && Sum(ws) > 0.0 && i < |ws| && j < |ws|
    ensures ws[i] > ws[j] ==> Exacts(pool, ws)[i] > Exacts(pool, ws)[j]
    ensures ws[i] == ws[j] ==> Exacts(pool, ws)[i] == Exacts(pool, ws)[j]
  {}

  /** A heavier entry never gets less; of two equally heavy entries the earlier one gets
      as much as the later one, or one unit more. */
  lemma {:induction false} AmountsFollowWeights(pool: int, ws: seq<real>, i: nat, j: nat)
    requires pool > 0 && Sum(ws) > 0.0 && i < |ws| && j < |ws|
    ensures ws[i] > ws[j] ==> Amounts(pool, ws)[i] >= Amounts(pool, ws)[j]
    ensures ws[i] == ws[j] && i < j ==> Amounts(pool, ws)[j] <= Amounts(pool, ws)[i] <= Amounts(pool, ws)[j] + 1
  {
    ExactsFollowWeights(pool, ws, i, j);
    RoundedFollowsExacts(pool, Exacts(pool, ws), i, j);
  }

  /** Every amount is the exact share rounded down, or that plus one. */
  lemma {:induction false} AmountsStayInQuota(pool: int, ws: seq<real>, i: nat)
    requires Sum(ws) != 0.0 && i < |ws|
    ensures var x := pool as real * ws[i] / Sum(ws);
      Amounts(pool, ws)[i] == x.Floor || Amounts(pool, ws)[i] == x.Floor + 1
  {}

  /** Who gets the unit that another does not get has the larger fraction, or the same fraction
      and comes first. With the sum and the quota this leaves no choice. */
  lemma {:induction false} LargestRemaindersFirst(pool: int, ws: seq<real>, i: nat, j: nat)
    requires Sum(ws) != 0.0 && i < |ws| && j < |ws|
    ensures var (x, y) := (pool as real * ws[i] / Sum(ws), pool as real * ws[j] / Sum(ws));
      Amounts(pool, ws)[i] == x.Floor + 1 && Amounts(pool, ws)[j] == y.Floor ==>
        || x - x.Floor as real > y - y.Floor as real
        || (x - x.Floor as real == y - y.Floor as real && i < j)
  {
    var rs := Remainders(Exacts(pool, ws));
    if ServedBefore(rs, j, i) {
      LaterTurn(rs, j, i);
    }
  }

  // ---- the service's loops ----

  /** The wrap-around of the hand-out index. */
  function NextIndex(index: nat, length: nat): (next: nat)
    requires index < length
    ensures next == if index + 1 < length then index + 1 else 0
  {
    (index + 1) % length
  }

  /** One unit each down the remainder order until the leftover is gone; `amounts` is the
      array the sorted entries point into. */
  method HandOut(amounts: array<int>, rs: seq<real>, leftover: int)
    requires amounts.Length == |rs| && 0 <= leftover < |rs|
    modifies amounts
    ensures forall i :: 0 <= i < |rs| ==>
      amounts[i] == old(amounts[i]) + if Turns(rs)[i] < leftover then 1 else 0
  {
    var order := RemainderOrder(rs);
    ghost var turns := Turns(rs);
    TurnsInvertEntries(rs);
    var remaining, index := leftover, 0;
    while remaining > 0
      invariant 0 <= remaining <= leftover && index == leftover - remaining
      invariant forall i :: 0 <= i < |rs| ==> amounts[i] == old(amounts[i]) + if turns[i] < index then 1 else 0
    {
      assert order[index].order == Entries(rs)[index];
      amounts[order[index].order] := amounts[order[index].order] + 1;
      remaining := remaining - 1;
      index := NextIndex(index, |order|);
    }
  }

  method AllocateFloors(pool: int, ws: seq<real>, totalWeight: real)
    returns (amounts: array<int>, rs: seq<real>, remaining: int)
    requires totalWeight == Sum(ws) != 0.0
    ensures fresh(amounts) && amounts[..] == Floors(Exacts(pool, ws))
    ensures rs == Remainders(Exacts(pool, ws))
    ensures remaining == pool - SumInt(Floors(Exacts(pool, ws)))
  {
    ghost var exacts := Exacts(pool, ws);
    ghost var floors := Floors(exacts);
    amounts := new int[|ws|];
    rs := [];
    remaining := pool;
    for k := 0 to |ws|
      invariant |rs| == k
      invariant forall i :: 0 <= i < k ==> amounts[i] == floors[i]
      invariant forall i :: 0 <= i < k ==> rs[i] == Remainders(exacts)[i]
      invariant remaining == pool - SumInt(floors[..k])
    {
      var exact := Quotient(pool, ws[k], totalWeight);
      amounts[k] := exact.Floor;
      rs := rs + [exact - exact.Floor as real];
      remaining := remaining - amounts[k];
      assert floors[..k + 1][..k] == floors[..k];
    }
    assert floors[..|ws|] == floors;
  }

  method Apportion(pool: int, ws: seq<real>, totalWeight: real) returns (amounts: array<int>)
    requires totalWeight == Sum(ws) != 0.0
    ensures fresh(amounts) && amounts[..] == Amounts(pool, ws)
  {
    var rs, remaining;
    amounts, rs, remaining := AllocateFloors(pool, ws, totalWeight);
    ExactsAddUp(pool, ws);
    LeftoverIsSmall(pool, Exacts(pool, ws));
    HandOut(amounts, rs, remaining);
  }
}
