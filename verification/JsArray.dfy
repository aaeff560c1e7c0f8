/** `Array.prototype.sort` with a comparator: a stable sort, modelled by insertion. */
module JsArray {

  function Insert<T>(x: T, s: seq<T>, cmp: (T, T) -> int): (r: seq<T>)
    ensures multiset(r) == multiset(s) + multiset{x}
  {
    if s == [] || cmp(x, s[0]) <= 0 then [x] + s
    else
      assert s == [s[0]] + s[1..];
      [s[0]] + Insert(x, s[1..], cmp)
  }

  function Sort<T>(s: seq<T>, cmp: (T, T) -> int): (r: seq<T>)
    ensures multiset(r) == multiset(s)
    ensures |r| == |s|
  {
    if s == [] then [] else
      var r := Insert(s[0], Sort(s[1..], cmp), cmp);
      assert s == [s[0]] + s[1..];
      assert |r| == |multiset(r)| == |multiset(s)| == |s|;
      r
  }

  ghost predicate Ordered<T>(s: seq<T>, cmp: (T, T) -> int) {
    forall i, j :: 0 <= i < j < |s| ==> cmp(s[i], s[j]) <= 0
  }

  ghost predicate TotalPreorder<T(!new)>(cmp: (T, T) -> int) {
    && (forall a, b :: cmp(a, b) <= 0 || cmp(b, a) <= 0)
    && (forall a, b, c :: cmp(a, b) <= 0 && cmp(b, c) <= 0 ==> cmp(a, c) <= 0)
  }

  lemma {:induction false} InsertKeepsElements<T>(x: T, s: seq<T>, cmp: (T, T) -> int, j: nat)
    requires j < |Insert(x, s, cmp)|
    ensures Insert(x, s, cmp)[j] == x || Insert(x, s, cmp)[j] in s
  {
    assert Insert(x, s, cmp)[j] in multiset(s) + multiset{x};
  }

  lemma {:induction false} InsertOrders<T(!new)>(x: T, s: seq<T>, cmp: (T, T) -> int)
    requires TotalPreorder(cmp) && Ordered(s, cmp)
    ensures Ordered(Insert(x, s, cmp), cmp)
  {
    if s != [] && cmp(x, s[0]) > 0 {
      InsertOrders(x, s[1..], cmp);
      var rest := Insert(x, s[1..], cmp);
      forall j | 0 <= j < |rest| ensures cmp(s[0], rest[j]) <= 0 {
        InsertKeepsElements(x, s[1..], cmp, j);
      }
    }
  }

  lemma {:induction false} SortOrders<T(!new)>(s: seq<T>, cmp: (T, T) -> int)
    requires TotalPreorder(cmp)
    ensures Ordered(Sort(s, cmp), cmp)
  {
    if s != [] {
      SortOrders(s[1..], cmp);
      InsertOrders(s[0], Sort(s[1..], cmp), cmp);
    }
  }

  /** The comparator tells any two distinct elements of the collection apart. */
  ghost predicate Separates<T(!new)>(cmp: (T, T) -> int, elements: multiset<T>) {
    forall x, y :: x in elements && y in elements && cmp(x, y) <= 0 && cmp(y, x) <= 0 ==> x == y
  }

  lemma {:induction false} SameFirst<T(!new)>(a: seq<T>, b: seq<T>, cmp: (T, T) -> int)
    requires Ordered(a, cmp) && Ordered(b, cmp) && multiset(a) == multiset(b) && a != []
    requires Separates(cmp, multiset(a))
    ensures b != [] && a[0] == b[0]
  {
    assert a[0] in multiset(b);
    assert b[0] in multiset(a);
    var i :| 0 <= i < |b| && b[i] == a[0];
    var j :| 0 <= j < |a| && a[j] == b[0];
  }

  lemma {:induction false} OrderedTail<T(!new)>(s: seq<T>, cmp: (T, T) -> int)
    requires s != [] && Ordered(s, cmp)
    ensures Ordered(s[1..], cmp)
    ensures multiset(s[1..]) == multiset(s) - multiset{s[0]}
  {
    assert s == [s[0]] + s[1..];
  }

  /** When no two elements compare equal, only one ordered arrangement exists. */
  lemma {:induction false} OrderedIsUnique<T(!new)>(a: seq<T>, b: seq<T>, cmp: (T, T) -> int)
    requires Ordered(a, cmp) && Ordered(b, cmp) && multiset(a) == multiset(b)
    requires Separates(cmp, multiset(a))
    ensures a == b
    decreases |a|
  {
    if a == [] {
      assert |b| == |multiset(b)| == 0;
    } else {
      SameFirst(a, b, cmp);
      assert a[1..] == b[1..] by {
        OrderedTail(a, cmp);
        OrderedTail(b, cmp);
        assert multiset(a[1..]) <= multiset(a);
        OrderedIsUnique(a[1..], b[1..], cmp);
      }
      SameCons(a, b);
    }
  }

  lemma {:induction false} SameCons<T>(a: seq<T>, b: seq<T>)
    requires a != [] && b != [] && a[0] == b[0] && a[1..] == b[1..]
    ensures a == b
  {}
}
