/** Small shared vocabulary: optional values, results and the total of a map of integers. */
module Collections {

  datatype Option<+T> = None | Some(value: T) {
    function GetOr(default: T): T {
      match this
      case Some(v) => v
      case None => default
    }
  }

  datatype Result<+T, +E> = Ok(value: T) | Err(error: E)

  /** The sum of all the values of a map, taken in some order. */
  ghost function Total<K>(m: map<K, int>): int {
    if m == map[] then 0 else
      var k :| k in m;
      m[k] + Total(m - {k})
  }

  /** The order in which `Total` takes the keys does not matter. */
  lemma {:induction false} TotalWithout<K>(m: map<K, int>, k: K)
    requires k in m
    ensures Total(m) == m[k] + Total(m - {k})
    decreases |m|
  {
    var first :| first in m && Total(m) == m[first] + Total(m - {first});
    if first != k {
      TotalWithout(m - {first}, k);
      TotalWithout(m - {k}, first);
      assert m - {first} - {k} == m - {k} - {first};
    }
  }

  lemma {:induction false} TotalUpdate<K>(m: map<K, int>, k: K, v: int)
    ensures Total(m[k := v]) == Total(m) + v - (if k in m then m[k] else 0)
  {
    TotalWithout(m[k := v], k);
    assert m[k := v] - {k} == m - {k};
    if k in m {
      TotalWithout(m, k);
    } else {
      assert m - {k} == m;
    }
  }

  ghost function Elements<T>(s: seq<T>): set<T> {
    set x | x in s
  }

  /** A duplicate-free sequence has as many elements as places. */
  lemma {:induction false} DistinctCardinality<T>(s: seq<T>)
    requires Distinct(s)
    ensures |Elements(s)| == |s|
  {
    if s != [] {
      var init, last := s[..|s| - 1], s[|s| - 1];
      DistinctCardinality(init);
      assert s == init + [last];
      assert Elements(s) == Elements(init) + {last};
    }
  }

  /** Dropping one position drops exactly that occurrence. */
  lemma {:induction false} WithoutIndex<T>(s: seq<T>, k: nat)
    requires k < |s|
    ensures multiset(s[..k] + s[k + 1..]) == multiset(s) - multiset{s[k]}
  {
    assert s == s[..k] + [s[k]] + s[k + 1..];
  }

  lemma {:induction false} WithoutFirst<T>(s: seq<T>)
    requires s != []
    ensures multiset(s[1..]) == multiset(s) - multiset{s[0]}
  {
    assert s == [s[0]] + s[1..];
  }

  lemma {:induction false} PlaceOf<T>(x: T, s: seq<T>) returns (k: nat)
    requires x in multiset(s)
    ensures k < |s| && s[k] == x
  {
    k :| 0 <= k < |s| && s[k] == x;
  }

  /** In a rearrangement of `a`, its first element is found at some place `k`. */
  lemma {:induction false} FindFirstElsewhere<T>(a: seq<T>, b: seq<T>) returns (k: nat)
    requires multiset(a) == multiset(b) && a != []
    ensures k < |b| && b[k] == a[0] && multiset(a[1..]) == multiset(b[..k] + b[k + 1..])
  {
    assert a[0] in multiset(a);
    k := PlaceOf(a[0], b);
    WithoutIndex(b, k);
    WithoutFirst(a);
  }

  /** Images of rearranged sequences are rearranged. */
  lemma {:induction false} ImagesPermuted<T, U>(a: seq<T>, b: seq<T>, f: T -> U, fa: seq<U>, fb: seq<U>)
    requires multiset(a) == multiset(b) && |fa| == |a| && |fb| == |b|
    requires forall i :: 0 <= i < |a| ==> fa[i] == f(a[i])
    requires forall i :: 0 <= i < |b| ==> fb[i] == f(b[i])
    ensures multiset(fa) == multiset(fb)
    decreases |a|
  {
    if a == [] {
      assert |b| == |multiset(b)| == 0;
    } else {
      var k := FindFirstElsewhere(a, b);
      ImagesPermuted(a[1..], b[..k] + b[k + 1..], f, fa[1..], fb[..k] + fb[k + 1..]);
      SamePlusOne(fa, fb, k);
    }
  }

  lemma {:induction false} SamePlusOne<T>(a: seq<T>, b: seq<T>, k: nat)
    requires a != [] && k < |b| && b[k] == a[0] && multiset(a[1..]) == multiset(b[..k] + b[k + 1..])
    ensures multiset(a) == multiset(b)
  {
    assert a == [a[0]] + a[1..];
    assert b == b[..k] + [b[k]] + b[k + 1..];
  }

  ghost predicate Distinct<T>(s: seq<T>) {
    forall i, j :: 0 <= i < j < |s| ==> s[i] != s[j]
  }

  lemma {:induction false} DistinctWithout<T>(s: seq<T>, k: nat)
    requires Distinct(s) && k < |s|
    ensures s[k] !in multiset(s) - multiset{s[k]}
  {
    WithoutIndex(s, k);
    var rest := s[..k] + s[k + 1..];
    forall m | 0 <= m < |rest| ensures rest[m] != s[k] {
      assert rest[m] == s[if m < k then m else m + 1];
    }
  }

  lemma {:induction false} DistinctPermuted<T>(a: seq<T>, b: seq<T>)
    requires Distinct(a) && multiset(a) == multiset(b)
    ensures Distinct(b)
  {
    forall i, j | 0 <= i < j < |b| ensures b[i] != b[j] {
      assert b[j] in multiset(a);
      var k :| 0 <= k < |a| && a[k] == b[j];
      DistinctWithout(a, k);
      WithoutIndex(b, j);
      assert (b[..j] + b[j + 1..])[i] == b[i];
    }
  }

  lemma {:induction false} PrefixGrows<T>(s: seq<T>, k: nat)
    requires k < |s| && Distinct(s)
    ensures s[k] !in s[..k]
    ensures forall x :: x in s[..k + 1] <==> x in s[..k] || x == s[k]
  {}

  lemma {:induction false} TakeNext<T>(s: seq<T>, k: nat)
    requires k < |s|
    ensures s[..k + 1] == s[..k] + [s[k]]
  {}

  /** The elements of a set in some order, each once: the rows that a query returns. */
  method Listed<T>(elements: set<T>) returns (rows: seq<T>)
    ensures Distinct(rows) && forall x :: x in rows <==> x in elements
  {
    rows := [];
    var rest := elements;
    while rest != {}
      invariant rest <= elements && Distinct(rows)
      invariant forall x :: x in rows <==> x in elements && x !in rest
      decreases |rest|
    {
      var x :| x in rest;
      rows := rows + [x];
      rest := rest - {x};
    }
  }
}
