/** Small shared vocabulary: optional values, duplicate-free sequences and sums over finite sets. */
module Prelude {

  datatype Option<+T> = None | Some(value: T) {
    function GetOr(default: T): T {
      match this
      case Some(v) => v
      case None => default
    }
  }

  datatype Result<+T, +E> = Ok(value: T) | Err(error: E)

  /** No element occurs twice. */
  ghost predicate Distinct<T>(s: seq<T>) {
    forall i, j :: 0 <= i < j < |s| ==> s[i] != s[j]
  }

  /** `q` lists the elements of `s`, each exactly once. */
  ghost predicate Lists<T>(q: seq<T>, s: set<T>) {
    && Distinct(q)
    && (forall x :: x in q ==> x in s)
    && (forall x :: x in s ==> x in q)
  }

  /** Rows of a query without ORDER BY: every row once, in an order the caller cannot rely on. */
  method InSomeOrder<T(==)>(s: set<T>) returns (q: seq<T>)
    ensures Lists(q, s)
  {
    q := [];
    var rest := s;
    while rest != {}
      invariant rest <= s
      invariant Lists(q, s - rest)
      decreases |rest|
    {
      var x :| x in rest;
      q, rest := q + [x], rest - {x};
    }
  }

  /** Sum of `f` over a finite set. */
  ghost function Sum<K(!new)>(s: set<K>, f: K -> int): int
    decreases |s|
  {
    if s == {} then 0
    else
      var k :| k in s;
      f(k) + Sum(s - {k}, f)
  }

  /** The sum does not depend on the order in which elements are taken out. */
  lemma {:induction false} SumTakeOut<K(!new)>(s: set<K>, f: K -> int, k: K)
    requires k in s
    ensures Sum(s, f) == f(k) + Sum(s - {k}, f)
    decreases |s|
  {
    var c :| c in s && Sum(s, f) == f(c) + Sum(s - {c}, f);
    if c != k {
      SumTakeOut(s - {c}, f, k);
      SumTakeOut(s - {k}, f, c);
      assert s - {c} - {k} == s - {k} - {c};
    }
  }

  lemma SumPut<K(!new)>(s: set<K>, f: K -> int, k: K)
    requires k !in s
    ensures Sum(s + {k}, f) == Sum(s, f) + f(k)
  {
    SumTakeOut(s + {k}, f, k);
    assert s + {k} - {k} == s;
  }

  /** A sum over disjoint sets is the sum of the sums. */
  lemma {:induction false} SumUnion<K(!new)>(s: set<K>, t: set<K>, f: K -> int)
    requires s !! t
    ensures Sum(s + t, f) == Sum(s, f) + Sum(t, f)
    decreases |t|
  {
    if k :| k in t {
      SumTakeOut(t, f, k);
      SumUnion(s, t - {k}, f);
      SumPut(s + (t - {k}), f, k);
      assert s + (t - {k}) + {k} == s + t;
    } else {
      assert s + t == s;
    }
  }

  /** Termwise below is below in sum. */
  lemma {:induction false} SumAtMost<K(!new)>(s: set<K>, f: K -> int, g: K -> int)
    requires forall k :: k in s ==> f(k) <= g(k)
    ensures Sum(s, f) <= Sum(s, g)
    decreases |s|
  {
    if k :| k in s {
      SumTakeOut(s, f, k);
      SumTakeOut(s, g, k);
      SumAtMost(s - {k}, f, g);
    }
  }

  /** Terms that cancel pairwise cancel in sum; terms that do not go below zero together do not in sum. */
  lemma {:induction false} SumsOffset<K(!new)>(s: set<K>, f: K -> int, g: K -> int)
    requires forall k :: k in s ==> f(k) + g(k) >= 0
    ensures Sum(s, f) + Sum(s, g) >= 0
    ensures (forall k :: k in s ==> f(k) + g(k) == 0) ==> Sum(s, f) + Sum(s, g) == 0
    decreases |s|
  {
    if k :| k in s {
      SumTakeOut(s, f, k);
      SumTakeOut(s, g, k);
      SumsOffset(s - {k}, f, g);
    }
  }

  /** A sum of terms that are not below zero is zero only if every term is. */
  lemma {:induction false} SumOfNonNegatives<K(!new)>(s: set<K>, f: K -> int)
    requires forall k :: k in s ==> f(k) >= 0
    ensures Sum(s, f) >= 0
    ensures Sum(s, f) == 0 <==> forall k :: k in s ==> f(k) == 0
    decreases |s|
  {
    if k :| k in s {
      SumTakeOut(s, f, k);
      SumOfNonNegatives(s - {k}, f);
      assert forall j :: j in s ==> j == k || j in s - {k};
    }
  }
}
