/**
 * `Enumerable.OrderBy` with the default string comparer. The culture-sensitive comparison
 * itself is a parameter `leq`, required to be a total preorder; a null name sorts first,
 * as `Comparer<string>.Default` orders it.
 */
module Ordering {
  import opened Strings

  /** `leq` compares every pair of strings and is transitive (distinct strings may compare equal). */
  ghost predicate TotalPreorder(leq: (string, string) -> bool) {
    && (forall a, b :: leq(a, b) || leq(b, a))
    && (forall a, b, c :: leq(a, b) && leq(b, c) ==> leq(a, c))
  }

  /** The default comparer on possibly-null strings: null precedes every string. */
  predicate NameLeq(leq: (string, string) -> bool, a: Option<string>, b: Option<string>) {
    a.None? || (b.Some? && leq(a.value, b.value))
  }

  lemma NameLeqTotal(leq: (string, string) -> bool, a: Option<string>, b: Option<string>)
    requires TotalPreorder(leq)
    ensures NameLeq(leq, a, b) || NameLeq(leq, b, a)
  {
  }

  lemma NameLeqTransitive(leq: (string, string) -> bool, a: Option<string>, b: Option<string>, c: Option<string>)
    requires TotalPreorder(leq)
    requires NameLeq(leq, a, b) && NameLeq(leq, b, c)
    ensures NameLeq(leq, a, c)
  {
  }

  /** Every pair of elements, taken in sequence order, is in key order. */
  ghost predicate SortedBy<T>(s: seq<T>, key: T -> Option<string>, leq: (string, string) -> bool) {
    forall i, j :: 0 <= i < j < |s| ==> NameLeq(leq, key(s[i]), key(s[j]))
  }

  /** The number of elements of `s` that satisfy `p`. */
  function Count<T>(s: seq<T>, p: T -> bool): nat {
    if s == [] then 0 else (if p(s[0]) then 1 else 0) + Count(s[1..], p)
  }

  lemma {:induction false} CountAppend<T>(a: seq<T>, b: seq<T>, p: T -> bool)
    ensures Count(a + b, p) == Count(a, p) + Count(b, p)
  {
    if a != [] {
      assert (a + b)[1..] == a[1..] + b;
      CountAppend(a[1..], b, p);
    } else {
      assert a + b == b;
    }
  }

  /** An element that is the only one satisfying `p` makes the count exactly one. */
  lemma {:induction false} CountSingle<T>(s: seq<T>, p: T -> bool, k: nat)
    requires k < |s| && p(s[k])
    requires forall j :: 0 <= j < |s| && p(s[j]) ==> j == k
    ensures Count(s, p) == 1
  {
    if k == 0 {
      CountNone(s[1..], p);
    } else {
      CountSingle(s[1..], p, k - 1);
    }
  }

  lemma {:induction false} CountNone<T>(s: seq<T>, p: T -> bool)
    requires forall j :: 0 <= j < |s| ==> !p(s[j])
    ensures Count(s, p) == 0
  {
    if s != [] {
      CountNone(s[1..], p);
    }
  }

  /**
   * Places `x` before the first element whose key it does not exceed. Elements with an
   * equal key stay after `x`, which is what keeps the sort below stable.
   */
  function InsertBy<T>(x: T, s: seq<T>, key: T -> Option<string>, leq: (string, string) -> bool): (r: seq<T>)
    ensures multiset(r) == multiset(s) + multiset{x}
    ensures |r| == |s| + 1
  {
    if s == [] then [x]
    else if NameLeq(leq, key(x), key(s[0])) then [x] + s
    else
      assert s == [s[0]] + s[1..];
      [s[0]] + InsertBy(x, s[1..], key, leq)
  }

  /** A stable sort by `key`: `OrderBy(s, key, leq)`. */
  function OrderBy<T>(s: seq<T>, key: T -> Option<string>, leq: (string, string) -> bool): (r: seq<T>)
    ensures multiset(r) == multiset(s)
    ensures |r| == |s|
  {
    if s == [] then []
    else
      assert s == [s[0]] + s[1..];
      InsertBy(s[0], OrderBy(s[1..], key, leq), key, leq)
  }

  /** Inserting an element that is above a bound into elements above it keeps them all above it. */
  lemma InsertByAbove<T>(x: T, s: seq<T>, key: T -> Option<string>, leq: (string, string) -> bool, b: Option<string>)
    requires NameLeq(leq, b, key(x))
    requires forall k :: 0 <= k < |s| ==> NameLeq(leq, b, key(s[k]))
    ensures forall j :: 0 <= j < |InsertBy(x, s, key, leq)| ==> NameLeq(leq, b, key(InsertBy(x, s, key, leq)[j]))
  {
    var t := InsertBy(x, s, key, leq);
    forall j | 0 <= j < |t| ensures NameLeq(leq, b, key(t[j])) {
      assert t[j] in multiset(t);
      if t[j] != x {
        assert t[j] in multiset(s);
        var k :| 0 <= k < |s| && s[k] == t[j];
      }
    }
  }

  lemma {:induction false} InsertBySorted<T>(x: T, s: seq<T>, key: T -> Option<string>, leq: (string, string) -> bool)
    requires TotalPreorder(leq)
    requires SortedBy(s, key, leq)
    ensures SortedBy(InsertBy(x, s, key, leq), key, leq)
  {
    var r := InsertBy(x, s, key, leq);
    if s == [] {
    } else if NameLeq(leq, key(x), key(s[0])) {
      forall i, j | 0 <= i < j < |r| ensures NameLeq(leq, key(r[i]), key(r[j])) {
        if i == 0 {
          if j > 1 {
            NameLeqTransitive(leq, key(x), key(s[0]), key(s[j - 1]));
          }
        } else {
        }
      }
    } else {
      var t := InsertBy(x, s[1..], key, leq);
      InsertBySorted(x, s[1..], key, leq);
      assert forall j :: 0 <= j < |t| ==> NameLeq(leq, key(s[0]), key(t[j])) by {
        NameLeqTotal(leq, key(x), key(s[0]));
        assert forall k :: 0 <= k < |s[1..]| ==> s[1..][k] == s[k + 1];
        InsertByAbove(x, s[1..], key, leq, key(s[0]));
      }
      forall i, j | 0 <= i < j < |r| ensures NameLeq(leq, key(r[i]), key(r[j])) {
        if i == 0 {
          assert r[j] == t[j - 1];
        } else {
        }
      }
    }
  }

  /** The sort's result is in key order. */
  lemma {:induction false} OrderBySorted<T>(s: seq<T>, key: T -> Option<string>, leq: (string, string) -> bool)
    requires TotalPreorder(leq)
    ensures SortedBy(OrderBy(s, key, leq), key, leq)
  {
    if s != [] {
      OrderBySorted(s[1..], key, leq);
      InsertBySorted(s[0], OrderBy(s[1..], key, leq), key, leq);
    }
  }

  lemma {:induction false} CountInsertBy<T>(x: T, s: seq<T>, key: T -> Option<string>, leq: (string, string) -> bool, p: T -> bool)
    ensures Count(InsertBy(x, s, key, leq), p) == Count(s, p) + (if p(x) then 1 else 0)
  {
    if s != [] && !NameLeq(leq, key(x), key(s[0])) {
      var r := InsertBy(x, s, key, leq);
      assert r[1..] == InsertBy(x, s[1..], key, leq);
      CountInsertBy(x, s[1..], key, leq, p);
    } else if s != [] {
      assert ([x] + s)[1..] == s;
    }
  }

  /** Sorting neither adds nor drops an element satisfying any `p`. */
  lemma {:induction false} CountOrderBy<T>(s: seq<T>, key: T -> Option<string>, leq: (string, string) -> bool, p: T -> bool)
    ensures Count(OrderBy(s, key, leq), p) == Count(s, p)
  {
    if s != [] {
      CountOrderBy(s[1..], key, leq, p);
      CountInsertBy(s[0], OrderBy(s[1..], key, leq), key, leq, p);
    }
  }
}
