/** Sums of multisets, with which results are counted across goroutines and calls. */
module Bags {

  /** The union of the first n bags, multiplicities added. */
  function Sum<T>(bags: seq<multiset<T>>, n: nat): multiset<T>
    requires n <= |bags|
  {
    if n == 0 then multiset{} else Sum(bags, n - 1) + bags[n - 1]
  }

  lemma {:induction false} SumSame<T>(bags: seq<multiset<T>>, bags': seq<multiset<T>>, n: nat)
    requires n <= |bags| && n <= |bags'| && forall k :: 0 <= k < n ==> bags[k] == bags'[k]
    ensures Sum(bags, n) == Sum(bags', n)
  {
    if n > 0 { SumSame(bags, bags', n - 1); }
  }

  lemma Regroup<T>(a: multiset<T>, b: multiset<T>, c: multiset<T>)
    ensures a + (b + c) == a + b + c
  {
  }

  lemma NothingMore<T>(a: multiset<T>)
    ensures a + multiset{} == a
  {
  }

  lemma PartBelow<T>(a: multiset<T>, b: multiset<T>)
    ensures a <= a + b
  {
  }

  lemma OneMoreInBag<T>(s: seq<T>, n: nat)
    requires n < |s|
    ensures multiset(s[..n + 1]) == multiset(s[..n]) + multiset{s[n]}
  {
    assert s[..n + 1] == s[..n] + [s[n]];
  }

  lemma SwapLast<T>(a: multiset<T>, b: multiset<T>, c: multiset<T>)
    ensures a + b + c == a + c + b
  {
  }

  /** One bag gains x, the others stay. */
  lemma {:induction false} SumGrows<T>(bags: seq<multiset<T>>, bags': seq<multiset<T>>, k: nat, x: multiset<T>, n: nat)
    requires k < n <= |bags| == |bags'| && bags'[k] == bags[k] + x
    requires forall j :: 0 <= j < n && j != k ==> bags'[j] == bags[j]
    ensures Sum(bags', n) == Sum(bags, n) + x
    decreases n
  {
    if k == n - 1 {
      SumSame(bags, bags', k);
      Regroup(Sum(bags, k), bags[k], x);
    } else {
      SumGrows(bags, bags', k, x, n - 1);
      SwapLast(Sum(bags, n - 1), x, bags[n - 1]);
    }
  }

  /** A bag is added that is empty. */
  lemma SumAppendEmpty<T>(bags: seq<multiset<T>>, bags': seq<multiset<T>>)
    requires |bags'| == |bags| + 1 && bags'[|bags|] == multiset{}
    requires forall j :: 0 <= j < |bags| ==> bags'[j] == bags[j]
    ensures Sum(bags', |bags'|) == Sum(bags, |bags|)
  {
    SumSame(bags, bags', |bags|);
    NothingAdded(bags', |bags|);
  }

  lemma NothingAdded<T>(bags: seq<multiset<T>>, n: nat)
    requires n < |bags| && bags[n] == multiset{}
    ensures Sum(bags, n + 1) == Sum(bags, n)
  {
  }
}
