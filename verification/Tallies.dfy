/**
  Sums of bags over a table whose keys are below a bound.
*/
module Tallies {

  function At<T>(bags: map<nat, multiset<T>>, i: nat): multiset<T>
  {
    if i in bags then bags[i] else multiset{}
  }

  /** All bags with a key below n together. */
  function Total<T>(bags: map<nat, multiset<T>>, n: nat): multiset<T>
  {
    if n == 0 then multiset{} else Total(bags, n - 1) + At(bags, n - 1)
  }

  /** Tables that split a table key by key split its total. */
  lemma {:induction false} TotalSplit<T>(bags: map<nat, multiset<T>>, a: map<nat, multiset<T>>,
                                         b: map<nat, multiset<T>>, n: nat)
    requires forall i :: 0 <= i < n ==> At(bags, i) == At(a, i) + At(b, i)
    ensures Total(bags, n) == Total(a, n) + Total(b, n)
  {
    if n != 0 {
      TotalSplit(bags, a, b, n - 1);
    }
  }

  lemma {:induction false} TotalOnly<T>(bags: map<nat, multiset<T>>, j: nat, n: nat)
    requires forall i :: 0 <= i < n && i != j ==> At(bags, i) == multiset{}
    ensures Total(bags, n) == if j < n then At(bags, j) else multiset{}
  {
    if n != 0 {
      TotalOnly(bags, j, n - 1);
    }
  }

  lemma {:induction false} TotalBelow<T>(bags: map<nat, multiset<T>>, others: map<nat, multiset<T>>, n: nat)
    requires forall i :: 0 <= i < n ==> At(bags, i) == At(others, i)
    ensures Total(bags, n) == Total(others, n)
  {
    if n != 0 {
      TotalBelow(bags, others, n - 1);
    }
  }

  /** Without one bag, the total is less by that bag. */
  lemma TotalWithout<T>(bags: map<nat, multiset<T>>, less: map<nat, multiset<T>>, j: nat, n: nat)
    requires j < n && At(less, j) == multiset{}
    requires forall i :: 0 <= i < n && i != j ==> At(bags, i) == At(less, i)
    ensures Total(bags, n) == Total(less, n) + At(bags, j)
  {
    hide Total;
    var one := map[j := At(bags, j)];
    TotalSplit(bags, less, one, n);
    TotalOnly(one, j, n);
  }

  lemma {:induction false} TotalBeyond<T>(bags: map<nat, multiset<T>>, n: nat, m: nat)
    requires n <= m && forall i :: n <= i < m ==> i !in bags
    ensures Total(bags, m) == Total(bags, n)
  {
    if n != m {
      TotalBeyond(bags, n, m - 1);
    }
  }

  /** Keys that follow one another and hold one element each add up to the sequence of the elements. */
  lemma {:induction false} TotalRow<T>(bags: map<nat, multiset<T>>, start: nat, elements: seq<T>)
    requires forall i :: 0 <= i < start ==> At(bags, i) == multiset{}
    requires forall i :: start <= i < start + |elements| ==> At(bags, i) == multiset{elements[i - start]}
    ensures Total(bags, start + |elements|) == multiset(elements)
  {
    hide At, Total;
    if elements == [] {
      TotalOnly(bags, start, start);
    } else {
      var k := |elements| - 1;
      forall i | start <= i < start + k
        ensures At(bags, i) == multiset{elements[..k][i - start]}
      {
        assert elements[..k][i - start] == elements[i - start];
      }
      TotalRow(bags, start, elements[..k]);
      assert elements == elements[..k] + [elements[k]];
      assert At(bags, start + k) == multiset{elements[k]};
      TotalStep(bags, start + k + 1);
    }
  }

  lemma TotalStep<T>(bags: map<nat, multiset<T>>, n: nat)
    requires n > 0
    ensures Total(bags, n) == Total(bags, n - 1) + At(bags, n - 1)
  {
  }
}
