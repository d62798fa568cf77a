/**
 Counting argument shared by the queue and the buffer pool: the resources held
 under the keys 0..n-1 of a table, gathered into one multiset.
 */
module Gather {

  /** Each of 0..n-1 exactly once. */
  ghost function AllBelow(n: nat): multiset<nat> {
    if n == 0 then multiset{} else AllBelow(n - 1) + multiset{n - 1}
  }

  lemma {:induction false} AllBelowCounts(n: nat)
    ensures forall i: nat :: AllBelow(n)[i] == if i < n then 1 else 0
    ensures |AllBelow(n)| == n
  {
    if n > 0 {
      AllBelowCounts(n - 1);
    }
  }

  /** All resources held under keys below n. */
  ghost function Gathered(held: map<nat, multiset<nat>>, n: nat): multiset<nat> {
    if n == 0 then multiset{}
    else Gathered(held, n - 1) + (if n - 1 in held then held[n - 1] else multiset{})
  }

  lemma {:induction false} GatheredPut(held: map<nat, multiset<nat>>, key: nat, more: multiset<nat>, n: nat)
    requires key !in held
    ensures Gathered(held[key := more], n) == Gathered(held, n) + (if key < n then more else multiset{})
  {
    if n > 0 {
      GatheredPut(held, key, more, n - 1);
    }
  }

  lemma {:induction false} GatheredTake(held: map<nat, multiset<nat>>, key: nat, n: nat)
    requires key in held
    ensures Gathered(held, n) == Gathered(held - {key}, n) + (if key < n then held[key] else multiset{})
  {
    if n > 0 {
      GatheredTake(held, key, n - 1);
    }
  }

  lemma GatheredTwo(held: map<nat, multiset<nat>>, key: nat, other: nat, n: nat, x: nat)
    requires key in held && other in held && key != other && key < n && other < n
    ensures Gathered(held, n)[x] >= held[key][x] + held[other][x]
  {
    GatheredTake(held, key, n);
    GatheredTake(held - {key}, other, n);
  }

  lemma {:induction false} GatheredSource(held: map<nat, multiset<nat>>, n: nat, x: nat)
    requires Gathered(held, n)[x] > 0
    ensures exists key :: key in held && key < n && x in held[key]
  {
    if n - 1 in held && x in held[n - 1] {
    } else {
      GatheredSource(held, n - 1, x);
    }
  }

  lemma {:induction false} GatheredEmpty(held: map<nat, multiset<nat>>, n: nat)
    requires forall key :: key in held ==> key >= n
    ensures Gathered(held, n) == multiset{}
  {
    if n > 0 {
      GatheredEmpty(held, n - 1);
    }
  }

  /** A sequence none of whose elements is counted twice has no duplicates. */
  lemma NoDuplicates(s: seq<nat>)
    requires forall i :: 0 <= i < |s| ==> multiset(s)[s[i]] <= 1
    ensures forall i, j :: 0 <= i < j < |s| ==> s[i] != s[j]
  {
    forall i, j | 0 <= i < j < |s| ensures s[i] != s[j] {
      assert s == s[..j] + s[j..];
      assert s[i] == s[..j][i] && s[j] == s[j..][0];
      assert multiset(s)[s[i]] == multiset(s[..j])[s[i]] + multiset(s[j..])[s[i]];
    }
  }

  lemma Subset(a: set<nat>, b: set<nat>)
    requires a <= b
    ensures |a| <= |b|
  {
    assert b == a + (b - a);
  }

  /** Moving a part from one holder to another changes no total. */
  lemma Move(part: multiset<nat>, giver: multiset<nat>, taker: multiset<nat>)
    ensures (part + giver) + taker == giver + (taker + part)
  {
  }
}
