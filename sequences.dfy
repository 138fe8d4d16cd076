/** Small facts about sequences, stated for any element type so that proofs using
    them never look inside the elements. */
module Sequences {

  lemma PrefixSnoc<T>(s: seq<T>, k: nat)
    requires k < |s|
    ensures s[..k + 1] == s[..k] + [s[k]]
  {
  }

  /** Appending the next element of s after a + s[..k] gives a + s[..k + 1]. */
  lemma AppendPrefixSnoc<T>(a: seq<T>, s: seq<T>, k: nat)
    requires k < |s|
    ensures a + s[..k + 1] == (a + s[..k]) + [s[k]]
  {
    assert s[..k + 1] == s[..k] + [s[k]];
  }

  lemma SplitLast<T>(s: seq<T>)
    requires s != []
    ensures s == s[..|s| - 1] + [s[|s| - 1]]
  {
  }

  lemma PrefixAll<T>(s: seq<T>)
    ensures s[..|s|] == s
  {
  }

  lemma IndexLeft<T>(a: seq<T>, b: seq<T>, k: nat)
    requires k < |a|
    ensures (a + b)[k] == a[k]
  {
  }

  lemma IndexRight<T>(a: seq<T>, b: seq<T>, k: nat)
    requires k < |b|
    ensures (a + b)[|a| + k] == b[k]
  {
  }

  /** The blocks f(0), ..., f(n - 1) laid end to end. */
  function Gather<T>(f: nat -> seq<T>, n: nat): seq<T> {
    if n == 0 then [] else Gather(f, n - 1) + f(n - 1)
  }

  /** Element `day` of block j sits at position k, right after the blocks before it.
      The position is a parameter so that callers can name it in their own terms. */
  lemma {:induction false} GatherIndex<T>(f: nat -> seq<T>, n: nat, j: nat, day: nat, k: nat)
    requires j < n && day < |f(j)| && k == |Gather(f, j)| + day
    ensures k < |Gather(f, n)| && Gather(f, n)[k] == f(j)[day]
  {
    if j < n - 1 {
      GatherIndex(f, n - 1, j, day, k);
      IndexLeft(Gather(f, n - 1), f(n - 1), k);
    } else {
      IndexRight(Gather(f, j), f(j), day);
    }
  }

  /** Counting y in a and its image fy in b stays in step when x and its image fx
      are appended, provided fx is fy exactly when x is y. */
  lemma CountStep<A, B>(a: seq<A>, b: seq<B>, x: A, fx: B, y: A, fy: B)
    requires multiset(b)[fy] == multiset(a)[y]
    requires fx == fy <==> x == y
    ensures multiset(b + [fx])[fy] == multiset(a + [x])[y]
  {
    assert multiset(a + [x]) == multiset(a) + multiset{x};
    assert multiset(b + [fx]) == multiset(b) + multiset{fx};
  }
}
