/** Sequence facts that the verifier does not find by itself inside larger proofs. */
module Seqs {

  lemma Assoc<T>(a: seq<T>, b: seq<T>, c: seq<T>)
    ensures a + b + c == a + (b + c)
  {
  }

  lemma Unit<T>(a: seq<T>)
    ensures a + [] == a && [] + a == a
  {
  }

  lemma Split<T>(a: seq<T>, b: seq<T>)
    ensures (a + b)[..|a|] == a && (a + b)[|a|..] == b && a <= a + b
  {
  }

  lemma Regroup<T>(a: seq<T>, b: seq<T>, k: nat)
    requires k <= |b|
    ensures a + b == (a + b[..k]) + b[k..]
  {
  }

  lemma Append<T>(a: seq<T>, x: T, k: nat)
    requires k <= |a|
    ensures (a + [x])[..k] == a[..k] && (a + [x])[k..] == a[k..] + [x]
  {
  }

  lemma Shift<T>(a: seq<T>, k: nat)
    requires k < |a|
    ensures a[k..][1..] == a[k + 1..] && a[k..][0] == a[k]
    ensures a[..k + 1] == a[..k] + [a[k]]
  {
  }

  lemma Update<T>(a: seq<T>, i: nat, x: T, k: nat)
    requires i < |a| && k <= |a|
    ensures k <= i ==> a[i := x][..k] == a[..k]
    ensures i < k ==> a[i := x][k..] == a[k..]
  {
  }

  lemma Adjacent<T>(a: seq<T>, i: nat, j: nat, k: nat)
    requires i <= j <= k <= |a|
    ensures a[i..j] + a[j..k] == a[i..k]
  {
  }

  lemma Assoc5<T>(a: seq<T>, b: seq<T>, c: seq<T>, d: seq<T>, e: seq<T>)
    ensures a + b + c + d + e == a + (b + (c + (d + e)))
  {
    Assoc(a + b + c, d, e);
    Assoc(a + b, c, d + e);
    Assoc(a, b, c + (d + e));
  }
}
