/** Facts about slices that several modules need. */
module Sequences {
  lemma Associative<T>(a: seq<T>, b: seq<T>, c: seq<T>)
    ensures a + b + c == a + (b + c)
  {
  }

  lemma SliceBehind<T>(a: seq<T>, r: seq<T>, i: nat, j: nat)
    requires i <= j <= |r|
    ensures (a + r)[|a| + i..|a| + j] == r[i..j]
  {
  }

  lemma SliceBefore<T>(a: seq<T>, r: seq<T>, i: nat, j: nat)
    requires i <= j <= |a|
    ensures (a + r)[i..j] == a[i..j]
  {
  }

  lemma SliceInside<T>(s: seq<T>, n: nat, i: nat, j: nat)
    requires i <= j <= n <= |s|
    ensures s[..n][i..j] == s[i..j]
  {
  }

  lemma PrefixOfTwo<T>(a: seq<T>, b: seq<T>, k: nat)
    requires k <= |a| + |b|
    ensures (a + b)[..k] == if k <= |a| then a[..k] else a + b[..k - |a|]
  {
  }

  lemma PrefixOfThree<T>(a: seq<T>, m: seq<T>, z: seq<T>, k: nat)
    requires k <= |z|
    ensures (a + m + z)[..|a| + |m| + k] == a + m + z[..k]
  {
  }

  lemma DropTwice<T>(s: seq<T>, i: nat, j: nat)
    requires i + j <= |s|
    ensures s[i..][j..] == s[i + j..]
  {
  }
}
