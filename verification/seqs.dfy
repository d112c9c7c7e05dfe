/// Facts about sequences that the parsing proofs use: slicing, and
/// regrouping concatenations.
module Seqs {
  lemma SliceSlice<T>(s: seq<T>, i: nat, j: nat)
    requires i + j <= |s|
    ensures s[i..][j..] == s[i + j..]
    ensures s[i..][..j] == s[i..i + j]
  {
  }

  lemma AppendTwo<T>(t: seq<T>, x: T, y: T)
    ensures t + [x] + [y] == t + [x, y]
  {
  }

  lemma AppendHead<T>(acc: seq<T>, xs: seq<T>)
    requires |xs| > 0
    ensures acc + [xs[0]] + xs[1..] == acc + xs
  {
  }

  lemma Regroup4<T>(a: seq<T>, b: seq<T>, c: seq<T>, d: seq<T>)
    ensures a + b + c + d == a + (b + (c + d))
  {
  }

  lemma Regroup<T>(a: seq<T>, b: seq<T>, c: seq<T>, d: seq<T>, e: seq<T>)
    ensures a + b + c + d + e == a + (b + (c + (d + e)))
  {
  }

  lemma Regroup8<T>(a: seq<T>, b: seq<T>, c: seq<T>, d: seq<T>, e: seq<T>, f: seq<T>, g: seq<T>, h: seq<T>)
    ensures a + b + c + d + e + f + g + h == a + (b + (c + (d + (e + (f + (g + h))))))
  {
  }

  lemma Regroup10<T>(a: seq<T>, b: seq<T>, c: seq<T>, d: seq<T>, e: seq<T>, f: seq<T>, g: seq<T>, h: seq<T>, i: seq<T>, j: seq<T>)
    ensures a + b + c + d + e + f + g + h + i + j == a + (b + (c + (d + (e + (f + (g + (h + (i + j))))))))
  {
  }

  lemma HeadTail<T>(xs: seq<T>)
    requires |xs| > 0
    ensures [xs[0]] + xs[1..] == xs
  {
  }

  lemma AppendNil<T>(acc: seq<T>, xs: seq<T>)
    requires xs == []
    ensures acc + xs == acc
  {
  }

  lemma ConcatSplit<T>(a: seq<T>, b: seq<T>)
    ensures (a + b)[..|a|] == a && (a + b)[|a|..] == b
  {
  }

  lemma PrefixRest<T>(p: seq<T>, t: seq<T>)
    requires p <= t
    ensures t == p + t[|p|..]
  {
    assert t[..|p|] == p;
    TakeDrop(t, |p|);
  }

  lemma HeadRest<T>(x: T, t: seq<T>)
    requires |t| > 0 && t[0] == x
    ensures t == [x] + t[1..]
  {
  }

  lemma NotPrefixAt<T>(p: seq<T>, t: seq<T>, k: nat)
    requires k < |p| && k < |t| && p[k] != t[k]
    ensures !(p <= t)
  {
  }

  lemma TakeDrop<T>(s: seq<T>, n: nat)
    requires n <= |s|
    ensures s[..n] + s[n..] == s
  {
  }

  lemma SliceCons<T>(s: seq<T>, n: nat, acc: seq<T>)
    requires 0 < n <= |s|
    ensures s[1..][n - 1..] == s[n..]
    ensures acc + [s[0]] + s[1..][..n - 1] == acc + s[..n]
  {
    assert [s[0]] + s[1..][..n - 1] == s[..n];
  }
}
