/** Facts about slices of strings that the proofs about scanning share. */
module Sequences {
  /** A slice that starts at `k` is its first character followed by the rest. */
  lemma ConsSlice(s: string, k: nat, m: nat, x: string)
    requires k < m <= |s|
    ensures [s[k]] + (s[k + 1..m] + x) == s[k..m] + x
  {
    assert s[k..m] == [s[k]] + s[k + 1..m];
  }

  /** Two strings that agree from `i` and `j` on have the same first character there and agree after it. */
  lemma SuffixFacts(a: string, b: string, i: nat, j: nat)
    requires i <= |a| && j <= |b| && a[i..] == b[j..]
    ensures |a| - i == |b| - j
    ensures i < |a| ==> a[i] == b[j] && a[i + 1..] == b[j + 1..]
  {
    assert |a[i..]| == |b[j..]|;
    if i < |a| {
      assert a[i] == a[i..][0] && b[j] == b[j..][0];
      assert a[i + 1..] == a[i..][1..] && b[j + 1..] == b[j..][1..];
    }
  }

  /** Two strings that agree from `i` and `j` on agree on every slice taken the same distance further on. */
  lemma SuffixSlices(a: string, b: string, i: nat, j: nat, k: nat, l: nat)
    requires i <= |a| && j <= |b| && a[i..] == b[j..] && k <= l <= |a| - i
    ensures |a| - i == |b| - j
    ensures a[i + k..i + l] == b[j + k..j + l] && a[i + k..] == b[j + k..]
  {
    assert |a[i..]| == |b[j..]|;
    SliceOfSuffix(a, i, k, l);
    SliceOfSuffix(b, j, k, l);
  }

  lemma SliceOfSuffix(s: string, i: nat, k: nat, l: nat)
    requires i + l <= |s| && k <= l
    ensures s[i..][k..l] == s[i + k..i + l] && s[i..][k..] == s[i + k..]
  {
  }
}
