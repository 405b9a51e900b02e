/**
 * `str_gsub` (smallsh.c:45-73): global, left-to-right, non-overlapping search and replace
 * on a heap string that is grown and shrunk with `realloc`.
 *
 * `Gsub` is the reference definition, a scan over the indices of the original string;
 * `StrGsub` is the source's loop over the buffer, built on `strstr`, and is proved equal to
 * it by keeping the unscanned part of the buffer in step with a position in the original.
 */
module Substitution {
  import opened Wrappers
  import opened Sequences

  /** The characters of `needle` from index `k` on appear in `s` from index `i + k` on. */
  predicate MatchFrom(s: string, needle: string, i: nat, k: nat)
    requires k <= |needle|
    decreases |needle| - k
  {
    k == |needle| || (i + k < |s| && s[i + k] == needle[k] && MatchFrom(s, needle, i, k + 1))
  }

  /** `needle` occurs in `s` starting at index `i`. */
  predicate MatchAt(s: string, needle: string, i: nat)
  {
    i + |needle| <= |s| && MatchFrom(s, needle, i, 0)
  }

  lemma {:induction false} MatchFromSlice(s: string, needle: string, i: nat, k: nat)
    requires i + |needle| <= |s| && k <= |needle|
    ensures MatchFrom(s, needle, i, k) <==> s[i + k..i + |needle|] == needle[k..]
    decreases |needle| - k
  {
    if k < |needle| {
      MatchFromSlice(s, needle, i, k + 1);
      assert s[i + k..i + |needle|] == [s[i + k]] + s[i + k + 1..i + |needle|];
      assert needle[k..] == [needle[k]] + needle[k + 1..];
    }
  }

  /** `MatchAt` is the comparison of a slice of `s` with `needle`. */
  lemma MatchAtSlice(s: string, needle: string, i: nat)
    ensures MatchAt(s, needle, i) <==> i + |needle| <= |s| && s[i..i + |needle|] == needle
  {
    if i + |needle| <= |s| {
      MatchFromSlice(s, needle, i, 0);
    }
  }

  ghost predicate Occurs(s: string, needle: string)
  {
    exists i: nat :: MatchAt(s, needle, i)
  }

  /**
   * The reference definition, scanning `s` from index `i`: an occurrence of `needle` there is
   * replaced by `sub` and the scan goes on after it; otherwise the character is kept.
   */
  function GsubFrom(s: string, needle: string, sub: string, i: nat): string
    requires |needle| > 0 && i <= |s|
    decreases |s| - i
  {
    if i + |needle| > |s| then s[i..]
    else if MatchAt(s, needle, i) then sub + GsubFrom(s, needle, sub, i + |needle|)
    else [s[i]] + GsubFrom(s, needle, sub, i + 1)
  }

  function Gsub(s: string, needle: string, sub: string): string
    requires |needle| > 0
  {
    GsubFrom(s, needle, sub, 0)
  }

  /** The number of occurrences that the scan from `i` replaces. */
  function CountFrom(s: string, needle: string, i: nat): nat
    requires |needle| > 0 && i <= |s|
    decreases |s| - i
  {
    if i + |needle| > |s| then 0
    else if MatchAt(s, needle, i) then 1 + CountFrom(s, needle, i + |needle|)
    else CountFrom(s, needle, i + 1)
  }

  function Count(s: string, needle: string): nat
    requires |needle| > 0
  {
    CountFrom(s, needle, 0)
  }

  /**
   * `r` is what `strstr` returns when applied at offset `from`: the first index at or after
   * `from` where `needle` occurs, or nothing (NULL) when there is none.
   */
  ghost predicate FirstMatch(s: string, needle: string, from: nat, r: Option<nat>)
  {
    (r.Some? ==> from <= r.value && MatchAt(s, needle, r.value)) &&
    forall i: nat :: from <= i && (r.None? || i < r.value) ==> !MatchAt(s, needle, i)
  }

  /** libc `strstr(s + from, needle)`, as an index into `s`. */
  method StrStr(s: string, from: nat, needle: string) returns (r: Option<nat>)
    requires from <= |s|
    ensures FirstMatch(s, needle, from, r)
  {
    var i := from;
    while i + |needle| <= |s|
      invariant from <= i
      invariant forall k: nat :: from <= k < i ==> !MatchAt(s, needle, k)
      decreases |s| - i
    {
      MatchAtSlice(s, needle, i);
      if s[i..i + |needle|] == needle {
        return Some(i);
      }
      i := i + 1;
    }
    return None;
  }

  lemma ConsSuffix(s: string, k: nat)
    requires k < |s|
    ensures [s[k]] + s[k + 1..] == s[k..]
  {
  }

  lemma MulSucc(c: int, d: int)
    ensures (1 + c) * d == c * d + d
  {
  }

  /** The result length grows or shrinks by `|sub| - |needle|` per replaced occurrence. */
  lemma {:induction false} GsubFromLength(s: string, needle: string, sub: string, i: nat)
    requires |needle| > 0 && i <= |s|
    ensures |GsubFrom(s, needle, sub, i)| == |s| - i + CountFrom(s, needle, i) * (|sub| - |needle|)
    decreases |s| - i
  {
    if i + |needle| > |s| {
    } else if MatchAt(s, needle, i) {
      GsubFromLength(s, needle, sub, i + |needle|);
      MulSucc(CountFrom(s, needle, i + |needle|), |sub| - |needle|);
    } else {
      GsubFromLength(s, needle, sub, i + 1);
    }
  }

  lemma GsubLength(s: string, needle: string, sub: string)
    requires |needle| > 0
    ensures |Gsub(s, needle, sub)| == |s| + Count(s, needle) * (|sub| - |needle|)
  {
    GsubFromLength(s, needle, sub, 0);
  }

  /** The scan from `i` replaces nothing exactly when `needle` occurs nowhere at or after `i`. */
  lemma {:induction false} CountFromZeroIff(s: string, needle: string, i: nat)
    requires |needle| > 0 && i <= |s|
    ensures CountFrom(s, needle, i) == 0 <==> forall j: nat :: i <= j ==> !MatchAt(s, needle, j)
    decreases |s| - i
  {
    if i + |needle| > |s| {
    } else if MatchAt(s, needle, i) {
    } else {
      CountFromZeroIff(s, needle, i + 1);
    }
  }

  lemma CountZeroIff(s: string, needle: string)
    requires |needle| > 0
    ensures Count(s, needle) == 0 <==> !Occurs(s, needle)
  {
    CountFromZeroIff(s, needle, 0);
  }

  /** Where `needle` no longer occurs, the rest of the string is kept as it is. */
  lemma {:induction false} GsubFromNoMatch(s: string, needle: string, sub: string, i: nat)
    requires |needle| > 0 && i <= |s|
    requires forall j: nat :: i <= j ==> !MatchAt(s, needle, j)
    ensures GsubFrom(s, needle, sub, i) == s[i..]
    decreases |s| - i
  {
    if i + |needle| <= |s| {
      assert !MatchAt(s, needle, i);
      GsubFromNoMatch(s, needle, sub, i + 1);
      ConsSuffix(s, i);
    }
  }

  /** A string in which `needle` does not occur is returned unchanged. */
  lemma GsubNoMatch(s: string, needle: string, sub: string)
    requires |needle| > 0 && !Occurs(s, needle)
    ensures Gsub(s, needle, sub) == s
  {
    GsubFromNoMatch(s, needle, sub, 0);
  }

  /** An occurrence begins with the first character of `needle`. */
  lemma MatchAtFirst(s: string, needle: string, i: nat)
    requires |needle| > 0
    ensures MatchAt(s, needle, i) ==> i < |s| && s[i] == needle[0]
  {
  }

  /** A one-character needle occurs exactly where that character is. */
  lemma MatchAtSingle(s: string, c: char, i: nat)
    ensures MatchAt(s, [c], i) <==> i < |s| && s[i] == c
  {
    assert MatchFrom(s, [c], i, 1);
  }

  /** Text that lacks the first character of `needle` is returned unchanged. */
  lemma GsubAbsentFirstChar(s: string, needle: string, sub: string)
    requires |needle| > 0 && needle[0] !in s
    ensures Gsub(s, needle, sub) == s
  {
    forall i: nat
      ensures !MatchAt(s, needle, i)
    {
      MatchAtFirst(s, needle, i);
    }
    GsubNoMatch(s, needle, sub);
  }

  /**
   * Replacing at the first occurrence `m` and then carrying on with the text after it: the
   * inserted `sub` is never searched again.
   */
  lemma {:induction false} GsubFirstMatch(s: string, needle: string, sub: string, k: nat, m: nat)
    requires |needle| > 0 && k <= m && MatchAt(s, needle, m)
    requires forall i: nat :: k <= i < m ==> !MatchAt(s, needle, i)
    ensures GsubFrom(s, needle, sub, k) == s[k..m] + (sub + GsubFrom(s, needle, sub, m + |needle|))
    decreases m - k
  {
    if k < m {
      var x := sub + GsubFrom(s, needle, sub, m + |needle|);
      assert !MatchAt(s, needle, k);
      GsubFirstMatch(s, needle, sub, k + 1, m);
      ConsSlice(s, k, m, x);
    }
  }

  /** Matches in two strings that agree from `i` and `j` on correspond one to one. */
  lemma ShiftMatch(a: string, b: string, needle: string, i: nat, j: nat, k: nat)
    requires i <= |a| && j <= |b| && a[i..] == b[j..]
    ensures MatchAt(a, needle, i + k) <==> MatchAt(b, needle, j + k)
  {
    assert |a| - i == |b| - j by { SuffixSlices(a, b, i, j, 0, 0); }
    if i + k + |needle| <= |a| {
      SuffixSlices(a, b, i, j, k, k + |needle|);
    }
    MatchAtSlice(a, needle, i + k);
    MatchAtSlice(b, needle, j + k);
  }

  /** Replacing a needle by itself changes nothing. */
  lemma {:induction false} GsubFromIdentity(s: string, needle: string, i: nat)
    requires |needle| > 0 && i <= |s|
    ensures GsubFrom(s, needle, needle, i) == s[i..]
    decreases |s| - i
  {
    if i + |needle| > |s| {
    } else if MatchAt(s, needle, i) {
      GsubFromIdentity(s, needle, i + |needle|);
      MatchAtSlice(s, needle, i);
      assert s[i..] == s[i..i + |needle|] + s[i + |needle|..];
    } else {
      GsubFromIdentity(s, needle, i + 1);
      ConsSuffix(s, i);
    }
  }

  lemma GsubIdentity(s: string, needle: string)
    requires |needle| > 0
    ensures Gsub(s, needle, needle) == s
  {
    GsubFromIdentity(s, needle, 0);
  }

  /** Replacing a single character by text that lacks it leaves no such character behind. */
  lemma {:induction false} GsubFromRemovesChar(s: string, c: char, sub: string, i: nat)
    requires c !in sub && i <= |s|
    ensures c !in GsubFrom(s, [c], sub, i)
    decreases |s| - i
  {
    if i + 1 <= |s| {
      MatchAtSlice(s, [c], i);
      assert s[i..i + 1] == [s[i]];
      GsubFromRemovesChar(s, c, sub, i + 1);
    }
  }

  lemma GsubRemovesChar(s: string, c: char, sub: string)
    requires c !in sub
    ensures c !in Gsub(s, [c], sub)
  {
    GsubFromRemovesChar(s, c, sub, 0);
  }

  /** The occurrence `strstr` finds in the buffer is the first one in the original from `src` on. */
  lemma StepMatches(haystack: string, src: nat, buf: string, needle: string, off: nat, at: nat)
    requires src <= |haystack| && off <= |buf| && buf[off..] == haystack[src..]
    requires FirstMatch(buf, needle, off, Some(at))
    ensures MatchAt(haystack, needle, src + (at - off))
    ensures forall i: nat :: src <= i < src + (at - off) ==> !MatchAt(haystack, needle, i)
  {
    ShiftMatch(buf, haystack, needle, off, src, at - off);
    forall i: nat | src <= i < src + (at - off)
      ensures !MatchAt(haystack, needle, i)
    {
      ShiftMatch(buf, haystack, needle, off, src, i - src);
    }
  }

  /**
   * The buffer rewrite of one turn, as sequence algebra: `total` stands for the whole result,
   * `g` and `g'` for the rest of it before and after the turn.
   */
  lemma StepAlgebra(haystack: string, src: nat, buf: string, sub: string, off: nat, at: nat, n: nat,
                    buf': string, total: string, g: string, g': string)
    requires src <= |haystack| && off <= at && at + n <= |buf| && buf[off..] == haystack[src..]
    requires buf' == buf[..at] + sub + buf[at + n..]
    requires total == buf[..off] + g && g == haystack[src..src + (at - off)] + (sub + g')
    ensures src + (at - off) + n <= |haystack| && at + |sub| <= |buf'|
    ensures buf'[at + |sub|..] == haystack[src + (at - off) + n..]
    ensures total == buf'[..at + |sub|] + g'
  {
    SuffixSlices(buf, haystack, off, src, at - off, at - off + n);
    SuffixSlices(buf, haystack, off, src, 0, at - off);
    assert buf'[at + |sub|..] == buf[at + n..];
    assert buf'[..at + |sub|] == buf[..at] + sub;
    assert buf[..off] + buf[off..at] == buf[..at];
  }

  /** The occurrence `strstr` finds is the next one the reference scan replaces. */
  lemma NextReplacement(haystack: string, needle: string, sub: string, src: nat, buf: string, off: nat, at: nat)
    requires |needle| > 0 && src <= |haystack| && off <= |buf| && buf[off..] == haystack[src..]
    requires FirstMatch(buf, needle, off, Some(at))
    ensures src + (at - off) + |needle| <= |haystack|
    ensures GsubFrom(haystack, needle, sub, src) ==
      haystack[src..src + (at - off)] + (sub + GsubFrom(haystack, needle, sub, src + (at - off) + |needle|))
  {
    StepMatches(haystack, src, buf, needle, off, at);
    GsubFirstMatch(haystack, needle, sub, src, src + (at - off));
  }

  /**
   * One turn of the source's loop. The unscanned part of the buffer, `buf[off..]`, is the
   * unscanned part `haystack[src..]` of the original; the occurrence `strstr` finds is the next
   * one the reference scan replaces, and afterwards the two agree again.
   */
  lemma GsubLoopStep(haystack: string, needle: string, sub: string, src: nat, buf: string, off: nat, at: nat,
                     src': nat, buf': string, off': nat)
    requires |needle| > 0 && src <= |haystack| && off <= |buf| && buf[off..] == haystack[src..]
    requires Gsub(haystack, needle, sub) == buf[..off] + GsubFrom(haystack, needle, sub, src)
    requires FirstMatch(buf, needle, off, Some(at))
    requires buf' == buf[..at] + sub + buf[at + |needle|..]
    requires src' == src + (at - off) + |needle| && off' == at + |sub|
    ensures src' <= |haystack| && off' <= |buf'| && buf'[off'..] == haystack[src'..]
    ensures Gsub(haystack, needle, sub) == buf'[..off'] + GsubFrom(haystack, needle, sub, src')
  {
    NextReplacement(haystack, needle, sub, src, buf, off, at);
    StepAlgebra(haystack, src, buf, sub, off, at, |needle|, buf', Gsub(haystack, needle, sub),
      GsubFrom(haystack, needle, sub, src), GsubFrom(haystack, needle, sub, src'));
  }

  /** When `strstr` finds nothing more, the rest of the buffer is final. */
  lemma GsubLoopExit(haystack: string, src: nat, buf: string, needle: string, sub: string, off: nat)
    requires |needle| > 0 && src <= |haystack| && off <= |buf| && buf[off..] == haystack[src..]
    requires FirstMatch(buf, needle, off, None)
    ensures buf[..off] + GsubFrom(haystack, needle, sub, src) == buf
  {
    forall j: nat | src <= j
      ensures !MatchAt(haystack, needle, j)
    {
      ShiftMatch(buf, haystack, needle, off, src, j - src);
    }
    GsubFromNoMatch(haystack, needle, sub, src);
    assert buf == buf[..off] + buf[off..];
  }

  /**
   * The source's loop: `str` is the offset `off` into the buffer, `strstr` finds the next
   * occurrence at or after it, the tail is moved (`memmove`), `sub` is copied in (`memcpy`)
   * and the scan resumes just past the inserted text.
   */
  method StrGsub(haystack: string, needle: string, sub: string) returns (result: string)
    requires |needle| > 0
    ensures result == Gsub(haystack, needle, sub)
  {
    var buf := haystack;
    var haystackLen := |buf|;
    var off: nat := 0;
    ghost var src: nat := 0;
    var found := StrStr(buf, off, needle);
    while found.Some?
      invariant off <= |buf| && haystackLen == |buf| && src <= |haystack|
      invariant buf[off..] == haystack[src..]
      invariant FirstMatch(buf, needle, off, found)
      invariant Gsub(haystack, needle, sub) == buf[..off] + GsubFrom(haystack, needle, sub, src)
      decreases |haystack| - src
    {
      var at := found.value;
      ghost var src0, buf0, off0 := src, buf, off;
      src := src + (at - off) + |needle|;
      buf := buf[..at] + sub + buf[at + |needle|..];
      haystackLen := haystackLen + |sub| - |needle|;
      off := at + |sub|;
      GsubLoopStep(haystack, needle, sub, src0, buf0, off0, at, src, buf, off);
      found := StrStr(buf, off, needle);
    }
    GsubLoopExit(haystack, src, buf, needle, sub, off);
    result := buf;
  }
}
