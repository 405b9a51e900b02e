/**
 * Splitting an input line into words (smallsh.c:145-158): `strtok` over the separator set
 * taken from `IFS` (section 7.24.5.8 of ISO C11), stopping at a word that is exactly "#".
 *
 * `FieldsFrom` is the reference definition, the maximal runs of non-separator characters,
 * one character at a time; `StrTok` is one call of `strtok` with its saved position, and
 * `StrTokStep` ties the two together.
 */
module Tokenizer {
  import opened Wrappers
  import opened Sequences

  /** The separators used when `IFS` is not set (smallsh.c:148). */
  const DefaultSeparators: string := " \t\n"

  /** `getenv("IFS")`, or the default when it is unset. */
  function Separators(ifs: Option<string>): string
  {
    if ifs.Some? then ifs.value else DefaultSeparators
  }

  predicate NoSeparator(t: string, sep: string)
  {
    forall k :: 0 <= k < |t| ==> t[k] !in sep
  }

  /** `strspn`: the index of the first character at or after `i` that is not a separator. */
  function SkipSeparators(s: string, i: nat, sep: string): (j: nat)
    requires i <= |s|
    ensures i <= j <= |s|
    ensures forall k :: i <= k < j ==> s[k] in sep
    ensures j < |s| ==> s[j] !in sep
    decreases |s| - i
  {
    if i < |s| && s[i] in sep then SkipSeparators(s, i + 1, sep) else i
  }

  /** `strcspn`: the index of the first separator at or after `i`, or the end of `s`. */
  function TokenEnd(s: string, i: nat, sep: string): (j: nat)
    requires i <= |s|
    ensures i <= j <= |s|
    ensures forall k :: i <= k < j ==> s[k] !in sep
    ensures j < |s| ==> s[j] in sep
    decreases |s| - i
  {
    if i < |s| && s[i] !in sep then TokenEnd(s, i + 1, sep) else i
  }

  /** A word returned by `strtok`, with the position where the next call resumes. */
  datatype Token = Token(text: string, next: nat)

  /**
   * One call of `strtok` resuming at `save`: leading separators are skipped, and the word runs
   * to the next separator, which is overwritten by NUL so that the next call resumes after it.
   */
  function StrTok(s: string, save: nat, sep: string): (r: Option<Token>)
    requires save <= |s|
    ensures r.None? <==> forall k :: save <= k < |s| ==> s[k] in sep
    ensures r.Some? ==> save < r.value.next <= |s| && |r.value.text| > 0 && NoSeparator(r.value.text, sep)
  {
    var b := SkipSeparators(s, save, sep);
    if b == |s| then None
    else
      var e := TokenEnd(s, b, sep);
      Some(Token(s[b..e], if e < |s| then e + 1 else e))
  }

  /** The maximal runs of non-separator characters of `s` from index `i` on, in order. */
  function FieldsFrom(s: string, sep: string, i: nat): (r: seq<string>)
    requires i <= |s|
    ensures forall k :: 0 <= k < |r| ==> |r[k]| > 0 && NoSeparator(r[k], sep)
    decreases |s| - i
  {
    if i == |s| then []
    else if s[i] in sep then FieldsFrom(s, sep, i + 1)
    else
      var e := TokenEnd(s, i, sep);
      [s[i..e]] + FieldsFrom(s, sep, e)
  }

  function Fields(s: string, sep: string): seq<string>
  {
    FieldsFrom(s, sep, 0)
  }

  /** The words before the first one that is exactly "#" (smallsh.c:152). */
  function BeforeHash(ts: seq<string>): (r: seq<string>)
    ensures |r| <= |ts| && r == ts[..|r|]
    ensures "#" !in r
    ensures |r| < |ts| ==> ts[|r|] == "#"
  {
    if ts == [] || ts[0] == "#" then [] else [ts[0]] + BeforeHash(ts[1..])
  }

  /** A word other than "#" is kept, and the scan goes on after it. */
  lemma BeforeHashCons(t: string, rest: seq<string>)
    requires t != "#"
    ensures BeforeHash([t] + rest) == [t] + BeforeHash(rest)
  {
    assert ([t] + rest)[1..] == rest;
  }

  /** The words the tokenizing loop stores. */
  function Tokens(line: string, sep: string): (r: seq<string>)
    ensures forall k :: 0 <= k < |r| ==> |r[k]| > 0 && NoSeparator(r[k], sep) && r[k] != "#"
    ensures |r| <= |Fields(line, sep)| && r == Fields(line, sep)[..|r|]
    ensures |r| < |Fields(line, sep)| ==> Fields(line, sep)[|r|] == "#"
  {
    BeforeHash(Fields(line, sep))
  }

  /** Separators before a word are skipped. */
  lemma {:induction false} FieldsSkip(s: string, sep: string, i: nat)
    requires i <= |s|
    ensures FieldsFrom(s, sep, i) == FieldsFrom(s, sep, SkipSeparators(s, i, sep))
    decreases |s| - i
  {
    if i < |s| && s[i] in sep {
      FieldsSkip(s, sep, i + 1);
    }
  }

  /** `strtok` returns the next word of the reference in turn, and nothing once there is none. */
  lemma StrTokStep(s: string, save: nat, sep: string)
    requires save <= |s|
    ensures StrTok(s, save, sep).None? <==> FieldsFrom(s, sep, save) == []
    ensures StrTok(s, save, sep).Some? ==>
      var t := StrTok(s, save, sep).value;
      FieldsFrom(s, sep, save) == [t.text] + FieldsFrom(s, sep, t.next)
  {
    FieldsSkip(s, sep, save);
    var b := SkipSeparators(s, save, sep);
    if b < |s| {
      var e := TokenEnd(s, b, sep);
      if e < |s| {
        assert FieldsFrom(s, sep, e) == FieldsFrom(s, sep, e + 1);
      }
    }
  }

  /** A line made only of separators has no words, and only such a line has none. */
  lemma {:induction false} FieldsEmptyIff(s: string, sep: string, i: nat)
    requires i <= |s|
    ensures FieldsFrom(s, sep, i) == [] <==> forall k :: i <= k < |s| ==> s[k] in sep
    decreases |s| - i
  {
    if i < |s| && s[i] in sep {
      FieldsEmptyIff(s, sep, i + 1);
    }
  }

  /** Words are separated by at least one separator, so a line has at most half as many, rounded up. */
  lemma {:induction false} FieldsBound(s: string, sep: string, i: nat)
    requires i <= |s|
    ensures 2 * |FieldsFrom(s, sep, i)| <= |s| - i + 1
    decreases |s| - i
  {
    if i < |s| {
      if s[i] in sep {
        FieldsBound(s, sep, i + 1);
      } else {
        var e := TokenEnd(s, i, sep);
        if e < |s| {
          assert FieldsFrom(s, sep, e) == FieldsFrom(s, sep, e + 1);
          FieldsBound(s, sep, e + 1);
        }
      }
    }
  }

  /** A line of at most `MAX_LINE` (512) characters has at most 256 words to store. */
  lemma TokensBound(line: string, sep: string)
    requires |line| <= 512
    ensures |Tokens(line, sep)| <= 256
  {
    FieldsBound(line, sep, 0);
  }

  function Concat(ts: seq<string>): string
  {
    if ts == [] then [] else ts[0] + Concat(ts[1..])
  }

  /** The characters of `s` from index `i` on that are not separators, in order. */
  function NonSeparatorsFrom(s: string, sep: string, i: nat): string
    requires i <= |s|
    decreases |s| - i
  {
    if i == |s| then [] else if s[i] in sep then NonSeparatorsFrom(s, sep, i + 1) else [s[i]] + NonSeparatorsFrom(s, sep, i + 1)
  }

  lemma ConcatCons(t: string, rest: seq<string>)
    ensures Concat([t] + rest) == t + Concat(rest)
  {
    assert ([t] + rest)[1..] == rest;
  }

  lemma {:induction false} NonSeparatorsRun(s: string, sep: string, i: nat, e: nat)
    requires i <= e <= |s| && forall k :: i <= k < e ==> s[k] !in sep
    ensures NonSeparatorsFrom(s, sep, i) == s[i..e] + NonSeparatorsFrom(s, sep, e)
    decreases e - i
  {
    if i < e {
      assert s[i] !in sep;
      NonSeparatorsRun(s, sep, i + 1, e);
      ConsSlice(s, i, e, NonSeparatorsFrom(s, sep, e));
    }
  }

  /** The words hold exactly the non-separator characters of the line, in their order. */
  lemma {:induction false} FieldsConcat(s: string, sep: string, i: nat)
    requires i <= |s|
    ensures Concat(FieldsFrom(s, sep, i)) == NonSeparatorsFrom(s, sep, i)
    decreases |s| - i
  {
    if i < |s| {
      if s[i] in sep {
        FieldsConcat(s, sep, i + 1);
      } else {
        var e := TokenEnd(s, i, sep);
        FieldsConcat(s, sep, e);
        NonSeparatorsRun(s, sep, i, e);
        ConcatCons(s[i..e], FieldsFrom(s, sep, e));
      }
    }
  }

  /** Words written out with one separator `c` between them. */
  function JoinWith(ts: seq<string>, c: char): string
  {
    if |ts| == 0 then [] else if |ts| == 1 then ts[0] else ts[0] + [c] + JoinWith(ts[1..], c)
  }

  lemma {:induction false} TokenEndLocal(a: string, b: string, sep: string, i: nat, j: nat)
    requires i <= |a| && j <= |b| && a[i..] == b[j..]
    ensures TokenEnd(a, i, sep) - i == TokenEnd(b, j, sep) - j
    decreases |a| - i
  {
    SuffixFacts(a, b, i, j);
    if i < |a| && a[i] !in sep {
      TokenEndLocal(a, b, sep, i + 1, j + 1);
    }
  }

  /** The words from an index on depend only on the text from that index on. */
  lemma {:induction false} FieldsLocal(a: string, b: string, sep: string, i: nat, j: nat)
    requires i <= |a| && j <= |b| && a[i..] == b[j..]
    ensures FieldsFrom(a, sep, i) == FieldsFrom(b, sep, j)
    decreases |a| - i
  {
    SuffixFacts(a, b, i, j);
    if i < |a| {
      if a[i] in sep {
        FieldsLocal(a, b, sep, i + 1, j + 1);
      } else {
        TokenEndLocal(a, b, sep, i, j);
        var e := TokenEnd(a, i, sep);
        var e' := TokenEnd(b, j, sep);
        SuffixSlices(a, b, i, j, 0, e - i);
        FieldsLocal(a, b, sep, e, e');
      }
    }
  }

  lemma {:induction false} TokenEndRun(s: string, sep: string, i: nat, e: nat)
    requires i <= e <= |s| && (forall k :: i <= k < e ==> s[k] !in sep) && (e == |s| || s[e] in sep)
    ensures TokenEnd(s, i, sep) == e
    decreases e - i
  {
    if i < e {
      assert s[i] !in sep;
      TokenEndRun(s, sep, i + 1, e);
    }
  }

  /** A line that starts with a word `s[..n]` ended by a separator or by the end of the line. */
  lemma FirstWord(s: string, sep: string, n: nat)
    requires 0 < n <= |s| && NoSeparator(s[..n], sep) && (n == |s| || s[n] in sep)
    ensures FieldsFrom(s, sep, 0) == [s[..n]] + FieldsFrom(s, sep, if n < |s| then n + 1 else n)
  {
    forall k | 0 <= k < n
      ensures s[k] !in sep
    {
      assert s[k] == s[..n][k];
    }
    TokenEndRun(s, sep, 0, n);
    assert s[0..n] == s[..n];
    if n < |s| {
      assert FieldsFrom(s, sep, n) == FieldsFrom(s, sep, n + 1);
    }
  }

  /**
   * Tokenizing undoes joining: separator-free, non-empty words written with one separator
   * between them come back as the same words, so no word is split or merged.
   */
  lemma {:induction false} FieldsOfJoin(ts: seq<string>, c: char, sep: string)
    requires c in sep
    requires forall k :: 0 <= k < |ts| ==> |ts[k]| > 0 && NoSeparator(ts[k], sep)
    ensures Fields(JoinWith(ts, c), sep) == ts
    decreases |ts|
  {
    if |ts| == 1 {
      var t := ts[0];
      assert t[..|t|] == t;
      FirstWord(t, sep, |t|);
    } else if |ts| > 1 {
      var t := ts[0];
      var r := JoinWith(ts[1..], c);
      assert JoinWith(ts, c) == t + ([c] + r);
      JoinStep(t, r, c, sep);
      FieldsOfJoin(ts[1..], c, sep);
      assert ts == [t] + ts[1..];
    }
  }

  /** A word, a separator, then more text: the word comes first, then the words of the rest. */
  lemma JoinStep(t: string, r: string, c: char, sep: string)
    requires c in sep && |t| > 0 && NoSeparator(t, sep)
    ensures Fields(t + ([c] + r), sep) == [t] + Fields(r, sep)
  {
    var s := t + ([c] + r);
    assert s[..|t|] == t && s[|t|] == c;
    FirstWord(s, sep, |t|);
    assert s[|t| + 1..] == r[0..];
    FieldsLocal(s, r, sep, |t| + 1, 0);
  }
}
