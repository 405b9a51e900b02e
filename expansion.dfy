/**
 * Word expansion (smallsh.c:160-190): four `str_gsub` passes over each stored word, in a
 * fixed order, each on the output of the one before.
 *
 * `ExpandToken` is the reference definition, the composition of the four `Gsub`s;
 * `ExpandWord` runs the source's four calls and is proved equal to it.
 */
module Expansion {
  import opened Numerals
  import opened Substitution

  /**
   * The word begins with "~/". The source copies the first two characters into a
   * two-character array and compares it with `strcmp`, which needs a terminating NUL the
   * array does not have; the comparison it evidently means is this prefix test.
   */
  predicate HasHomePrefix(tok: string)
  {
    |tok| >= 2 && tok[0] == '~' && tok[1] == '/'
  }

  /** The first pass: every "~" becomes HOME, but only in a word that begins with "~/". */
  function ExpandHome(tok: string, home: string): string
  {
    if HasHomePrefix(tok) then Gsub(tok, "~", home) else tok
  }

  /**
   * The four passes in order: "~" (as above), then "$$" to the shell's process id, "$?" to
   * the decimal `dollar_question` and "$!" to `dollar_exclamation`.
   */
  function ExpandToken(tok: string, home: string, pid: int, status: int, background: string): string
  {
    var t1 := ExpandHome(tok, home);
    var t2 := Gsub(t1, "$$", IntToDecimal(pid));
    var t3 := Gsub(t2, "$?", IntToDecimal(status));
    Gsub(t3, "$!", background)
  }

  /** The body of the expansion loop for one word (smallsh.c:164-187). */
  method ExpandWord(tok: string, home: string, pid: int, status: int, background: string) returns (r: string)
    ensures r == ExpandToken(tok, home, pid, status, background)
  {
    r := tok;
    if HasHomePrefix(r) {
      r := StrGsub(r, "~", home);
    }
    var pidText := IntToDecimal(pid);
    r := StrGsub(r, "$$", pidText);
    var statusText := IntToDecimal(status);
    r := StrGsub(r, "$?", statusText);
    r := StrGsub(r, "$!", background);
  }

  /** `sprintf("%d")` output contains neither '$' nor '~', so no later pass touches it. */
  lemma DecimalChars(n: int)
    ensures '$' !in IntToDecimal(n) && '~' !in IntToDecimal(n)
  {
    var s := IntToDecimal(n);
    forall k | 0 <= k < |s|
      ensures s[k] != '$' && s[k] != '~'
    {
      if n < 0 && k > 0 {
        assert s[k] == s[1..][k - 1];
      }
    }
  }

  /** A word with no '$' that does not begin with "~/" is left as it is. */
  lemma ExpandPlain(tok: string, home: string, pid: int, status: int, background: string)
    requires !HasHomePrefix(tok) && '$' !in tok
    ensures ExpandToken(tok, home, pid, status, background) == tok
  {
    assert "$$"[0] == '$' && "$?"[0] == '$' && "$!"[0] == '$';
    GsubAbsentFirstChar(tok, "$$", IntToDecimal(pid));
    GsubAbsentFirstChar(tok, "$?", IntToDecimal(status));
    GsubAbsentFirstChar(tok, "$!", background);
  }

  lemma GsubWhole(needle: string, sub: string)
    requires |needle| > 0
    ensures Gsub(needle, needle, sub) == sub
  {
    assert MatchAt(needle, needle, 0) by { MatchAtSlice(needle, needle, 0); }
    assert GsubFrom(needle, needle, sub, |needle|) == [];
    assert sub + [] == sub;
  }

  /** "$$" becomes the decimal process id. */
  lemma ExpandPid(home: string, pid: int, status: int, background: string)
    ensures ExpandToken("$$", home, pid, status, background) == IntToDecimal(pid)
  {
    var p := IntToDecimal(pid);
    GsubWhole("$$", p);
    DecimalChars(pid);
    GsubAbsentFirstChar(p, "$?", IntToDecimal(status));
    GsubAbsentFirstChar(p, "$!", background);
  }

  /** "$?" becomes the decimal status of the last foreground command. */
  lemma ExpandStatus(home: string, pid: int, status: int, background: string)
    ensures ExpandToken("$?", home, pid, status, background) == IntToDecimal(status)
  {
    var d := IntToDecimal(status);
    assert !MatchAt("$?", "$$", 0) by { MatchAtSlice("$?", "$$", 0); }
    assert Gsub("$?", "$$", IntToDecimal(pid)) == "$?";
    GsubWhole("$?", d);
    DecimalChars(status);
    GsubAbsentFirstChar(d, "$!", background);
  }

  /** "$!" becomes the id of the last background command, as text. */
  lemma ExpandBackground(home: string, pid: int, status: int, background: string)
    ensures ExpandToken("$!", home, pid, status, background) == background
  {
    assert !MatchAt("$!", "$$", 0) by { MatchAtSlice("$!", "$$", 0); }
    assert Gsub("$!", "$$", IntToDecimal(pid)) == "$!";
    assert !MatchAt("$!", "$?", 0) by { MatchAtSlice("$!", "$?", 0); }
    assert Gsub("$!", "$?", IntToDecimal(status)) == "$!";
    GsubWhole("$!", background);
  }

  /** While `$!` is still empty, the word "$!#" expands to "#". */
  lemma ExpandToHash(home: string, pid: int, status: int)
    ensures ExpandToken("$!#", home, pid, status, "") == "#"
  {
    var w := "$!#";
    assert !HasHomePrefix(w);
    assert !MatchAt(w, "$$", 0) by { MatchAtSlice(w, "$$", 0); }
    MatchAtFirst(w, "$$", 1);
    assert GsubFrom(w, "$$", IntToDecimal(pid), 2) == "#";
    assert Gsub(w, "$$", IntToDecimal(pid)) == w;
    assert !MatchAt(w, "$?", 0) by { MatchAtSlice(w, "$?", 0); }
    MatchAtFirst(w, "$?", 1);
    assert GsubFrom(w, "$?", IntToDecimal(status), 2) == "#";
    assert Gsub(w, "$?", IntToDecimal(status)) == w;
    assert MatchAt(w, "$!", 0) by { MatchAtSlice(w, "$!", 0); }
    assert GsubFrom(w, "$!", "", 2) == "#";
  }

  /** The "$$" pass runs first: in "$$?" it takes the first two characters, leaving "?". */
  lemma ExpandOrder(home: string, pid: int, status: int, background: string)
    ensures ExpandToken("$$?", home, pid, status, background) == IntToDecimal(pid) + "?"
  {
    var p := IntToDecimal(pid);
    assert MatchAt("$$?", "$$", 0) by { MatchAtSlice("$$?", "$$", 0); }
    assert "$$?"[2..] == "?";
    assert Gsub("$$?", "$$", p) == p + "?";
    DecimalChars(pid);
    assert '$' !in p + "?";
    GsubAbsentFirstChar(p + "?", "$?", IntToDecimal(status));
    GsubAbsentFirstChar(p + "?", "$!", background);
  }

  /** In a word that begins with "~/", no '~' is left once HOME, if it has none, is put in. */
  lemma ExpandHomeRemovesTilde(tok: string, home: string)
    requires HasHomePrefix(tok) && '~' !in home
    ensures '~' !in ExpandHome(tok, home)
  {
    GsubRemovesChar(tok, '~', home);
  }

  /** "~/rest" becomes HOME + "/rest" when the rest has no further '~'. */
  lemma ExpandHomeWord(rest: string, home: string)
    requires '~' !in rest
    ensures ExpandHome("~/" + rest, home) == home + "/" + rest
  {
    var tok := "~/" + rest;
    assert tok[0] == '~' && tok[1] == '/' && tok[2..] == rest;
    MatchAtSingle(tok, '~', 0);
    forall j: nat | 1 <= j
      ensures !MatchAt(tok, "~", j)
    {
      MatchAtSingle(tok, '~', j);
      if 2 <= j < |tok| {
        assert tok[j] == rest[j - 2];
      }
    }
    GsubFromNoMatch(tok, "~", home, 1);
    assert tok[1..] == "/" + rest;
    assert Gsub(tok, "~", home) == home + tok[1..];
  }
}
