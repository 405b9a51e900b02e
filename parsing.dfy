/**
 * What `ParseCommands` (smallsh.c:198-244) does to the list of words: a trailing "&" is taken
 * off and sets the background flag, then a trailing "< file" and/or "> file" pair is taken
 * off, in either order, each direction at most once.
 *
 * `Peel` is the reference definition (take pairs from the end while one applies); `Round`
 * is one turn of the source's two-turn loop, and `TwoRounds` proves the loop equal to `Peel`.
 * `ParseAsWritten` follows the source's unguarded index arithmetic.
 */
module Parsing {
  import opened Wrappers

  /**
   * The parser's state: `i` is one past the last word still in the array, `wantIn` and
   * `wantOut` say that `set_infile` and `set_outfile` are still 0, and the file names are
   * the ones recorded so far.
   */
  datatype State = State(i: nat, background: bool, wantIn: bool, wantOut: bool,
                         inFile: Option<string>, outFile: Option<string>)

  /** The "<" check can fire: the direction is open and the word before the last one is "<". */
  predicate CanIn(ts: seq<string>, st: State)
  {
    st.wantIn && 2 <= st.i <= |ts| && ts[st.i - 2] == "<"
  }

  predicate CanOut(ts: seq<string>, st: State)
  {
    st.wantOut && 2 <= st.i <= |ts| && ts[st.i - 2] == ">"
  }

  /** Taking "< file": the file name is recorded and both words leave the array. */
  function TakeIn(ts: seq<string>, st: State): State
    requires CanIn(ts, st)
  {
    st.(i := st.i - 2, wantIn := false, inFile := Some(ts[st.i - 1]))
  }

  function TakeOut(ts: seq<string>, st: State): State
    requires CanOut(ts, st)
  {
    st.(i := st.i - 2, wantOut := false, outFile := Some(ts[st.i - 1]))
  }

  /** The number of directions that became set between `st` and `r`. */
  function Taken(st: State, r: State): nat
  {
    (if st.wantIn && !r.wantIn then 1 else 0) + (if st.wantOut && !r.wantOut then 1 else 0)
  }

  /**
   * The reference: redirection pairs are taken from the end of the words for as long as one
   * applies.
   */
  function Peel(ts: seq<string>, st: State): (r: State)
    requires st.i <= |ts|
    ensures r.i <= st.i && r.background == st.background
    ensures !CanIn(ts, r) && !CanOut(ts, r)
    ensures r.wantIn ==> st.wantIn && r.inFile == st.inFile
    ensures r.wantOut ==> st.wantOut && r.outFile == st.outFile
    ensures !st.wantIn ==> !r.wantIn && r.inFile == st.inFile
    ensures !st.wantOut ==> !r.wantOut && r.outFile == st.outFile
    ensures st.i - r.i == 2 * Taken(st, r)
    ensures st.wantIn && !r.wantIn ==>
      exists p :: r.i <= p && p + 2 <= st.i && ts[p] == "<" && r.inFile == Some(ts[p + 1])
    ensures st.wantOut && !r.wantOut ==>
      exists p :: r.i <= p && p + 2 <= st.i && ts[p] == ">" && r.outFile == Some(ts[p + 1])
    decreases st.i
  {
    if CanIn(ts, st) then Peel(ts, TakeIn(ts, st))
    else if CanOut(ts, st) then Peel(ts, TakeOut(ts, st))
    else st
  }

  /** The body of the `for` loop at smallsh.c:218-239: the "<" check, then the ">" check. */
  function InCheck(ts: seq<string>, st: State): (r: State)
    ensures r.i == st.i ==> r == st
    ensures r.i != st.i ==>
      st.wantIn && !r.wantIn && r.i + 2 == st.i <= |ts| && ts[r.i] == "<" && r.inFile == Some(ts[r.i + 1]) &&
      r.(i := st.i, wantIn := true, inFile := st.inFile) == st
  {
    if CanIn(ts, st) then TakeIn(ts, st) else st
  }

  function OutCheck(ts: seq<string>, st: State): (r: State)
    ensures r.i == st.i ==> r == st
    ensures r.i != st.i ==>
      st.wantOut && !r.wantOut && r.i + 2 == st.i <= |ts| && ts[r.i] == ">" && r.outFile == Some(ts[r.i + 1]) &&
      r.(i := st.i, wantOut := true, outFile := st.outFile) == st
  {
    if CanOut(ts, st) then TakeOut(ts, st) else st
  }

  function Round(ts: seq<string>, st: State): (r: State)
    ensures r.i <= st.i && r.background == st.background
    ensures st.i - r.i == 2 * Taken(st, r)
  {
    OutCheck(ts, InCheck(ts, st))
  }

  /** Two turns of the loop take exactly what the reference takes, whichever order the pairs are in. */
  lemma TwoRounds(ts: seq<string>, st: State)
    requires st.i <= |ts|
    ensures Round(ts, Round(ts, st)) == Peel(ts, st)
  {
    if CanIn(ts, st) {
      var a := TakeIn(ts, st);
      if CanOut(ts, a) {
        assert Peel(ts, a) == Peel(ts, TakeOut(ts, a));
      }
    } else if CanOut(ts, st) {
      var c := TakeOut(ts, st);
      if CanIn(ts, c) {
        assert Peel(ts, c) == Peel(ts, TakeIn(ts, c));
      }
    }
  }

  /** Taking off a trailing "&" (smallsh.c:209-215), guarded so that no index below 0 is read. */
  function StripBackground(ts: seq<string>, st: State): (r: State)
    ensures r.i == st.i ==> r == st
    ensures r.i != st.i ==>
      r.i + 1 == st.i <= |ts| && ts[r.i] == "&" && r.background &&
      r.(i := st.i, background := st.background) == st
  {
    if 1 <= st.i <= |ts| && ts[st.i - 1] == "&" then st.(i := st.i - 1, background := true) else st
  }

  /** The state `ParseCommands` starts from, given the words and the globals. */
  function Start(ts: seq<string>, background: bool, setInfile: bool, setOutfile: bool,
                 inFile: Option<string>, outFile: Option<string>): State
  {
    State(|ts|, background, !setInfile, !setOutfile, inFile, outFile)
  }

  /** `ParseCommands` on the list of words, with every index read guarded. */
  function Parse(ts: seq<string>, st: State): (r: State)
    requires st.i <= |ts|
    ensures r.i <= st.i && !CanIn(ts, r) && !CanOut(ts, r)
    ensures r.background <==> st.background || (1 <= st.i <= |ts| && ts[st.i - 1] == "&")
  {
    Peel(ts, StripBackground(ts, st))
  }

  /** The background flag is set exactly when the last word is "&", which is then gone. */
  lemma ParseBackground(ts: seq<string>, st: State)
    requires st.i == |ts| && !st.background
    ensures Parse(ts, st).background <==> |ts| >= 1 && ts[|ts| - 1] == "&"
    ensures Parse(ts, st).background ==> Parse(ts, st).i < |ts|
  {
  }

  /** A word list with no trailing "&" and no redirection pair before its end is left whole. */
  lemma ParsePlain(ts: seq<string>, st: State)
    requires st.i == |ts| && (|ts| >= 1 ==> ts[|ts| - 1] != "&")
    requires |ts| >= 2 ==> ts[|ts| - 2] != "<" && ts[|ts| - 2] != ">"
    ensures Parse(ts, st) == st
  {
  }

  /** "< a > b" at the end of a command: both pairs are taken, the ">" one first. */
  lemma InThenOut(p: seq<string>, a: string, b: string, background: bool)
    requires b != "&"
    ensures var ts := p + ["<", a, ">", b];
      var r := Parse(ts, Start(ts, background, false, false, None, None));
      r.i == |p| && r.inFile == Some(a) && r.outFile == Some(b) && r.background == background
  {
    var ts := p + ["<", a, ">", b];
    var n := |p|;
    assert ts[n] == "<" && ts[n + 1] == a && ts[n + 2] == ">" && ts[n + 3] == b;
    var u := Start(ts, background, false, false, None, None);
    assert StripBackground(ts, u) == u;
    assert !CanIn(ts, u) && CanOut(ts, u);
    var v := TakeOut(ts, u);
    assert CanIn(ts, v);
    var w := TakeIn(ts, v);
    assert Peel(ts, v) == Peel(ts, w) == w;
  }

  /** "> b < a" at the end of a command: the same outcome as "< a > b". */
  lemma OutThenIn(p: seq<string>, a: string, b: string, background: bool)
    requires a != "&"
    ensures var ts := p + [">", b, "<", a];
      var r := Parse(ts, Start(ts, background, false, false, None, None));
      r.i == |p| && r.inFile == Some(a) && r.outFile == Some(b) && r.background == background
  {
    var ts := p + [">", b, "<", a];
    var n := |p|;
    assert ts[n] == ">" && ts[n + 1] == b && ts[n + 2] == "<" && ts[n + 3] == a;
    var u := Start(ts, background, false, false, None, None);
    assert StripBackground(ts, u) == u;
    assert CanIn(ts, u);
    var v := TakeIn(ts, u);
    assert !CanIn(ts, v) && CanOut(ts, v);
    var w := TakeOut(ts, v);
    assert Peel(ts, v) == Peel(ts, w) == w;
  }

  /** What the source's own index arithmetic does: it stops at the first read below index 0. */
  datatype AsWritten = OutOfBounds(index: int) | Finished(st: State)

  /** The "<" check as written: `token_array[i - 2]` is read whatever `i` is (smallsh.c:220). */
  function InCheckAsWritten(ts: seq<string>, st: State): (r: AsWritten)
    requires st.i <= |ts|
    ensures r.OutOfBounds? ==> -2 <= r.index < 0
    ensures r.Finished? ==> r.st.i <= st.i
  {
    if !st.wantIn then Finished(st)
    else if st.i < 2 then OutOfBounds(st.i - 2)
    else Finished(InCheck(ts, st))
  }

  function OutCheckAsWritten(ts: seq<string>, st: State): (r: AsWritten)
    requires st.i <= |ts|
    ensures r.OutOfBounds? ==> -2 <= r.index < 0
    ensures r.Finished? ==> r.st.i <= st.i
  {
    if !st.wantOut then Finished(st)
    else if st.i < 2 then OutOfBounds(st.i - 2)
    else Finished(OutCheck(ts, st))
  }

  function RoundAsWritten(ts: seq<string>, a: AsWritten): (r: AsWritten)
    requires a.Finished? ==> a.st.i <= |ts|
    requires a.OutOfBounds? ==> -2 <= a.index < 0
    ensures r.OutOfBounds? ==> -2 <= r.index < 0
    ensures r.Finished? ==> a.Finished? && r.st.i <= a.st.i
  {
    if a.OutOfBounds? then a
    else
      var b := InCheckAsWritten(ts, a.st);
      if b.OutOfBounds? then b else OutCheckAsWritten(ts, b.st)
  }

  /**
   * `ParseCommands` as written. It returns at once only when slot 0 is NULL (`firstIsNull`,
   * smallsh.c:203); otherwise the "&" test reads index `i - 1` and the guard before the loop
   * reads `i - 1` and `i - 2` (smallsh.c:209, 216), with no check that they are at least 0.
   * `ts` are the words before the end-of-words test, so it is empty also when slot 0 is "#".
   */
  function ParseAsWritten(ts: seq<string>, st: State, firstIsNull: bool): (r: AsWritten)
    requires st.i == |ts| && (firstIsNull ==> ts == [])
    ensures r.OutOfBounds? ==> -2 <= r.index < 0
    ensures firstIsNull ==> r == Finished(st)
  {
    if firstIsNull then Finished(st)
    else if |ts| == 0 then OutOfBounds(-1)
    else
      var s1 := if ts[|ts| - 1] == "&" then st.(i := |ts| - 1, background := true) else st;
      if s1.i < 1 then OutOfBounds(s1.i - 1)
      else if s1.i < 2 then OutOfBounds(s1.i - 2)
      else RoundAsWritten(ts, RoundAsWritten(ts, Finished(s1)))
  }

  /** A turn of the loop that stays inside the array does what `Round` does. */
  lemma RoundAsWrittenAgrees(ts: seq<string>, st: State)
    requires st.i <= |ts|
    ensures RoundAsWritten(ts, Finished(st)).Finished? ==>
      RoundAsWritten(ts, Finished(st)) == Finished(Round(ts, st))
  {
  }

  /** Where the source stays inside the array, it does what the guarded `Parse` does. */
  lemma AsWrittenAgrees(ts: seq<string>, st: State, firstIsNull: bool)
    requires st.i == |ts| && (firstIsNull ==> ts == [])
    ensures ParseAsWritten(ts, st, firstIsNull).Finished? ==> ParseAsWritten(ts, st, firstIsNull).st == Parse(ts, st)
  {
    var s1 := StripBackground(ts, st);
    if |ts| > 0 && s1.i >= 2 {
      RoundAsWrittenAgrees(ts, s1);
      var a := RoundAsWritten(ts, Finished(s1));
      if a.Finished? {
        RoundAsWrittenAgrees(ts, a.st);
      }
      TwoRounds(ts, s1);
    }
  }

  /** A one-word command makes the source read `token_array[-1]` (smallsh.c:216). */
  lemma AsWrittenOneWord(w: string, st: State)
    requires w != "&" && st.i == 1
    ensures ParseAsWritten([w], st, false) == OutOfBounds(-1)
  {
  }

  /** A line that is only "&" makes the source read `token_array[-1]` once the "&" is gone. */
  lemma AsWrittenOnlyAmpersand(st: State)
    requires st.i == 1
    ensures ParseAsWritten(["&"], st, false) == OutOfBounds(-1)
  {
  }

  /**
   * `cat < f` makes the source read `token_array[-1]` in the ">" check right after the "<"
   * pair is taken (smallsh.c:230).
   */
  lemma AsWrittenInputRedirect(cmd: string, f: string, st: State)
    requires st.i == 3 && st.wantIn && st.wantOut && f != "&"
    ensures ParseAsWritten([cmd, "<", f], st, false) == OutOfBounds(-1)
  {
    var ts := [cmd, "<", f];
    assert CanIn(ts, st);
  }

  /**
   * When slot 0 is not NULL but the end-of-words test stops at once (slot 0 holds "#"), the
   * source reads `token_array[-1]` in the "&" test (smallsh.c:209).
   */
  lemma AsWrittenHashFirst(st: State)
    requires st.i == 0
    ensures ParseAsWritten([], st, false) == OutOfBounds(-1)
  {
  }
}
