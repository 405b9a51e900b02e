/**
 * The state `main` keeps across iterations of its loop (smallsh.c:407-478): `cmd_array`, the
 * globals `is_background`, `set_infile`, `set_outfile`, `dollar_question`,
 * `dollar_exclamation`, and the first slots of `in_file_name` and `out_file_name`. The methods
 * are the clean-up at the top of the loop, `GetCommands`, `ParseCommands` and the `exit` check.
 */
module Smallsh {
  import opened Wrappers
  import opened Numerals
  import opened Tokenizer
  import opened Expansion
  import opened Parsing
  import opened ExitCommand

  /** `MAX_LINE`: both the longest accepted input line and the number of slots of `cmd_array`. */
  const MaxLine: nat := 512

  /** Index of the first slot at or after `i` that is NULL or holds "#" (the end-of-words test). */
  function WordEnd(slots: seq<Option<string>>, i: nat): (n: nat)
    requires i <= |slots|
    ensures i <= n <= |slots|
    ensures forall k :: i <= k < n ==> slots[k].Some? && slots[k].value != "#"
    ensures n < |slots| ==> slots[n].None? || slots[n].value == "#"
    decreases |slots| - i
  {
    if i < |slots| && slots[i].Some? && slots[i].value != "#" then WordEnd(slots, i + 1) else i
  }

  /** The words of the slots before the end-of-words test stops. */
  function Visible(slots: seq<Option<string>>): (ws: seq<string>)
    ensures |ws| == WordEnd(slots, 0)
    ensures forall k :: 0 <= k < |ws| ==> slots[k] == Some(ws[k]) && ws[k] != "#"
  {
    var n := WordEnd(slots, 0);
    seq(n, k requires 0 <= k < n => slots[k].value)
  }

  /** `cmd_array` holding the words `ws` followed by NULLs (truncated to MAX_LINE slots). */
  function Slots(ws: seq<string>): (slots: seq<Option<string>>)
    ensures |slots| == MaxLine
    ensures forall k :: 0 <= k < MaxLine ==> slots[k] == if k < |ws| then Some(ws[k]) else None
  {
    seq(MaxLine, k requires 0 <= k < MaxLine => if k < |ws| then Some(ws[k]) else None)
  }

  /** Storing the words and reading them back gives the same words when none is "#". */
  lemma VisibleSlots(ws: seq<string>)
    requires |ws| < MaxLine && "#" !in ws
    ensures Visible(Slots(ws)) == ws
  {
    var slots := Slots(ws);
    forall k | 0 <= k < |ws|
      ensures slots[k].Some? && slots[k].value != "#"
    {
      assert ws[k] in ws;
    }
    WordEndAt(slots, 0, |ws|);
  }

  lemma {:induction false} WordEndAt(slots: seq<Option<string>>, i: nat, n: nat)
    requires i <= n < |slots|
    requires forall k :: i <= k < n ==> slots[k].Some? && slots[k].value != "#"
    requires slots[n].None?
    ensures WordEnd(slots, i) == n
    decreases n - i
  {
    if i < n {
      WordEndAt(slots, i + 1, n);
    }
  }

  /** The end-of-words test stops at a NULL slot at the latest. */
  lemma {:induction false} WordEndBound(slots: seq<Option<string>>, i: nat, n: nat)
    requires i <= n < |slots| && slots[n].None?
    ensures WordEnd(slots, i) <= n
    decreases n - i
  {
    if i < n {
      WordEndBound(slots, i + 1, n);
    }
  }

  /** One turn of the `strtok` loop: the word `strtok` returns is the next one of the line. */
  lemma TokensStep(s: string, sep: string, save: nat, done: seq<string>, ws: seq<string>)
    requires save <= |s| && ws == done + BeforeHash(FieldsFrom(s, sep, save))
    requires StrTok(s, save, sep).Some? && StrTok(s, save, sep).value.text != "#"
    ensures var t := StrTok(s, save, sep).value;
      |done| < |ws| && ws == (done + [t.text]) + BeforeHash(FieldsFrom(s, sep, t.next))
  {
    var t := StrTok(s, save, sep).value;
    StrTokStep(s, save, sep);
    BeforeHashCons(t.text, FieldsFrom(s, sep, t.next));
  }

  /** When `strtok` finds no word, or finds "#", the stored words are all the words. */
  lemma TokensExit(s: string, sep: string, save: nat, done: seq<string>, ws: seq<string>)
    requires save <= |s| && ws == done + BeforeHash(FieldsFrom(s, sep, save))
    requires StrTok(s, save, sep).None? || StrTok(s, save, sep).value.text == "#"
    ensures ws == done
  {
    StrTokStep(s, save, sep);
  }

  /** Every word of the line after the four expansion passes. */
  function ExpandAll(ws: seq<string>, home: string, pid: int, status: int, background: string): (es: seq<string>)
    ensures |es| == |ws|
  {
    if ws == [] then [] else [ExpandToken(ws[0], home, pid, status, background)] + ExpandAll(ws[1..], home, pid, status, background)
  }

  /** Each word is expanded on its own. */
  lemma {:induction false} ExpandAllAt(ws: seq<string>, home: string, pid: int, status: int, background: string, k: nat)
    requires k < |ws|
    ensures ExpandAll(ws, home, pid, status, background)[k] == ExpandToken(ws[k], home, pid, status, background)
    decreases k
  {
    if k > 0 {
      ExpandAllAt(ws[1..], home, pid, status, background, k - 1);
    }
  }

  /**
   * A first word that expands to "#" (`$!#` while `$!` is empty) leaves slot 0 not NULL but
   * no word before the end-of-words test, so the source reads `token_array[-1]`.
   */
  lemma AsWrittenHashWord(home: string, pid: int, status: int, st: State)
    requires st.i == 0
    ensures var slots := Slots(ExpandAll(["$!#"], home, pid, status, ""));
      slots[0] == Some("#") && Visible(slots) == [] &&
      ParseAsWritten(Visible(slots), st, slots[0].None?) == OutOfBounds(-1)
  {
    ExpandToHash(home, pid, status);
    ExpandAllAt(["$!#"], home, pid, status, "", 0);
  }

  /** How one call of `GetCommands` ends. */
  datatype ReadOutcome =
    | Interrupted   // getline returned -1: the prompt is shown again (smallsh.c:140-142)
    | NoCommand     // a line of length 1 (smallsh.c:135)
    | LineTooLong   // more than MAX_LINE characters: the shell exits with status 1 (smallsh.c:136-139)
    | Stored        // the words are in cmd_array, expanded

  /** What the outcome of reading `line` is (`None` is the -1 of getline). */
  function ReadResult(line: Option<string>): (r: ReadOutcome)
    ensures r == Stored <==> line.Some? && |line.value| != 1 && |line.value| <= MaxLine
  {
    if line.None? then Interrupted
    else if |line.value| == 1 then NoCommand
    else if |line.value| > MaxLine then LineTooLong
    else Stored
  }

  /** How one iteration of `main`'s loop ends, up to the call of `ExecuteCommands`. */
  datatype Step =
    | Reprompt                  // back to the top of the loop
    | TooLong                   // exit(1)
    | Exit(outcome: ExitOutcome) // the `exit` built-in: main returns outcome.status
    | Execute                   // ParseCommands has run; ExecuteCommands comes next

  class Shell {
    /** `cmd_array`: MAX_LINE slots, NULL (`None`) past the words. */
    const cmd: array<Option<string>>
    var isBackground: bool
    var setInfile: bool
    var setOutfile: bool
    /** `in_file_name[0]` and `out_file_name[0]`, the only slots `ParseCommands` writes. */
    var inFileName: Option<string>
    var outFileName: Option<string>
    /** `$?` and `$!`. */
    var dollarQuestion: int
    var dollarExclamation: string

    predicate Valid()
      reads this
    {
      cmd.Length == MaxLine
    }

    /** The state before the first iteration: all slots NULL, flags 0, `$?` 0, `$!` empty. */
    constructor ()
      ensures Valid() && fresh(cmd)
      ensures forall k :: 0 <= k < MaxLine ==> cmd[k].None?
      ensures !isBackground && !setInfile && !setOutfile && inFileName.None? && outFileName.None?
      ensures dollarQuestion == 0 && dollarExclamation == ""
    {
      cmd := new Option<string>[MaxLine](_ => None);
      isBackground := false;
      setInfile := false;
      setOutfile := false;
      inFileName := None;
      outFileName := None;
      dollarQuestion := 0;
      dollarExclamation := "";
    }

    /** The parser's view of the globals, with `i` the end of the words. */
    function Parser(i: nat): State
      reads this
    {
      State(i, isBackground, !setInfile, !setOutfile, inFileName, outFileName)
    }

    /** `cmd_array` holds exactly the words `ws`, then NULLs. */
    predicate HoldsWords(ws: seq<string>)
      reads this, cmd
    {
      cmd[..] == Slots(ws)
    }

    /** The clean-up at the top of `main`'s loop (smallsh.c:424-435). */
    method BeginIteration()
      requires Valid()
      modifies this, cmd
      ensures Valid() && HoldsWords([])
      ensures !isBackground && !setInfile && !setOutfile && inFileName.None? && outFileName.None?
      ensures dollarQuestion == old(dollarQuestion) && dollarExclamation == old(dollarExclamation)
    {
      isBackground := false;
      for i := 0 to MaxLine
        invariant forall k :: 0 <= k < i ==> cmd[k].None?
        modifies cmd
      {
        cmd[i] := None;
      }
      inFileName := None;
      outFileName := None;
      setInfile := false;
      setOutfile := false;
    }

    /**
     * `GetCommands` (smallsh.c:133-190) after the prompt: `line` is what getline read, `ifs`
     * is `getenv("IFS")`, `home` is `getenv("HOME")` and `pid` is `getpid()`. The words `strtok`
     * finds before a "#" word are stored, then each is expanded.
     */
    method GetCommands(line: Option<string>, ifs: Option<string>, home: string, pid: int)
      returns (outcome: ReadOutcome)
      requires Valid() && HoldsWords([])
      modifies cmd
      ensures outcome == ReadResult(line)
      ensures outcome != Stored ==> HoldsWords([])
      ensures outcome == Stored ==> |Tokens(line.value, Separators(ifs))| <= MaxLine / 2
      ensures outcome == Stored ==>
        HoldsWords(ExpandAll(Tokens(line.value, Separators(ifs)), home, pid, dollarQuestion, dollarExclamation))
    {
      outcome := ReadResult(line);
      if outcome != Stored {
        return;
      }
      var sep := Separators(ifs);
      ghost var ws := Tokens(line.value, sep);
      TokensBound(line.value, sep);
      StoreWords(line.value, sep);
      ExpandWords(ws, home, pid);
    }

    /** The `strtok` loop of `GetCommands` (smallsh.c:145-158): the words before "#" are stored. */
    method StoreWords(s: string, sep: string)
      requires Valid() && HoldsWords([]) && |s| <= MaxLine
      modifies cmd
      ensures HoldsWords(Tokens(s, sep))
    {
      ghost var ws := Tokens(s, sep);
      TokensBound(s, sep);
      ghost var done: seq<string> := [];
      var i := 0;
      var save: nat := 0;
      var token := StrTok(s, save, sep);
      while token.Some? && token.value.text != "#"
        invariant save <= |s| && token == StrTok(s, save, sep)
        invariant ws == done + BeforeHash(FieldsFrom(s, sep, save)) && i == |done|
        invariant HoldsWords(done)
        decreases |s| - save
      {
        TokensStep(s, sep, save, done, ws);
        cmd[i] := Some(token.value.text);
        done := done + [token.value.text];
        save := token.value.next;
        i := i + 1;
        token := StrTok(s, save, sep);
      }
      TokensExit(s, sep, save, done, ws);
    }

    /** The first `k` words are expanded, the rest are as stored. */
    predicate ExpandedUpTo(ws: seq<string>, es: seq<string>, k: nat)
      requires |es| == |ws| && k <= |ws|
      reads this, cmd
    {
      forall j :: 0 <= j < cmd.Length ==>
        cmd[j] == (if j < k then Some(es[j]) else if j < |ws| then Some(ws[j]) else None)
    }

    /** The expansion loop of `GetCommands` (smallsh.c:160-188): each stored word is expanded in place. */
    method ExpandWords(ghost ws: seq<string>, home: string, pid: int)
      requires Valid() && HoldsWords(ws) && |ws| < MaxLine
      requires forall j :: 0 <= j < |ws| ==> ws[j] != "#"
      modifies cmd
      ensures HoldsWords(ExpandAll(ws, home, pid, dollarQuestion, dollarExclamation))
    {
      ghost var es := ExpandAll(ws, home, pid, dollarQuestion, dollarExclamation);
      var k := 0;
      while cmd[k].Some? && cmd[k].value != "#"
        invariant k <= |ws| && ExpandedUpTo(ws, es, k)
        decreases |ws| - k
      {
        ExpandSlot(ws, k, home, pid);
        k := k + 1;
      }
    }

    /** One turn of the expansion loop: the word in slot `k` is replaced by its expansion. */
    method ExpandSlot(ghost ws: seq<string>, k: nat, home: string, pid: int)
      requires Valid() && k < |ws| && k < MaxLine && cmd[k] == Some(ws[k])
      modifies cmd
      ensures cmd[k] == Some(ExpandAll(ws, home, pid, dollarQuestion, dollarExclamation)[k])
      ensures forall j :: 0 <= j < MaxLine && j != k ==> cmd[j] == old(cmd[j])
    {
      var w := ExpandWord(cmd[k].value, home, pid, dollarQuestion, dollarExclamation);
      ExpandAllAt(ws, home, pid, dollarQuestion, dollarExclamation, k);
      cmd[k] := Some(w);
    }

    /** The words occupy the slots below `i`. */
    predicate Below(ts: seq<string>, i: nat)
      reads this, cmd
    {
      i <= |ts| && i <= cmd.Length && forall k :: 0 <= k < i ==> cmd[k] == Some(ts[k])
    }

    /** The loop that finds the end of the words (smallsh.c:206-208). */
    method FindEnd() returns (i: nat)
      requires Valid() && WordEnd(cmd[..], 0) < MaxLine
      ensures i == WordEnd(cmd[..], 0)
    {
      i := 0;
      while cmd[i].Some? && cmd[i].value != "#"
        invariant i <= WordEnd(cmd[..], 0)
        invariant forall k :: 0 <= k < i ==> cmd[..][k].Some? && cmd[..][k].value != "#"
        decreases MaxLine - i
      {
        i := i + 1;
      }
    }

    /** The trailing "&" test (smallsh.c:209-215). */
    method TakeBackground(ghost ts: seq<string>, i: nat) returns (i': nat)
      requires Valid() && Below(ts, i)
      modifies this, cmd
      ensures Parser(i') == StripBackground(ts, old(Parser(i))) && Below(ts, i')
      ensures forall k :: 0 <= k < MaxLine ==> cmd[k] == if i' <= k < i then None else old(cmd[k])
      ensures dollarQuestion == old(dollarQuestion) && dollarExclamation == old(dollarExclamation)
    {
      i' := i;
      if i >= 1 && cmd[i - 1].Some? && cmd[i - 1].value == "&" {
        isBackground := true;
        cmd[i - 1] := None;
        i' := i - 1;
      }
    }

    /** The "<" check in the loop of `ParseCommands` (smallsh.c:219-228). */
    method TakeInput(ghost ts: seq<string>, i: nat) returns (i': nat)
      requires Valid() && Below(ts, i)
      modifies this, cmd
      ensures Parser(i') == InCheck(ts, old(Parser(i))) && Below(ts, i')
      ensures forall k :: 0 <= k < MaxLine ==> cmd[k] == if i' <= k < i then None else old(cmd[k])
      ensures dollarQuestion == old(dollarQuestion) && dollarExclamation == old(dollarExclamation)
    {
      i' := i;
      if !setInfile {
        if i >= 2 && cmd[i - 2] == Some("<") {
          inFileName := cmd[i - 1];
          cmd[i - 2] := None;
          cmd[i - 1] := None;
          i' := i - 2;
          setInfile := true;
        }
      }
    }

    /** The ">" check in the loop of `ParseCommands` (smallsh.c:229-238). */
    method TakeOutput(ghost ts: seq<string>, i: nat) returns (i': nat)
      requires Valid() && Below(ts, i)
      modifies this, cmd
      ensures Parser(i') == OutCheck(ts, old(Parser(i))) && Below(ts, i')
      ensures forall k :: 0 <= k < MaxLine ==> cmd[k] == if i' <= k < i then None else old(cmd[k])
      ensures dollarQuestion == old(dollarQuestion) && dollarExclamation == old(dollarExclamation)
    {
      i' := i;
      if !setOutfile {
        if i >= 2 && cmd[i - 2] == Some(">") {
          outFileName := cmd[i - 1];
          cmd[i - 2] := None;
          cmd[i - 1] := None;
          i' := i - 2;
          setOutfile := true;
        }
      }
    }

    /**
     * `ParseCommands` (smallsh.c:198-244) on the words of `cmd_array`: the slots it takes off
     * become NULL and the globals take the values `Parse` gives.
     */
    method ParseCommands()
      requires Valid() && WordEnd(cmd[..], 0) < MaxLine
      modifies this, cmd
      ensures Valid()
      ensures var ts := Visible(old(cmd[..]));
        var r := Parse(ts, old(Parser(|ts|)));
        Parser(r.i) == r &&
        forall k :: 0 <= k < MaxLine ==> cmd[k] == if r.i <= k < |ts| then None else old(cmd[k])
      ensures dollarQuestion == old(dollarQuestion) && dollarExclamation == old(dollarExclamation)
    {
      ghost var ts := Visible(cmd[..]);
      ghost var s0 := Parser(|ts|);
      if cmd[0].None? {
        return;
      }
      var i: nat := FindEnd();
      i := TakeBackground(ts, i);
      ghost var s1 := Parser(i);
      ghost var i1 := i;
      ghost var stripped := cmd[..];
      if i >= 2 && cmd[i - 1].Some? && cmd[i - 2].Some? {
        for j := 0 to 2
          invariant Parser(i) == if j == 0 then s1 else if j == 1 then Round(ts, s1) else Round(ts, Round(ts, s1))
          invariant Below(ts, i) && i <= i1
          invariant forall k :: 0 <= k < MaxLine ==> cmd[k] == if i <= k < i1 then None else stripped[k]
          invariant dollarQuestion == old(dollarQuestion) && dollarExclamation == old(dollarExclamation)
        {
          i := TakeInput(ts, i);
          i := TakeOutput(ts, i);
        }
      }
      TwoRounds(ts, s1);
    }

    /**
     * The `exit` check of `main` (smallsh.c:447-475): present exactly when the first word is
     * "exit". An argument that is not integer text is refused, as `ResolveExitChecked` states.
     */
    function ExitRequest(): (r: Option<ExitOutcome>)
      requires Valid()
      reads this, cmd
      ensures r.Some? <==> cmd[0] == Some("exit")
      ensures r.Some? ==> r.value == ResolveExitChecked(cmd[1], cmd[2], dollarQuestion)
    {
      if cmd[0] == Some("exit") then Some(ResolveExitChecked(cmd[1], cmd[2], dollarQuestion)) else None
    }

    /**
     * One iteration of `main`'s loop (smallsh.c:422-477) up to `ExecuteCommands`, which is not
     * part of this model.
     */
    method Iterate(line: Option<string>, ifs: Option<string>, home: string, pid: int) returns (step: Step)
      requires Valid()
      modifies this, cmd
      ensures Valid()
      ensures dollarQuestion == old(dollarQuestion) && dollarExclamation == old(dollarExclamation)
      ensures ReadResult(line) == Interrupted || ReadResult(line) == NoCommand ==> step == Reprompt
      ensures ReadResult(line) == LineTooLong ==> step == TooLong
      ensures ReadResult(line) == Stored ==>
        var es := ExpandAll(Tokens(line.value, Separators(ifs)), home, pid, dollarQuestion, dollarExclamation);
        var slots := Slots(es);
        if es == [] then step == Reprompt
        else if es[0] == "exit" then step == Exit(ResolveExitChecked(slots[1], slots[2], dollarQuestion))
        else
          var ts := Visible(slots);
          var r := Parse(ts, Start(ts, false, false, false, None, None));
          step == Execute && Parser(r.i) == r &&
          forall k :: 0 <= k < MaxLine ==> cmd[k] == if r.i <= k < |ts| then None else slots[k]
    {
      BeginIteration();
      var outcome := GetCommands(line, ifs, home, pid);
      if outcome == Interrupted || outcome == NoCommand {
        return Reprompt;
      }
      if outcome == LineTooLong {
        return TooLong;
      }
      if cmd[0].None? {
        return Reprompt;
      }
      var request := ExitRequest();
      if request.Some? {
        return Exit(request.value);
      }
      ghost var es := ExpandAll(Tokens(line.value, Separators(ifs)), home, pid, dollarQuestion, dollarExclamation);
      assert cmd[..] == Slots(es);
      WordEndBound(cmd[..], 0, |es|);
      ParseCommands();
      step := Execute;
    }
  }
}
