/**
 * The `exit` built-in as `main` handles it (smallsh.c:447-475): the words after `exit` decide
 * the status `main` returns, the notice written to standard error, and whether SIGINT is sent
 * to the process group. Every branch is followed by `goto exit`, out of the main loop. With no
 * argument, `kill(0, SIGINT)` also reaches the shell itself, whose SIGINT handler is armed at
 * that point; the model records the signal as a flag and does not follow that handler.
 */
module ExitCommand {
  import opened Wrappers
  import opened Numerals

  const TooManyArguments: string := "exit: too many arguments\n"
  const NotAnInt: string := "exit: argument not an int\n"
  const Farewell: string := "\nexit\n"

  /** What `exit` does: the status `main` returns, the text on standard error, and `kill(0, SIGINT)`. */
  datatype ExitOutcome = ExitOutcome(status: int, notice: string, interruptGroup: bool)

  /** The exit statuses the source accepts from an argument: strictly between -256 and 256. */
  predicate InExitRange(v: int) { -256 < v < 256 }

  /**
   * The `exit` block of `main`: `arg1` and `arg2` are `cmd_array[1]` and `cmd_array[2]`,
   * `lastStatus` is `dollar_question`. The argument is converted with `strtol` and nothing
   * checks where the conversion stopped.
   */
  function ResolveExit(arg1: Option<string>, arg2: Option<string>, lastStatus: int): (r: ExitOutcome)
    ensures arg2.Some? ==> r == ExitOutcome(-1, TooManyArguments, false)
    ensures r.interruptGroup <==> arg1.None? && arg2.None?
    ensures r.interruptGroup ==> r.status == lastStatus && r.notice == Farewell
    ensures r.notice == Farewell <==> arg2.None? && (arg1.Some? ==> InExitRange(Strtol(arg1.value)))
    ensures r.notice == Farewell && arg1.Some? ==> r.status == Strtol(arg1.value)
    ensures arg2.None? && arg1.Some? && !InExitRange(Strtol(arg1.value)) ==> r == ExitOutcome(-1, NotAnInt, false)
    ensures r.notice != Farewell ==> r.status == -1
  {
    if arg2.Some? then ExitOutcome(-1, TooManyArguments, false)
    else if arg1.Some? then
      var v := Strtol(arg1.value);
      if InExitRange(v) then ExitOutcome(v, Farewell, false) else ExitOutcome(-1, NotAnInt, false)
    else ExitOutcome(lastStatus, Farewell, true)
  }

  /** `exit` alone ends the shell with the status of the last foreground command. */
  lemma ExitAlone(lastStatus: int)
    ensures ResolveExit(None, None, lastStatus) == ExitOutcome(lastStatus, Farewell, true)
  {
  }

  /** `exit n` with n printed in decimal ends the shell with status n when -256 < n < 256. */
  lemma ExitWithNumber(n: int, lastStatus: int)
    requires InExitRange(n)
    ensures ResolveExit(Some(IntToDecimal(n)), None, lastStatus) == ExitOutcome(n, Farewell, false)
  {
    StrtolOfDecimal(n);
  }

  /** Any other integer is refused with "argument not an int" and status -1. */
  lemma ExitOutOfRange(n: int, lastStatus: int)
    requires !InExitRange(n)
    ensures ResolveExit(Some(IntToDecimal(n)), None, lastStatus) == ExitOutcome(-1, NotAnInt, false)
  {
    StrtolOfDecimal(n);
  }

  /** A number followed by other text counts as that number: `exit 3x` ends with status 3. */
  lemma ExitNumberWithSuffix(n: int, rest: string, lastStatus: int)
    requires InExitRange(n) && (rest == [] || !IsDigit(rest[0]))
    ensures ResolveExit(Some(IntToDecimal(n) + rest), None, lastStatus) == ExitOutcome(n, Farewell, false)
  {
    StrtolIgnoresTrailingText(n, rest);
  }

  /** Text with no digits converts to 0, so `exit abc` ends the shell with status 0. */
  lemma AsWrittenExitAbc(lastStatus: int)
    ensures ResolveExit(Some("abc"), None, lastStatus) == ExitOutcome(0, Farewell, false)
  {
    var s := "abc";
    assert SkipSpaces(s, 0) == 0;
    assert DigitRunEnd(s, 0) == 0;
  }

  /** An optional sign followed by one or more digits and nothing else. */
  predicate IsIntegerText(s: string)
  {
    var j := if |s| > 0 && (s[0] == '-' || s[0] == '+') then 1 else 0;
    j < |s| && AllDigits(s[j..])
  }

  /** The text `sprintf` prints for an integer is integer text. */
  lemma DecimalIsIntegerText(n: int)
    ensures IsIntegerText(IntToDecimal(n))
  {
    var s := IntToDecimal(n);
    if n >= 0 {
      assert s[0] != '-' && IsDigit(s[0]);
      assert s[0..] == s;
    }
  }

  /** The intended `exit`: an argument that is not integer text is refused. */
  function ResolveExitChecked(arg1: Option<string>, arg2: Option<string>, lastStatus: int): (r: ExitOutcome)
    ensures arg2.None? && arg1.Some? && !IsIntegerText(arg1.value) ==> r == ExitOutcome(-1, NotAnInt, false)
    ensures arg1.None? || arg2.Some? || IsIntegerText(arg1.value) ==> r == ResolveExit(arg1, arg2, lastStatus)
  {
    if arg2.None? && arg1.Some? && !IsIntegerText(arg1.value) then ExitOutcome(-1, NotAnInt, false)
    else ResolveExit(arg1, arg2, lastStatus)
  }

  /** With the check, `exit abc` is refused, while `exit n` still ends the shell with status n. */
  lemma CheckedExit(n: int, lastStatus: int)
    requires InExitRange(n)
    ensures ResolveExitChecked(Some("abc"), None, lastStatus) == ExitOutcome(-1, NotAnInt, false)
    ensures ResolveExitChecked(Some(IntToDecimal(n)), None, lastStatus) == ExitOutcome(n, Farewell, false)
  {
    assert !IsDigit("abc"[0]);
    assert "abc"[0..][0] == 'a';
    DecimalIsIntegerText(n);
    ExitWithNumber(n, lastStatus);
  }
}
