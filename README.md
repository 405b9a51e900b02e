# smallsh: input handling, described in Dafny

smallsh is a small interactive Unix shell written in C (`smallsh.c`). Each turn of its main
loop does five things:

1. It reads one line.
2. It splits the line into words, using the separators in `IFS`. Everything from a word that
   is exactly `#` onwards is dropped.
3. It expands each word:
   - `~` becomes HOME, but only in a word that begins with `~/`;
   - `$$` becomes the shell's process id;
   - `$?` becomes the status of the last foreground command;
   - `$!` becomes the id of the last background command.
4. It handles the `exit` built-in.
5. It takes a trailing `&` (run in the background) off the end of the word list, then a
   trailing `< file` and/or `> file` pair, in either order.

Running the command (`ExecuteCommands`) is not part of this model.

The model has one module per concern:

| module | what it holds |
|---|---|
| `Wrappers` | `Option` |
| `Numerals` | `sprintf("%d")`, and `strtol(s, NULL, 10)` as section 7.22.1.4 of ISO C11 describes it for a 64-bit `long` |
| `Substitution` | `str_gsub`. `Gsub` is the reference scan. `StrGsub` is the source's `strstr`/`memmove`/`memcpy` loop over a buffer, proved equal to `Gsub`. |
| `Tokenizer` | `strtok`, specified by `FieldsFrom` (the maximal runs of non-separators), and the stop at `#` |
| `Expansion` | the four `str_gsub` passes on one word: the reference `ExpandToken` and the method `ExpandWord` |
| `Parsing` | what `ParseCommands` does to a word list. `Peel` is the greedy reference, `Round` is one turn of the source's two-turn loop, and `ParseAsWritten` follows the source's unguarded index arithmetic. |
| `ExitCommand` | the `exit` block of `main`, as written (`ResolveExit`) and corrected (`ResolveExitChecked`) |
| `Sequences` | slice facts that the scanning proofs share |
| `Smallsh` | class `Shell` |

Class `Shell` holds:
- `cmd_array`, as an array of 512 `Option<string>` slots (NULL is `None`);
- the globals `is_background`, `set_infile`, `set_outfile`, `dollar_question` and `dollar_exclamation`;
- the first slots of `in_file_name` and `out_file_name`.

Its methods are the clean-up at the top of the loop, `GetCommands`, `ParseCommands` and one
whole iteration (`Iterate`). Each is proved against the reference functions above.

Class `Shell` runs the corrected versions of the two defects listed under "Findings":
- `Shell.ParseCommands` is the bounds-checked parser `Parsing.Parse`;
- `Shell.ExitRequest`, and so `Shell.Iterate`, uses `ResolveExitChecked`, which refuses
  `exit abc`.

The code as written is modelled beside them, by `Parsing.ParseAsWritten` and
`ExitCommand.ResolveExit`, with lemmas that exhibit each defect.

A Dafny `string` stands for the C byte string: one `char` per byte. So line lengths (the
`MAX_LINE` test) and word counts are in bytes only for text whose characters are all below 256.

The `~/` test compares a two-character array that has no terminating NUL with `strcmp`
(smallsh.c:164-166). So for a word that begins with `~/`, `strcmp` reads past the array, and
what happens is undefined. The model uses the prefix test the code evidently means.

Inputs from the environment become parameters:
- the line `getline` returns (`None` for -1);
- `getenv("IFS")` and `getenv("HOME")`;
- `getpid()`.

In these places the model follows the code as written:
- The `~` pass replaces every `~` in a word that begins with `~/`, not only the leading one
  (smallsh.c:166-169).
- Every branch of the `exit` block ends in `goto exit`, out of `main`'s loop, including "too
  many arguments" and "argument not an int" (smallsh.c:447-475). `exit` with no argument first
  sends SIGINT to the process group (smallsh.c:470), and that is not followed further; see
  "Left out".
- A line of length 1 counts as "no command" whatever its one character is (smallsh.c:135).
- `getline` returning -1 goes back to the prompt (smallsh.c:140-142).
- An argument to `exit` is converted with `strtol` without an end check (smallsh.c:454). This
  is modelled as written in `ResolveExit` and reported below. Class `Shell` uses the corrected
  `ResolveExitChecked`.

## Model

| member | source | states |
|---|---|---|
| `Numerals.DigitChar` | smallsh.c:174-181 | a digit value below 10 is printed as a decimal digit character |
| `Numerals.DigitValue` | smallsh.c:454 | reading a digit character gives a value below 10 that prints back as the same character |
| `Numerals.NatToDecimal` | smallsh.c:174-181 | the printed magnitude is a non-empty run of digits with no leading zero |
| `Numerals.IntToDecimal` | smallsh.c:174-181 | `%d` output is non-empty, starts with '-' exactly for negative values, and is digits otherwise |
| `Numerals.NatToDecimalRoundTrip` | smallsh.c:174-181 | reading back the printed digits gives the number |
| `Numerals.SkipSpaces` | smallsh.c:454 | `strtol` skips exactly the leading `isspace` characters |
| `Numerals.DigitRunEnd` | smallsh.c:454 | the digits `strtol` consumes are the maximal run of digits |
| `Numerals.Clamp` | smallsh.c:454 | a value outside `long` becomes LONG_MIN or LONG_MAX; one inside is kept |
| `Numerals.Strtol` | smallsh.c:454 | `strtol(s, NULL, 10)`: the result is within `long`; it is 0 when no digit follows the white space and optional sign, and negative only after a '-'. `StrtolOfDecimal` and `StrtolIgnoresTrailingText` pin its value. |
| `Numerals.StrtolOfRun` | smallsh.c:454 | `strtol` of an optional '-' and a digit run is the clamped, signed value of the run |
| `Numerals.StrtolOfDecimal` | smallsh.c:454 | converting printed decimal text gives the value back, clamped to `long` |
| `Numerals.StrtolIgnoresTrailingText` | smallsh.c:454 | text after the number's digits does not change the result |
| `Numerals.DecimalRun` | smallsh.c:454 | in printed text followed by a non-digit, the digits run from after the sign to the end of the number |
| `Numerals.DigitRunStops` | smallsh.c:454 | the digit run ends at the first non-digit |
| `Substitution.MatchFromSlice` | smallsh.c:52 | a character-wise match from offset k is the same as equality of slices |
| `Substitution.MatchAtSlice` | smallsh.c:52 | `needle` occurs at i exactly when the slice at i equals it |
| `Substitution.GsubFrom` | smallsh.c:52-64 | the reference scan from an index: a match there is replaced and the scan resumes after it, otherwise the character is kept. `GsubFromLength`, `GsubFromNoMatch`, `GsubFirstMatch` and `GsubFromIdentity` state what it does. |
| `Substitution.Gsub` | smallsh.c:45-73 | the reference for `str_gsub`, which `StrGsub` is proved equal to. `GsubLength`, `GsubNoMatch`, `GsubIdentity` and `GsubRemovesChar` state its properties. |
| `Substitution.StrStr` | smallsh.c:52 | `strstr` gives the first occurrence at or after the offset, or none when there is none |
| `Substitution.GsubFromLength` | smallsh.c:62 | from any index, the result length changes by `|sub|-|needle|` for each replaced occurrence |
| `Substitution.GsubLength` | smallsh.c:62 | the final string length is the original plus `|sub|-|needle|` per replacement |
| `Substitution.CountFromZeroIff` | smallsh.c:52-64 | nothing is replaced from i on exactly when `needle` occurs nowhere from i on |
| `Substitution.CountZeroIff` | smallsh.c:52-64 | nothing is replaced exactly when `needle` does not occur |
| `Substitution.GsubFromNoMatch` | smallsh.c:52-64 | with no occurrence from i on, the rest is copied unchanged |
| `Substitution.GsubNoMatch` | smallsh.c:52-65 | a string without `needle` comes back unchanged |
| `Substitution.MatchAtFirst` | smallsh.c:52 | an occurrence starts with the needle's first character |
| `Substitution.MatchAtSingle` | smallsh.c:168 | a one-character needle occurs exactly at the positions of that character |
| `Substitution.GsubAbsentFirstChar` | smallsh.c:52-65 | text without the needle's first character is unchanged |
| `Substitution.GsubFirstMatch` | smallsh.c:60-63 | the first occurrence is replaced and scanning resumes after it, so the inserted text is never searched again |
| `Substitution.ShiftMatch` | smallsh.c:52-63 | strings that agree from i and j on have matching occurrences at corresponding offsets |
| `Substitution.GsubFromIdentity` | smallsh.c:52-64 | replacing a needle by itself leaves the rest unchanged |
| `Substitution.GsubIdentity` | smallsh.c:45-73 | `str_gsub(s, n, n)` returns s |
| `Substitution.GsubFromRemovesChar` | smallsh.c:52-64 | replacing a character by text that lacks it removes it from the rest |
| `Substitution.GsubRemovesChar` | smallsh.c:45-73 | after replacing a character by text that lacks it, the result does not contain it |
| `Substitution.StepMatches` | smallsh.c:52-53 | the occurrence found in the buffer is the first one in the original from `src` on |
| `Substitution.StepAlgebra` | smallsh.c:60-63 | one `memmove`/`memcpy` step keeps the buffer's unscanned tail equal to the original's |
| `Substitution.NextReplacement` | smallsh.c:52-63 | the occurrence `strstr` finds is the next one the reference scan replaces |
| `Substitution.GsubLoopStep` | smallsh.c:52-64 | one loop turn keeps the invariant that the processed buffer plus the reference on the rest equals `Gsub` |
| `Substitution.GsubLoopExit` | smallsh.c:52-65 | when `strstr` finds nothing, the buffer is the final result |
| `Substitution.StrGsub` | smallsh.c:45-73 | the grow/move/copy loop computes exactly `Gsub(haystack, needle, sub)` |
| `Tokenizer.Separators` | smallsh.c:147-148 | `getenv("IFS")`, or " \t\n" when it is unset; every tokenizer lemma holds for any separator set |
| `Tokenizer.SkipSeparators` | smallsh.c:150-155 | `strtok` skips exactly the leading separators |
| `Tokenizer.TokenEnd` | smallsh.c:150-155 | a word runs up to the next separator or the end |
| `Tokenizer.StrTok` | smallsh.c:150-155 | `strtok` returns NULL exactly when only separators remain; otherwise a non-empty, separator-free word and a later resume position |
| `Tokenizer.FieldsFrom` | smallsh.c:150-158 | every reference word is non-empty and separator-free |
| `Tokenizer.Fields` | smallsh.c:150-158 | the words of a whole line. `FieldsEmptyIff`, `FieldsBound`, `FieldsConcat` and `FieldsOfJoin` state what they are, and `StrTokStep` ties them to `strtok`. |
| `Tokenizer.BeforeHash` | smallsh.c:152 | the kept words are the prefix before the first `#`, contain no `#`, and a `#` follows when something was dropped |
| `Tokenizer.Tokens` | smallsh.c:150-158 | the stored words are non-empty, separator-free and not `#`; they are the words of the line up to the first `#` word, which follows them whenever some were dropped |
| `Tokenizer.BeforeHashCons` | smallsh.c:152 | a word other than `#` is kept and scanning continues |
| `Tokenizer.FieldsSkip` | smallsh.c:150-155 | leading separators do not change the words |
| `Tokenizer.StrTokStep` | smallsh.c:150-155 | each `strtok` call returns the next reference word and resumes where the rest's words begin; NULL exactly when there are none |
| `Tokenizer.FieldsEmptyIff` | smallsh.c:150-152 | a line has no words exactly when it is all separators |
| `Tokenizer.FieldsBound` | smallsh.c:150-158 | a line of n characters yields at most (n+1)/2 words |
| `Tokenizer.TokensBound` | smallsh.c:136-158 | a line of at most MAX_LINE characters yields at most 256 words, so `cmd_array` always has a NULL after them |
| `Tokenizer.NonSeparatorsRun` | smallsh.c:150-155 | a run of non-separators is kept whole |
| `Tokenizer.FieldsConcat` | smallsh.c:150-158 | the words hold exactly the line's non-separator characters, in order |
| `Tokenizer.TokenEndLocal` | smallsh.c:150-155 | a word's length depends only on the text from its start |
| `Tokenizer.FieldsLocal` | smallsh.c:150-158 | the words from a position depend only on the text from there |
| `Tokenizer.TokenEndRun` | smallsh.c:150-155 | a word ends at the first separator after a separator-free run |
| `Tokenizer.FirstWord` | smallsh.c:150-155 | a line starting with a separator-free word ended by a separator yields that word first |
| `Tokenizer.FieldsOfJoin` | smallsh.c:150-158 | tokenizing words joined by one separator gives back exactly those words: nothing is split or merged |
| `Tokenizer.JoinStep` | smallsh.c:150-155 | a word, a separator and more text give the word, then the words of the rest |
| `Expansion.HasHomePrefix` | smallsh.c:164-166 | the `first_chars`/`strcmp` test, as the prefix test "the word's first two characters are `~/`" (see "Left out") |
| `Expansion.ExpandHome` | smallsh.c:164-169 | the `~` pass: every '~' becomes HOME, but only in a word beginning with `~/`. `ExpandHomeRemovesTilde` and `ExpandHomeWord` state its effect. |
| `Expansion.ExpandToken` | smallsh.c:164-187 | the four passes in the source's order, each on the previous output. `ExpandPlain`, `ExpandPid`, `ExpandStatus`, `ExpandBackground`, `ExpandOrder` and `ExpandToHash` state what they give. |
| `Expansion.ExpandWord` | smallsh.c:164-187 | the four `str_gsub` calls in order compute `ExpandToken` |
| `Expansion.DecimalChars` | smallsh.c:174-182 | the inserted pid and status text contain no '$' or '~' |
| `Expansion.ExpandPlain` | smallsh.c:162-190 | a word without '$' that does not begin with `~/` is unchanged |
| `Expansion.GsubWhole` | smallsh.c:175-187 | a word that is exactly the needle becomes the substitute |
| `Expansion.ExpandPid` | smallsh.c:172-176 | `$$` becomes the decimal process id |
| `Expansion.ExpandStatus` | smallsh.c:180-183 | `$?` becomes the decimal `dollar_question` |
| `Expansion.ExpandBackground` | smallsh.c:187 | `$!` becomes `dollar_exclamation` |
| `Expansion.ExpandOrder` | smallsh.c:172-183 | `$$?` becomes the pid followed by `?`, because the `$$` pass runs first |
| `Expansion.ExpandToHash` | smallsh.c:166-187 | while `dollar_exclamation` is empty, the word `$!#` expands to `#` |
| `Expansion.ExpandHomeRemovesTilde` | smallsh.c:166-169 | in a word beginning `~/`, no '~' is left when HOME has none |
| `Expansion.ExpandHomeWord` | smallsh.c:166-169 | `~/rest` becomes HOME + `/rest` when rest has no '~' |
| `Parsing.Peel` | smallsh.c:218-239 | the greedy reference. It never adds words. It stops only when no open direction has `<`/`>` just before the last word. It takes each direction at most once and keeps the other fields. It removes two words per direction taken. Each file recorded is the word after a `<`/`>` in the removed range. |
| `Parsing.InCheck` | smallsh.c:219-228 | the `<` check: either nothing changes, or the open input direction is set to the word after the `<` two before the end, and those two words are removed; nothing else changes |
| `Parsing.OutCheck` | smallsh.c:229-238 | the `>` check: the same rule for the output direction |
| `Parsing.Round` | smallsh.c:219-238 | one loop turn never adds words, keeps the background flag, and removes two words per direction it sets |
| `Parsing.TwoRounds` | smallsh.c:218-239 | two turns of the in-check/out-check loop give the greedy reference, whichever order the pairs are in |
| `Parsing.StripBackground` | smallsh.c:209-215 | either nothing changes, or the last word is `&`, it is removed and the background flag is set, and nothing else changes |
| `Parsing.Parse` | smallsh.c:198-244 | the bounds-checked `ParseCommands` on the visible words. It never adds words. No open direction can still be taken at the end. The background flag is set exactly when it was set already or the last word is `&`. `TwoRounds` ties it to the source's loop. |
| `Parsing.ParseBackground` | smallsh.c:209-215 | the background flag is set exactly when the last word is `&`, which is then removed |
| `Parsing.ParsePlain` | smallsh.c:209-240 | a list with no trailing `&` and no `<`/`>` before its last word is left whole |
| `Parsing.InThenOut` | smallsh.c:216-239 | `... < a > b` sets in-file a and out-file b and removes all four words |
| `Parsing.OutThenIn` | smallsh.c:216-239 | `... > b < a` gives the same outcome |
| `Parsing.InCheckAsWritten` | smallsh.c:219-220 | the `<` check as written: with the input direction open and fewer than two words left it stops at the read of `token_array[i - 2]`, a negative index; otherwise it is `InCheck`, never adding words |
| `Parsing.OutCheckAsWritten` | smallsh.c:229-230 | the `>` check as written, by the same rule; it runs on the `i` the `<` check left, so it can read `[i - 2]` after a pair was removed |
| `Parsing.RoundAsWritten` | smallsh.c:218-239 | one turn of the `for` body as written: a read below index 0 stops everything, and a turn that finishes never adds words. `RoundAsWrittenAgrees` ties a finished turn to `Round`. |
| `Parsing.ParseAsWritten` | smallsh.c:203-239 | `ParseCommands` as written. It returns at once only when slot 0 is NULL. Otherwise it either finishes or stops at a read of index -1 or -2. `AsWrittenAgrees` shows that where it finishes it equals `Parse`. |
| `Parsing.RoundAsWrittenAgrees` | smallsh.c:218-239 | a loop turn that stays in bounds does what the guarded turn does |
| `Parsing.AsWrittenAgrees` | smallsh.c:198-244 | wherever the unguarded source stays in bounds (including the early return for a NULL slot 0), it gives what the guarded `Parse` gives |
| `Parsing.AsWrittenOneWord` | smallsh.c:216 | a one-word command makes the source read `token_array[-1]` |
| `Parsing.AsWrittenOnlyAmpersand` | smallsh.c:209-216 | a line of just `&` makes the source read `token_array[-1]` |
| `Parsing.AsWrittenHashFirst` | smallsh.c:203-209 | when slot 0 is not NULL but holds `#`, so no word is counted, the `&` test reads `token_array[-1]` |
| `Parsing.AsWrittenInputRedirect` | smallsh.c:219-230 | `cat < f` makes the `>` check read `token_array[-1]` after the `<` pair is taken |
| `ExitCommand.ResolveExit` | smallsh.c:447-475 | as written: a third word gives "too many arguments" and -1. Otherwise a `strtol` value in (-256,256) is the status, with the farewell notice. A value outside that range gives "argument not an int" and -1. With no argument, the status is `dollar_question` and SIGINT goes to the group, and only then. |
| `ExitCommand.ExitAlone` | smallsh.c:468-474 | `exit` alone returns `dollar_question` and interrupts the group |
| `ExitCommand.ExitWithNumber` | smallsh.c:453-460 | `exit n` with -256<n<256 returns n |
| `ExitCommand.ExitOutOfRange` | smallsh.c:461-466 | any other integer is refused with status -1 |
| `ExitCommand.ExitNumberWithSuffix` | smallsh.c:454-458 | as written, `exit 3x` returns 3 |
| `ExitCommand.AsWrittenExitAbc` | smallsh.c:453-458 | as written, `exit abc` returns 0 |
| `ExitCommand.IsIntegerText` | smallsh.c:454 | the test the corrected `exit` adds: an optional sign, then one or more digits and nothing else; `DecimalIsIntegerText` and `CheckedExit` state what it accepts and refuses |
| `ExitCommand.DecimalIsIntegerText` | smallsh.c:454 | printed integers are integer text |
| `ExitCommand.ResolveExitChecked` | smallsh.c:447-475 | corrected: a lone argument that is not integer text is refused with -1; every other case is as written |
| `ExitCommand.CheckedExit` | smallsh.c:453-466 | corrected: `exit abc` is refused and `exit n` still returns n |
| `Smallsh.WordEnd` | smallsh.c:162 | the first slot that is NULL or `#`, with every slot before it a word other than `#` |
| `Smallsh.Visible` | smallsh.c:206-208 | the visible words are exactly the slots before the end test, none of them `#` |
| `Smallsh.Slots` | smallsh.c:409 | 512 slots holding the words, then NULLs |
| `Smallsh.VisibleSlots` | smallsh.c:152-162 | storing words without `#` and reading them back gives the same words |
| `Smallsh.WordEndAt` | smallsh.c:206-208 | the end test stops at the first NULL after a run of words |
| `Smallsh.WordEndBound` | smallsh.c:206-208 | the end test stops at a NULL slot at the latest |
| `Smallsh.AsWrittenHashWord` | smallsh.c:161-209 | the line `$!#`, with `$!` empty, leaves `#` in slot 0 and no word before the end test, so the source reads `token_array[-1]` |
| `Smallsh.TokensStep` | smallsh.c:152-156 | one loop turn stores exactly the next word of the line |
| `Smallsh.TokensExit` | smallsh.c:152 | when `strtok` gives NULL or `#`, all the words have been stored |
| `Smallsh.ExpandAll` | smallsh.c:161-190 | the expansion keeps the number of words |
| `Smallsh.ExpandAllAt` | smallsh.c:161-190 | each word is expanded on its own, by `ExpandToken` |
| `Smallsh.ReadResult` | smallsh.c:133-142 | words are stored exactly when getline succeeded with a length other than 1 and at most MAX_LINE |
| `Smallsh.Shell.constructor` | smallsh.c:21-27 | all slots NULL, and the flags, file names, `$?` (0) and `$!` ("") start empty |
| `Smallsh.Shell.BeginIteration` | smallsh.c:423-435 | all slots NULL, flags and file names cleared, `$?` and `$!` kept |
| `Smallsh.Shell.GetCommands` | smallsh.c:133-190 | the outcome is `ReadResult(line)`. On success the slots hold the expanded words of the line before `#`, then NULLs, with at most 256 words. Otherwise nothing is stored. |
| `Smallsh.Shell.StoreWords` | smallsh.c:150-158 | the `strtok` loop stores exactly `Tokens(line)` |
| `Smallsh.Shell.ExpandWords` | smallsh.c:161-190 | the loop replaces each stored word by its expansion in place |
| `Smallsh.Shell.ExpandSlot` | smallsh.c:164-189 | slot k gets its expansion and no other slot changes |
| `Smallsh.Shell.FindEnd` | smallsh.c:204-208 | the index loop stops at the end of the words |
| `Smallsh.Shell.TakeBackground` | smallsh.c:209-215 | the globals change as `StripBackground` says, and only the removed slot becomes NULL |
| `Smallsh.Shell.TakeInput` | smallsh.c:219-228 | the globals change as `InCheck` says, and only the two removed slots become NULL |
| `Smallsh.Shell.TakeOutput` | smallsh.c:229-238 | the globals change as `OutCheck` says, and only the two removed slots become NULL |
| `Smallsh.Shell.ParseCommands` | smallsh.c:198-244 | the globals become what `Parse` gives on the visible words. The removed slots become NULL and the rest are kept. `$?`/`$!` are unchanged. |
| `Smallsh.Shell.ExitRequest` | smallsh.c:447-475 | present exactly when the first word is `exit`, and then it is `ResolveExitChecked` of the next two slots |
| `Smallsh.Shell.Iterate` | smallsh.c:422-477 | one loop turn. Interrupted reads and length-1 lines re-prompt. An overlong line exits. No words re-prompt. `exit` gives its outcome. Otherwise the slots and globals are what `Parse` gives on the expanded words. |

## Left out

- Signals are not modelled: the SIGINT/SIGTSTP handlers, `sigsetjmp`/`siglongjmp`, and `kill(0, SIGINT)` itself. The last is recorded only as a flag of the exit outcome.
- Reaping background children with `waitpid`, and the messages about them, are not modelled: they are operating-system interaction.
- `ExecuteCommands` (fork/exec, redirection with `open`/`dup2`) is not part of this model. Neither is the `cd` built-in inside it.
- Prompt printing and the text written with `printf`/`fprintf`/`perror` are left out. The exit notices are kept as strings in the outcome.
- `getline`, `getenv` and `getpid` are parameters. An unset HOME, which the source would pass as NULL to `str_gsub`, is not modelled: HOME is always some string.
- Allocation failure (`malloc`, `realloc`, `strdup` returning NULL) and `free` are left out, since strings are values.
- `str_gsub`'s grow-and-shrink of the heap buffer is modelled as a sequence value: its results are the same, but in-place aliasing of `*haystack` is not captured.
- `line_count`, `free_line_count`, `err_status` bookkeeping and the `errno`-based return values of `GetCommands`/`ParseCommands` are left out: nothing in the modelled part reads them.
- Slots of `in_file_name`/`out_file_name` other than `[0]` are not modelled, because `ParseCommands` writes only `[0]`.
- A NUL byte inside a line is not modelled: C would end the string there.
- `getline`'s -1 is modelled as going back to the prompt, without the `clearerr` call.
- ExitCommand.ResolveExit: `kill(0, SIGINT)` (smallsh.c:470) is modelled as the flag `interruptGroup`, as if it did not interrupt the shell. In the source, the shell's own SIGINT handler, installed at smallsh.c:95 and armed at smallsh.c:107, would `siglongjmp` into the frame of `GetCommands`, which has already returned. That is undefined behaviour, so lines 471-472 (status `dollar_question`) need not be reached. `ExitAlone` likewise assumes the signal has no effect on the shell.
- Expansion.ExpandHome: the source's `strcmp` on the unterminated two-character array `first_chars` (smallsh.c:164-166) is undefined behaviour for words that begin with `~/`. The model uses the prefix test the code evidently means, and does not model reading past the array.
- Smallsh.ReadResult: a Dafny `char` stands for one byte of the C string. The `MAX_LINE` comparison and `Tokenizer.TokensBound` count characters, which equals the `getline` byte count only when every character is below 256. Multi-byte encodings such as UTF-8 are not modelled.
- Smallsh.ExpandAll: its own contract states only the length. What each element is follows from `ExpandAllAt`.
- Numerals.IntToDecimal: `%jd` of a `pid_t` and `%d` of an `int` are modelled on unbounded integers. The values these hold always fit.

## Findings

| source | as written | input that shows it | evidently intended | confidence | as-written member | corrected member |
|---|---|---|---|---|---|---|
| smallsh.c:203-230 | `ParseCommands` reads `token_array[i - 1]` and `token_array[i - 2]` with no check that the index is at least 0, and reads `[i - 2]` again after a pair is removed | `ls` (reads index -1 at line 216); `&` alone; `cat < f` (the `>` check reads index -1 at line 230); `$!#` while `$!` is empty (expands to `#`, so slot 0 is not NULL but no word is counted, and line 209 reads index -1) | read a slot only when the index is in range, leaving short commands unchanged | not executed | `Parsing.ParseAsWritten` (`Parsing.AsWrittenOneWord`, `Parsing.AsWrittenOnlyAmpersand`, `Parsing.AsWrittenInputRedirect`, `Parsing.AsWrittenHashFirst`, `Smallsh.AsWrittenHashWord`) | `Parsing.Parse` / `Smallsh.Shell.ParseCommands` (`Parsing.AsWrittenAgrees`, `Parsing.TwoRounds`) |
| smallsh.c:453-466 | `strtol(cmd_array[1], NULL, 10)` never checks where the conversion stopped, so any text converts | `exit abc` ends the shell with status 0, not "argument not an int" | refuse an argument that is not an integer | not executed | `ExitCommand.ResolveExit` (`ExitCommand.AsWrittenExitAbc`) | `ExitCommand.ResolveExitChecked` / `Smallsh.Shell.ExitRequest` (`ExitCommand.CheckedExit`) |
