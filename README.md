# smallsh core in Dafny

A model of the front end of `smallsh`, a small interactive shell written in C
(`main.c`). It covers what the shell does to one line of input and to its own
state between lines:

- `expando`, which replaces every `$$` in a word by the shell's process id
  (`expander.dfy`);
- `setArrayToNull` and the argument array `char *inputBuffer[1024]`, whose
  NULL slots are `None` (`argarray.dfy`);
- `parseCommandInput` after `fgets`: the newline-stripping loop, the split on
  spaces done by `strtok`, the blank-or-comment test and the token loop that
  fills the argument array, the two file names and the `&` flag
  (`parser.dfy` for the specification functions, `shell.dfy` for the method
  that updates the shell's buffers in place);
- the SIGTSTP handler and the global `bgAllowed` it toggles (`signals.dfy`);
- the foreground/background decision of `runCommandNotCovered`, the built-in
  dispatch on `inputBuffer[0]` and the reset at the end of each turn of
  `main`'s loop, including the `continue` that skips the reset
  (`shell.dfy`);
- the C library routines these rely on: C strings, `strtok(_, " ")`,
  `snprintf("%d")` (`cstring.dfy`).

`Parser.ParseLine` is the specification of one parse as a pure function over
a `Frame` (argument slots, `fileIn`, `fileOut`, `*bgProcessFlag`); the class
`Shell.Shell` holds `main`'s variables and its methods `ParseCommandInput`,
`ScanTokens`, `ScanPass` and `Step` update them in place and are proved to
leave exactly the state that `ParseLine` and `Shell.Iterate` describe. The
lemmas in `parser.dfy` and `shell.dfy` state what a parse produces: which
slots hold which words, which file name wins, when the `&` flag is set, when a
line is skipped, and that, from a clean state, a turn that is not skipped
leaves it clean.

Where the code departs from common shell conventions, the model follows the
code:

- Only the space separates tokens (`strtok(_, " ")`); a tab is part of a token.
- A line is a comment when its first token contains `#` anywhere, not only at
  its start; a `#` in a later token is an ordinary argument.
- A token that merely contains `>`, `<` or `&` (such as `a>b` or `x&`) is
  dropped: it is neither an operator nor an argument, but it still uses a
  slot index.
- Every pass of the loop moves the slot index on, so an operator leaves its
  slot unwritten (NULL from a clean state), and `execvp` sees only the words
  before the first NULL slot: from a clean state `ls > f -l` runs `ls` alone
  (`Argv` states this), while a word left in that slot by an earlier line is
  run with it (see the last bullet).
- An exact `&` anywhere in the line sets the background flag, unless it is
  the file name of a `>` or `<` (`cat > &` writes to a file named `&`).
- A line whose first token is an operator writes no slot 0; the turn then
  acts on whatever slot 0 held before. After a comment (slot 0 left as the
  empty string) such a line is skipped without the reset, and its
  redirection and arguments are picked up by the next command
  (`Shell.SkippedLineLeaksIntoNextCommand`: after `#` and `> f x`, the line
  `ls` runs `ls x` with its output sent to `f`).
- The reset clears only as many slots as the last command counted, so such a
  leftover word outlives the reset: every later one-word command runs with it
  (`ls`, then `pwd`, run `ls x`, then `pwd x`; `Shell.LeftoverSlotOutlivesCommand`),
  and a one-word `cd` takes it as its target instead of HOME. It stays until a
  line of two or more passes runs; that line also picks the word up when its
  second pass is an operator (`ls &` runs `ls x` in the background), and its
  reset then clears it (`Shell.LeftoverSlotClearedByOperatorLine`).

## Model

| member | source | states |
|---|---|---|
| CString.CStr | main.c:126 | the string a character buffer holds is its prefix up to the first NUL and contains no NUL |
| CString.Tokens | main.c:117 | the tokens `strtok(_, " ")` returns are non-empty and hold no space, and are C strings when the line is |
| CString.TokensOfJoin | main.c:117 | splitting words joined by single spaces gives the words back |
| CString.TokensKeepEveryNonSpace | main.c:117-156 | the tokens run together are the line with its spaces taken out, whatever spaces lead, trail or repeat |
| CString.NoTokensIffBlank | main.c:132 | a line yields no token exactly when it is all spaces |
| CString.AfterFirstStrtokSeesFirstToken | main.c:117-126 | after the first `strtok` the buffer is empty only for an empty line and holds `#` exactly when the first token does |
| CString.DecimalString | main.c:436-439 | the process id string is non-empty and made of decimal digits |
| CString.DecimalRoundTrip | main.c:436-439 | the process id string denotes the process id it was printed from |
| Expander.Expand | main.c:40-50 | the expansion of a C string by a C string id is again a C string |
| Expander.ExpandLength | main.c:40-50 | the result is the word's length minus two per marker plus the id's length per marker |
| Expander.MarkerCountPositiveIff | main.c:42 | the scan replaces a marker exactly when the word contains `$$` |
| Expander.ExpandWithoutMarker | main.c:47-48 | a word without `$$` is copied unchanged |
| Expander.ExpandWithMarkerIsIdentity | main.c:40-50 | replacing each marker by `$$` gives the word back, so everything else is copied in order |
| Expander.ExpandTwoCharacterIdChanges | main.c:40-50 | with a two-character id other than `$$`, a word holding `$$` changes |
| Expander.ExpandChangesIffMarker | main.c:40-50 | with any id but `$$` itself (a printed decimal id never is), the word changes exactly when it contains `$$` |
| Expander.ExpandThreeDollars | main.c:42-45 | `$$$` becomes the id followed by `$`: matches do not overlap |
| Expander.ExpandFourDollars | main.c:42-45 | `$$$$` becomes the id twice |
| Expander.CopyAt | main.c:43 | `strcpy` into the buffer at an offset writes the source there followed by a NUL, and keeps every cell before the source and after the NUL |
| Expander.PutAt | main.c:48 | `newStr[a++] = c` writes the character after what was built and keeps every other cell |
| Expander.ExpandoTurn | main.c:40-50 | one turn of the walk moves the read index on and keeps what is built followed by the expansion of what is left unchanged |
| Expander.Expando | main.c:26-52 | the loop with write index `a` builds exactly `Expand(word, pid)` |
| ArgArray.NullPrefix | main.c:68-72 | the first `n` slots are NULL and every other slot is kept |
| ArgArray.SetArrayToNull | main.c:68-72 | the array afterwards is `NullPrefix` of the array before |
| ArgArray.Argv | main.c:359 | the vector `execvp` reads is the words before the first NULL slot, in order |
| Parser.Incoming | main.c:100-102 | the line buffer holds the line read, then a NUL |
| Parser.CutAtNewline | main.c:104-113 | only a newline is ever replaced, by a NUL; a buffer without one is unchanged |
| Parser.CutAtFirstNewline | main.c:107-111 | the cut replaces just the first newline |
| Parser.StripNewline | main.c:104-113 | the stripping loop with a bounded guard leaves the buffer cut at its first newline |
| Parser.StripAsWritten | main.c:105-113 | the loop as written only ever turns a newline into a NUL, and when it runs off a buffer it does so at the first cell past the end |
| Parser.StripAsWrittenAgreesOnShortLines | main.c:107 | with the newline before index 2046 the guard as written stops where the bounded one does |
| Parser.StripAsWrittenOverrunsOnLongLine | main.c:107 | with the newline at index 2046 the guard as written indexes past the buffer |
| Parser.StripAsWrittenOverrunsWithoutNewline | main.c:107 | without any newline the guard as written indexes past the buffer |
| Parser.LineText | main.c:102-113 | the text parsed is the line up to its first newline or NUL and holds neither |
| Parser.LineTextOfLine | main.c:102-113 | a line read with its newline has the text before the newline |
| Parser.EndsInTimeOfLine | main.c:107 | a text shorter than 2046 characters followed by its newline is a line the loop as written handles |
| Parser.StrippedBufferHoldsLineText | main.c:102-117 | the stripped buffer read as a C string is the line's text |
| Parser.IncomingHoldsLineText | main.c:100-117 | the `fgets` buffer, once its newline is cut, read as a C string is the line's text |
| Parser.IsBlankOrComment | main.c:117-126 | the test on the buffer after the first `strtok` holds exactly for an empty line or one whose first token contains `#` |
| Parser.Passes | main.c:132-158 | the loop makes at most one pass per token; a pass reads an operand only when its word is an exact `>` or `<`, and such a word goes without one only as the last token |
| Parser.PassesReadEveryToken | main.c:132-158 | the passes read every token once, in order |
| Parser.PassAt | main.c:134-156 | the pass starting at a token begins with that token |
| Parser.ArgValue | main.c:149-154 | storing the word, or its expansion when it holds `$$`, stores the expansion either way |
| Parser.ApplyPass | main.c:134-155 | one pass keeps the number of slots |
| Parser.RunPasses | main.c:132-158 | the passes run one after another keep the number of slots |
| Parser.RunPassesSlots | main.c:148-157 | after the passes, the slot of each argument pass holds its expanded word and every other slot keeps its pointer |
| Parser.RunPassesFileOut | main.c:134-138 | the operand of the last exact `>` becomes `fileOut`; without one the old name stays |
| Parser.RunPassesFileIn | main.c:139-143 | the operand of the last exact `<` becomes `fileIn`; without one the old name stays |
| Parser.RunPassesBackground | main.c:144-147 | the flag is 1 when some pass word is exactly `&` (an `&` read as the file name of a `>` or `<` is not one), and unchanged otherwise |
| Parser.ParseDefinedStripsAsWritten | main.c:104-113 | on every line the parse admits, the stripping loop as written stops inside the buffer and cuts the line at its newline, as the corrected loop does |
| Parser.ParseLine | main.c:91-160 | a parse keeps the number of slots and returns a count no larger |
| Parser.ParseCommentLine | main.c:125-129 | an empty line or one whose first token holds `#` sets slot 0 to the empty string, returns 0 and changes nothing else |
| Parser.ParseSpacesLine | main.c:125-132 | a line of spaces is no comment and changes nothing, returning 0 |
| Parser.ParseCommandSlots | main.c:131-159 | otherwise the count is the number of passes, slot `k` below it holds the `k`-th pass's expanded word when that is an argument, and no other slot changes |
| Signals.Written | main.c:411 | `write` with a count sends that many leading characters |
| Signals.Sigtstp | main.c:402-425 | from 1 the flag becomes 0 and the 49-byte entering message is written; from 0 it becomes 1 with the 29-byte leaving message; other values are left alone |
| Signals.SigtstpTwiceRestores | main.c:402-425 | two deliveries restore the flag and write the two messages in order |
| Signals.SignalController.constructor | main.c:10 | background commands start allowed |
| Signals.SignalController.Toggle | main.c:402-425 | one delivery changes the flag and writes what `Sigtstp` says |
| Shell.RunsInBackground | main.c:370 | a command runs in the background when the `&` flag and `bgAllowed` are both nonzero |
| Shell.ParentWait | main.c:369-378 | the parent waits on the spawned child's own id, with `WNOHANG` exactly when `&` was given and background commands are allowed |
| Shell.SigtstpSwitchesBackground | main.c:370 | in foreground-only mode nothing runs in the background, and each SIGTSTP flips the decision for a command with `&` |
| Shell.Dispatch | main.c:477-487 | the empty string skips, `exit` exits, `cd` takes slot 1, `status` reports the status, anything else launches the argument vector with the file names and the background decision |
| Shell.Initial | main.c:441-444 | the shell starts with all 1024 slots NULL, no file names and no `&` |
| Shell.Reset | main.c:489-493 | the first `count` slots become NULL, the other slots are kept, the file names are emptied and the `&` flag cleared |
| Shell.Iterate | main.c:475-493 | a turn is skipped exactly when slot 0 holds the empty string after the parse, and then keeps the parse's state and `run`; any other turn NULLs the slots the parse counted, empties the file names and clears the flag; `run` becomes 0 exactly on `exit` |
| Shell.CleanIteration | main.c:475-493 | from a clean state a line is skipped exactly when it is blank or a comment, and every turn that is not skipped leaves the state clean again |
| Shell.OneWordLine | main.c:102-117 | a one-word line has that word as its text, its only token and the buffer left by the first `strtok` |
| Shell.CommentLineSkips | main.c:125-129 | a one-word line holding `#` is skipped, leaves the empty string in slot 0 and changes nothing else |
| Shell.RedirectLineTokens | main.c:102-117 | the line `> out w` has text `> out w`, ends in time and splits into `>`, `out`, `w` |
| Shell.RedirectLinePasses | main.c:132-158 | `> out w` is no comment and gives the redirection pass with its file name, then the pass for `w` |
| Shell.ParseRedirectLine | main.c:131-159 | parsing `> out w` sets the output file, stores `w` in slot 1, leaves slot 0 and returns 2 |
| Shell.OperatorLineAfterCommentSkips | main.c:475-478 | after a comment, `> out w` is skipped and keeps its file name and slot 1, with no reset |
| Shell.ParseCommandWord | main.c:131-159 | parsing a one-word command stores it in slot 0 and returns 1 |
| Shell.CommandInheritsSkippedLine | main.c:475-490 | a command word then launches with the leftover word as its second argument and the leftover output file |
| Shell.LeftoverSlotOutlivesCommand | main.c:475-493 | a word left in slot 1 reaches a one-word command and survives the reset after it, which clears only the one counted slot |
| Shell.BackgroundLineTokens | main.c:102-126 | `cmd &` has that text, ends in time, splits into `cmd` and `&`, and the comment test sees `cmd` |
| Shell.ParseBackgroundLine | main.c:117-158 | parsing `cmd &` writes only slot 0, sets the `&` flag and counts two passes |
| Shell.LeftoverSlotClearedByOperatorLine | main.c:475-493 | after a word is left in slot 1, `cmd &` launches `cmd` with that word in the background, and its two-slot reset clears it |
| Shell.SkippedLineLeaksIntoNextCommand | main.c:475-493 | the three lines in a row from a clean state: the skipped turns are not reset and leak into the next command (`#`, `> f x`, `ls` runs `ls x` with output to `f`) |
| Shell.ReadLine | main.c:100-113 | reading and stripping a line whose newline lies below index 2046 (the lines the loop as written handles) yields its text |
| Shell.Shell.constructor | main.c:429-444 | the shell starts with the printed process id, a clean state, `run` 1 and status 0 |
| Shell.Shell.ParseCommandInput | main.c:91-160 | the buffers afterwards and the count returned are those `ParseLine` gives |
| Shell.Shell.ScanTokens | main.c:131-159 | the token loop returns the number of passes and leaves the state `RunPasses` gives |
| Shell.Shell.ScanPass | main.c:133-156 | one iteration does what `ApplyPass` says and moves past the tokens it read |
| Shell.Shell.Step | main.c:468-494 | one turn of the loop leaves the state, run flag and action `Iterate` gives |

## Left out

- Reading input: `fgets` is replaced by the line it returns; the rest of the line buffer is taken to be NUL, where C leaves it uninitialised.
- Printing the prompt and every other `printf`/`fflush`.
- `fork`, `execvp`, `waitpid` and the background reaper loop: the launch is the `Launch` action carrying the argument vector, file names and background decision, and `ParentWait` says which `waitpid` the parent makes; how `currStatus` is updated by the wait is not modelled.
- `handlePiping` (`open`, `dup2`, `close`), `changeDir` (`chdir`, `getenv("HOME")`) and `getExit`: their work happens outside the shell's own state; the actions `ChangeDir` and `ReportStatus` carry their arguments.
- `sigaction` set-up and asynchronous delivery: a SIGTSTP delivery is one call of `SignalController.Toggle`; where it interleaves with the loop is not modelled.
- `malloc`/`strdup` and the memory they leak; the unused `inputContainer` array of `parseCommandInput`.
- The loop of `main` itself: it is `Shell.Shell.Step` applied once per line.
- Shell.Shell.ParseCommandInput: requires what keeps the C code as written defined — a line shorter than 2048 characters whose first newline lies below index 2046 (otherwise the stripping loop at main.c:107 runs off the line buffer, see Findings; `Parser.ParseDefinedStripsAsWritten` shows that on the admitted lines that loop and the corrected one agree), at most 1024 passes, a file name after every exact `>` and `<` (C passes NULL to `strcpy` otherwise), file names shorter than 1024 characters and expansions shorter than 512 (the buffers `strcpy` and `expando` write).
- Shell.ReadLine: requires the line's first newline to lie below index 2046, as `Shell.Shell.ParseCommandInput` does; on any other line the loop at main.c:107 runs off the line buffer (see Findings), and the method, which runs the corrected loop, does not model that overrun.
- Shell.Shell.Step: also requires slot 0 to hold a string after the parse, since `strcmp` on a NULL slot 0 (a line of spaces, or one starting with an operator, from a clean state) is undefined.
- Parser.StripNewline: the line buffer's garbage after the `fgets` terminator is not modelled, so the overrun found below is stated on the NUL-filled buffer.

## Findings

| source | as written | input that shows it | evidently intended | confidence | as-written member | corrected member |
|---|---|---|---|---|---|---|
| main.c:107 | `while (newLine == 1 \|\| i > MAXINPUTLENGTH - 2)` keeps looping once `i` passes 2046, and never stops while no newline has been seen | a line of 2046 characters and its newline, or a last line with no newline: the loop indexes past the 2048-character buffer | `while (newLine == 1 && i < MAXINPUTLENGTH)` | high, not executed | Parser.StripAsWrittenOverrunsOnLongLine | Parser.StripNewline |
