/**
  The shell's main loop, one iteration at a time: parse the line into the
  shell's buffers, pick a built-in or an external command from the first
  word, and reset the buffers for the next line unless the line was skipped.
*/
module Shell {
  import opened CString
  import opened Expander
  import opened ArgArray
  import opened Parser
  import opened Signals

  /** The number of slots in `inputBuffer`. */
  const InputBufferSize: nat := 1024
  /** The `WNOHANG` option of `waitpid`. */
  const WNOHANG: int := 1

  /** What the launcher is handed for an external command. */
  datatype Command = Command(argv: seq<string>, fileIn: string, fileOut: string, background: bool)

  /** What one iteration of the loop does with the parsed line. */
  datatype Action =
    | Skip                                  // `continue`: empty line or comment
    | Exit                                  // `run = 0`
    | ChangeDir(target: Option<string>)     // `changeDir(inputBuffer[1])`; None means $HOME
    | ReportStatus(status: int)             // `getExit(currStatus)`
    | Launch(command: Command)              // `runCommandNotCovered`

  /** The test in `runCommandNotCovered`: the `&` flag and `bgAllowed` are both set. */
  predicate RunsInBackground(fgOnly: int, bgAllowed: int) {
    fgOnly != 0 && bgAllowed != 0
  }

  /** A call `waitpid(pid, &stat, options)`. */
  datatype WaitCall = WaitCall(pid: int, options: int)

  /**
    The parent's wait for the child it spawned: without blocking when the
    command runs in the background, blocking otherwise, and in both cases on
    that child's own process id.
  */
  function ParentWait(spawnPid: int, fgOnly: int, bgAllowed: int): (w: WaitCall)
    ensures w.pid == spawnPid
    ensures w.options == WNOHANG <==> RunsInBackground(fgOnly, bgAllowed)
    ensures w.options == 0 <==> !RunsInBackground(fgOnly, bgAllowed)
  {
    if RunsInBackground(fgOnly, bgAllowed) then WaitCall(spawnPid, WNOHANG) else WaitCall(spawnPid, 0)
  }

  /**
    In foreground-only mode no command runs in the background, and a SIGTSTP
    delivery flips the decision for a command that asked for the background.
  */
  lemma SigtstpSwitchesBackground(fgOnly: int, bgAllowed: int)
    requires bgAllowed == 0 || bgAllowed == 1
    ensures bgAllowed == 0 ==> !RunsInBackground(fgOnly, bgAllowed)
    ensures fgOnly != 0 ==>
      RunsInBackground(fgOnly, Sigtstp(bgAllowed).bgAllowed) == !RunsInBackground(fgOnly, bgAllowed)
    ensures RunsInBackground(fgOnly, Sigtstp(Sigtstp(bgAllowed).bgAllowed).bgAllowed) ==
      RunsInBackground(fgOnly, bgAllowed)
  {
    SigtstpTwiceRestores(bgAllowed);
  }

  /**
    The chain of `strcmp` tests on `inputBuffer[0]`. The external command's
    vector is what `execvp` reads from the array, so it starts with the
    command's name.
  */
  function Dispatch(f: Frame, currStatus: int, bgAllowed: int): (a: Action)
    requires |f.buffer| >= 2 && f.buffer[0].Some?
    ensures a.Skip? <==> f.buffer[0] == Some("")
    ensures a.Exit? <==> f.buffer[0] == Some("exit")
    ensures a.ChangeDir? <==> f.buffer[0] == Some("cd")
    ensures a.ChangeDir? ==> a.target == f.buffer[1]
    ensures a.ReportStatus? <==> f.buffer[0] == Some("status")
    ensures a.ReportStatus? ==> a.status == currStatus
    ensures a.Launch? ==>
      && a.command.argv != [] && a.command.argv[0] == f.buffer[0].value
      && a.command.argv == Argv(f.buffer)
      && a.command.fileIn == f.fileIn && a.command.fileOut == f.fileOut
      && (a.command.background <==> f.bgFlag != 0 && bgAllowed != 0)
  {
    var name := f.buffer[0].value;
    if name == "" then Skip
    else if name == "exit" then Exit
    else if name == "cd" then ChangeDir(f.buffer[1])
    else if name == "status" then ReportStatus(currStatus)
    else Launch(Command(Argv(f.buffer), f.fileIn, f.fileOut, RunsInBackground(f.bgFlag, bgAllowed)))
  }

  /** The reset at the end of an iteration: the first `count` slots NULL, no files, no `&`. */
  function Reset(f: Frame, count: nat): (g: Frame)
    requires count <= |f.buffer|
    ensures |g.buffer| == |f.buffer|
    ensures forall k :: 0 <= k < count ==> g.buffer[k] == None
    ensures forall k :: count <= k < |f.buffer| ==> g.buffer[k] == f.buffer[k]
    ensures g.fileIn == "" && g.fileOut == "" && g.bgFlag == 0
  {
    Frame(NullPrefix(f.buffer, count), "", "", 0)
  }

  /** The iteration is defined: parsing is, and it leaves a string in slot 0 for `strcmp`. */
  predicate IterationDefined(f: Frame, line: string, pid: string) {
    && |f.buffer| >= 2
    && ParseDefined(|f.buffer|, line, pid)
    && ParseLine(f, line, pid).frame.buffer[0].Some?
  }

  /** The state an iteration leaves, with the run flag and the action taken. */
  datatype Outcome = Outcome(frame: Frame, run: int, action: Action)

  /** One iteration of the loop in `main`, from reading the line to the reset. */
  function Iterate(f: Frame, run: int, line: string, pid: string, currStatus: int, bgAllowed: int): (o: Outcome)
    requires IterationDefined(f, line, pid)
    ensures o.action.Skip? <==> ParseLine(f, line, pid).frame.buffer[0] == Some("")
    ensures o.action.Skip? ==> o.frame == ParseLine(f, line, pid).frame && o.run == run
    ensures |o.frame.buffer| == |f.buffer|
    ensures !o.action.Skip? ==>
      && o.frame.fileIn == "" && o.frame.fileOut == "" && o.frame.bgFlag == 0
      && (forall k :: 0 <= k < ParseLine(f, line, pid).count ==> o.frame.buffer[k] == None)
    ensures o.run == (if o.action.Exit? then 0 else run)
  {
    var parsed := ParseLine(f, line, pid);
    var action := Dispatch(parsed.frame, currStatus, bgAllowed);
    if action.Skip? then Outcome(parsed.frame, run, action)
    else Outcome(Reset(parsed.frame, parsed.count), if action.Exit? then 0 else run, action)
  }

  /** No slot holds a word, no file is named and the `&` flag is clear: the state after a reset. */
  predicate Clean(f: Frame) {
    && (forall k :: 0 <= k < |f.buffer| ==> f.buffer[k] == None)
    && f.fileIn == "" && f.fileOut == "" && f.bgFlag == 0
  }

  /** The state the shell starts in. */
  function Initial(): (f: Frame)
    ensures Clean(f) && |f.buffer| == InputBufferSize
  {
    Frame(seq(InputBufferSize, _ => None), "", "", 0)
  }

  /** A word is never expanded to nothing while the process id is non-empty. */
  lemma {:induction false} ExpandNonEmpty(w: string, pid: string)
    requires w != [] && pid != []
    ensures Expand(w, pid) != []
  {
  }

  /**
    From a clean state a line is skipped exactly when it is empty or a comment,
    and an iteration that is not skipped leaves the state clean again: every
    slot the parse wrote lies below the count that the reset clears.
  */
  lemma CleanIteration(f: Frame, run: int, line: string, pid: string, currStatus: int, bgAllowed: int)
    requires Clean(f) && pid != []
    requires IterationDefined(f, line, pid)
    ensures var o := Iterate(f, run, line, pid, currStatus, bgAllowed);
      && (o.action.Skip? <==> IsBlankOrComment(LineText(line)))
      && (!o.action.Skip? ==> Clean(o.frame))
  {
    var text := LineText(line);
    var parsed := ParseLine(f, line, pid);
    if !IsBlankOrComment(text) {
      var ps := Passes(Tokens(text));
      ParseCommandSlots(f, line, pid);
      assert parsed.frame.buffer[0].Some?;
      assert 0 < |ps| && IsArgument(ps[0].word);
      assert ps[0].word != [] by {
        PassesReadEveryToken(Tokens(text));
        assert Tokens(text)[0] == ps[0].word;
        assert Tokens(text)[0] in Tokens(text);
      }
      ExpandNonEmpty(ps[0].word, pid);
      assert parsed.frame.buffer[0] != Some("");
    }
  }

  /**
    A token as a user types it: non-empty, no space, no newline, no NUL, and
    short enough that three of them fit on one input line.
  */
  predicate Word(w: string) {
    w != [] && ' ' !in w && '\n' !in w && IsCString(w) && |w| < MaxInputLength / 4
  }

  /** A word the parser stores as it is: no operator character, no `$$`, no `#`. */
  predicate PlainArgument(w: string) {
    Word(w) && IsArgument(w) && !HasMarker(w) && '#' !in w
  }

  /** A one-word line: its text is the word, and so is its only token. */
  lemma OneWordLine(w: string)
    requires Word(w)
    ensures LineText(w + "\n") == w && EndsInTime(w + "\n")
    ensures Tokens(w) == [w]
    ensures AfterFirstStrtok(w) == w
  {
    LineTextOfLine(w);
    EndsInTimeOfLine(w);
    assert JoinSpaces([w]) == w;
    TokensOfJoin([w]);
    WordLengthOfWord(w, []);
    assert w + [] == w;
  }

  /** A one-word comment is skipped, leaving the empty string in slot 0 and nothing else changed. */
  lemma CommentLineSkips(f: Frame, run: int, c: string, pid: string, currStatus: int, bgAllowed: int)
    requires |f.buffer| >= 2 && Word(c) && '#' in c
    ensures IterationDefined(f, c + "\n", pid)
    ensures Iterate(f, run, c + "\n", pid, currStatus, bgAllowed) ==
      Outcome(f.(buffer := f.buffer[0 := Some("")]), run, Skip)
  {
    OneWordLine(c);
    ParseCommentLine(f, c + "\n", pid);
  }

  /** The text and tokens of the line `> out w`. */
  lemma RedirectLineTokens(out: string, w: string)
    requires Word(out) && PlainArgument(w)
    ensures LineText("> " + out + " " + w + "\n") == "> " + out + " " + w
    ensures EndsInTime("> " + out + " " + w + "\n")
    ensures Tokens("> " + out + " " + w) == [">", out, w]
  {
    var text := "> " + out + " " + w;
    var toks := [">", out, w];
    LineTextOfLine(text);
    EndsInTimeOfLine(text);
    assert JoinSpaces(toks[2..]) == w;
    assert JoinSpaces(toks[1..]) == out + " " + w;
    assert JoinSpaces(toks) == ">" + " " + (out + " " + w);
    assert text == ">" + " " + (out + " " + w);
    TokensOfJoin(toks);
  }

  /** The passes over the line `> out w`: the redirection with its file name, then `w`. */
  lemma RedirectLinePasses(out: string, w: string)
    requires Word(out) && PlainArgument(w)
    ensures LineText("> " + out + " " + w + "\n") == "> " + out + " " + w
    ensures EndsInTime("> " + out + " " + w + "\n")
    ensures !IsBlankOrComment("> " + out + " " + w)
    ensures Passes(Tokens("> " + out + " " + w)) == [Pass(">", Some(out)), Pass(w, None)]
  {
    RedirectLineTokens(out, w);
    var toks := [">", out, w];
    assert Passes(toks[2..]) == [Pass(w, None)] by {
      assert toks[2..] == [w] && [w][1..] == [];
    }
  }

  /** Parsing `> out w` names the output file `out`, stores `w` in slot 1 and counts two passes. */
  lemma ParseRedirectLine(f: Frame, out: string, w: string, pid: string)
    requires |f.buffer| >= 2 && Word(out) && PlainArgument(w)
    ensures ParseDefined(|f.buffer|, "> " + out + " " + w + "\n", pid)
    ensures ParseLine(f, "> " + out + " " + w + "\n", pid) ==
      Parsed(f.(buffer := f.buffer[1 := Some(w)], fileOut := out), 2)
  {
    RedirectLinePasses(out, w);
    var ps := [Pass(">", Some(out)), Pass(w, None)];
    forall p | p in ps
      ensures Consumes(p.word) ==> p.operand.Some?
      ensures p.operand.Some? ==> |p.operand.value| < FileNameCapacity
      ensures IsArgument(p.word) ==> !HasMarker(p.word)
    {
      assert p == ps[0] || p == ps[1];
    }
    var g1 := f.(fileOut := out);
    var g2 := g1.(buffer := g1.buffer[1 := Some(w)]);
    assert ApplyPass(f, ps[0], 0, pid) == g1;
    assert ApplyPass(g1, ps[1], 1, pid) == g2;
    assert ps[1..] == [ps[1]] && [ps[1]][1..] == [];
    assert RunPasses(g1, [ps[1]], 1, pid) == g2;
    assert RunPasses(f, ps, 0, pid) == g2;
  }

  /**
    A line that starts with an operator writes no slot 0; when slot 0 holds the
    empty string left by a comment, the line is skipped and keeps its redirection
    and the argument it stored in slot 1.
  */
  lemma OperatorLineAfterCommentSkips(f: Frame, run: int, out: string, w: string, pid: string, currStatus: int, bgAllowed: int)
    requires |f.buffer| >= 2 && f.buffer[0] == Some("")
    requires Word(out) && PlainArgument(w)
    ensures IterationDefined(f, "> " + out + " " + w + "\n", pid)
    ensures Iterate(f, run, "> " + out + " " + w + "\n", pid, currStatus, bgAllowed) ==
      Outcome(f.(buffer := f.buffer[1 := Some(w)], fileOut := out), run, Skip)
  {
    ParseRedirectLine(f, out, w, pid);
  }

  /** Parsing a one-word command stores it in slot 0 and counts one pass. */
  lemma ParseCommandWord(f: Frame, cmd: string, pid: string)
    requires |f.buffer| >= 1 && PlainArgument(cmd)
    ensures ParseDefined(|f.buffer|, cmd + "\n", pid)
    ensures ParseLine(f, cmd + "\n", pid) == Parsed(f.(buffer := f.buffer[0 := Some(cmd)]), 1)
  {
    OneWordLine(cmd);
    assert !IsBlankOrComment(cmd);
    assert Passes([cmd]) == [Pass(cmd, None)] by {
      assert [cmd][1..] == [];
    }
    var g := f.(buffer := f.buffer[0 := Some(cmd)]);
    assert ArgValue(cmd, pid) == cmd;
    assert ApplyPass(f, Pass(cmd, None), 0, pid) == g;
    assert [Pass(cmd, None)][1..] == [];
    assert RunPasses(f, [Pass(cmd, None)], 0, pid) == g;
  }

  /**
    A command word after that skipped line: the leftover slot 1 extends its
    argument vector and the leftover `>` redirects its output.
  */
  lemma CommandInheritsSkippedLine(f: Frame, run: int, cmd: string, out: string, w: string,
                                   pid: string, currStatus: int, bgAllowed: int)
    requires |f.buffer| >= 3 && f.buffer[1] == Some(w) && f.buffer[2] == None
    requires f.fileIn == "" && f.fileOut == out && f.bgFlag == 0
    requires PlainArgument(cmd) && cmd !in {"exit", "cd", "status"}
    ensures IterationDefined(f, cmd + "\n", pid)
    ensures Iterate(f, run, cmd + "\n", pid, currStatus, bgAllowed).action ==
      Launch(Command([cmd, w], "", out, false))
  {
    ParseCommandWord(f, cmd, pid);
    var g := f.(buffer := f.buffer[0 := Some(cmd)]);
    assert g.buffer[1..][1..][0] == None;
    assert Argv(g.buffer[1..][1..]) == [];
    assert Argv(g.buffer[1..]) == [w];
  }

  /**
    The reset clears only as many slots as the command had words, so a
    leftover word in slot 1 outlives a one-word command: that command runs
    with it, and the state afterwards still holds it (and so meets this
    lemma's requirements again, for every later one-word command).
  */
  lemma LeftoverSlotOutlivesCommand(f: Frame, run: int, cmd: string, w: string,
                                    pid: string, currStatus: int, bgAllowed: int)
    requires |f.buffer| >= 3 && f.buffer[1] == Some(w) && f.buffer[2] == None
    requires PlainArgument(cmd) && cmd !in {"exit", "cd", "status"}
    ensures IterationDefined(f, cmd + "\n", pid)
    ensures var o := Iterate(f, run, cmd + "\n", pid, currStatus, bgAllowed);
      && o.action.Launch? && o.action.command.argv == [cmd, w]
      && o.frame.buffer[0] == None && o.frame.buffer[1] == Some(w) && o.frame.buffer[2] == None
      && !Clean(o.frame)
  {
    ParseCommandWord(f, cmd, pid);
    var g := f.(buffer := f.buffer[0 := Some(cmd)]);
    assert g.buffer[1..][1..][0] == None;
    assert Argv(g.buffer[1..][1..]) == [];
    assert Argv(g.buffer[1..]) == [w];
  }

  /** The text and tokens of the line `cmd &`. */
  lemma BackgroundLineTokens(cmd: string)
    requires PlainArgument(cmd)
    ensures LineText(cmd + " &\n") == cmd + " &"
    ensures EndsInTime(cmd + " &\n")
    ensures Tokens(cmd + " &") == [cmd, "&"]
    ensures AfterFirstStrtok(cmd + " &") == cmd
  {
    var text := cmd + " &";
    var toks := [cmd, "&"];
    assert '\n' !in text && IsCString(text) by {
      forall k | 0 <= k < |text|
        ensures text[k] != '\n' && text[k] != '\0'
      {
        if k < |cmd| {
          assert text[k] == cmd[k] && cmd[k] in cmd;
        }
      }
    }
    LineTextOfLine(text);
    EndsInTimeOfLine(text);
    assert cmd + " &\n" == text + "\n";
    assert JoinSpaces(toks[1..]) == "&";
    assert JoinSpaces(toks) == cmd + " " + "&";
    TokensOfJoin(toks);
    WordLengthOfWord(cmd, " &");
  }

  /** Parsing `cmd &` stores `cmd` in slot 0, sets the `&` flag and counts two passes. */
  lemma ParseBackgroundLine(f: Frame, cmd: string, pid: string)
    requires |f.buffer| >= 2 && PlainArgument(cmd)
    ensures ParseDefined(|f.buffer|, cmd + " &\n", pid)
    ensures ParseLine(f, cmd + " &\n", pid) ==
      Parsed(f.(buffer := f.buffer[0 := Some(cmd)], bgFlag := 1), 2)
  {
    BackgroundLineTokens(cmd);
    assert !IsBlankOrComment(cmd + " &");
    var ps := [Pass(cmd, None), Pass("&", None)];
    assert Passes([cmd, "&"]) == ps by {
      assert [cmd, "&"][1..] == ["&"] && ["&"][1..] == [];
    }
    forall p | p in ps
      ensures Consumes(p.word) ==> p.operand.Some?
      ensures p.operand.Some? ==> |p.operand.value| < FileNameCapacity
      ensures IsArgument(p.word) ==> !HasMarker(p.word)
    {
      assert p == ps[0] || p == ps[1];
    }
    var g1 := f.(buffer := f.buffer[0 := Some(cmd)]);
    var g2 := g1.(bgFlag := 1);
    assert ArgValue(cmd, pid) == cmd;
    assert ApplyPass(f, ps[0], 0, pid) == g1;
    assert ApplyPass(g1, ps[1], 1, pid) == g2;
    assert ps[1..] == [ps[1]] && [ps[1]][1..] == [];
    assert RunPasses(g1, [ps[1]], 1, pid) == g2;
    assert RunPasses(f, ps, 0, pid) == g2;
  }

  /**
    A line of two passes whose second is an operator, such as `cmd &`, writes
    slot 0 only: the command runs with the word left in slot 1, and the reset
    after it, which clears two slots, removes that word.
  */
  lemma LeftoverSlotClearedByOperatorLine(f: Frame, run: int, cmd: string, w: string,
                                          pid: string, currStatus: int)
    requires |f.buffer| >= 3 && f.buffer[1] == Some(w) && f.buffer[2] == None
    requires PlainArgument(cmd) && cmd !in {"exit", "cd", "status"}
    ensures IterationDefined(f, cmd + " &\n", pid)
    ensures var o := Iterate(f, run, cmd + " &\n", pid, currStatus, 1);
      && o.action == Launch(Command([cmd, w], f.fileIn, f.fileOut, true))
      && o.frame.buffer[0] == None && o.frame.buffer[1] == None
  {
    ParseBackgroundLine(f, cmd, pid);
    var g := f.(buffer := f.buffer[0 := Some(cmd)], bgFlag := 1);
    assert g.buffer[1..][1..][0] == None;
    assert Argv(g.buffer[1..][1..]) == [];
    assert Argv(g.buffer[1..]) == [w];
    assert Argv(g.buffer) == [cmd, w];
    assert Dispatch(g, currStatus, 1) == Launch(Command([cmd, w], f.fileIn, f.fileOut, true));
    assert Reset(g, 2).buffer[1] == None;
  }

  /**
    A skipped line is not reset: from a clean state, a comment, then `> out w`,
    then a command word `cmd` launches `cmd w` with its output sent to `out`
    (for instance `#`, `> f x`, `ls` runs `ls x > f`).
  */
  lemma SkippedLineLeaksIntoNextCommand(f: Frame, c: string, out: string, w: string, cmd: string,
                                        pid: string, currStatus: int, bgAllowed: int)
    requires Clean(f) && |f.buffer| >= 3
    requires Word(c) && '#' in c
    requires Word(out) && PlainArgument(w)
    requires PlainArgument(cmd) && cmd !in {"exit", "cd", "status"}
    ensures IterationDefined(f, c + "\n", pid)
    ensures var o1 := Iterate(f, 1, c + "\n", pid, currStatus, bgAllowed);
      && o1.action == Skip
      && IterationDefined(o1.frame, "> " + out + " " + w + "\n", pid)
      && var o2 := Iterate(o1.frame, 1, "> " + out + " " + w + "\n", pid, currStatus, bgAllowed);
      && o2.action == Skip
      && IterationDefined(o2.frame, cmd + "\n", pid)
      && Iterate(o2.frame, 1, cmd + "\n", pid, currStatus, bgAllowed).action ==
           Launch(Command([cmd, w], "", out, false))
  {
    CommentLineSkips(f, 1, c, pid, currStatus, bgAllowed);
    var f1 := f.(buffer := f.buffer[0 := Some("")]);
    OperatorLineAfterCommentSkips(f1, 1, out, w, pid, currStatus, bgAllowed);
    var f2 := f1.(buffer := f1.buffer[1 := Some(w)], fileOut := out);
    assert f2.buffer[2] == None;
    CommandInheritsSkippedLine(f2, 1, cmd, out, w, pid, currStatus, bgAllowed);
  }

  /**
    `fgets` into the line buffer, the newline-stripping loop, and the buffer
    read back as a C string: the text of the line.
  */
  method ReadLine(line: string) returns (text: string)
    requires |line| < MaxInputLength && EndsInTime(line)
    ensures text == LineText(line)
  {
    var incoming := new char[MaxInputLength](k requires 0 <= k => if k < |line| then line[k] else '\0');
    assert incoming[..] == Incoming(line);
    StripNewline(incoming);
    IncomingHoldsLineText(line);
    text := CStr(incoming[..]);
  }

  /**
    The variables of `main` that carry state from one line to the next, and
    the methods that update them in place.
  */
  class Shell {
    /** `char *inputBuffer[1024]` */
    const inputBuffer: array<Option<string>>
    /** `pidString`: the shell's process id printed in decimal. */
    const pidString: string
    /** `fileNameIn`, `fileNameOut`: the redirection targets, empty when unset. */
    var fileNameIn: string
    var fileNameOut: string
    /** `fgOnly`: the `&` flag the parser sets. */
    var fgOnly: int
    /** `currStatus`: the last foreground wait status. */
    var currStatus: int
    /** `run`: the loop goes on while it is 1. */
    var run: int

    ghost predicate Valid()
      reads this
    {
      inputBuffer.Length == InputBufferSize && IsCString(pidString) && pidString != []
    }

    /** The part of the state the parser and the reset write. */
    function Snapshot(): Frame
      reads this, inputBuffer
    {
      Frame(inputBuffer[..], fileNameIn, fileNameOut, fgOnly)
    }

    /** The set-up in `main` for a shell whose process id is `pid`. */
    constructor (pid: nat)
      ensures Valid() && fresh(inputBuffer)
      ensures pidString == DecimalString(pid)
      ensures Snapshot() == Initial()
      ensures run == 1 && currStatus == 0
    {
      pidString := DecimalString(pid);
      inputBuffer := new Option<string>[InputBufferSize];
      fileNameIn, fileNameOut := "", "";
      fgOnly, currStatus, run := 0, 0, 1;
      new;
      SetArrayToNull(inputBuffer, InputBufferSize);
    }

    /**
      `parseCommandInput(inputBuffer, fileNameIn, fileNameOut, pidString, &fgOnly)`
      on the line `fgets` read: the buffers change as `ParseLine` says and the
      count it gives is returned.
    */
    method ParseCommandInput(line: string) returns (commandCount: nat)
      requires Valid()
      requires ParseDefined(inputBuffer.Length, line, pidString)
      modifies this`fileNameIn, this`fileNameOut, this`fgOnly, inputBuffer
      ensures Valid()
      ensures Parsed(Snapshot(), commandCount) == ParseLine(old(Snapshot()), line, pidString)
    {
      commandCount := 0;
      var text := ReadLine(line);
      var toks := Tokens(text);

      var seen := AfterFirstStrtok(text);
      if |seen| < 1 || '#' in seen {
        inputBuffer[0] := Some("");
        return;
      }

      assert !IsBlankOrComment(LineText(line));
      commandCount := ScanTokens(toks);
    }

    /**
      The `while (nextWordInInput)` loop of `parseCommandInput` over the tokens
      strtok returns: one pass per iteration, the slot index `i` moving on with
      the count.
    */
    method ScanTokens(toks: seq<string>) returns (commandCount: nat)
      requires Valid()
      requires forall t :: t in toks ==> IsCString(t)
      requires var ps := Passes(toks);
        && |ps| <= inputBuffer.Length && Complete(ps)
        && (forall p :: p in ps && IsArgument(p.word) && HasMarker(p.word) ==>
              |Expand(p.word, pidString)| < ExpandCapacity)
      modifies this`fileNameIn, this`fileNameOut, this`fgOnly, inputBuffer
      ensures Valid()
      ensures commandCount == |Passes(toks)|
      ensures Snapshot() == RunPasses(old(Snapshot()), Passes(toks), 0, pidString)
    {
      commandCount := 0;
      ghost var start := Snapshot();
      ghost var ps := Passes(toks);
      var i, j := 0, 0;
      while j < |toks|
        invariant 0 <= j <= |toks| && 0 <= i <= |ps|
        invariant commandCount == i
        invariant Passes(toks[j..]) == ps[i..]
        invariant inputBuffer.Length == |start.buffer|
        invariant RunPasses(Snapshot(), ps[i..], i, pidString) == RunPasses(start, ps, 0, pidString)
        decreases |toks| - j
      {
        PassesFrom(toks, j);
        RunPassesFrom(Snapshot(), ps, i, pidString);
        assert ps[i..] == [ps[i]] + ps[i + 1..];
        assert ps[i] in ps;
        assert toks[j] in toks;
        commandCount := commandCount + 1;
        j := ScanPass(toks, j, i);
        i := i + 1;
      }
    }

    /**
      One iteration of that loop on the token at `j`, with slot index `i`: the
      operator tests in order, `strtok` for the file name after an exact `>`
      or `<`, or the word (expanded when it holds `$$`) stored in `buffer[i]`.
      Returns the index of the token the next iteration starts at.
    */
    method ScanPass(toks: seq<string>, j: nat, i: nat) returns (next: nat)
      requires Valid()
      requires j < |toks| && i < inputBuffer.Length && IsCString(toks[j])
      requires Consumes(toks[j]) ==> j + 1 < |toks|
      requires IsArgument(toks[j]) && HasMarker(toks[j]) ==>
        |Expand(toks[j], pidString)| < ExpandCapacity
      modifies this`fileNameIn, this`fileNameOut, this`fgOnly, inputBuffer
      ensures Valid()
      ensures next == if Consumes(toks[j]) then j + 2 else j + 1
      ensures Snapshot() == ApplyPass(old(Snapshot()), PassAt(toks, j), i, pidString)
    {
      var word := toks[j];
      next := j;
      if '>' in word {
        if word == ">" {
          next := next + 1;
          fileNameOut := toks[next];
        }
      } else if '<' in word {
        if word == "<" {
          next := next + 1;
          fileNameIn := toks[next];
        }
      } else if '&' in word {
        if word == "&" {
          fgOnly := 1;
        }
      } else {
        inputBuffer[i] := Some(word);
        if HasMarker(word) {
          var expanded := Expando(word, pidString);
          inputBuffer[i] := Some(expanded);
        }
      }
      next := next + 1;
    }

    /**
      One turn of the `while (run == 1)` loop after the prompt: parse the line,
      dispatch on its first word, and reset the buffers unless the line was
      skipped. The work of `cd`, `status` and external commands happens outside
      this state; the action says which it is.
    */
    method Step(line: string, signals: SignalController) returns (action: Action)
      requires Valid()
      requires IterationDefined(Snapshot(), line, pidString)
      modifies this`fileNameIn, this`fileNameOut, this`fgOnly, this`run, inputBuffer
      ensures Valid()
      ensures Outcome(Snapshot(), run, action) ==
        Iterate(old(Snapshot()), old(run), line, pidString, currStatus, signals.bgAllowed)
    {
      var inputCounter := ParseCommandInput(line);
      action := Dispatch(Snapshot(), currStatus, signals.bgAllowed);
      if action.Skip? {
        return;
      }
      if action.Exit? {
        run := 0;
      }
      SetArrayToNull(inputBuffer, inputCounter);
      fgOnly := 0;
      fileNameIn := "";
      fileNameOut := "";
    }
  }
}
