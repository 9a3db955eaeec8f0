/**
  What `parseCommandInput` does to one input line, stated as pure functions.
  The line is cut at its first newline, split on spaces, tested for being
  blank or a comment, and then scanned one pass of the loop at a time; each
  pass writes the argument array, a redirection file name or the background
  flag. The imperative rendering, over the shell's own buffers, is
  `Shell.Shell.ParseCommandInput`.
*/
module Parser {
  import opened CString
  import opened Expander

  /** `MAXINPUTLENGTH`: the size of the line buffer `incoming`. */
  const MaxInputLength: nat := 2048
  /** The size of `fileNameIn` and `fileNameOut`, NUL included. */
  const FileNameCapacity: nat := 1024

  /**
    What the parser writes through its pointer arguments: the argument array
    `buffer`, the strings `fileIn` and `fileOut`, and `*bgProcessFlag`.
  */
  datatype Frame = Frame(buffer: seq<Option<string>>, fileIn: string, fileOut: string, bgFlag: int)

  /** The line buffer as `fgets` leaves it: the characters read, then NULs. */
  function Incoming(line: string): (buf: seq<char>)
    requires |line| < MaxInputLength
    ensures |buf| == MaxInputLength && buf[..|line|] == line && buf[|line|] == '\0'
  {
    line + seq(MaxInputLength - |line|, _ => '\0')
  }

  /** The buffer with its first newline replaced by a NUL. */
  function CutAtNewline(buf: seq<char>): (r: seq<char>)
    ensures |r| == |buf|
    ensures '\n' !in buf ==> r == buf
    ensures forall k :: 0 <= k < |buf| && r[k] != buf[k] ==> buf[k] == '\n' && r[k] == '\0'
    decreases |buf|
  {
    if buf == [] then []
    else if buf[0] == '\n' then ['\0'] + buf[1..]
    else [buf[0]] + CutAtNewline(buf[1..])
  }

  lemma {:induction false} CutAtFirstNewline(buf: seq<char>, i: nat)
    requires i < |buf| && buf[i] == '\n' && '\n' !in buf[..i]
    ensures CutAtNewline(buf) == buf[i := '\0']
    decreases i
  {
    if i > 0 {
      assert buf[0] == buf[..i][0];
      var rest := buf[1..];
      assert rest[..i - 1] == buf[..i][1..];
      CutAtFirstNewline(rest, i - 1);
      var cut, want := [buf[0]] + rest[i - 1 := '\0'], buf[i := '\0'];
      assert CutAtNewline(buf) == cut;
      assert |cut| == |want|;
      assert forall k :: 0 <= k < |buf| ==> cut[k] == want[k];
    }
  }

  /**
    The newline-stripping loop with the guard main.c means to have: it stops
    at the first newline, which becomes a NUL, or at the end of the buffer.
  */
  method StripNewline(incoming: array<char>)
    modifies incoming
    ensures incoming[..] == CutAtNewline(old(incoming[..]))
  {
    var newLine := 1;
    var i := 0;
    while newLine == 1 && i < incoming.Length
      invariant 0 <= i <= incoming.Length
      invariant newLine == 1 ==> incoming[..] == old(incoming[..]) && '\n' !in incoming[..i]
      invariant newLine != 1 ==> incoming[..] == CutAtNewline(old(incoming[..]))
    {
      if incoming[i] == '\n' {
        CutAtFirstNewline(incoming[..], i);
        incoming[i] := '\0';
        newLine := 0;
      } else {
        assert incoming[..i + 1] == incoming[..i] + [incoming[i]];
      }
      i := i + 1;
    }
    if newLine == 1 {
      assert incoming[..] == incoming[..i];
    }
  }

  /** The guard main.c writes for the stripping loop. */
  predicate StripGuardAsWritten(newLine: int, i: int) {
    newLine == 1 || i > MaxInputLength - 2
  }

  /** How the stripping loop as written ends on a buffer. */
  datatype StripRun = Stopped(buf: seq<char>) | ReadsPastEnd(index: nat)

  /** The stripping loop as written, from index `i`, run over `buf`. */
  function StripAsWritten(buf: seq<char>, newLine: int, i: nat): (r: StripRun)
    ensures i <= |buf| && r.ReadsPastEnd? ==> r.index == |buf|
    ensures r.Stopped? ==> |r.buf| == |buf| && forall k :: 0 <= k < |buf| && r.buf[k] != buf[k] ==> buf[k] == '\n' && r.buf[k] == '\0'
    decreases |buf| - i
  {
    if !StripGuardAsWritten(newLine, i) then Stopped(buf)
    else if i >= |buf| then ReadsPastEnd(i)
    else if buf[i] == '\n' then StripAsWritten(buf[i := '\0'], 0, i + 1)
    else StripAsWritten(buf, newLine, i + 1)
  }

  /** The loop as written runs up to the first newline and clears it. */
  lemma {:induction false} StripAsWrittenReachesNewline(buf: seq<char>, i: nat, n: nat)
    requires i <= n < |buf| && buf[n] == '\n' && '\n' !in buf[i..n]
    ensures StripAsWritten(buf, 1, i) == StripAsWritten(buf[n := '\0'], 0, n + 1)
    decreases n - i
  {
    if i < n {
      assert buf[i] == buf[i..n][0];
      assert buf[i + 1..n] == buf[i..n][1..];
      StripAsWrittenReachesNewline(buf, i + 1, n);
    }
  }

  /** Where the newline sits early enough, the loop as written agrees with `StripNewline`. */
  lemma StripAsWrittenAgreesOnShortLines(buf: seq<char>, n: nat)
    requires |buf| == MaxInputLength
    requires n < MaxInputLength - 2 && buf[n] == '\n' && '\n' !in buf[..n]
    ensures StripAsWritten(buf, 1, 0) == Stopped(CutAtNewline(buf))
  {
    assert buf[0..n] == buf[..n];
    StripAsWrittenReachesNewline(buf, 0, n);
    CutAtFirstNewline(buf, n);
  }

  /**
    A line of `MaxInputLength - 2` characters and its newline fills `fgets`'s
    buffer to the last cell: the loop as written clears the newline, keeps
    going because its index has passed `MaxInputLength - 2`, and indexes past
    the end of the buffer.
  */
  lemma StripAsWrittenOverrunsOnLongLine(buf: seq<char>)
    requires |buf| == MaxInputLength
    requires buf[MaxInputLength - 2] == '\n' && '\n' !in buf[..MaxInputLength - 2]
    ensures StripAsWritten(buf, 1, 0) == ReadsPastEnd(MaxInputLength)
  {
    var n := MaxInputLength - 2;
    assert buf[0..n] == buf[..n];
    StripAsWrittenReachesNewline(buf, 0, n);
    var cut := buf[n := '\0'];
    assert StripAsWritten(cut, 0, n + 1) == StripAsWritten(cut[n + 1 := '\0'], 0, n + 2)
        || StripAsWritten(cut, 0, n + 1) == StripAsWritten(cut, 0, n + 2);
  }

  /**
    Without any newline in the buffer (the last line of input with no newline,
    or a line too long for `fgets` to reach its end) the loop as written never
    stops on its own and indexes past the end of the buffer.
  */
  lemma {:induction false} StripAsWrittenOverrunsWithoutNewline(buf: seq<char>, i: nat)
    requires i <= |buf| && '\n' !in buf[i..]
    ensures StripAsWritten(buf, 1, i) == ReadsPastEnd(|buf|)
    decreases |buf| - i
  {
    if i < |buf| {
      assert buf[i] == buf[i..][0];
      assert buf[i + 1..] == buf[i..][1..];
      StripAsWrittenOverrunsWithoutNewline(buf, i + 1);
    }
  }

  /** The text the parser works on: the line up to its first newline or NUL. */
  function LineText(line: string): (text: string)
    ensures text <= line
    ensures '\n' !in text && IsCString(text)
    ensures |text| < |line| ==> line[|text|] == '\n' || line[|text|] == '\0'
  {
    if line == [] || line[0] == '\n' || line[0] == '\0' then []
    else [line[0]] + LineText(line[1..])
  }

  /** A line as `fgets` returns it, text and then newline, has that text. */
  lemma {:induction false} LineTextOfLine(s: string)
    requires '\n' !in s && IsCString(s)
    ensures LineText(s + "\n") == s
    decreases |s|
  {
    if s != [] {
      assert s[0] in s;
      assert forall c :: c in s[1..] ==> c in s;
      assert (s + "\n")[1..] == s[1..] + "\n";
      LineTextOfLine(s[1..]);
    }
  }

  /** Once the newline is cut, the buffer read as a C string is the line's text. */
  lemma {:induction false} StrippedBufferHoldsLineText(line: string, pad: seq<char>)
    requires pad != [] && pad[0] == '\0'
    ensures CStr(CutAtNewline(line + pad)) == LineText(line)
    decreases |line|
  {
    if line == [] {
      assert line + pad == pad;
    } else {
      assert (line + pad)[1..] == line[1..] + pad;
      if line[0] != '\n' && line[0] != '\0' {
        StrippedBufferHoldsLineText(line[1..], pad);
      }
    }
  }

  /** The line buffer `fgets` fills, once the newline is cut, holds the line's text. */
  lemma IncomingHoldsLineText(line: string)
    requires |line| < MaxInputLength
    ensures CStr(CutAtNewline(Incoming(line))) == LineText(line)
  {
    StrippedBufferHoldsLineText(line, seq(MaxInputLength - |line|, _ => '\0'));
  }

  /**
    `strlen(incoming) < 1 || strstr(incoming, "#")`, tested on the buffer
    after the first strtok call.
  */
  predicate IsBlankOrComment(text: string)
    ensures IsBlankOrComment(text) <==> text == [] || (Tokens(text) != [] && '#' in Tokens(text)[0])
  {
    AfterFirstStrtokSeesFirstToken(text);
    var seen := AfterFirstStrtok(text);
    |seen| < 1 || '#' in seen
  }

  /** An operator that takes the next token as a file name. */
  predicate Consumes(word: string) {
    word == ">" || word == "<"
  }

  /** A word with none of the operator characters is an argument. */
  predicate IsArgument(word: string) {
    '>' !in word && '<' !in word && '&' !in word
  }

  /**
    One pass of the parse loop: the token it starts with and, for an exact
    `>` or `<`, the following token it takes as the file name (None when the
    line ends first).
  */
  datatype Pass = Pass(word: string, operand: Option<string>)

  /**
    The passes the loop makes over a token sequence: a pass reads an operand
    exactly when its word is an exact `>` or `<`, except that such a word as
    the last token has none left to read.
  */
  function Passes(toks: seq<string>): (ps: seq<Pass>)
    ensures |ps| <= |toks|
    ensures forall k :: 0 <= k < |ps| ==> (ps[k].operand.Some? ==> Consumes(ps[k].word))
    ensures forall k :: 0 <= k < |ps| ==> (Consumes(ps[k].word) && ps[k].operand.None? ==> k == |ps| - 1)
    decreases |toks|
  {
    if toks == [] then []
    else if Consumes(toks[0]) && |toks| >= 2 then [Pass(toks[0], Some(toks[1]))] + Passes(toks[2..])
    else [Pass(toks[0], None)] + Passes(toks[1..])
  }

  /** The tokens a sequence of passes reads. */
  function Flatten(ps: seq<Pass>): seq<string> {
    if ps == [] then []
    else [ps[0].word] + (if ps[0].operand.Some? then [ps[0].operand.value] else []) + Flatten(ps[1..])
  }

  /** The passes read every token exactly once, in order. */
  lemma {:induction false} PassesReadEveryToken(toks: seq<string>)
    ensures Flatten(Passes(toks)) == toks
    decreases |toks|
  {
    if toks == [] {
    } else if Consumes(toks[0]) && |toks| >= 2 {
      PassesReadEveryToken(toks[2..]);
      assert toks == [toks[0], toks[1]] + toks[2..];
    } else {
      PassesReadEveryToken(toks[1..]);
      assert toks == [toks[0]] + toks[1..];
    }
  }

  /** The pass that starts at token `j`. */
  function PassAt(toks: seq<string>, j: nat): (p: Pass)
    requires j < |toks|
    ensures p.word == toks[j]
  {
    if Consumes(toks[j]) && j + 1 < |toks| then Pass(toks[j], Some(toks[j + 1])) else Pass(toks[j], None)
  }

  /** Passes from token `j` on: one pass, then those after the tokens it read. */
  lemma PassesFrom(toks: seq<string>, j: nat)
    requires j < |toks|
    ensures Consumes(toks[j]) && j + 1 < |toks| ==>
      Passes(toks[j..]) == [PassAt(toks, j)] + Passes(toks[j + 2..])
    ensures !(Consumes(toks[j]) && j + 1 < |toks|) ==>
      Passes(toks[j..]) == [PassAt(toks, j)] + Passes(toks[j + 1..])
  {
    assert toks[j..][1..] == toks[j + 1..];
    if j + 1 < |toks| {
      assert toks[j..][2..] == toks[j + 2..];
    }
  }

  /** Every redirection operator has its file name: the C code copies from NULL otherwise. */
  predicate Complete(ps: seq<Pass>) {
    forall p :: p in ps ==> Consumes(p.word) ==> p.operand.Some?
  }

  /**
    The value stored for an argument: the word itself, or its expansion when
    it holds `$$`. Either way it is the expansion.
  */
  function ArgValue(word: string, pid: string): (v: string)
    ensures v == Expand(word, pid)
  {
    if HasMarker(word) then Expand(word, pid)
    else
      ExpandWithoutMarker(word, pid);
      word
  }

  /**
    One pass with slot index `i`: the tests `strstr(w, ">")`, `strstr(w, "<")`,
    `strstr(w, "&")` in that order, acting only when the word is exactly the
    operator; any other word is stored at `buffer[i]`.
  */
  function ApplyPass(f: Frame, p: Pass, i: nat, pid: string): (g: Frame)
    requires Consumes(p.word) ==> p.operand.Some?
    requires i < |f.buffer|
    ensures |g.buffer| == |f.buffer|
  {
    if '>' in p.word then (if p.word == ">" then f.(fileOut := p.operand.value) else f)
    else if '<' in p.word then (if p.word == "<" then f.(fileIn := p.operand.value) else f)
    else if '&' in p.word then (if p.word == "&" then f.(bgFlag := 1) else f)
    else f.(buffer := f.buffer[i := Some(ArgValue(p.word, pid))])
  }

  /** The passes run one after another, the slot index moving on with each. */
  function RunPasses(f: Frame, ps: seq<Pass>, i: nat, pid: string): (g: Frame)
    requires Complete(ps)
    requires i + |ps| <= |f.buffer|
    ensures |g.buffer| == |f.buffer|
    decreases |ps|
  {
    if ps == [] then f
    else
      assert ps[0] in ps;
      assert forall p :: p in ps[1..] ==> p in ps;
      RunPasses(ApplyPass(f, ps[0], i, pid), ps[1..], i + 1, pid)
  }

  /** The passes from index `i` on: pass `i`, then the rest from the next slot. */
  lemma RunPassesFrom(f: Frame, ps: seq<Pass>, i: nat, pid: string)
    requires Complete(ps) && i < |ps| <= |f.buffer|
    ensures Complete(ps[i..]) && Complete(ps[i + 1..])
    ensures Consumes(ps[i].word) ==> ps[i].operand.Some?
    ensures RunPasses(f, ps[i..], i, pid) == RunPasses(ApplyPass(f, ps[i], i, pid), ps[i + 1..], i + 1, pid)
  {
    assert ps[i] in ps;
    assert forall p :: p in ps[i..] ==> p in ps;
    assert ps[i..][0] == ps[i] && ps[i..][1..] == ps[i + 1..];
  }

  /**
    The line ends in a newline early enough for the stripping loop as written
    to stop inside the buffer: its first newline sits below index
    `MaxInputLength - 2`.
  */
  predicate EndsInTime(line: string) {
    exists n :: 0 <= n < |line| && n < MaxInputLength - 2 && line[n] == '\n' && '\n' !in line[..n]
  }

  /** A line of text short enough, followed by its newline, ends in time. */
  lemma EndsInTimeOfLine(s: string)
    requires '\n' !in s && |s| < MaxInputLength - 2
    ensures EndsInTime(s + "\n")
  {
    assert (s + "\n")[|s|] == '\n' && (s + "\n")[..|s|] == s;
  }

  /**
    Whether the C code's behaviour on this line is defined, given a buffer of
    `bufferLength` slots: the stripping loop as written stops inside the line
    buffer, and every later copy fits its destination.
  */
  predicate ParseDefined(bufferLength: nat, line: string, pid: string) {
    && |line| < MaxInputLength
    && EndsInTime(line)
    && bufferLength >= 1
    && var text := LineText(line);
       || IsBlankOrComment(text)
       || var ps := Passes(Tokens(text));
          && |ps| <= bufferLength
          && Complete(ps)
          && (forall p :: p in ps && p.operand.Some? ==> |p.operand.value| < FileNameCapacity)
          && (forall p :: p in ps && IsArgument(p.word) && HasMarker(p.word) ==>
                |Expand(p.word, pid)| < ExpandCapacity)
  }

  /** On every line the parse admits, the stripping loop as written stops and cuts at the newline. */
  lemma ParseDefinedStripsAsWritten(bufferLength: nat, line: string, pid: string)
    requires ParseDefined(bufferLength, line, pid)
    ensures StripAsWritten(Incoming(line), 1, 0) == Stopped(CutAtNewline(Incoming(line)))
  {
    var n :| 0 <= n < |line| && n < MaxInputLength - 2 && line[n] == '\n' && '\n' !in line[..n];
    var buf := Incoming(line);
    assert buf[..n] == line[..n] by {
      assert buf[..|line|] == line;
      assert buf[..n] == buf[..|line|][..n];
    }
    assert buf[n] == buf[..|line|][n];
    StripAsWrittenAgreesOnShortLines(buf, n);
  }

  /** The outcome of parsing one line: what the pointers now hold and the count returned. */
  datatype Parsed = Parsed(frame: Frame, count: nat)

  /** `parseCommandInput` on a line already read. */
  function ParseLine(f: Frame, line: string, pid: string): (r: Parsed)
    requires ParseDefined(|f.buffer|, line, pid)
    ensures |r.frame.buffer| == |f.buffer| && r.count <= |f.buffer|
  {
    var text := LineText(line);
    if IsBlankOrComment(text) then Parsed(f.(buffer := f.buffer[0 := Some("")]), 0)
    else
      var ps := Passes(Tokens(text));
      Parsed(RunPasses(f, ps, 0, pid), |ps|)
  }

  /**
    After passes `ps` starting at slot `i`, slot `k` holds the expanded word of
    the pass that had index `k` when that pass was an argument; slots of operator
    passes, and all slots outside the passes, keep their pointers.
  */
  lemma {:induction false} RunPassesSlots(f: Frame, ps: seq<Pass>, i: nat, pid: string, k: nat)
    requires Complete(ps) && i + |ps| <= |f.buffer| && k < |f.buffer|
    ensures RunPasses(f, ps, i, pid).buffer[k] ==
      if i <= k < i + |ps| && IsArgument(ps[k - i].word) then Some(Expand(ps[k - i].word, pid))
      else f.buffer[k]
    decreases |ps|
  {
    if ps != [] {
      assert ps[0] in ps;
      assert forall p :: p in ps[1..] ==> p in ps;
      var g := ApplyPass(f, ps[0], i, pid);
      RunPassesSlots(g, ps[1..], i + 1, pid, k);
    }
  }

  /** `ps[j]` is the last pass whose word is `op`. */
  predicate IsLastOf(ps: seq<Pass>, j: int, op: string) {
    0 <= j < |ps| && ps[j].word == op && forall m :: j < m < |ps| ==> ps[m].word != op
  }

  /** Dropping the first pass keeps which later pass is the last `op`. */
  lemma IsLastOfTail(ps: seq<Pass>, op: string)
    requires ps != []
    ensures forall j :: IsLastOf(ps, j, op) && j > 0 ==> IsLastOf(ps[1..], j - 1, op)
    ensures IsLastOf(ps, 0, op) ==> forall m :: 0 <= m < |ps[1..]| ==> ps[1..][m].word != op
  {
    if IsLastOf(ps, 0, op) {
      forall m | 0 <= m < |ps[1..]| ensures ps[1..][m].word != op { assert ps[1..][m] == ps[m + 1]; }
    }
  }

  /**
    The output file: each exact `>` copies its operand over `fileOut`, so the
    last one wins, and without one the old name stays.
  */
  lemma {:induction false} RunPassesFileOut(f: Frame, ps: seq<Pass>, i: nat, pid: string)
    requires Complete(ps) && i + |ps| <= |f.buffer|
    ensures var g := RunPasses(f, ps, i, pid);
      && ((forall j :: 0 <= j < |ps| ==> ps[j].word != ">") ==> g.fileOut == f.fileOut)
      && (forall j :: IsLastOf(ps, j, ">") ==> g.fileOut == ps[j].operand.value)
    decreases |ps|
  {
    if ps != [] {
      assert ps[0] in ps;
      assert forall p :: p in ps[1..] ==> p in ps;
      RunPassesFileOut(ApplyPass(f, ps[0], i, pid), ps[1..], i + 1, pid);
      IsLastOfTail(ps, ">");
    }
  }

  /**
    The input file: each exact `<` copies its operand over `fileIn`, so the
    last one wins, and without one the old name stays.
  */
  lemma {:induction false} RunPassesFileIn(f: Frame, ps: seq<Pass>, i: nat, pid: string)
    requires Complete(ps) && i + |ps| <= |f.buffer|
    ensures var g := RunPasses(f, ps, i, pid);
      && ((forall j :: 0 <= j < |ps| ==> ps[j].word != "<") ==> g.fileIn == f.fileIn)
      && (forall j :: IsLastOf(ps, j, "<") ==> g.fileIn == ps[j].operand.value)
    decreases |ps|
  {
    if ps != [] {
      assert ps[0] in ps;
      assert forall p :: p in ps[1..] ==> p in ps;
      RunPassesFileIn(ApplyPass(f, ps[0], i, pid), ps[1..], i + 1, pid);
      IsLastOfTail(ps, "<");
    }
  }

  /** An exact `&` anywhere among the passes sets the flag to 1; without one the flag is kept. */
  lemma {:induction false} RunPassesBackground(f: Frame, ps: seq<Pass>, i: nat, pid: string)
    requires Complete(ps) && i + |ps| <= |f.buffer|
    ensures RunPasses(f, ps, i, pid).bgFlag ==
      if exists j :: 0 <= j < |ps| && ps[j].word == "&" then 1 else f.bgFlag
    decreases |ps|
  {
    if ps != [] {
      assert ps[0] in ps;
      assert forall p :: p in ps[1..] ==> p in ps;
      RunPassesBackground(ApplyPass(f, ps[0], i, pid), ps[1..], i + 1, pid);
      if exists j :: 0 <= j < |ps[1..]| && ps[1..][j].word == "&" {
        var j :| 0 <= j < |ps[1..]| && ps[1..][j].word == "&";
        assert ps[j + 1].word == "&";
      }
      if exists j :: 0 <= j < |ps| && ps[j].word == "&" {
        var j :| 0 <= j < |ps| && ps[j].word == "&";
        if j > 0 {
          assert ps[1..][j - 1].word == "&";
        }
      }
    }
  }

  /**
    An empty line, or one whose first token holds '#', is a comment: slot 0
    becomes the empty string, the count is 0, and nothing else changes.
  */
  lemma ParseCommentLine(f: Frame, line: string, pid: string)
    requires ParseDefined(|f.buffer|, line, pid)
    requires var text := LineText(line);
      text == [] || (Tokens(text) != [] && '#' in Tokens(text)[0])
    ensures ParseLine(f, line, pid).count == 0
    ensures ParseLine(f, line, pid).frame == f.(buffer := f.buffer[0 := Some("")])
  {
    AfterFirstStrtokSeesFirstToken(LineText(line));
  }

  /** A line of spaces only is no comment: the loop runs zero times and nothing is written. */
  lemma ParseSpacesLine(f: Frame, line: string, pid: string)
    requires ParseDefined(|f.buffer|, line, pid)
    requires var text := LineText(line);
      text != [] && forall k :: 0 <= k < |text| ==> text[k] == ' '
    ensures ParseLine(f, line, pid) == Parsed(f, 0)
  {
    var text := LineText(line);
    NoTokensIffBlank(text);
    AfterFirstStrtokSeesFirstToken(text);
  }

  /**
    A line that is not a comment: the count is the number of passes, slot `k`
    below it holds the expanded `k`-th word when that word is an argument,
    every other slot keeps its pointer, so nothing is written at or past the count.
  */
  lemma ParseCommandSlots(f: Frame, line: string, pid: string)
    requires ParseDefined(|f.buffer|, line, pid)
    requires !IsBlankOrComment(LineText(line))
    ensures var ps := Passes(Tokens(LineText(line)));
      var r := ParseLine(f, line, pid);
      && r.count == |ps|
      && |r.frame.buffer| == |f.buffer|
      && (forall k :: 0 <= k < |f.buffer| ==>
            r.frame.buffer[k] == (if k < |ps| && IsArgument(ps[k].word) then Some(Expand(ps[k].word, pid)) else f.buffer[k]))
  {
    var ps := Passes(Tokens(LineText(line)));
    forall k | 0 <= k < |f.buffer|
      ensures RunPasses(f, ps, 0, pid).buffer[k] ==
        if k < |ps| && IsArgument(ps[k].word) then Some(Expand(ps[k].word, pid)) else f.buffer[k]
    {
      RunPassesSlots(f, ps, 0, pid, k);
    }
  }
}
