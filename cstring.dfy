/**
  Models of the C library routines the shell's front end leans on: reading a
  character array as a NUL-terminated string, splitting a line with
  `strtok(_, " ")`, and printing a process id with `snprintf("%d")`.
  A Dafny `string` stands for the characters of a C string, so it never holds
  a NUL; a `char *` that may be NULL is an `Option<string>`.
*/
module CString {

  /** A pointer that is either NULL (`None`) or points at a value. */
  datatype Option<+T> = None | Some(value: T)

  /** The characters of a C string: they never include the terminating NUL. */
  predicate IsCString(s: string) {
    '\0' !in s
  }

  /** The string stored in a character buffer: everything before its first NUL. */
  function CStr(buf: seq<char>): (s: string)
    ensures IsCString(s)
    ensures s <= buf
    ensures |s| < |buf| ==> buf[|s|] == '\0'
  {
    if buf == [] || buf[0] == '\0' then [] else [buf[0]] + CStr(buf[1..])
  }

  /** Length of the run of non-space characters that starts `s`. */
  function WordLength(s: string): (n: nat)
    ensures n <= |s|
    ensures forall k :: 0 <= k < n ==> s[k] != ' '
    ensures n < |s| ==> s[n] == ' '
  {
    if s == [] || s[0] == ' ' then 0 else 1 + WordLength(s[1..])
  }

  /**
    The tokens successive calls of `strtok(_, " ")` return on `s`: the maximal
    runs of characters other than the space, in order. Only the space separates;
    runs of spaces yield no empty token.
  */
  function Tokens(s: string): (toks: seq<string>)
    ensures forall t :: t in toks ==> t != [] && ' ' !in t
    ensures IsCString(s) ==> forall t :: t in toks ==> IsCString(t)
    decreases |s|
  {
    if s == [] then []
    else if s[0] == ' ' then Tokens(s[1..])
    else
      var n := WordLength(s);
      assert forall c :: c in s[..n] ==> c in s;
      [s[..n]] + Tokens(s[n..])
  }

  /** The words joined with one space between neighbours. */
  function JoinSpaces(ws: seq<string>): string {
    if ws == [] then []
    else if |ws| == 1 then ws[0]
    else ws[0] + " " + JoinSpaces(ws[1..])
  }

  lemma {:induction false} WordLengthOfWord(w: string, rest: string)
    requires w != [] && ' ' !in w
    requires rest == [] || rest[0] == ' '
    ensures WordLength(w + rest) == |w|
    decreases |w|
  {
    assert (w + rest)[0] == w[0];
    if |w| > 1 {
      assert (w + rest)[1..] == w[1..] + rest;
      WordLengthOfWord(w[1..], rest);
    } else {
      assert (w + rest)[1..] == rest;
    }
  }

  /** Splitting on spaces undoes joining with spaces: strtok recovers every word. */
  lemma {:induction false} TokensOfJoin(ws: seq<string>)
    requires forall w :: w in ws ==> w != [] && ' ' !in w
    ensures Tokens(JoinSpaces(ws)) == ws
    decreases |ws|
  {
    if ws == [] {
    } else if |ws| == 1 {
      var w := ws[0];
      assert w in ws;
      WordLengthOfWord(w, []);
      assert w + [] == w;
      assert w[..|w|] == w && w[|w|..] == [];
    } else {
      var w, rest := ws[0], JoinSpaces(ws[1..]);
      assert w in ws;
      assert forall v :: v in ws[1..] ==> v in ws;
      var s := w + " " + rest;
      assert s == w + (" " + rest);
      WordLengthOfWord(w, " " + rest);
      assert s[..|w|] == w;
      assert s[|w|..] == " " + rest;
      assert s[|w|..][1..] == rest;
      TokensOfJoin(ws[1..]);
    }
  }

  /** The words run together. */
  function Concat(ws: seq<string>): string {
    if ws == [] then [] else ws[0] + Concat(ws[1..])
  }

  /** The string with every space taken out. */
  function WithoutSpaces(s: string): (r: string)
    ensures ' ' !in r
  {
    if s == [] then [] else (if s[0] == ' ' then [] else [s[0]]) + WithoutSpaces(s[1..])
  }

  lemma {:induction false} WithoutSpacesAppend(a: string, b: string)
    ensures WithoutSpaces(a + b) == WithoutSpaces(a) + WithoutSpaces(b)
    decreases |a|
  {
    if a != [] {
      assert (a + b)[1..] == a[1..] + b;
      WithoutSpacesAppend(a[1..], b);
    } else {
      assert a + b == b;
    }
  }

  lemma {:induction false} WithoutSpacesOfWord(w: string)
    requires ' ' !in w
    ensures WithoutSpaces(w) == w
    decreases |w|
  {
    if w != [] {
      assert w[0] in w;
      assert forall c :: c in w[1..] ==> c in w;
      WithoutSpacesOfWord(w[1..]);
      assert w == [w[0]] + w[1..];
    }
  }

  /**
    strtok loses nothing but spaces: the tokens run together are the string
    with its spaces taken out, whatever spaces lead, trail or repeat.
  */
  lemma {:induction false} TokensKeepEveryNonSpace(s: string)
    ensures Concat(Tokens(s)) == WithoutSpaces(s)
    decreases |s|
  {
    if s == [] {
    } else if s[0] == ' ' {
      TokensKeepEveryNonSpace(s[1..]);
    } else {
      var n := WordLength(s);
      TokensKeepEveryNonSpace(s[n..]);
      assert Tokens(s) == [s[..n]] + Tokens(s[n..]);
      assert ([s[..n]] + Tokens(s[n..]))[1..] == Tokens(s[n..]);
      assert s == s[..n] + s[n..];
      WithoutSpacesAppend(s[..n], s[n..]);
      assert forall c :: c in s[..n] ==> c != ' ';
      WithoutSpacesOfWord(s[..n]);
    }
  }

  /** A string holds no token exactly when it is all spaces. */
  lemma {:induction false} NoTokensIffBlank(s: string)
    ensures Tokens(s) == [] <==> forall k :: 0 <= k < |s| ==> s[k] == ' '
    decreases |s|
  {
    if s != [] {
      NoTokensIffBlank(s[1..]);
      if s[0] == ' ' {
        assert forall k :: 1 <= k < |s| ==> s[k] == s[1..][k - 1];
      }
    }
  }

  /**
    What the line buffer holds, read as a C string, after the first
    `strtok(_, " ")` call: that call writes a NUL just after the first token,
    so the leading spaces and the first token are left; when there is no token
    the call writes nothing and the buffer is unchanged.
  */
  function AfterFirstStrtok(s: string): (r: string)
    ensures r <= s
    decreases |s|
  {
    if s == [] then []
    else if s[0] == ' ' then [' '] + AfterFirstStrtok(s[1..])
    else s[..WordLength(s)]
  }

  /**
    A test on the buffer after the first strtok call sees only the first token:
    it is empty exactly when the line is empty, and it holds '#' exactly when
    the first token does.
  */
  lemma {:induction false} AfterFirstStrtokSeesFirstToken(s: string)
    ensures |AfterFirstStrtok(s)| == 0 <==> s == []
    ensures '#' in AfterFirstStrtok(s) <==> Tokens(s) != [] && '#' in Tokens(s)[0]
    decreases |s|
  {
    if s != [] && s[0] == ' ' {
      AfterFirstStrtokSeesFirstToken(s[1..]);
    }
  }

  /** The ASCII digit for `d`. */
  function Digit(d: nat): (c: char)
    requires d < 10
    ensures '0' <= c <= '9'
  {
    ['0', '1', '2', '3', '4', '5', '6', '7', '8', '9'][d]
  }

  /** `snprintf(buf, n, "%d", v)` for a non-negative `v`: its decimal digits. */
  function DecimalString(v: nat): (s: string)
    ensures s != []
    ensures forall k :: 0 <= k < |s| ==> '0' <= s[k] <= '9'
  {
    if v < 10 then [Digit(v)] else DecimalString(v / 10) + [Digit(v % 10)]
  }

  /** The number a string of decimal digits denotes. */
  function DecimalValue(s: string): nat
    requires forall k :: 0 <= k < |s| ==> '0' <= s[k] <= '9'
  {
    if s == [] then 0
    else DecimalValue(s[..|s| - 1]) * 10 + (s[|s| - 1] as int - '0' as int)
  }

  /** The process id string names the process id it was printed from. */
  lemma {:induction false} DecimalRoundTrip(v: nat)
    ensures DecimalValue(DecimalString(v)) == v
  {
    var s := DecimalString(v);
    if v >= 10 {
      DecimalRoundTrip(v / 10);
      assert s[..|s| - 1] == DecimalString(v / 10);
    }
    assert Digit(v % 10) as int - '0' as int == v % 10;
  }
}
