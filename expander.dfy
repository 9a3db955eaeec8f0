/**
  The expander: every `$$` in a command word becomes the shell's process id.
  The pure function `Expand` says what the result is; the method `Expando`
  builds it the way the shell does, walking the word and writing into a
  fixed buffer.
*/
module Expander {
  import opened CString

  /** Size of the buffer `expando` allocates for its result, NUL included. */
  const ExpandCapacity: nat := 512

  /** The marker `$$` starts the string. */
  predicate StartsWithMarker(s: string) {
    |s| >= 2 && s[0] == '$' && s[1] == '$'
  }

  /** `strstr(s, "$$") != NULL`: the marker occurs somewhere in `s`. */
  predicate HasMarker(s: string) {
    exists k :: 0 <= k < |s| - 1 && s[k] == '$' && s[k + 1] == '$'
  }

  /**
    The word with its markers replaced by `pid`, scanning left to right: a
    marker found at the scan position is replaced and skipped as a whole, so
    matches never overlap and `$$$` becomes `pid` followed by `$`.
  */
  function Expand(s: string, pid: string): (r: string)
    ensures IsCString(s) && IsCString(pid) ==> IsCString(r)
    decreases |s|
  {
    if s == [] then []
    else if StartsWithMarker(s) then pid + Expand(s[2..], pid)
    else [s[0]] + Expand(s[1..], pid)
  }

  /** The number of markers that scan replaces. */
  function MarkerCount(s: string): nat
    decreases |s|
  {
    if s == [] then 0
    else if StartsWithMarker(s) then 1 + MarkerCount(s[2..])
    else MarkerCount(s[1..])
  }

  /** Each replaced marker trades two characters for the process id. */
  lemma {:induction false} ExpandLength(s: string, pid: string)
    ensures |Expand(s, pid)| == |s| - 2 * MarkerCount(s) + MarkerCount(s) * |pid|
    decreases |s|
  {
    if s == [] {
    } else if StartsWithMarker(s) {
      ExpandLength(s[2..], pid);
      var k := MarkerCount(s[2..]);
      assert (k + 1) * |pid| == k * |pid| + |pid|;
    } else {
      ExpandLength(s[1..], pid);
    }
  }

  /** The scan replaces at least one marker exactly when the word holds one. */
  lemma {:induction false} MarkerCountPositiveIff(s: string)
    ensures MarkerCount(s) > 0 <==> HasMarker(s)
    decreases |s|
  {
    if s == [] {
    } else if StartsWithMarker(s) {
      assert s[0] == '$' && s[1] == '$';
    } else {
      MarkerCountPositiveIff(s[1..]);
      if HasMarker(s[1..]) {
        var k :| 0 <= k < |s[1..]| - 1 && s[1..][k] == '$' && s[1..][k + 1] == '$';
        assert s[k + 1] == '$' && s[k + 2] == '$';
      }
      if HasMarker(s) {
        var k :| 0 <= k < |s| - 1 && s[k] == '$' && s[k + 1] == '$';
        assert k != 0;
        assert s[1..][k - 1] == '$' && s[1..][k] == '$';
      }
    }
  }

  /** Replacing each marker by the marker itself gives the word back:
      every other character is copied, in order. */
  lemma {:induction false} ExpandWithMarkerIsIdentity(s: string)
    ensures Expand(s, "$$") == s
    decreases |s|
  {
    if s == [] {
    } else if StartsWithMarker(s) {
      ExpandWithMarkerIsIdentity(s[2..]);
      assert s == s[..2] + s[2..] && s[..2] == "$$";
    } else {
      ExpandWithMarkerIsIdentity(s[1..]);
      assert s == [s[0]] + s[1..];
    }
  }

  /** A word without a marker comes back unchanged. */
  lemma {:induction false} ExpandWithoutMarker(s: string, pid: string)
    requires !HasMarker(s)
    ensures Expand(s, pid) == s
    decreases |s|
  {
    if s != [] {
      assert !StartsWithMarker(s);
      forall k | 0 <= k < |s[1..]| - 1
        ensures !(s[1..][k] == '$' && s[1..][k + 1] == '$')
      {
        assert s[1..][k] == s[k + 1] && s[1..][k + 1] == s[k + 2];
      }
      ExpandWithoutMarker(s[1..], pid);
      assert s == [s[0]] + s[1..];
    }
  }

  /** Scaling by a positive count keeps a difference from two. */
  lemma {:induction false} ScaledDiffersFromTwice(k: nat, n: nat)
    requires k > 0 && n != 2
    ensures k * n != 2 * k
    ensures n > 2 ==> k * n > 2 * k
    ensures n < 2 ==> k * n < 2 * k
  {
    if k > 1 {
      ScaledDiffersFromTwice(k - 1, n);
      assert k * n == (k - 1) * n + n;
    }
  }

  /** With a two-character id other than the marker, a word holding a marker changes. */
  lemma {:induction false} ExpandTwoCharacterIdChanges(s: string, pid: string)
    requires |pid| == 2 && pid != "$$" && HasMarker(s)
    ensures Expand(s, pid) != s
    decreases |s|
  {
    if StartsWithMarker(s) {
      assert s[..2] == "$$";
      assert Expand(s, pid)[..2] == pid;
    } else {
      var k :| 0 <= k < |s| - 1 && s[k] == '$' && s[k + 1] == '$';
      assert k != 0;
      assert s[1..][k - 1] == '$' && s[1..][k] == '$';
      ExpandTwoCharacterIdChanges(s[1..], pid);
      assert Expand(s, pid) == [s[0]] + Expand(s[1..], pid);
    }
  }

  /**
    With any process id but the marker itself (a printed decimal id never is
    one), expansion changes the word exactly when the word holds a marker.
  */
  lemma ExpandChangesIffMarker(s: string, pid: string)
    requires pid != "$$"
    ensures Expand(s, pid) == s <==> !HasMarker(s)
  {
    if HasMarker(s) {
      if |pid| == 2 {
        ExpandTwoCharacterIdChanges(s, pid);
      } else {
        MarkerCountPositiveIff(s);
        ExpandLength(s, pid);
        ScaledDiffersFromTwice(MarkerCount(s), |pid|);
      }
    } else {
      ExpandWithoutMarker(s, pid);
    }
  }

  /** An odd run of three dollars keeps its last one. */
  lemma ExpandThreeDollars(pid: string)
    ensures Expand("$$$", pid) == pid + "$"
  {
    assert "$$$"[2..] == "$";
    assert Expand("$", pid) == "$";
  }

  /** Adjacent markers both expand. */
  lemma ExpandFourDollars(pid: string)
    ensures Expand("$$$$", pid) == pid + pid
  {
    assert "$$$$"[2..] == "$$";
    assert "$$"[2..] == [];
  }

  /**
    `strcpy(&buf[at], src)`: the characters of `src` land at `at`, followed by
    the terminating NUL; what lies before `at` and after that NUL is kept.
  */
  method CopyAt(buf: array<char>, at: nat, src: string)
    requires at + |src| < buf.Length
    modifies buf
    ensures buf[..at + |src|] == old(buf[..at]) + src
    ensures buf[at + |src|] == '\0'
    ensures buf[at + |src| + 1..] == old(buf[at + |src| + 1..])
  {
    var k := 0;
    while k < |src|
      invariant 0 <= k <= |src|
      invariant buf[..at + k] == old(buf[..at]) + src[..k]
      invariant buf[at + |src| + 1..] == old(buf[at + |src| + 1..])
    {
      buf[at + k] := src[k];
      k := k + 1;
    }
    assert src[..k] == src;
    buf[at + |src|] := '\0';
  }

  /** `buf[at] = c`: the character lands at `at`, every other cell is kept. */
  method PutAt(buf: array<char>, at: nat, c: char)
    requires at < buf.Length
    modifies buf
    ensures buf[..at + 1] == old(buf[..at]) + [c]
    ensures buf[at + 1..] == old(buf[at + 1..])
  {
    buf[at] := c;
  }

  lemma ExpandAtMarker(s: string, p: nat, pid: string)
    requires p < |s| && StartsWithMarker(s[p..])
    ensures Expand(s[p..], pid) == pid + Expand(s[p + 2..], pid)
  {
    assert s[p..][2..] == s[p + 2..];
  }

  lemma ExpandAtCharacter(s: string, p: nat, pid: string)
    requires p < |s| && !StartsWithMarker(s[p..])
    ensures Expand(s[p..], pid) == [s[p]] + Expand(s[p + 1..], pid)
  {
    assert s[p..][1..] == s[p + 1..];
  }

  /**
    One turn of the walk in `expando`: at a `$$` the id is copied in with
    `strcpy` and the read index moves past the marker, otherwise one character
    is copied. What is built so far followed by the expansion of what is left
    to read stays the same.
  */
  method ExpandoTurn(newStr: array<char>, word: string, pid: string, a: nat, p: nat)
    returns (a': nat, p': nat)
    requires p < |word| && a + |Expand(word[p..], pid)| < newStr.Length
    modifies newStr
    ensures p < p' <= |word|
    ensures a' + |Expand(word[p'..], pid)| == a + |Expand(word[p..], pid)|
    ensures newStr[..a'] + Expand(word[p'..], pid) == old(newStr[..a]) + Expand(word[p..], pid)
  {
    if StartsWithMarker(word[p..]) {
      ExpandAtMarker(word, p, pid);
      CopyAt(newStr, a, pid);
      a', p' := a + |pid|, p + 2;
    } else {
      ExpandAtCharacter(word, p, pid);
      PutAt(newStr, a, word[p]);
      a', p' := a + 1, p + 1;
    }
  }

  /**
    `expando(word, pid)`: the walk of main.c, copying one character or, where
    `$$` starts, the whole process id into a buffer of `ExpandCapacity`
    characters with write index `a`. The result has to fit that buffer.
  */
  method Expando(word: string, pid: string) returns (r: string)
    requires IsCString(word) && IsCString(pid)
    requires |Expand(word, pid)| < ExpandCapacity
    ensures r == Expand(word, pid)
  {
    var newStr := new char[ExpandCapacity];
    var a, p := 0, 0;
    while p < |word|
      invariant 0 <= p <= |word|
      invariant 0 <= a && a + |Expand(word[p..], pid)| == |Expand(word, pid)|
      invariant newStr[..a] + Expand(word[p..], pid) == Expand(word, pid)
      decreases |word| - p
    {
      a, p := ExpandoTurn(newStr, word, pid, a, p);
    }
    newStr[a] := '\0';
    r := newStr[..a];
  }
}
