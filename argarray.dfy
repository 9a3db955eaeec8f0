/**
  The shell's argument array `char *inputBuffer[]`: a row of string pointers,
  each NULL (`None`) or a word. `setArrayToNull` clears a prefix of it, and
  `execvp` reads it as a vector that ends at the first NULL.
*/
module ArgArray {
  import opened CString

  /** The array after its first `n` slots are set to NULL; a count of zero or
      less clears nothing. */
  function NullPrefix(slots: seq<Option<string>>, n: int): (r: seq<Option<string>>)
    requires n <= |slots|
    ensures |r| == |slots|
    ensures forall k :: 0 <= k < |slots| && k < n ==> r[k] == None
    ensures forall k :: 0 <= k < |slots| && n <= k ==> r[k] == slots[k]
  {
    seq(|slots|, k requires 0 <= k < |slots| => if k < n then None else slots[k])
  }

  /**
    `setArrayToNull(inputArray, terminator)`: slots `0 .. terminator - 1`
    become NULL, every other slot keeps its pointer.
  */
  method SetArrayToNull(inputArray: array<Option<string>>, terminator: int)
    requires terminator <= inputArray.Length
    modifies inputArray
    ensures inputArray[..] == NullPrefix(old(inputArray[..]), terminator)
  {
    var i := 0;
    while i < terminator
      invariant 0 <= i <= if terminator < 0 then 0 else terminator
      invariant forall k :: 0 <= k < inputArray.Length ==>
        inputArray[k] == if k < i then None else old(inputArray[k])
    {
      inputArray[i] := None;
      i := i + 1;
    }
    ghost var cleared := NullPrefix(old(inputArray[..]), terminator);
    assert forall k :: 0 <= k < inputArray.Length ==> inputArray[..][k] == cleared[k];
  }

  /**
    The argument vector `execvp` sees in the array: the words before the first
    NULL. A NULL slot ends the vector even when later slots hold words.
  */
  function Argv(slots: seq<Option<string>>): (argv: seq<string>)
    ensures |argv| <= |slots|
    ensures forall k :: 0 <= k < |argv| ==> slots[k] == Some(argv[k])
    ensures |argv| < |slots| ==> slots[|argv|] == None
  {
    if slots == [] || slots[0] == None then []
    else [slots[0].value] + Argv(slots[1..])
  }
}
