/**
  The SIGTSTP handler and the process-wide flag `bgAllowed` it toggles. The
  flag starts at 1 (background commands allowed); each delivery of SIGTSTP
  flips it and writes a fixed message with `write(1, message, n)`.
  Delivery itself is asynchronous; here a delivery is one call of `Toggle`.
*/
module Signals {

  /** Written when the shell enters foreground-only mode. */
  const EnterForegroundMessage: string := "Entering foreground-only mode (& is now ignored)\n"
  /** Written when the shell leaves foreground-only mode. */
  const ExitForegroundMessage: string := "Exiting foreground-only mode\n"

  /** The byte counts the handler passes to `write`. */
  const EnterForegroundCount: nat := 49
  const ExitForegroundCount: nat := 29

  /** `write(1, buf, n)` with `n` within the buffer: the first `n` characters reach the terminal. */
  function Written(buf: string, n: nat): (out: string)
    requires n <= |buf|
    ensures |out| == n && out <= buf
  {
    buf[..n]
  }

  /** What one delivery of SIGTSTP does: the new `bgAllowed` and the characters written. */
  datatype Transition = Transition(bgAllowed: int, output: string)

  /**
    `handleSIGTSTP` on the current value of `bgAllowed`. From 1 and from 0
    the flag flips and the whole fixed message is written; any other value is
    left alone and nothing is written.
  */
  function Sigtstp(bgAllowed: int): (t: Transition)
    ensures bgAllowed == 0 || bgAllowed == 1 ==> t.bgAllowed == 1 - bgAllowed
    ensures bgAllowed == 1 ==> t.output == EnterForegroundMessage
    ensures bgAllowed == 0 ==> t.output == ExitForegroundMessage
    ensures bgAllowed != 0 && bgAllowed != 1 ==> t == Transition(bgAllowed, [])
  {
    if bgAllowed == 1 then Transition(0, Written(EnterForegroundMessage, EnterForegroundCount))
    else if bgAllowed == 0 then Transition(1, Written(ExitForegroundMessage, ExitForegroundCount))
    else Transition(bgAllowed, [])
  }

  /**
    Two deliveries bring the flag back to where it was, having written the
    entering and the leaving message in the order the modes were crossed.
  */
  lemma SigtstpTwiceRestores(bgAllowed: int)
    requires bgAllowed == 0 || bgAllowed == 1
    ensures Sigtstp(Sigtstp(bgAllowed).bgAllowed).bgAllowed == bgAllowed
    ensures Sigtstp(bgAllowed).output + Sigtstp(Sigtstp(bgAllowed).bgAllowed).output ==
      if bgAllowed == 1 then EnterForegroundMessage + ExitForegroundMessage
      else ExitForegroundMessage + EnterForegroundMessage
  {
  }

  /** The holder of `bgAllowed`. */
  class SignalController {
    var bgAllowed: int

    /** `int bgAllowed = 1;` */
    constructor ()
      ensures bgAllowed == 1
    {
      bgAllowed := 1;
    }

    /** One delivery of SIGTSTP to `handleSIGTSTP`; returns what it wrote. */
    method Toggle() returns (written: string)
      modifies this
      ensures Transition(bgAllowed, written) == Sigtstp(old(bgAllowed))
    {
      written := [];
      if bgAllowed == 1 {
        written := Written(EnterForegroundMessage, EnterForegroundCount);
        bgAllowed := 0;
      } else if bgAllowed == 0 {
        written := Written(ExitForegroundMessage, ExitForegroundCount);
        bgAllowed := 1;
      }
    }
  }
}
