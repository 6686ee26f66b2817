/**
 * The verbosity state machine of ulib (logging.hpp).  The level lives in two static
 * variables: the first call to verbosity() fixes it for the rest of the program, and
 * every message function consults it (and so fixes it at the default 3 if nothing
 * fixed it before).  Standard output is modelled as the text written so far.
 */
module Logging {
  import opened Wrappers
  import opened Decimal

  /** BASE_VERBOSITY, the default argument of verbosity(). */
  const BaseVerbosity: int := 3
  /** The highest level; also the level chosen for an out-of-range request. */
  const MaxVerbosity: int := 5

  /** The level the first call stores for a requested level. */
  function ChosenLevel(requested: int): (level: int)
    ensures 0 <= level <= MaxVerbosity
    ensures 0 <= requested <= MaxVerbosity ==> level == requested
    ensures !(0 <= requested <= MaxVerbosity) ==> level == MaxVerbosity
  {
    if requested < 0 || requested > MaxVerbosity then MaxVerbosity else requested
  }

  /** The text _errorMsg composes for its exception and prints. */
  function ErrorText(msg: string, file: string, func: string, line: nat): string
  {
    "\nERROR: In file " + file + " at function " + func + " on line " + NatToString(line) + " : " + msg
  }

  function WarningLine(msg: string, func: string): string
  {
    func + ": " + "WARNING! " + msg + "\n"
  }

  function InfoLine(msg: string, func: string): string
  {
    func + ": " + msg + "\n"
  }

  function DebugLine(msg: string, func: string): string
  {
    func + ": " + "DEBUG - " + msg + "\n"
  }

  /** The static state behind verbosity() together with the program's standard output. */
  class Logger {
    var firstCall: bool
    var level: int
    var output: string

    /** The stored level is always a valid one; before the first call it is the default. */
    ghost predicate Valid()
      reads this
    {
      0 <= level <= MaxVerbosity && (firstCall ==> level == BaseVerbosity)
    }

    /** Program start: no call has been made yet and nothing has been printed. */
    constructor ()
      ensures Valid() && firstCall && level == BaseVerbosity && output == ""
    {
      firstCall := true;
      level := BaseVerbosity;
      output := "";
    }

    /** ulib::verbosity: the first call stores its (checked) argument, every call returns the stored level. */
    method Verbosity(requested: int) returns (r: int)
      requires Valid()
      modifies this`firstCall, this`level
      ensures Valid() && !firstCall
      ensures level == if old(firstCall) then ChosenLevel(requested) else old(level)
      ensures r == level
    {
      if firstCall {
        firstCall := false;
        if requested < 0 || requested > MaxVerbosity {
          level := MaxVerbosity;
          return level;
        }
        level := requested;
      }
      return level;
    }

    /** ulib::_errorMsg: prints the message and always raises it. */
    method ErrorMsg(msg: string, file: string, func: string, line: nat) returns (o: Outcome)
      modifies this`output
      ensures o == Fail(ErrorText(msg, file, func, line))
      ensures output == old(output) + ErrorText(msg, file, func, line) + "\n\n\n"
    {
      var text := ErrorText(msg, file, func, line);
      output := output + text + "\n\n\n";
      return Fail(text);
    }

    /**
     * ulib::_warningMsg: with `alwaysPrint` the warning is printed unconditionally,
     * and it is printed (again) when the level exceeds 1.
     */
    method WarningMsg(msg: string, func: string, alwaysPrint: bool)
      requires Valid()
      modifies this
      ensures Valid() && !firstCall
      ensures level == if old(firstCall) then BaseVerbosity else old(level)
      ensures output == old(output)
        + (if alwaysPrint then WarningLine(msg, func) else "")
        + (if level > 1 then WarningLine(msg, func) else "")
    {
      if alwaysPrint {
        output := output + WarningLine(msg, func);
      }
      var v := Verbosity(BaseVerbosity);
      if v > 1 {
        output := output + WarningLine(msg, func);
      }
    }

    /** ulib::_infoMsg: printed once if `alwaysPrint` (without consulting the level) or if the level exceeds 2. */
    method InfoMsg(msg: string, func: string, alwaysPrint: bool)
      requires Valid()
      modifies this
      ensures Valid()
      ensures alwaysPrint ==> firstCall == old(firstCall) && level == old(level)
      ensures !alwaysPrint ==> !firstCall && level == if old(firstCall) then BaseVerbosity else old(level)
      ensures output == old(output) + (if alwaysPrint || level > 2 then InfoLine(msg, func) else "")
    {
      if alwaysPrint {
        output := output + InfoLine(msg, func);
        return;
      }
      var v := Verbosity(BaseVerbosity);
      if v > 2 {
        output := output + InfoLine(msg, func);
      }
    }

    /** ulib::_lowPriorityMsg: printed iff the level exceeds 3. */
    method LowPriorityMsg(msg: string, func: string)
      requires Valid()
      modifies this
      ensures Valid() && !firstCall
      ensures level == if old(firstCall) then BaseVerbosity else old(level)
      ensures output == old(output) + (if level > 3 then InfoLine(msg, func) else "")
    {
      var v := Verbosity(BaseVerbosity);
      if v > 3 {
        output := output + InfoLine(msg, func);
      }
    }

    /** ulib::_debugMsg: printed iff the level exceeds 4. */
    method DebugMsg(msg: string, func: string)
      requires Valid()
      modifies this
      ensures Valid() && !firstCall
      ensures level == if old(firstCall) then BaseVerbosity else old(level)
      ensures output == old(output) + (if level > 4 then DebugLine(msg, func) else "")
    {
      var v := Verbosity(BaseVerbosity);
      if v > 4 {
        output := output + DebugLine(msg, func);
      }
    }
  }
}
