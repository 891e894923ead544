/** internal/hook/executor.go: how the result of running an external hook is turned into
    a decision. Running the process is not part of this model: its outcome is an input
    record, decoding stdout as a hook output is the parameter `decode`, and the text of
    a duration (`time.Duration.String`) is the parameter `showDuration`. */
module Executor {
  import opened Wrappers
  import opened Strings
  import opened Decisions
  import opened Config

  /** The JSON a hook prints on stdout. */
  datatype HookOutput = HookOutput(decision: string, reason: string, warning: string)

  /** The error `cmd.Run` returned: an exit status, a failure to start the program
      (`*exec.Error`), a path error (with whether it means the file does not exist), or
      anything else. */
  datatype RunError = ExitError(code: int) | ExecError | PathError(notExist: bool) | OtherError

  /** What happened when the hook was run. `encodeError` is set when the input could not
      be encoded, in which case nothing was run. */
  datatype Outcome = Outcome(
    encodeError: Option<string>,
    deadlineExceeded: bool,
    err: Option<RunError>,
    stdout: string,
    stderr: string)

  /** defaultTimeout: five seconds, in nanoseconds. */
  const DefaultTimeout: int := 5_000_000_000

  /** The timeout for a hook: its own when positive, the default otherwise. */
  function EffectiveTimeout(timeout: int): (r: int)
    ensures timeout > 0 ==> r == timeout
    ensures timeout <= 0 ==> r == DefaultTimeout
    ensures r > 0
  {
    if timeout > 0 then timeout else DefaultTimeout
  }

  /** isCommandNotFound. */
  predicate IsCommandNotFound(e: RunError)
  {
    match e
      case ExitError(code) => code == 127
      case ExecError => true
      case PathError(notExist) => notExist
      case OtherError => false
  }

  /** outputToResult. */
  function OutputToResult(o: HookOutput): (d: Decision)
    ensures o.decision == "deny" ==> d == Deny(o.reason)
    ensures o.decision == "advise" ==> d == Decision(true, "", o.warning)
    ensures o.decision != "deny" && o.decision != "advise" ==> d == Allow
  {
    if o.decision == "deny" then Deny(o.reason)
    else if o.decision == "advise" then Decision(true, "", o.warning)
    else Allow
  }

  /** handleError: `on_error: deny` turns a hook failure into a denial, anything else
      into a warning. */
  function HandleError(onError: string, msg: string): (d: Decision)
    ensures d.allowed <==> onError != "deny"
    ensures !d.allowed ==> d == Deny("hook error: " + msg)
    ensures d.allowed ==> d == Decision(true, "", "hook error (allowed): " + msg)
  {
    if onError == "deny" then Deny("hook error: " + msg)
    else Decision(true, "", "hook error (allowed): " + msg)
  }

  /** The reason for a failed run without usable output. */
  const ExitDenied: string := "hook denied (exit code non-zero)"

  /** The run failed because the program could not be found. */
  predicate NotFound(o: Outcome)
  {
    o.err.Some? && IsCommandNotFound(o.err.value)
  }

  /** The hook printed something that decodes as a hook output. */
  predicate Decodes(o: Outcome, decode: string -> Option<HookOutput>)
  {
    |o.stdout| > 0 && decode(o.stdout).Some?
  }

  /** Execute, after the run: the order of the tests is encoding error, deadline, command
      not found, usable stdout, other run error, success. */
  function Execute(h: HookConfig, o: Outcome, decode: string -> Option<HookOutput>, showDuration: int -> string): (d: Decision)
    ensures o.encodeError.Some? ==> d == HandleError(h.onError, "failed to encode input: " + o.encodeError.value)
    ensures o.encodeError.None? && o.deadlineExceeded ==>
      d == HandleError(h.onError, "hook timed out after " + showDuration(EffectiveTimeout(h.timeout)))
    ensures o.encodeError.None? && !o.deadlineExceeded && NotFound(o) ==>
      d == HandleError(h.onError, "command not found: " + h.command)
    ensures o.encodeError.None? && !o.deadlineExceeded && !NotFound(o) && Decodes(o, decode) ==>
      d == OutputToResult(decode(o.stdout).value)
    ensures o.encodeError.None? && !o.deadlineExceeded && o.err.Some? && !NotFound(o) && !Decodes(o, decode) ==>
      d == Deny(if o.stderr == "" then ExitDenied else o.stderr)
    ensures o.encodeError.None? && !o.deadlineExceeded && o.err.None? && !Decodes(o, decode) ==>
      d == Allow
  {
    var timeout := EffectiveTimeout(h.timeout);
    if o.encodeError.Some? then HandleError(h.onError, "failed to encode input: " + o.encodeError.value)
    else if o.deadlineExceeded then HandleError(h.onError, "hook timed out after " + showDuration(timeout))
    else if NotFound(o) then HandleError(h.onError, "command not found: " + h.command)
    else if Decodes(o, decode) then OutputToResult(decode(o.stdout).value)
    else if o.err.Some? then
      var reason := if o.stderr == "" then ExitDenied else o.stderr;
      Deny(reason)
    else Allow
  }

  /** A deadline expiry decides the result, whatever the hook printed or how it exited. */
  lemma DeadlineIgnoresOutput(h: HookConfig, o: Outcome, o': Outcome, decode: string -> Option<HookOutput>, showDuration: int -> string)
    requires o.encodeError.None? && o'.encodeError.None? && o.deadlineExceeded && o'.deadlineExceeded
    ensures Execute(h, o, decode, showDuration) == Execute(h, o', decode, showDuration)
  {
  }

  /** Output that decodes overrides the exit status, unless the command was not found. */
  lemma DecodedOutputOverridesExit(h: HookConfig, o: Outcome, e: RunError, decode: string -> Option<HookOutput>, showDuration: int -> string)
    requires o.encodeError.None? && !o.deadlineExceeded && !IsCommandNotFound(e)
    requires Decodes(o, decode)
    ensures Execute(h, o.(err := Some(e)), decode, showDuration) == Execute(h, o.(err := None), decode, showDuration)
  {
  }

  /** A failed run without usable output denies, and always with a non-empty reason. */
  lemma FailedRunReason(h: HookConfig, o: Outcome, decode: string -> Option<HookOutput>, showDuration: int -> string)
    requires o.encodeError.None? && !o.deadlineExceeded && o.err.Some? && !NotFound(o)
    requires !Decodes(o, decode)
    ensures !Execute(h, o, decode, showDuration).allowed
    ensures Execute(h, o, decode, showDuration).reason != ""
  {
  }

  /** Under any `on_error` other than `deny`, a hook that cannot be run, or runs out of
      time, never blocks the call. */
  lemma ErrorsAllowUnlessDeny(h: HookConfig, o: Outcome, decode: string -> Option<HookOutput>, showDuration: int -> string)
    requires h.onError != "deny"
    requires o.encodeError.Some? || o.deadlineExceeded || NotFound(o)
    ensures Execute(h, o, decode, showDuration).allowed
    ensures HasPrefix(Execute(h, o, decode, showDuration).warning, "hook error (allowed): ")
  {
    var d := Execute(h, o, decode, showDuration);
    assert exists msg :: d == Decision(true, "", "hook error (allowed): " + msg);
    var msg :| d == Decision(true, "", "hook error (allowed): " + msg);
    assert ("hook error (allowed): " + msg)[..|"hook error (allowed): "|] == "hook error (allowed): ";
  }
}
