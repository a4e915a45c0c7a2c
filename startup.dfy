/** The decision `main` takes before the first cycle: give up on a bad
    configuration or client, stop after a configuration check, stop on the
    placeholder configuration, or start updating. */
module Startup {
  import opened Dns

  /** How the process goes on: exit with a status after printing some lines,
      or run the update cycles. */
  datatype Outcome = Exit(status: int, printed: seq<string>) | Run

  /** The only argument that selects the configuration check. */
  const CheckArgument: string := "check"

  /** The email of the placeholder configuration. */
  const DummyEmail: string := "email"

  /** The line printed when the placeholder configuration is found. */
  const DummyMessage: string := "Found dummy config. Exiting."

  /** `args` includes the program name, as `os.Args` does: the check is
      selected by exactly one argument equal to "check". */
  predicate IsCheckMode(args: seq<string>) {
    |args| == 2 && args[1] == CheckArgument
  }

  /** `config` is the configured email, or the message of the error that
      reading the configuration gave; `clientError` is the message of the
      error that constructing the provider client gave, if any. */
  function StartupDecision(config: Result<string>, clientError: Option<string>, args: seq<string>): (r: Outcome)
    ensures config.Err? ==> r == Exit(1, [config.message])
    ensures config.Ok? && clientError.Some? ==> r == Exit(1, [clientError.value])
    ensures config.Ok? && clientError.None? && IsCheckMode(args) ==> r == Exit(0, [])
    ensures config.Ok? && clientError.None? && !IsCheckMode(args) && config.value == DummyEmail ==>
      r == Exit(0, [DummyMessage])
    ensures r == Run <==>
      config.Ok? && clientError.None? && !IsCheckMode(args) && config.value != DummyEmail
  {
    if config.Err? then Exit(1, [config.message])
    else if clientError.Some? then Exit(1, [clientError.value])
    else if IsCheckMode(args) then Exit(0, [])
    else if config.value == DummyEmail then Exit(0, [DummyMessage])
    else Run
  }
}
