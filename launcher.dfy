/**
 * The decision skeleton of the launcher's entry point: reject a blank
 * command line, split it, resolve the file, hand the target and parameters
 * to the shell's "open" verb, and map the outcome to an exit code.
 */
module Launcher {
  import opened Wrappers
  import opened Text
  import opened Tokenizer
  import opened Resolver

  /** `ShellExecuteEx` with the "open" verb: given the target and the
      parameters (None for a null `lpParameters`), true when the process was
      started; a reported failure or a thrown exception both give false. */
  type Dispatch = (string, Option<string>) -> bool

  /** What is handed to the shell: the target and its parameters. */
  datatype LaunchRequest = LaunchRequest(target: string, parameters: Option<string>)

  const ExitSuccess: int := 0
  const ExitBlankInput: int := 1
  const ExitLaunchFailed: int := 2

  /** `lpParameters`: no parameters at all when the parameter string is blank. */
  function ParametersArgument(parameters: string): (a: Option<string>)
    ensures a == None <==> IsNullOrWhiteSpace(parameters)
    ensures a.Some? ==> a.value == parameters
  {
    if IsNullOrWhiteSpace(parameters) then None else Some(parameters)
  }

  /** The launcher's run on the joined command line `input`: the exit code,
      and the request handed to the shell (None when nothing was launched). */
  method Run(input: string, lookup: Lookup, dispatch: Dispatch)
    returns (exitCode: int, request: Option<LaunchRequest>)
    ensures exitCode == ExitBlankInput <==> IsNullOrWhiteSpace(input)
    ensures exitCode == ExitBlankInput <==> request == None
    ensures request.Some? ==>
      var cmd := SplitCommand(input);
      && request.value.target == Resolve(lookup, cmd.file).GetOr(cmd.file)
      && request.value.parameters == ParametersArgument(cmd.parameters)
      && exitCode == (if dispatch(request.value.target, request.value.parameters)
                      then ExitSuccess else ExitLaunchFailed)
  {
    if IsNullOrWhiteSpace(input) {
      return ExitBlankInput, None;
    }
    var cmd := SplitCommand(input);
    var resolved := ResolveAppPath(lookup, cmd.file);
    var launch := LaunchRequest(resolved.GetOr(cmd.file), ParametersArgument(cmd.parameters));
    var ok := dispatch(launch.target, launch.parameters);
    exitCode := if ok then ExitSuccess else ExitLaunchFailed;
    request := Some(launch);
  }

  /** The parameter string the tokenizer produces is trimmed, so the shell is
      given no parameters exactly when the tokenizer found none. */
  lemma NoParametersIffEmpty(input: string)
    ensures ParametersArgument(SplitCommand(input).parameters) == None
      <==> SplitCommand(input).parameters == ""
  {
    var p := SplitCommand(input).parameters;
    BlankIffTrimEmpty(p);
    TrimOfTrimmed(p);
  }
}
