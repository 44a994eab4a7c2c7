/**
  The command dispatcher: the first argument names the command, `run` to
  start a container or `child` for the process inside it.
 */
module Dispatcher {
  import opened Common

  const RUN: int := 1
  const CHILD: int := 2
  const COMMAND_NOT_FOUND: int := -1

  const RUN_COMMAND: string := "run"
  const CHILD_COMMAND: string := "child"

  /** `dispatcher(command)`: the code of a command name, compared by exact string equality. */
  function Dispatch(command: string): (code: int)
    ensures code == RUN <==> command == RUN_COMMAND
    ensures code == CHILD <==> command == CHILD_COMMAND
    ensures code == COMMAND_NOT_FOUND <==> command != RUN_COMMAND && command != CHILD_COMMAND
  {
    if command == RUN_COMMAND then RUN
    else if command == CHILD_COMMAND then CHILD
    else COMMAND_NOT_FOUND
  }

  /** The name that selects a command code, if any does. */
  function CommandName(code: int): (name: Option<string>)
    ensures name.Some? <==> code == RUN || code == CHILD
  {
    if code == RUN then Some(RUN_COMMAND)
    else if code == CHILD then Some(CHILD_COMMAND)
    else None
  }

  /** Naming a code and dispatching the name gives the code back, and every recognised name is the name of its code. */
  lemma DispatchRoundTrip(code: int, command: string)
    ensures CommandName(code).Some? ==> Dispatch(CommandName(code).value) == code
    ensures Dispatch(command) != COMMAND_NOT_FOUND ==> CommandName(Dispatch(command)) == Some(command)
  {
  }

  /** Matching is exact: a change of case or a trailing space is not recognised. */
  lemma DispatchIsExact()
    ensures Dispatch("Run") == COMMAND_NOT_FOUND
    ensures Dispatch("run ") == COMMAND_NOT_FOUND
    ensures Dispatch("CHILD") == COMMAND_NOT_FOUND
  {
    assert "Run"[0] != RUN_COMMAND[0];
    assert |"run "| != |RUN_COMMAND|;
    assert "CHILD"[0] != CHILD_COMMAND[0];
  }
}
