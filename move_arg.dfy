/** `validate_move_arg` (main.py:50-56): reads the strings `"False"` and
    `"True"` as booleans and refuses every other value with a `ValueError`. */
module MoveArg {
  import opened Wrappers

  /** `str(b)` for a Python boolean. */
  function BoolText(b: bool): string {
    if b then "True" else "False"
  }

  function ValidateMoveArg(arg: string): (r: Result<bool, Error>)
    ensures r == Success(false) <==> arg == "False"
    ensures r == Success(true) <==> arg == "True"
    ensures r.Failure? <==> arg != "False" && arg != "True"
    ensures r.Failure? ==> r.error == ValueError
  {
    if arg == "False" then Success(false)
    else if arg == "True" then Success(true)
    else Failure(ValueError)
  }

  /** ValidateMoveArg reads back exactly the text of a boolean, and the
      text of the boolean it accepts is the argument it was given. */
  lemma ValidateMoveArgInverse(b: bool, arg: string)
    ensures ValidateMoveArg(BoolText(b)) == Success(b)
    ensures ValidateMoveArg(arg).Success? ==> BoolText(ValidateMoveArg(arg).value) == arg
  {
  }
}
