/** The `auth.*` builtins and the check made when one is parsed. */
module Builtins {

  datatype BuiltinError =
    | UnknownBuiltin(name: string)
    | ArityMismatch(name: string, expected: nat, got: nat)

  datatype Validation = Valid | Invalid(error: BuiltinError)

  const BUILTIN_NAMES: set<string> :=
    {"user_id", "org_id", "role", "has_permission", "in_org", "email", "session_id", "is_authenticated"}

  function Arity(name: string): nat
    requires name in BUILTIN_NAMES
  {
    if name == "has_permission" || name == "in_org" then 1 else 0
  }

  function ValidateCall(name: string, argCount: nat): Validation {
    if name !in BUILTIN_NAMES then Invalid(UnknownBuiltin(name))
    else if argCount != Arity(name) then Invalid(ArityMismatch(name, Arity(name), argCount))
    else Valid
  }
}
