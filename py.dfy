/** The Python values and exceptions that cross the boundaries of the model. */
module Py {

  /** A value as gin, keyword arguments and `json.loads` see it. */
  datatype PyValue =
    | PyNone
    | PyBool(b: bool)
    | PyInt(i: int)
    | PyFloat(r: real)
    | PyStr(s: string)

  /** The exceptions the modelled code raises or lets through. */
  datatype PyError =
    | ValueError(message: string)      // e.g. `str.split("")`, `gin.query_parameter` of an unbound key
    | IndexError                       // `turn_prefixes[1]` on a shorter list
    | SyntaxError                      // `ast.literal_eval` of a line that is no bytes literal
    | StopIteration                    // `next()` of an exhausted generator
    | RuntimeError(message: string)
    | NoCheckpoint                     // no checkpoint to resolve "latest" against
    | ModelFailed(reason: string)      // the external model run raised
}
