/** A value that may be absent: the model of a JavaScript property that is
    `undefined` (or `null`) in the structured values the agent and the
    vector store hand back. */
module Wrappers {

  datatype Option<+T> = None | Some(value: T) {

    /** The value when present, `default` otherwise: JavaScript's
        `x || default` for a value, such as an array, that is truthy
        whenever it is present. */
    function GetOr(default: T): T {
      match this
      case Some(v) => v
      case None => default
    }
  }
}
