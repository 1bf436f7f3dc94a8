// Objects, options and error codes.

module Mink {

  datatype Option<T> = None | Some(value: T)

  datatype Object = Null | Obj(id: nat)

  const OK := 0
  const ERROR := 1
  const ERROR_INVALID := 2
  const ERROR_MEM := 5
  const ERROR_DEFUNCT := -90
  const ERROR_UNAVAIL := -96

  /** MINKHUB_ERROR_NOT_VALID */
  const ERROR_NOT_VALID := ERROR_DEFUNCT

  /** IModule_ERROR_NOT_FOUND and MINKHUB_ERROR_SERVICE_NOT_FOUND: the first user error. */
  const NOT_FOUND := 10
}
