/** The optional-value datatype shared by the other modules. */
module Options {

  datatype Option<+T> = None | Some(value: T)
}

/** How a command ends. */
module Process {

  /** It returns normally, or it calls `process.exit` with a status code. */
  datatype Outcome = Returned | Exited(code: int)
}
