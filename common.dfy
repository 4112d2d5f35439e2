/** Small shared vocabulary: optional values and the two ways a translation stage can fail. */
module Common {

  datatype Option<+T> = None | Some(value: T)

  /** The exceptions a stage can raise.
      `TranspilationError` is the typed error of src/Transpiler.ts; `TypeError` stands for
      the JavaScript runtime error raised when a method is called on `undefined`, or when
      a node has no method of the name called. */
  datatype Error =
    | TranspilationError(message: string)
    | TypeError(message: string)

  /** How a stage ended: normally, or by throwing. */
  datatype Outcome = Pass | Fail(error: Error)

  /** The result of writing out one unit: its text, or the error that was thrown. */
  datatype Translation = Translated(text: string) | Failed(error: Error)
}
