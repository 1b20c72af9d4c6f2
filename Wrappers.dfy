/** The optional-value datatype shared by the decoders and the widget model. */
module Wrappers {

  /** `None` stands for a failed decode, a JavaScript `undefined`, or a computation yielding NaN. */
  datatype Option<+T> = None | Some(value: T)
}
