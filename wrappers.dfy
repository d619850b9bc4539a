/** Small helper datatypes shared by the whole model. */
module Wrappers {

  /** Python's `None` versus a present value. */
  datatype Option<+T> = None | Some(value: T)

  /** What a call into foreign code (OpenCV, HTTP, JSON, float()) yields:
      it raised an exception, or it returned a value. */
  datatype Raw<+T> = Raised | Returned(value: T)
}
