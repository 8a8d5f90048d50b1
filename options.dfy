/** The optional value that stands for Python's `None`-or-something results
    (an image that `cv2.imread` could not decode, a missing file part). */
module Options {

  datatype Option<+T> = None | Some(value: T)
}
