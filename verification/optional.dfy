/** An optional value: the model's stand-in for Swift's `Optional`, used for
    `touches.first` and the never-read `startPoint`. */
module Optional {

  datatype Option<+T> = None | Some(value: T)
}
