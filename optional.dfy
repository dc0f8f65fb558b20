/** An optional value: `None` stands for JavaScript's `undefined` where the
    dashboard reads past the end of a row, and for "no result" elsewhere. */
module Optional {

  datatype Option<+T> = None | Some(value: T)

}
