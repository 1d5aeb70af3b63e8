/** The usual optional-value wrapper, used for the run's configuration errors. */
module Options {

  datatype Option<+T> = None | Some(value: T)

}
