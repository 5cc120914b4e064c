/** std::optional, as the environment helpers return it. */
module Optional {

  datatype Option<T> = None | Some(value: T)
}
