/** An optional value, standing for absl::optional in the factory's interface. */
module Optional {

  datatype Option<T> = None | Some(value: T)

}
