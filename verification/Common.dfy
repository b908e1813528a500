/** What several of the models need: a value that may be absent, and the null pointer of
    the memories whose addresses are integers. */
module Common {

  datatype Option<+T> = None | Some(value: T)

  const NULL: int := 0
}
