/** An optional value, standing for the nullable references of the search
    (a node's parent, the solution). */
module Options {

  datatype Option<+T> = None | Some(value: T)
}
