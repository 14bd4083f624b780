/** The optional value used for partial results (an unparsable timestamp, an
    absent search hit). */
module Wrappers {

  datatype Option<+T> = None | Some(value: T)

}
