/** An optional value: a property that may be `undefined`, an element that `querySelector`
    may not find. */
module Wrappers {

  datatype Option<+T> = None | Some(value: T)

}
