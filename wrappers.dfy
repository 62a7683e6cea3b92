/** The conventional optional value, used where the browser answers "nothing"
    (a cache miss, an element that querySelector did not find). */
module Wrappers {

  datatype Option<+T> = None | Some(value: T)
}
