/** The Option type used for the dashboard's tracking references, which
    start out empty (`null`) until the first sensor event arrives. */
module Wrappers {

  datatype Option<+T> = None | Some(value: T)
}
