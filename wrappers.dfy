/** Optional values: Swift's `Element?` / `T?`, where `nil` is `None`. */
module Wrappers {

  datatype Option<+T> = None | Some(value: T)
}
