/** What several components share: optional results, absent links, bytes. */
module Basics {

  datatype Option<+T> = None | Some(value: T)

  /** A link that leads nowhere; links are positions. */
  const NULL: int := -1

  type Bytes = seq<bv8>
}
