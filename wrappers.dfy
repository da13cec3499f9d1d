/** The optional value used for shard identifiers: `None` is the pending proposal, `Some(i)` on-chain shard `i`. */
module Wrappers {

  datatype Option<+T> = None | Some(value: T)
}
