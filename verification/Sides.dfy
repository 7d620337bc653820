/** What the two kinds of trees in include/libuv/uv/tree.h have in common. */
module Sides {

  /** A side of a node. Every macro of the source that treats one side has a mirror image for the
      other; each pair is written once, with the side as a parameter. */
  datatype Side = L | R {
    function Other(): (o: Side)
      ensures o != this
    {
      if this == L then R else L
    }
  }

  /** The comparison function of a tree, on keys. */
  function Cmp(a: int, b: int): int {
    if a < b then -1 else if a > b then 1 else 0
  }
}
