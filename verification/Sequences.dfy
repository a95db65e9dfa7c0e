// Lists of places.
module Sequences {
  // Each place once, in increasing order.
  ghost predicate Increasing(pos: seq<nat>) {
    forall i, j | 0 <= i < j < |pos| :: pos[i] < pos[j]
  }
}
