/** A strip-packing instance as the loader returns it: `W`, `N`, `widths`, `heights`. */
module Instances {
  datatype Instance = Instance(w: int, n: nat, widths: seq<int>, heights: seq<int>)
  {
    /** One width and one height per item, as the instance loader produces them. */
    predicate Shaped() {
      |widths| == n && |heights| == n
    }
  }
}
