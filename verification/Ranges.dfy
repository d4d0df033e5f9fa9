/** Half-open ranges of positions. */
module Ranges {
  datatype Bounds = Bounds(start: nat, end: nat)

  type Range = r: Bounds | r.start <= r.end witness Bounds(0, 0)

  predicate Within(inner: Range, outer: Range) {
    outer.start <= inner.start && inner.end <= outer.end
  }

  function Length(range: Range): nat {
    range.end - range.start
  }
}
