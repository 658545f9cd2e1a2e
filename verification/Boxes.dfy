/** Regions of the integer grid, given by the rectangles that make them up. */
module Boxes {
  /** A half-open rectangle. */
  datatype Box = Box(x1: int, y1: int, x2: int, y2: int)

  predicate InBox(b: Box, x: int, y: int) { b.x1 <= x < b.x2 && b.y1 <= y < b.y2 }

  predicate Covers(boxes: seq<Box>, x: int, y: int) { exists i :: 0 <= i < |boxes| && InBox(boxes[i], x, y) }

  predicate Proper(b: Box) { b.x1 < b.x2 && b.y1 < b.y2 }

  predicate AllProper(boxes: seq<Box>) { forall i :: 0 <= i < |boxes| ==> Proper(boxes[i]) }

  lemma CoversSnoc(boxes: seq<Box>, b: Box)
    ensures forall x, y :: Covers(boxes + [b], x, y) <==> Covers(boxes, x, y) || InBox(b, x, y)
  {
    forall x, y ensures Covers(boxes + [b], x, y) <==> Covers(boxes, x, y) || InBox(b, x, y) {
      if Covers(boxes, x, y) {
        var i :| 0 <= i < |boxes| && InBox(boxes[i], x, y);
        assert InBox((boxes + [b])[i], x, y);
      }
      if InBox(b, x, y) {
        assert InBox((boxes + [b])[|boxes|], x, y);
      }
    }
  }

  /** The same region in other rectangles, none of them empty, as a region library keeps it. */
  method Normalise(boxes: seq<Box>) returns (r: seq<Box>)
    ensures AllProper(r)
    ensures forall x, y :: Covers(r, x, y) <==> Covers(boxes, x, y)
  {
    r := [];
    for i := 0 to |boxes|
      invariant AllProper(r)
      invariant forall x, y :: Covers(r, x, y) <==> Covers(boxes[..i], x, y)
    {
      CoversSnoc(boxes[..i], boxes[i]);
      assert boxes[..i] + [boxes[i]] == boxes[..i + 1];
      if Proper(boxes[i]) {
        CoversSnoc(r, boxes[i]);
        r := r + [boxes[i]];
      }
    }
    assert boxes[..|boxes|] == boxes;
  }
}
