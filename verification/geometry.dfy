/**
 * Page geometry used by the question extractor: words and highlight
 * rectangles as axis-aligned boxes in page coordinates (x grows to the
 * right, `top` grows downwards, so `top <= bottom` for a well-formed box).
 * Coordinates are exact reals. The extractor compares them and takes
 * minima and maxima, which the reals reproduce, but it also subtracts the
 * tops of two words when grouping lines, and that difference is computed
 * here exactly where the program rounds it to a double.
 */
module Geometry {

  /** An axis-aligned rectangle: left, top, right and bottom edges. */
  datatype Box = Box(x0: real, top: real, x1: real, bottom: real)

  /** A word as the PDF layer delivers it: its text and its bounding box. */
  datatype Word = Word(text: string, x0: real, top: real, x1: real, bottom: real)

  function WordBox(w: Word): Box {
    Box(w.x0, w.top, w.x1, w.bottom)
  }

  function Min(a: real, b: real): real { if a <= b then a else b }
  function Max(a: real, b: real): real { if a >= b then a else b }

  /** `inner` lies (weakly) inside `outer`. */
  predicate Inside(inner: Box, outer: Box) {
    outer.x0 <= inner.x0 && outer.top <= inner.top &&
    inner.x1 <= outer.x1 && inner.bottom <= outer.bottom
  }

  /**
   * The overlap test of the extractor: the intersection of the two boxes,
   * computed edge by edge with max/min, must have strictly positive width
   * and strictly positive height, so only boxes of positive width and
   * height can meet anything.
   */
  predicate Intersects(a: Box, b: Box)
    ensures Intersects(a, b) ==> a.x0 < a.x1 && a.top < a.bottom && b.x0 < b.x1 && b.top < b.bottom
  {
    var ix0 := Max(a.x0, b.x0);
    var itop := Max(a.top, b.top);
    var ix1 := Min(a.x1, b.x1);
    var ibottom := Min(a.bottom, b.bottom);
    ix1 > ix0 && ibottom > itop
  }

  /**
   * The overlap test is the conjunction of strict overlaps of the two
   * horizontal and the two vertical intervals.
   */
  lemma IntersectsIffIntervalsOverlap(a: Box, b: Box)
    ensures Intersects(a, b) <==>
      (a.x0 < a.x1 && b.x0 < b.x1 && a.x0 < b.x1 && b.x0 < a.x1 &&
       a.top < a.bottom && b.top < b.bottom && a.top < b.bottom && b.top < a.bottom)
  {
  }

  /** The overlap test does not depend on the order of its arguments. */
  lemma IntersectsSymmetric(a: Box, b: Box)
    ensures Intersects(a, b) == Intersects(b, a)
  {
  }

  /** Boxes that only touch along a vertical or horizontal edge do not intersect. */
  lemma TouchingBoxesDoNotIntersect(a: Box, b: Box)
    requires a.x1 == b.x0 || a.bottom == b.top
    ensures !Intersects(a, b)
  {
  }

  /** A box with zero width or zero height intersects nothing. */
  lemma DegenerateBoxIntersectsNothing(a: Box, b: Box)
    requires a.x1 <= a.x0 || a.bottom <= a.top
    ensures !Intersects(a, b)
  {
  }

  /** The smallest box containing both arguments. */
  function Hull(a: Box, b: Box): Box {
    Box(Min(a.x0, b.x0), Min(a.top, b.top), Max(a.x1, b.x1), Max(a.bottom, b.bottom))
  }

  /**
   * The bounding box of a line: the least `x0` and `top` and the greatest
   * `x1` and `bottom` over the words of the line. Every word lies inside
   * it and each of its four edges is an edge of some word of the line.
   */
  function LineBox(line: seq<Word>): (r: Box)
    requires |line| > 0
    ensures forall i :: 0 <= i < |line| ==> Inside(WordBox(line[i]), r)
    ensures exists i :: 0 <= i < |line| && line[i].x0 == r.x0
    ensures exists i :: 0 <= i < |line| && line[i].top == r.top
    ensures exists i :: 0 <= i < |line| && line[i].x1 == r.x1
    ensures exists i :: 0 <= i < |line| && line[i].bottom == r.bottom
  {
    if |line| == 1 then WordBox(line[0])
    else
      var prefix := line[..|line| - 1];
      var b := LineBox(prefix);
      assert forall i :: 0 <= i < |prefix| ==> prefix[i] == line[i];
      Hull(b, WordBox(line[|line| - 1]))
  }

  /** Some rectangle of `hs` intersects `box`. */
  ghost predicate HitsAny(box: Box, hs: seq<Box>) {
    exists h :: h in hs && Intersects(box, h)
  }

  /**
   * The loop the extractor runs over the page's highlights, stopping at
   * the first one that intersects the line box.
   */
  method FindOverlap(box: Box, hs: seq<Box>) returns (found: bool)
    ensures found <==> HitsAny(box, hs)
  {
    found := false;
    var i := 0;
    while i < |hs|
      invariant 0 <= i <= |hs|
      invariant forall j :: 0 <= j < i ==> !Intersects(box, hs[j])
    {
      if Intersects(box, hs[i]) {
        found := true;
        break;
      }
      i := i + 1;
    }
  }
}
