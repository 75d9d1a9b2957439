/**
 * Highlight detection: which drawn rectangles of a page count as a
 * green or yellow marker highlight.
 */
module Colors {
  import opened Geometry

  /**
   * A colour value as the PDF layer reports it: missing, a single number
   * (grey level), a list of components (RGB has 3, CMYK has 4), or some
   * other non-numeric value (a pattern name, say).
   */
  datatype Color = Absent | Scalar(level: real) | Components(cs: seq<real>) | NonNumeric

  /**
   * The colour classifier. A missing or empty colour, a scalar and any
   * component list whose length is neither 3 nor 4 are rejected. An RGB
   * colour is accepted by four threshold tests (pure green, pure yellow,
   * broad green, broad yellow); a CMYK colour when its yellow channel is
   * high and its black channel low.
   */
  function IsHighlightColor(color: Color): (r: bool)
    ensures !color.Components? ==> !r
    ensures color.Components? && |color.cs| != 3 && |color.cs| != 4 ==> !r
    // The two narrow tests are subsumed by the broad ones.
    ensures color.Components? && |color.cs| == 3 ==>
      (r <==> color.cs[1] > 0.8 &&
               ((color.cs[0] < 0.9 && color.cs[2] < 0.9) || (color.cs[0] > 0.8 && color.cs[2] < 0.6)))
    ensures color.Components? && |color.cs| == 4 ==>
      (r <==> color.cs[2] > 0.8 && color.cs[3] < 0.2)
  {
    match color
    case Absent => false
    case Scalar(_) => false
    case NonNumeric => false
    case Components(cs) =>
      if |cs| == 3 then
        var red, green, blue := cs[0], cs[1], cs[2];
        if red < 0.2 && green > 0.8 && blue < 0.2 then true         // pure green
        else if red > 0.8 && green > 0.8 && blue < 0.2 then true    // pure yellow
        else if green > 0.8 && red < 0.9 && blue < 0.9 then true    // broad green
        else if red > 0.8 && green > 0.8 && blue < 0.6 then true    // broad yellow
        else false
      else if |cs| == 4 then
        var yellow, black := cs[2], cs[3];
        yellow > 0.8 && black < 0.2
      else false
  }

  /** The reference colours: green and yellow are highlights, red, blue and black are not. */
  lemma ReferenceColors()
    ensures IsHighlightColor(Components([0.0, 1.0, 0.0]))
    ensures IsHighlightColor(Components([1.0, 1.0, 0.0]))
    ensures IsHighlightColor(Components([0.5, 1.0, 0.5]))
    ensures IsHighlightColor(Components([0.0, 0.0, 1.0, 0.0]))
    ensures !IsHighlightColor(Components([1.0, 0.0, 0.0]))
    ensures !IsHighlightColor(Components([0.0, 0.0, 1.0]))
    ensures !IsHighlightColor(Components([0.0, 0.0, 0.0]))
    ensures !IsHighlightColor(Components([1.0, 1.0, 1.0]))
    ensures !IsHighlightColor(Components([]))
    ensures !IsHighlightColor(Scalar(1.0))
  {
  }

  /** A rectangle drawn on a page, with its fill and stroke colours. */
  datatype PageRect = PageRect(box: Box, fill: Color, stroke: Color)

  /** A rectangle is a highlight when its fill colour or, failing that, its stroke colour is one. */
  predicate IsHighlightRect(rect: PageRect) {
    IsHighlightColor(rect.fill) || IsHighlightColor(rect.stroke)
  }

  /** The boxes of the highlight rectangles of a page, in drawing order. */
  function HighlightBoxes(rects: seq<PageRect>): (hs: seq<Box>)
    ensures |hs| <= |rects|
    ensures forall b :: b in hs <==> exists i :: 0 <= i < |rects| && IsHighlightRect(rects[i]) && rects[i].box == b
  {
    if rects == [] then []
    else
      var prefix := rects[..|rects| - 1];
      var last := rects[|rects| - 1];
      assert forall i :: 0 <= i < |prefix| ==> prefix[i] == rects[i];
      HighlightBoxes(prefix) + (if IsHighlightRect(last) then [last.box] else [])
  }

  /** The extractor's first pass over a page: keep every rectangle whose colour marks a highlight. */
  method CollectHighlights(rects: seq<PageRect>) returns (highlights: seq<Box>)
    ensures highlights == HighlightBoxes(rects)
  {
    highlights := [];
    for i := 0 to |rects|
      invariant highlights == HighlightBoxes(rects[..i])
    {
      assert rects[..i + 1][..i] == rects[..i];
      if IsHighlightColor(rects[i].fill) {
        highlights := highlights + [rects[i].box];
      } else if IsHighlightColor(rects[i].stroke) {
        highlights := highlights + [rects[i].box];
      }
    }
    assert rects[..|rects|] == rects;
  }
}
