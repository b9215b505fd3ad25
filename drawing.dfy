/** The canvas `outputImg` and the two ways the source paints on it: `imaging.Overlay` for an
    image layer (main.go:169) and `drawText` for a text layer (main.go:88-113).

    Pixels are left abstract: a canvas is the background it was cloned from followed by the
    ordered list of paint operations applied to it. Resampling, alpha blending and glyph
    rasterisation belong to the image and font libraries and are not modelled. */
module Drawing {
  import opened Basics
  import opened HexColor
  import opened TextLayout

  datatype Point = Point(x: int, y: int)

  /** A decoded or resized image; `content` stands for its pixels. */
  datatype Raster = Raster(content: nat, width: nat, height: nat)

  /** A font face built by `opentype.NewFace`; `lineHeight` is `Metrics().Height.Ceil()`. */
  datatype Face = Face(handle: nat, lineHeight: int)

  datatype Paint =
    | Blend(image: Raster, topLeft: Point, opacity: real)    // imaging.Overlay
    | Glyphs(line: seq<byte>, dot: Point, color: Rgba, face: Face)  // font.Drawer.DrawString

  /** What `drawText` paints: one glyph run per line of the split text, at the origin the
      alignment, the measured width and the line index give. `measure` stands for
      `font.MeasureString(face, line).Ceil()`. */
  function TextPaints(text: seq<byte>, anchor: Point, color: Rgba, face: Face, align: seq<byte>,
                      measure: (Face, seq<byte>) -> int): (ps: seq<Paint>)
    ensures |ps| == |SplitLines(text)|
    ensures forall i :: 0 <= i < |ps| ==>
      && ps[i].Glyphs? && ps[i].line == SplitLines(text)[i]
      && ps[i].color == color && ps[i].face == face
  {
    var lines := SplitLines(text);
    seq(|lines|, i requires 0 <= i < |lines| =>
      Glyphs(lines[i], Point(LineX(anchor.x, align, measure(face, lines[i])), LineY(anchor.y, i, face.lineHeight)), color, face))
  }

  /** The layout `drawText` produces: one glyph run per separator plus one, no run holding the
      separator, the runs joined by it giving back the text, line `i` at `anchorY + i *
      lineHeight`, and the x origin the alignment string selects. */
  lemma TextPaintsLayout(text: seq<byte>, anchor: Point, color: Rgba, face: Face, align: seq<byte>,
                         measure: (Face, seq<byte>) -> int)
    ensures var ps := TextPaints(text, anchor, color, face, align, measure);
      && |ps| == CountBreaks(text) + 1
      && (forall i :: 0 <= i < |ps| ==> ps[i].Glyphs? && ps[i].color == color && ps[i].face == face)
      && (forall i :: 0 <= i < |ps| ==> !HasBreak(ps[i].line))
      && JoinLines(seq(|ps|, i requires 0 <= i < |ps| => ps[i].line)) == text
      && (forall i :: 0 <= i < |ps| ==> ps[i].dot.y == anchor.y + i * face.lineHeight)
      && (forall i :: 0 <= i < |ps| ==> ps[i].dot.x == LineX(anchor.x, align, measure(face, ps[i].line)))
  {
    var lines := SplitLines(text);
    var ps := TextPaints(text, anchor, color, face, align, measure);
    SplitCount(text);
    LinesHaveNoBreak(text);
    JoinSplit(text);
    assert seq(|ps|, i requires 0 <= i < |ps| => ps[i].line) == lines;
    forall i | 0 <= i < |ps| ensures ps[i].dot.y == anchor.y + i * face.lineHeight {
      assert ps[i].dot.y == LineY(anchor.y, i, face.lineHeight);
    }
  }

  class Canvas {
    const background: Raster
    var paints: seq<Paint>

    /** `imaging.Clone(bgImg)` (main.go:141). */
    constructor Clone(bg: Raster)
      ensures background == bg && paints == []
    {
      background := bg;
      paints := [];
    }

    /** `outputImg.Bounds().Dx()` and `.Dy()`: neither overlaying nor drawing text changes the
        size, so it stays the background's. */
    function Width(): (w: nat) reads this { background.width }
    function Height(): (h: nat) reads this { background.height }

    /** `outputImg = imaging.Overlay(outputImg, img, at, 1.0)`: blend at full opacity. */
    method Overlay(img: Raster, at: Point)
      modifies this
      ensures paints == old(paints) + [Blend(img, at, 1.0)]
    {
      paints := paints + [Blend(img, at, 1.0)];
    }

    /** `drawText(img, text, pos, col, fontFace, align)`. */
    method DrawText(text: seq<byte>, pos: Point, col: Rgba, face: Face, align: seq<byte>,
                    measure: (Face, seq<byte>) -> int)
      modifies this
      ensures paints == old(paints) + TextPaints(text, pos, col, face, align, measure)
    {
      var lines := SplitLines(text);
      ghost var want := TextPaints(text, pos, col, face, align, measure);
      for i := 0 to |lines|
        invariant paints == old(paints) + want[..i]
      {
        var line := lines[i];
        var textWidth := measure(face, line);
        var x;
        if align == Ascii("center") {
          x := pos.x - Quo(textWidth, 2);
        } else if align == Ascii("right") {
          x := pos.x - textWidth;
        } else {
          x := pos.x;
        }
        paints := paints + [Glyphs(line, Point(x, pos.y + i * face.lineHeight), col, face)];
        assert want[..i + 1] == want[..i] + [want[i]];
      }
      assert want[..|lines|] == want;
    }
  }
}
