/**
 * Rendering as data: what `display` and `redraw` ask of the 2D canvas
 * context, written as a sequence of abstract draw operations.
 */
module Render {
  import opened Wrappers
  import opened Shapes

  datatype DrawOp =
    | ClearRect(x: int, y: int, width: int, height: int)
    | SetLineWidth(width: int)
    | BeginPath
    | MoveTo(p: Point)
    | LineTo(p: Point)
    | StrokePath
    | SetFontSize(px: int)   // the font `<px>px monospace`
    | FillText(text: string, at: Point)

  const CanvasWidth := 256
  const CanvasHeight := 256
  /** Glyph size per unit of marker width or sticker size. */
  const Magnitude := 8
  const XOffset := 4
  const YOffset := 2
  /** The glyph of the marker preview. */
  const MarkerGlyph := "*"

  /** One lineTo per point. */
  function LineTos(pts: seq<Point>): (r: seq<DrawOp>)
    ensures |r| == |pts|
  {
    if pts == [] then [] else LineTos(pts[..|pts| - 1]) + [LineTo(pts[|pts| - 1])]
  }

  /** The i-th lineTo goes to the i-th point. */
  lemma {:induction false} LineTosAt(pts: seq<Point>, i: nat)
    requires i < |pts|
    ensures LineTos(pts)[i] == LineTo(pts[i])
  {
    var n := |pts|;
    if i < n - 1 {
      LineTosAt(pts[..n - 1], i);
    }
  }

  /** The `display` of a line command or of a sticker command. */
  function StrokeOps(s: CommandValue): (r: seq<DrawOp>)
    ensures |r| == if s.kind.Line? then |s.points| + 4 else 2
    ensures r[|r| - 1] == if s.kind.Line? then StrokePath else FillText(s.kind.sticker.name, s.points[|s.points| - 1])
  {
    match s.kind
    case Line(m) =>
      [SetLineWidth(m.lineWidth), BeginPath, MoveTo(s.points[0])] + LineTos(s.points) + [StrokePath]
    case Stamp(st) =>
      [SetFontSize(st.size * Magnitude), FillText(st.name, s.points[|s.points| - 1])]
  }

  /** The commands' drawings one after the other, in the order of the list. */
  function StrokesOps(drawn: seq<CommandValue>): seq<DrawOp>
  {
    if drawn == [] then [] else StrokesOps(drawn[..|drawn| - 1]) + StrokeOps(drawn[|drawn| - 1])
  }

  /** The `display` of a preview command. */
  function PreviewOps(p: Preview): (r: seq<DrawOp>)
    ensures |r| == 2 && r[1].FillText?
    ensures r[0] == SetFontSize(Magnitude * (if p.LinePreview? then p.marker.lineWidth else p.sticker.size))
  {
    match p
    case LinePreview(x, y, m) =>
      [SetFontSize(m.lineWidth * Magnitude),
       FillText(MarkerGlyph, Point(x - (m.lineWidth * Magnitude) / XOffset, y + (m.lineWidth * Magnitude) / YOffset))]
    case StickerPreview(x, y, st) =>
      [SetFontSize(st.size * Magnitude),
       FillText(st.name, Point(x - Magnitude / XOffset, y + Magnitude / YOffset))]
  }

  function CursorOps(cursor: Option<Preview>): seq<DrawOp>
  {
    if cursor.Some? then PreviewOps(cursor.value) else []
  }

  /** `redraw`: clear the whole canvas, replay every command, then the preview if there is one. */
  function Frame(drawn: seq<CommandValue>, cursor: Option<Preview>): (r: seq<DrawOp>)
    ensures |r| == 1 + |StrokesOps(drawn)| + |CursorOps(cursor)|
    ensures r[0] == ClearRect(Start, Start, CanvasWidth, CanvasHeight)
    ensures cursor.None? ==> r[1..] == StrokesOps(drawn)
  {
    var strokes, shown := StrokesOps(drawn), CursorOps(cursor);
    DropFirst(ClearRect(Start, Start, CanvasWidth, CanvasHeight), strokes, shown);
    [ClearRect(Start, Start, CanvasWidth, CanvasHeight)] + strokes + shown
  }

  lemma DropFirst<T>(x: T, s: seq<T>, t: seq<T>)
    ensures ([x] + s + t)[1..] == s + t
    ensures t == [] ==> s + t == s
  {
    assert ([x] + s + t)[1..] == s + t;
  }

  /**
   * A line command's path: the line width, a moveTo to the first point, a
   * lineTo for every point (the first one included) in order, and the stroke.
   */
  lemma LinePath(m: Marker, pts: Path)
    ensures var r := StrokeOps(CommandValue(Line(m), pts));
      && |r| == |pts| + 4
      && r[0] == SetLineWidth(m.lineWidth)
      && r[1] == BeginPath
      && r[2] == MoveTo(pts[0])
      && (forall i :: 0 <= i < |pts| ==> r[3 + i] == LineTo(pts[i]))
      && r[|r| - 1] == StrokePath
  {
    var r := StrokeOps(CommandValue(Line(m), pts));
    var prefix := [SetLineWidth(m.lineWidth), BeginPath, MoveTo(pts[0])];
    assert r == prefix + LineTos(pts) + [StrokePath];
    forall i | 0 <= i < |pts| ensures r[3 + i] == LineTo(pts[i]) {
      LineTosAt(pts, i);
      assert r[3 + i] == LineTos(pts)[i];
    }
  }

  /**
   * A sticker command is drawn only at its newest point: its name, at font
   * size `size * 8`, wherever the last drag left it.
   */
  lemma StampAtLastPoint(st: Sticker, pts: seq<Point>, p: Point)
    ensures StrokeOps(CommandValue(Stamp(st), pts + [p])) == [SetFontSize(8 * st.size), FillText(st.name, p)]
  {
  }

  /** The marker preview: a `*` at (x - 2 * width, y + 4 * width), font size 8 * width. */
  lemma MarkerPreviewPlacement(x: int, y: int, m: Marker)
    ensures PreviewOps(LinePreview(x, y, m))
         == [SetFontSize(8 * m.lineWidth), FillText(MarkerGlyph, Point(x - 2 * m.lineWidth, y + 4 * m.lineWidth))]
  {
    assert (m.lineWidth * Magnitude) / XOffset == 2 * m.lineWidth;
    assert (m.lineWidth * Magnitude) / YOffset == 4 * m.lineWidth;
  }

  /** The sticker preview: its name at (x - 2, y + 4), font size 8 * size. */
  lemma StickerPreviewPlacement(x: int, y: int, st: Sticker)
    ensures PreviewOps(StickerPreview(x, y, st))
         == [SetFontSize(8 * st.size), FillText(st.name, Point(x - 2, y + 4))]
  {
  }

  lemma StrokesOpsSnoc(drawn: seq<CommandValue>, s: CommandValue)
    ensures StrokesOps(drawn + [s]) == StrokesOps(drawn) + StrokeOps(s)
  {
    assert (drawn + [s])[..|drawn|] == drawn;
  }

  lemma SplitLast<T>(a: seq<T>, b: seq<T>)
    requires b != []
    ensures b == b[..|b| - 1] + [b[|b| - 1]]
    ensures a + b == (a + b[..|b| - 1]) + [b[|b| - 1]]
  {
  }

  /** Replaying two lists one after the other draws the same as replaying their concatenation. */
  lemma {:induction false} StrokesOpsAppend(a: seq<CommandValue>, b: seq<CommandValue>)
    ensures StrokesOps(a + b) == StrokesOps(a) + StrokesOps(b)
    decreases |b|
  {
    if b == [] {
      assert a + b == a;
    } else {
      var b', last := b[..|b| - 1], b[|b| - 1];
      SplitLast(a, b);
      StrokesOpsSnoc(a + b', last);
      StrokesOpsSnoc(b', last);
      StrokesOpsAppend(a, b');
      Assoc(StrokesOps(a), StrokesOps(b'), StrokeOps(last));
    }
  }

  /** Concatenation regrouped, stated once so that the proofs above do not search for it. */
  lemma Assoc<T>(x: seq<T>, y: seq<T>, z: seq<T>)
    ensures (x + y) + z == x + (y + z)
  {
  }

  /** The regrouping of a frame's five parts. */
  lemma ConcatAssoc<T>(c: seq<T>, a: seq<T>, b: seq<T>, d: seq<T>, e: seq<T>)
    ensures c + (a + b + d) + e == c + a + b + d + e
  {
  }

  /**
   * The order of a frame: the clear, then the drawings of the commands before
   * `s`, then that of `s`, then those after it, and the preview last.
   */
  lemma RedrawOrder(before: seq<CommandValue>, s: CommandValue, after: seq<CommandValue>, cursor: Option<Preview>)
    ensures Frame(before + [s] + after, cursor)
         == [ClearRect(Start, Start, CanvasWidth, CanvasHeight)]
            + StrokesOps(before) + StrokeOps(s) + StrokesOps(after) + CursorOps(cursor)
  {
    var front := before + [s];
    var all := front + after;
    var clear := [ClearRect(Start, Start, CanvasWidth, CanvasHeight)];
    StrokesOpsAppend(front, after);
    assert front[..|front| - 1] == before;
    assert StrokesOps(all) == StrokesOps(before) + StrokeOps(s) + StrokesOps(after);
    assert Frame(all, cursor) == clear + StrokesOps(all) + CursorOps(cursor);
    ConcatAssoc(clear, StrokesOps(before), StrokeOps(s), StrokesOps(after), CursorOps(cursor));
  }
}
