/**
 * The graph cell of one history row (`RevsetGraph_` in
 * src/components/revset_tree.tsx): from a `GraphRow` and the metrics row
 * height, column width and left padding it decides the canvas width, one
 * line or cubic curve per segment, the stub coming in from the row above
 * and the node marker. SVG path strings and CSS classes are not modelled;
 * the drawing decisions are returned as values.
 */
module RevsetTree {
  import opened Wrappers
  import opened Numbers
  import opened Bindings
  import opened GraphLayout
  import LayoutProperties

  /** `row_height`, `col_width` and `padding_left`, in pixels. */
  datatype Metrics = Metrics(rowHeight: real, colWidth: real, paddingLeft: real)

  datatype Point = Point(x: real, y: real)

  /** An SVG `M … L …` line, or an `M … C …` cubic curve with two control points. */
  datatype Shape =
    | Line(start: Point, end: Point)
    | Curve(start: Point, control1: Point, control2: Point, end: Point)

  /** The three node states, in priority order. */
  datatype Glyph = WorkingCopy | Immutable | Mutable

  datatype Marker = Marker(glyph: Glyph, center: Point, size: int)

  /** Everything the cell draws: canvas width, stroke width, one shape per segment, the incoming stub, the marker. */
  datatype Drawing = Drawing(width: real, strokeWidth: real, paths: seq<Shape>, stub: Option<Shape>, marker: Marker)

  function MaxReal(a: real, b: real): real
  {
    if a < b then b else a
  }

  /** `Math.max(...row.paths.map((p) => Math.max(p.from, p.to)), row.column)`: the highest column the row touches. */
  function MaxIndex(paths: seq<PathSegment>, column: nat): (r: nat)
    ensures column <= r
    ensures forall k :: 0 <= k < |paths| ==> paths[k].from <= r && paths[k].to <= r
    ensures r == column || exists k :: 0 <= k < |paths| && (r == paths[k].from || r == paths[k].to)
    decreases |paths|
  {
    if paths == [] then column
    else
      var last := paths[|paths| - 1];
      Max(MaxIndex(paths[..|paths| - 1], column), Max(last.from, last.to))
  }

  /** The x-coordinate of the centre of a column. */
  function ColumnX(column: nat, m: Metrics): real
  {
    column as real * m.colWidth + m.paddingLeft
  }

  /** The width of `columns` columns. */
  function Span(columns: nat, m: Metrics): real
  {
    columns as real * m.colWidth
  }

  /** Canvas width before the 100-pixel floor: one column width per column up to the highest touched. */
  function GraphWidth(row: GraphRow, m: Metrics): real
  {
    Span(MaxIndex(row.paths, row.column) + 1, m)
  }

  /** `Math.max(2, row_height / 15)`. */
  function StrokeWidth(m: Metrics): (w: real)
    ensures w >= 2.0
    ensures w >= m.rowHeight / 15.0
    ensures w == 2.0 || w == m.rowHeight / 15.0
  {
    MaxReal(2.0, m.rowHeight / 15.0)
  }

  /** `Math.max(12, Math.floor(row_height * 0.66))`. */
  function SymbolSize(m: Metrics): (size: int)
    ensures size >= 12
    ensures size as real <= MaxReal(12.0, m.rowHeight * 0.66)
    ensures m.rowHeight * 0.66 < (size + 1) as real
  {
    var scaled := (m.rowHeight * 0.66).Floor;
    if scaled < 12 then 12 else scaled
  }

  /** Which of the three branches of the path `if` a segment takes. */
  datatype Connector =
    | Vertical   // straight, or from == to
    | FromNode   // leaves the node: starts at mid-row
    | Crossing   // the fallback: from the top edge to the bottom edge

  function ConnectorOf(column: nat, seg: PathSegment): Connector
  {
    if seg.kind == Straight || seg.from == seg.to then Vertical
    else if seg.from == column then FromNode
    else Crossing
  }

  /**
   * The shape of one segment. Every shape runs from the source column to
   * the target column and ends on the bottom edge; a line starts on the top
   * edge, a curve from the node at mid-row, the fallback curve on the top
   * edge with both control points at mid-row.
   */
  function SegmentShape(column: nat, seg: PathSegment, m: Metrics): (s: Shape)
    ensures s.start.x == ColumnX(seg.from, m)
    ensures s.end == Point(ColumnX(seg.to, m), m.rowHeight)
    ensures s.Line? <==> seg.kind == Straight || seg.from == seg.to
    ensures s.start.y == (if ConnectorOf(column, seg) == FromNode then m.rowHeight / 2.0 else 0.0)
    ensures s.Curve? ==> s.control1.x == s.start.x && s.control2 == Point(s.end.x, m.rowHeight / 2.0)
    ensures s.Curve? ==> s.control1.y == (if seg.from == column then m.rowHeight else m.rowHeight / 2.0)
  {
    var x1 := ColumnX(seg.from, m);
    var x2 := ColumnX(seg.to, m);
    var h := m.rowHeight;
    match ConnectorOf(column, seg)
    case Vertical => Line(Point(x1, 0.0), Point(x2, h))
    case FromNode => Curve(Point(x1, h / 2.0), Point(x1, h), Point(x2, h / 2.0), Point(x2, h))
    case Crossing => Curve(Point(x1, 0.0), Point(x1, h / 2.0), Point(x2, h / 2.0), Point(x2, h))
  }

  /** The line coming in from the row above, drawn only when a lane ends at this commit. */
  function IncomingStub(row: GraphRow, m: Metrics): (stub: Option<Shape>)
    ensures stub.Some? <==> row.hasChild
    ensures stub.Some? ==>
      stub.value == Line(Point(ColumnX(row.column, m), 0.0), Point(ColumnX(row.column, m), m.rowHeight / 2.0))
  {
    if row.hasChild then
      Some(Line(Point(ColumnX(row.column, m), 0.0), Point(ColumnX(row.column, m), m.rowHeight / 2.0)))
    else None
  }

  /** The working copy is marked first, then an immutable commit, otherwise a mutable one. */
  function GlyphOf(commit: Commit): (g: Glyph)
    ensures g == WorkingCopy <==> commit.isWorkingCopy
    ensures g == Immutable <==> !commit.isWorkingCopy && commit.isImmutable
    ensures g == Mutable <==> !commit.isWorkingCopy && !commit.isImmutable
  {
    if commit.isWorkingCopy then WorkingCopy
    else if commit.isImmutable then Immutable
    else Mutable
  }

  /** The character drawn for each state. */
  function Symbol(g: Glyph): char
  {
    match g
    case WorkingCopy => '@'
    case Immutable => '◆'
    case Mutable => '○'
  }

  function NodeMarker(row: GraphRow, m: Metrics): (marker: Marker)
    ensures marker.center == Point(ColumnX(row.column, m), m.rowHeight / 2.0)
    ensures marker.glyph == GlyphOf(row.commit) && marker.size == SymbolSize(m)
    ensures marker.size >= 12
  {
    Marker(GlyphOf(row.commit), Point(ColumnX(row.column, m), m.rowHeight / 2.0), SymbolSize(m))
  }

  /** `RevsetGraph_`: everything drawn for one row. */
  function Render(row: GraphRow, m: Metrics): (d: Drawing)
    ensures d.width >= 100.0 && d.width >= GraphWidth(row, m)
    ensures d.width == 100.0 || d.width == GraphWidth(row, m)
    ensures d.strokeWidth >= 2.0 && d.strokeWidth == StrokeWidth(m)
    ensures |d.paths| == |row.paths|
    ensures forall k :: 0 <= k < |row.paths| ==> d.paths[k] == SegmentShape(row.column, row.paths[k], m)
    ensures d.stub == IncomingStub(row, m)
    ensures d.marker == NodeMarker(row, m)
  {
    Drawing(
      MaxReal(GraphWidth(row, m), 100.0),
      StrokeWidth(m),
      seq(|row.paths|, k requires 0 <= k < |row.paths| => SegmentShape(row.column, row.paths[k], m)),
      IncomingStub(row, m),
      NodeMarker(row, m))
  }

  // ---------------------------------------------------------------------
  // Lemmas

  /**
   * With a non-negative column width, the canvas holds every column the row
   * touches (column c ends at (c + 1) * col_width), and no more than the
   * highest of them.
   */
  lemma WidthFitsTouchedColumns(row: GraphRow, m: Metrics)
    requires m.colWidth >= 0.0
    ensures Span(row.column + 1, m) <= GraphWidth(row, m)
    ensures forall k :: 0 <= k < |row.paths| ==>
      Span(row.paths[k].from + 1, m) <= GraphWidth(row, m) && Span(row.paths[k].to + 1, m) <= GraphWidth(row, m)
    ensures GraphWidth(row, m) == Span(row.column + 1, m)
      || exists k :: 0 <= k < |row.paths| &&
           (GraphWidth(row, m) == Span(row.paths[k].from + 1, m) || GraphWidth(row, m) == Span(row.paths[k].to + 1, m))
  {
    var top := MaxIndex(row.paths, row.column);
    SpanMonotone(row.column + 1, top + 1, m);
    forall k | 0 <= k < |row.paths|
      ensures Span(row.paths[k].from + 1, m) <= GraphWidth(row, m)
      ensures Span(row.paths[k].to + 1, m) <= GraphWidth(row, m)
    {
      SpanMonotone(row.paths[k].from + 1, top + 1, m);
      SpanMonotone(row.paths[k].to + 1, top + 1, m);
    }
  }

  lemma SpanMonotone(a: nat, b: nat, m: Metrics)
    requires a <= b && m.colWidth >= 0.0
    ensures Span(a, m) <= Span(b, m)
  {
    assert Span(b, m) == Span(a, m) + (b - a) as real * m.colWidth;
  }

  /** A straight segment `{k, k}` is a vertical line at x = k * col_width + padding_left, top edge to bottom edge. */
  lemma StraightIsVertical(column: nat, k: nat, m: Metrics)
    ensures SegmentShape(column, PathSegment(k, k, Straight), m)
      == Line(Point(k as real * m.colWidth + m.paddingLeft, 0.0), Point(k as real * m.colWidth + m.paddingLeft, m.rowHeight))
  {
  }

  /** The marker of a row is chosen by priority, and carries the character of its state. */
  lemma MarkerPriority(row: GraphRow, m: Metrics)
    ensures var marker := Render(row, m).marker;
            && (row.commit.isWorkingCopy ==> Symbol(marker.glyph) == '@')
            && (!row.commit.isWorkingCopy && row.commit.isImmutable ==> Symbol(marker.glyph) == '◆')
            && (!row.commit.isWorkingCopy && !row.commit.isImmutable ==> Symbol(marker.glyph) == '○')
  {
  }

  /** A taller row never gets a smaller node symbol. */
  lemma SymbolSizeMonotone(m1: Metrics, m2: Metrics)
    requires m1.rowHeight <= m2.rowHeight
    ensures SymbolSize(m1) <= SymbolSize(m2)
  {
    assert m1.rowHeight * 0.66 <= m2.rowHeight * 0.66;
  }

  /** The three node states are drawn with three different characters. */
  lemma SymbolsDistinct(g1: Glyph, g2: Glyph)
    ensures Symbol(g1) == Symbol(g2) <==> g1 == g2
  {
  }

  /** The duplicate-parent merge of `RepeatedParentSegments` has `from == to`, so it is drawn as a vertical line. */
  lemma RepeatedParentMergeIsLine(m: Metrics)
    ensures var row := LayoutRow([], Commit("c", ["p", "p"], false, false)).row;
            |row.paths| == 2 && row.paths[1].kind == Merge && SegmentShape(row.column, row.paths[1], m).Line?
  {
    LayoutProperties.RepeatedParentSegments();
  }

  /**
   * For the rows the lane allocator produces, the fallback curve is never
   * drawn: every segment is a vertical line or a curve out of the node.
   */
  lemma LayoutNeverCrosses(commits: seq<Commit>, i: nat, m: Metrics)
    requires i < |commits|
    ensures var row := Layout(commits)[i];
            forall k :: 0 <= k < |row.paths| ==>
              && ConnectorOf(row.column, row.paths[k]) != Crossing
              && (Render(row, m).paths[k].Curve? ==> Render(row, m).paths[k].start == Point(ColumnX(row.column, m), m.rowHeight / 2.0))
  {
    LayoutProperties.LayoutCurvesLeaveColumn(commits, i);
  }
}
