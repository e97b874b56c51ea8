/**
 * The lane allocator of src/lib/graph_layout.ts.
 *
 * The commits are walked in order while a growable lane table is kept: each
 * slot is empty (`null`) or holds the id of a parent that a later row is
 * expected to fill. For each commit one `GraphRow` is produced: the column it
 * is drawn in, whether a lane from an earlier row ends at it, and the
 * connector segments of the row.
 *
 * The functions below are the specification, written step by step so that
 * each step's table and segments can be named; `ComputeGraphLayout` is the
 * loop of the program, proved equal to `Layout`.
 */
module GraphLayout {
  import opened Wrappers
  import opened Bindings

  /** The three connector kinds of graph_layout.ts:7. */
  datatype PathKind = Straight | Merge | Fork

  datatype PathSegment = PathSegment(from: nat, to: nat, kind: PathKind)

  datatype GraphRow = GraphRow(commit: Commit, column: nat, hasChild: bool, paths: seq<PathSegment>)

  /** Slot i holds `None` (empty) or `Some(id)`: the parent id a later row is expected to fill. */
  type Lanes = seq<Option<string>>

  /** `Array.prototype.indexOf`: the FIRST position holding `x`, or `None` for -1. */
  function IndexOf<T(==)>(s: seq<T>, x: T): (r: Option<nat>)
    ensures r.None? <==> x !in s
    ensures r.Some? ==> r.value < |s| && s[r.value] == x
    ensures r.Some? ==> forall j :: 0 <= j < r.value ==> s[j] != x
  {
    if s == [] then None
    else if s[0] == x then Some(0)
    else
      match IndexOf(s[1..], x)
      case None => None
      case Some(i) => Some(i + 1)
  }

  /**
   * The slot a new lane is opened in: the lowest empty slot, or `|lanes|`
   * (a slot pushed at the end) when none is empty.
   */
  function FreeSlot(lanes: Lanes): (r: nat)
    ensures r <= |lanes|
    ensures r < |lanes| ==> lanes[r].None?
    ensures forall i :: 0 <= i < r ==> lanes[i].Some?
    ensures r == |lanes| <==> None !in lanes
  {
    match IndexOf(lanes, None)
    case Some(i) => i
    case None => |lanes|
  }

  /** `lanes`, with one empty slot pushed when `slot` is one past its end. */
  function GrowTo(lanes: Lanes, slot: nat): (r: Lanes)
    requires slot <= |lanes|
    ensures |r| == if slot == |lanes| then |lanes| + 1 else |lanes|
    ensures slot < |r| && r[slot] == if slot < |lanes| then lanes[slot] else None
    ensures forall i :: 0 <= i < |lanes| ==> r[i] == lanes[i]
  {
    if slot == |lanes| then lanes + [None] else lanes
  }

  /** The column a commit takes, and the table once that column is released. */
  datatype Resolution = Resolution(column: nat, hasChild: bool, lanes: Lanes)

  /**
   * Steps 1 and 2 of a row: the commit takes the lowest slot awaiting its id
   * (and then has a child above it); otherwise it opens a new head in the
   * lowest empty slot, or in a pushed slot. That slot is then emptied.
   */
  function Resolve(lanes: Lanes, id: string): (r: Resolution)
    ensures r.hasChild <==> Some(id) in lanes
    ensures r.hasChild ==> r.column < |lanes| && lanes[r.column] == Some(id)
    ensures r.hasChild ==> forall i :: 0 <= i < r.column ==> lanes[i] != Some(id)
    ensures !r.hasChild ==> r.column == FreeSlot(lanes)
    ensures |r.lanes| == if r.column == |lanes| then |lanes| + 1 else |lanes|
    ensures r.column < |r.lanes| && r.lanes[r.column].None?
    ensures forall i :: 0 <= i < |lanes| && i != r.column ==> r.lanes[i] == lanes[i]
  {
    match IndexOf(lanes, Some(id))
    case Some(c) => Resolution(c, true, lanes[c := None])
    case None =>
      var c := FreeSlot(lanes);
      Resolution(c, false, GrowTo(lanes, c)[c := None])
  }

  /**
   * Step 3: one `straight {i, i}` segment for every occupied slot i, in
   * ascending order of i. Defined on prefixes, as the `for` loop builds it.
   */
  function Passthrough(lanes: Lanes): (r: seq<PathSegment>)
    ensures |r| <= |lanes|
    ensures forall k :: 0 <= k < |r| ==>
      r[k].kind == Straight && r[k].from == r[k].to && r[k].from < |lanes| && lanes[r[k].from].Some?
    ensures forall k, l :: 0 <= k < l < |r| ==> r[k].from < r[l].from
    decreases |lanes|
  {
    if lanes == [] then []
    else
      var last := |lanes| - 1;
      Passthrough(lanes[..last]) + if lanes[last].Some? then [PathSegment(last, last, Straight)] else []
  }

  /** The table after one parent, and the segment drawn for it. */
  datatype Assigned = Assigned(lanes: Lanes, segment: PathSegment)

  /**
   * Step 4 for one parent. A parent some slot already awaits gets a `merge`
   * into the lowest such slot and the table is unchanged. Otherwise the
   * parent opens a lane: the first parent reuses the row's column when it is
   * empty, any other takes the lowest empty (or a pushed) slot; the segment
   * is `straight` when that slot is the row's column and `fork` otherwise.
   */
  function AssignParent(lanes: Lanes, column: nat, parent: string, first: bool): (r: Assigned)
    requires column < |lanes|
    ensures |lanes| <= |r.lanes| <= |lanes| + 1
    ensures r.segment.from == column && r.segment.to < |r.lanes|
    ensures r.lanes[r.segment.to] == Some(parent)
    ensures r.segment.kind == Merge <==> Some(parent) in lanes
    ensures Some(parent) in lanes ==>
      && r.lanes == lanes
      && forall i :: 0 <= i < r.segment.to ==> lanes[i] != Some(parent)
    ensures Some(parent) !in lanes ==>
      && r.segment.to == (if first && lanes[column].None? then column else FreeSlot(lanes))
      && (r.segment.to < |lanes| ==> lanes[r.segment.to].None?)
      && |r.lanes| == (if r.segment.to == |lanes| then |lanes| + 1 else |lanes|)
      && (forall i :: 0 <= i < |lanes| && i != r.segment.to ==> r.lanes[i] == lanes[i])
      && (r.segment.kind == Straight <==> r.segment.to == column)
      && (r.segment.kind != Straight ==> r.segment.kind == Fork)
  {
    match IndexOf(lanes, Some(parent))
    case Some(p) => Assigned(lanes, PathSegment(column, p, Merge))
    case None =>
      var slot := if first && lanes[column].None? then column else FreeSlot(lanes);
      Assigned(GrowTo(lanes, slot)[slot := Some(parent)],
               PathSegment(column, slot, if slot == column then Straight else Fork))
  }

  /** A lane table together with the segments produced so far. */
  datatype Step = Step(lanes: Lanes, paths: seq<PathSegment>)

  /** Step 4 for the first `n` parents, in parent order: one segment per parent, each from `column`. */
  function AssignParents(lanes: Lanes, column: nat, parents: seq<string>, n: nat): (r: Step)
    requires column < |lanes| && n <= |parents|
    ensures |lanes| <= |r.lanes| && |r.paths| == n
    ensures forall k :: 0 <= k < n ==> r.paths[k].from == column && r.paths[k].to < |r.lanes|
    decreases n
  {
    if n == 0 then Step(lanes, [])
    else
      var prev := AssignParents(lanes, column, parents, n - 1);
      var a := AssignParent(prev.lanes, column, parents[n - 1], n - 1 == 0);
      Step(a.lanes, prev.paths + [a.segment])
  }

  /** A row together with the lane table after it. */
  datatype RowStep = RowStep(row: GraphRow, lanes: Lanes)

  /** One iteration of the outer loop: the row of `commit` and the table after it. */
  function LayoutRow(lanes: Lanes, commit: Commit): (r: RowStep)
    ensures r.row.commit == commit
    ensures r.row.hasChild <==> Some(commit.commitId) in lanes
    ensures r.row.hasChild ==> r.row.column < |lanes| && lanes[r.row.column] == Some(commit.commitId)
    ensures r.row.hasChild ==> forall i :: 0 <= i < r.row.column ==> lanes[i] != Some(commit.commitId)
    ensures !r.row.hasChild ==> r.row.column == FreeSlot(lanes)
    ensures |lanes| <= |r.lanes| && r.row.column < |r.lanes|
    ensures forall k :: 0 <= k < |r.row.paths| ==>
      r.row.paths[k].from < |r.lanes| && r.row.paths[k].to < |r.lanes|
  {
    var res := Resolve(lanes, commit.commitId);
    var parents := AssignParents(res.lanes, res.column, commit.parents, |commit.parents|);
    RowStep(GraphRow(commit, res.column, res.hasChild, Passthrough(res.lanes) + parents.paths), parents.lanes)
  }

  /** The rows of the first `n` commits and the lane table after them. */
  datatype Progress = Progress(rows: seq<GraphRow>, lanes: Lanes)

  function Run(commits: seq<Commit>, n: nat): (r: Progress)
    requires n <= |commits|
    ensures |r.rows| == n
    ensures forall i :: 0 <= i < n ==> r.rows[i].commit == commits[i]
    decreases n
  {
    if n == 0 then Progress([], [])
    else
      var prev := Run(commits, n - 1);
      var step := LayoutRow(prev.lanes, commits[n - 1]);
      Progress(prev.rows + [step.row], step.lanes)
  }

  /** `compute_graph_layout` as a function: one row per commit, in input order. */
  function Layout(commits: seq<Commit>): (rows: seq<GraphRow>)
    ensures |rows| == |commits|
    ensures forall i :: 0 <= i < |commits| ==> rows[i].commit == commits[i]
  {
    Run(commits, |commits|).rows
  }

  /** `compute_graph_layout`: the outer loop over the commits, with a lane table that grows by pushes. */
  method ComputeGraphLayout(commits: seq<Commit>) returns (rows: seq<GraphRow>)
    ensures rows == Layout(commits)
    ensures |rows| == |commits|
    ensures forall i :: 0 <= i < |commits| ==> rows[i].commit == commits[i]
  {
    rows := [];
    var lanes: Lanes := [];
    for n := 0 to |commits|
      invariant Run(commits, n) == Progress(rows, lanes)
    {
      var commit := commits[n];
      ghost var before := lanes;

      // 1-2. the commit's column, released
      var column, hasChild;
      column, hasChild, lanes := ResolveColumn(lanes, commit.commitId);

      // 3. passthrough lines, 4. the parents
      var paths := PassthroughLines(lanes);
      var parentPaths;
      lanes, parentPaths := AssignParentLanes(lanes, column, commit.parents);
      paths := paths + parentPaths;

      var row := GraphRow(commit, column, hasChild, paths);
      assert LayoutRow(before, commit) == RowStep(row, lanes);
      rows := rows + [row];
    }
  }

  /** graph_layout.ts:16-31: the slot awaiting `id`, else a new lane; that slot is then emptied. */
  method ResolveColumn(lanes: Lanes, id: string) returns (column: nat, hasChild: bool, released: Lanes)
    ensures Resolution(column, hasChild, released) == Resolve(lanes, id)
  {
    var existing := IndexOf(lanes, Some(id));
    hasChild := existing.Some?;
    released := lanes;
    if existing.Some? {
      column := existing.value;
    } else {
      column, released := OpenLane(lanes);
    }
    released := released[column := None];
  }

  /**
   * `lanes.indexOf(null)`, pushing an empty slot when it gives -1: the slot a
   * new lane opens in (graph_layout.ts:23-27 and again at 70-74).
   */
  method OpenLane(lanes: Lanes) returns (slot: nat, grown: Lanes)
    ensures slot == FreeSlot(lanes) && grown == GrowTo(lanes, slot)
    ensures slot < |grown| && grown[slot].None?
  {
    var free := IndexOf(lanes, None);
    if free.Some? {
      slot, grown := free.value, lanes;
    } else {
      slot, grown := |lanes|, lanes + [None];
    }
  }

  /** graph_layout.ts:40-48: the `for` loop that draws a straight line through every occupied slot. */
  method PassthroughLines(lanes: Lanes) returns (paths: seq<PathSegment>)
    ensures paths == Passthrough(lanes)
  {
    paths := [];
    for i := 0 to |lanes|
      invariant paths == Passthrough(lanes[..i])
    {
      assert lanes[..i + 1][..i] == lanes[..i];
      if lanes[i].Some? {
        paths := paths + [PathSegment(i, i, Straight)];
      }
    }
    assert lanes[..|lanes|] == lanes;
  }

  /** graph_layout.ts:52-94: the `forEach` over the parents of a row whose released column is `column`. */
  method AssignParentLanes(lanes: Lanes, column: nat, parents: seq<string>) returns (after: Lanes, paths: seq<PathSegment>)
    requires column < |lanes|
    ensures Step(after, paths) == AssignParents(lanes, column, parents, |parents|)
  {
    after, paths := lanes, [];
    for index := 0 to |parents|
      invariant column < |after|
      invariant AssignParents(lanes, column, parents, index) == Step(after, paths)
    {
      var parentId := parents[index];
      ghost var current := after;
      var parentCol := IndexOf(after, Some(parentId));
      if parentCol.Some? {
        paths := paths + [PathSegment(column, parentCol.value, Merge)];
      } else {
        var slot: nat;
        if index == 0 && after[column].None? {
          slot := column;
        } else {
          slot, after := OpenLane(after);
        }
        after := after[slot := Some(parentId)];
        if slot == column {
          paths := paths + [PathSegment(column, slot, Straight)];
        } else {
          paths := paths + [PathSegment(column, slot, Fork)];
        }
      }
      assert AssignParent(current, column, parentId, index == 0) == Assigned(after, paths[|paths| - 1]);
    }
  }
}
