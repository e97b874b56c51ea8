/**
 * What the lane allocator of src/lib/graph_layout.ts guarantees, proved
 * about the specification functions of module GraphLayout (and so, through
 * the postcondition of `ComputeGraphLayout`, about the program's loop).
 */
module LayoutProperties {
  import opened Wrappers
  import opened Bindings
  import opened GraphLayout

  /** The lane table before row `i` is processed. */
  function LanesBefore(commits: seq<Commit>, i: nat): Lanes
    requires i <= |commits|
  {
    Run(commits, i).lanes
  }

  /** The table before row `n = k + 1` is the one row `k` leaves. */
  lemma RowAfter(commits: seq<Commit>, k: nat, n: nat)
    requires n == k + 1 && n <= |commits|
    ensures LanesBefore(commits, n) == LayoutRow(LanesBefore(commits, k), commits[k]).lanes
  {
  }

  /** Row `i` of the first `n` rows is the row `LayoutRow` computes from the table left by rows `0..i-1`. */
  lemma {:induction false} RunRowAt(commits: seq<Commit>, n: nat, i: nat)
    requires i < n <= |commits|
    ensures Run(commits, n).rows[i] == LayoutRow(LanesBefore(commits, i), commits[i]).row
    decreases n
  {
    var k := n - 1;
    RunStep(commits, k, n);
    var prev := Run(commits, k);
    var step := LayoutRow(prev.lanes, commits[k]);
    assert Run(commits, n).rows == prev.rows + [step.row];
    if i < k {
      RunRowAt(commits, k, i);
      assert Run(commits, n).rows[i] == prev.rows[i];
    } else {
      assert i == k;
      assert Run(commits, n).rows[k] == step.row;
    }
  }

  /** One more commit appends its row and replaces the table. */
  lemma RunStep(commits: seq<Commit>, k: nat, n: nat)
    requires n == k + 1 && n <= |commits|
    ensures var prev := Run(commits, k);
            var step := LayoutRow(prev.lanes, commits[k]);
            Run(commits, n) == Progress(prev.rows + [step.row], step.lanes)
  {
  }

  /** Row `i` of the layout: the commit `commits[i]` laid out against the table the earlier rows left. */
  lemma LayoutRowAt(commits: seq<Commit>, i: nat)
    requires i < |commits|
    ensures Layout(commits)[i] == LayoutRow(LanesBefore(commits, i), commits[i]).row
  {
    RunRowAt(commits, |commits|, i);
  }

  // ---------------------------------------------------------------------
  // Passthrough lines

  /** Every occupied slot gets its straight line: with the contract of `Passthrough`, the lines are exactly the occupied slots, ascending. */
  lemma {:induction false} PassthroughCovers(lanes: Lanes, i: nat)
    requires i < |lanes| && lanes[i].Some?
    ensures PathSegment(i, i, Straight) in Passthrough(lanes)
    decreases |lanes|
  {
    var last := |lanes| - 1;
    if i < last {
      PassthroughCovers(lanes[..last], i);
    }
  }

  /**
   * The shape of a row: first one straight line through every slot still
   * awaiting a commit once the row's column is released (never the column
   * itself), then exactly one segment per parent, in parent order, each
   * leaving from the row's column.
   */
  lemma RowShape(lanes: Lanes, commit: Commit)
    ensures var res := Resolve(lanes, commit.commitId);
            var row := LayoutRow(lanes, commit).row;
            var pass := Passthrough(res.lanes);
            && |row.paths| == |pass| + |commit.parents|
            && row.paths[..|pass|] == pass
            && (forall k :: 0 <= k < |pass| ==> row.paths[k].from != row.column)
            && (forall i :: 0 <= i < |res.lanes| && res.lanes[i].Some? ==> PathSegment(i, i, Straight) in row.paths[..|pass|])
            && forall k :: |pass| <= k < |row.paths| ==> row.paths[k].from == row.column
  {
    var res := Resolve(lanes, commit.commitId);
    var row := LayoutRow(lanes, commit).row;
    var pass := Passthrough(res.lanes);
    assert row.paths[..|pass|] == pass;
    forall i | 0 <= i < |res.lanes| && res.lanes[i].Some?
      ensures PathSegment(i, i, Straight) in row.paths[..|pass|]
    {
      PassthroughCovers(res.lanes, i);
    }
  }

  // ---------------------------------------------------------------------
  // Parents

  /** Segment `k` of the parent segments is the one `AssignParent` gives parent `k` against the table the earlier parents left. */
  lemma {:induction false} ParentSegmentAt(lanes: Lanes, column: nat, parents: seq<string>, n: nat, k: nat)
    requires column < |lanes| && k < n <= |parents|
    ensures var prev := AssignParents(lanes, column, parents, k);
            AssignParents(lanes, column, parents, n).paths[k]
              == AssignParent(prev.lanes, column, parents[k], k == 0).segment
    decreases n
  {
    var j := n - 1;
    var prev := AssignParents(lanes, column, parents, j);
    var a := AssignParent(prev.lanes, column, parents[j], j == 0);
    assert AssignParents(lanes, column, parents, n).paths == prev.paths + [a.segment];
    if k < j {
      ParentSegmentAt(lanes, column, parents, j, k);
      assert AssignParents(lanes, column, parents, n).paths[k] == prev.paths[k];
    } else {
      assert k == j;
    }
  }

  /**
   * The first parent, when no slot awaits it yet, continues straight down
   * the row's own column: that column is always empty at that point.
   */
  lemma FirstParentKeepsColumn(lanes: Lanes, commit: Commit)
    requires |commit.parents| > 0
    requires Some(commit.parents[0]) !in Resolve(lanes, commit.commitId).lanes
    ensures var row := LayoutRow(lanes, commit).row;
            var pass := Passthrough(Resolve(lanes, commit.commitId).lanes);
            row.paths[|pass|] == PathSegment(row.column, row.column, Straight)
  {
    var res := Resolve(lanes, commit.commitId);
    RowShape(lanes, commit);
    ParentSegmentAt(res.lanes, res.column, commit.parents, |commit.parents|, 0);
  }

  /** An AssignParent step writes only into a slot that was empty (or pushed), and only its parent's id. */
  lemma AssignParentWritesEmptySlot(lanes: Lanes, column: nat, parent: string, first: bool, i: nat)
    requires column < |lanes|
    requires i < |AssignParent(lanes, column, parent, first).lanes|
    ensures var after := AssignParent(lanes, column, parent, first).lanes;
            (i < |lanes| && after[i] == lanes[i]) || ((i < |lanes| ==> lanes[i].None?) && after[i] == Some(parent))
  {
  }

  /**
   * Across all the parents of a row, a slot keeps its value, or it was empty
   * (or pushed) and now awaits one of the parents.
   */
  lemma {:induction false} AssignParentsWritesEmptySlots(lanes: Lanes, column: nat, parents: seq<string>, n: nat, i: nat)
    requires column < |lanes| && n <= |parents|
    requires i < |AssignParents(lanes, column, parents, n).lanes|
    ensures var after := AssignParents(lanes, column, parents, n).lanes;
            (i < |lanes| && after[i] == lanes[i])
            || ((i < |lanes| ==> lanes[i].None?) && exists j :: 0 <= j < n && after[i] == Some(parents[j]))
    decreases n
  {
    if n > 0 {
      var k := n - 1;
      var prev := AssignParents(lanes, column, parents, k);
      var after := AssignParent(prev.lanes, column, parents[k], k == 0).lanes;
      assert AssignParents(lanes, column, parents, n).lanes == after;
      AssignParentWritesEmptySlot(prev.lanes, column, parents[k], k == 0, i);
      if i < |prev.lanes| && after[i] == prev.lanes[i] {
        AssignParentsWritesEmptySlots(lanes, column, parents, k, i);
      } else {
        // slot i was empty (or pushed) before this parent, and now awaits it
        assert after[i] == Some(parents[k]);
        if i < |lanes| {
          AssignParentsWritesEmptySlots(lanes, column, parents, k, i);
          assert lanes[i].None?;
        }
      }
    }
  }

  /**
   * A commit listing the same parent twice: the first occurrence continues
   * straight down column 0, and the second finds it already awaited there and
   * gets `merge {0,0}`.
   */
  lemma RepeatedParentSegments()
    ensures LayoutRow([], Commit("c", ["p", "p"], false, false)).row.paths
            == [PathSegment(0, 0, Straight), PathSegment(0, 0, Merge)]
  {
    FirstCommitOpensColumnZero("c");
    RepeatedParentSteps();
  }

  /** The first commit of a run opens column 0, and nothing passes through it. */
  lemma FirstCommitOpensColumnZero(id: string)
    ensures Resolve([], id) == Resolution(0, false, [None])
    ensures Passthrough([None]) == []
  {
    var res := Resolve([], id);
    assert res.lanes == [None];
  }

  /** The two parent steps of `RepeatedParentSegments`, on the released table `[None]`. */
  lemma RepeatedParentSteps()
    ensures AssignParents([None], 0, ["p", "p"], 2).paths == [PathSegment(0, 0, Straight), PathSegment(0, 0, Merge)]
  {
    RepeatedParentFirstStep();
    var second := AssignParent([Some("p")], 0, "p", false);
    assert second.segment == PathSegment(0, 0, Merge);
  }

  /** The first occurrence of the parent takes the empty column. */
  lemma RepeatedParentFirstStep()
    ensures AssignParents([None], 0, ["p", "p"], 1) == Step([Some("p")], [PathSegment(0, 0, Straight)])
  {
    var first := AssignParent([None], 0, "p", true);
    assert first.lanes == [Some("p")] && first.segment == PathSegment(0, 0, Straight);
  }

  /** After the parents of a row, every one of them is awaited by some slot. */
  lemma {:induction false} ParentsAwaited(lanes: Lanes, column: nat, parents: seq<string>, n: nat)
    requires column < |lanes| && n <= |parents|
    ensures forall k :: 0 <= k < n ==> Some(parents[k]) in AssignParents(lanes, column, parents, n).lanes
    decreases n
  {
    if n > 0 {
      var j := n - 1;
      var prev := AssignParents(lanes, column, parents, j);
      var a := AssignParent(prev.lanes, column, parents[j], j == 0);
      assert AssignParents(lanes, column, parents, n) == Step(a.lanes, prev.paths + [a.segment]);
      var after := a.lanes;
      ParentsAwaited(lanes, column, parents, j);
      forall k | 0 <= k < j
        ensures Some(parents[k]) in after
      {
        var i :| 0 <= i < |prev.lanes| && prev.lanes[i] == Some(parents[k]);
        AssignParentWritesEmptySlot(prev.lanes, column, parents[j], j == 0, i);
        assert after[i] == Some(parents[k]);
      }
    }
  }

  // ---------------------------------------------------------------------
  // The lane table, row by row

  /** No id is awaited by two slots. */
  ghost predicate NoDuplicates(lanes: Lanes)
  {
    forall i, j :: 0 <= i < j < |lanes| && lanes[i].Some? ==> lanes[i] != lanes[j]
  }

  lemma {:induction false} AssignParentsKeepNoDuplicates(lanes: Lanes, column: nat, parents: seq<string>, n: nat)
    requires column < |lanes| && n <= |parents|
    requires NoDuplicates(lanes)
    ensures NoDuplicates(AssignParents(lanes, column, parents, n).lanes)
    decreases n
  {
    if n > 0 {
      var k := n - 1;
      var prev := AssignParents(lanes, column, parents, k);
      var a := AssignParent(prev.lanes, column, parents[k], k == 0);
      assert AssignParents(lanes, column, parents, n).lanes == a.lanes;
      AssignParentsKeepNoDuplicates(lanes, column, parents, k);
      AssignParentKeepsNoDuplicates(prev.lanes, column, parents[k], k == 0);
    }
  }

  /** One parent step never makes two slots await the same id: a new id goes only where it was absent. */
  lemma AssignParentKeepsNoDuplicates(lanes: Lanes, column: nat, parent: string, first: bool)
    requires column < |lanes|
    requires NoDuplicates(lanes)
    ensures NoDuplicates(AssignParent(lanes, column, parent, first).lanes)
  {
    var r := AssignParent(lanes, column, parent, first);
    if Some(parent) !in lanes {
      var slot := r.segment.to;
      forall i, j | 0 <= i < j < |r.lanes| && r.lanes[i].Some?
        ensures r.lanes[i] != r.lanes[j]
      {
        if i == slot {
          assert j >= |lanes| || r.lanes[j] == lanes[j];
        } else if j == slot {
          assert r.lanes[i] == lanes[i];
        } else {
          assert j < |lanes|;
        }
      }
    }
  }

  /**
   * How a row changes the table: only the row's column (emptied, or then
   * given to a parent) and slots that were empty or pushed (now awaiting a
   * parent) change; every other slot keeps its id. The table never shrinks
   * and no id comes to be awaited twice.
   */
  lemma RowChangesOnly(lanes: Lanes, commit: Commit)
    ensures var rs := LayoutRow(lanes, commit);
            && |lanes| <= |rs.lanes|
            && (NoDuplicates(lanes) ==> NoDuplicates(rs.lanes))
            && forall i :: 0 <= i < |rs.lanes| ==>
                 || (i < |lanes| && i != rs.row.column && rs.lanes[i] == lanes[i])
                 || ((i >= |lanes| || i == rs.row.column || lanes[i].None?)
                     && (rs.lanes[i].Some? ==> rs.lanes[i].value in commit.parents))
  {
    var res := Resolve(lanes, commit.commitId);
    var rs := LayoutRow(lanes, commit);
    assert commit.parents[..|commit.parents|] == commit.parents;
    if NoDuplicates(lanes) {
      AssignParentsKeepNoDuplicates(res.lanes, res.column, commit.parents, |commit.parents|);
    }
    forall i | 0 <= i < |rs.lanes|
      ensures || (i < |lanes| && i != rs.row.column && rs.lanes[i] == lanes[i])
              || ((i >= |lanes| || i == rs.row.column || lanes[i].None?)
                  && (rs.lanes[i].Some? ==> rs.lanes[i].value in commit.parents))
    {
      AssignParentsWritesEmptySlots(res.lanes, res.column, commit.parents, |commit.parents|, i);
    }
  }

  /** A slot awaiting an id other than the row's commit still awaits it after the row. */
  lemma RowKeepsOtherPending(lanes: Lanes, commit: Commit, i: nat)
    requires i < |lanes| && lanes[i].Some? && lanes[i] != Some(commit.commitId)
    ensures var rs := LayoutRow(lanes, commit);
            i < |rs.lanes| && rs.lanes[i] == lanes[i]
  {
    RowChangesOnly(lanes, commit);
  }

  /** No id is ever awaited by two slots, before any row. */
  lemma {:induction false} LanesNeverDuplicate(commits: seq<Commit>, n: nat)
    requires n <= |commits|
    ensures NoDuplicates(LanesBefore(commits, n))
    decreases n
  {
    if n > 0 {
      LanesNeverDuplicate(commits, n - 1);
      RowChangesOnly(LanesBefore(commits, n - 1), commits[n - 1]);
    }
  }

  /** The lane table never shrinks from one row to a later one. */
  lemma {:induction false} LanesNeverShrink(commits: seq<Commit>, m: nat, n: nat)
    requires m <= n <= |commits|
    ensures |LanesBefore(commits, m)| <= |LanesBefore(commits, n)|
    decreases n
  {
    if m < n {
      var k := n - 1;
      LanesNeverShrink(commits, m, k);
      RowAfter(commits, k, n);
    }
  }

  /**
   * Bounds: a row's column and the ends of its segments are slots of the
   * table as it is after that row, and so of every later table.
   */
  lemma LayoutInBounds(commits: seq<Commit>, i: nat, n: nat)
    requires i < n <= |commits|
    ensures var row := Layout(commits)[i];
            var width := |LanesBefore(commits, n)|;
            && row.column < width
            && forall k :: 0 <= k < |row.paths| ==> row.paths[k].from < width && row.paths[k].to < width
  {
    var next := i + 1;
    LayoutRowAt(commits, i);
    RowAfter(commits, i, next);
    LanesNeverShrink(commits, next, n);
  }

  /** One row of `PendingPersists`: row `n - 1` keeps an id that is not its commit's. */
  lemma PendingStep(commits: seq<Commit>, n: nat, slot: nat, id: string)
    requires 0 < n <= |commits| && commits[n - 1].commitId != id
    requires slot < |LanesBefore(commits, n - 1)| && LanesBefore(commits, n - 1)[slot] == Some(id)
    ensures slot < |LanesBefore(commits, n)| && LanesBefore(commits, n)[slot] == Some(id)
  {
    var before := LanesBefore(commits, n - 1);
    RowKeepsOtherPending(before, commits[n - 1], slot);
  }

  /** An id awaited before row `m` and not the commit of rows `m..n-1` is still awaited, in the same slot, before row `n`. */
  lemma {:induction false} PendingPersists(commits: seq<Commit>, m: nat, n: nat, slot: nat, id: string)
    requires m <= n <= |commits|
    requires slot < |LanesBefore(commits, m)| && LanesBefore(commits, m)[slot] == Some(id)
    requires forall k :: m <= k < n ==> commits[k].commitId != id
    ensures slot < |LanesBefore(commits, n)| && LanesBefore(commits, n)[slot] == Some(id)
    decreases n
  {
    if m < n {
      PendingPersists(commits, m, n - 1, slot, id);
      PendingStep(commits, n, slot, id);
    }
  }

  /**
   * A dangling parent: a parent of row `k` that no later commit carries as
   * its id is still awaited in the table left at the end of the layout.
   */
  lemma DanglingParentStaysPending(commits: seq<Commit>, k: nat, parent: string)
    requires k < |commits| && parent in commits[k].parents
    requires forall m :: k < m < |commits| ==> commits[m].commitId != parent
    ensures Some(parent) in LanesBefore(commits, |commits|)
  {
    var commit := commits[k];
    var res := Resolve(LanesBefore(commits, k), commit.commitId);
    var p :| 0 <= p < |commit.parents| && commit.parents[p] == parent;
    ParentsAwaited(res.lanes, res.column, commit.parents, |commit.parents|);
    var next := k + 1;
    RowAfter(commits, k, next);
    var after := LanesBefore(commits, next);
    var slot :| 0 <= slot < |after| && after[slot] == Some(parent);
    PendingPersists(commits, next, |commits|, slot, parent);
  }

  /** A root commit (no parents) frees its column and opens no lane: the row is its passthrough lines only. */
  lemma RootFreesColumn(lanes: Lanes, commit: Commit)
    requires commit.parents == []
    ensures var rs := LayoutRow(lanes, commit);
            && rs.lanes[rs.row.column].None?
            && forall k :: 0 <= k < |rs.row.paths| ==> rs.row.paths[k].kind == Straight && rs.row.paths[k].from != rs.row.column
  {
    RowShape(lanes, commit);
  }

  // ---------------------------------------------------------------------
  // What the renderer relies on

  /** Within a row, every segment that is not straight leaves from the row's own column. */
  lemma RowCurvesLeaveColumn(lanes: Lanes, commit: Commit)
    ensures var row := LayoutRow(lanes, commit).row;
            forall k :: 0 <= k < |row.paths| && row.paths[k].kind != Straight ==> row.paths[k].from == row.column
  {
    RowShape(lanes, commit);
  }

  /** Every merge or fork segment of every row of the layout leaves from that row's column. */
  lemma LayoutCurvesLeaveColumn(commits: seq<Commit>, i: nat)
    requires i < |commits|
    ensures var row := Layout(commits)[i];
            forall k :: 0 <= k < |row.paths| && row.paths[k].kind != Straight ==> row.paths[k].from == row.column
  {
    LayoutRowAt(commits, i);
    RowCurvesLeaveColumn(LanesBefore(commits, i), commits[i]);
  }
}
