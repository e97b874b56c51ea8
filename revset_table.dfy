/**
 * Row selection in the history table (src/components/revset_table.tsx):
 * `handleRowClick` (shift-range, ctrl/meta toggle, plain click) and
 * `handleDragStart`, over the two pieces of component state `rowSelection`
 * (the selected row indices) and `lastSelectedIndex` (the range anchor,
 * possibly absent).
 */
module RevsetTable {
  import opened Wrappers
  import opened Numbers

  /** The selected row indices and the anchor of a shift-range. */
  datatype Selection = Selection(rows: set<nat>, anchor: Option<nat>)

  /** The rows `lo` to `hi`, both included. */
  function Range(lo: nat, hi: nat): (r: set<nat>)
    ensures forall i :: i in r <==> lo <= i <= hi
    decreases hi
  {
    if hi < lo then {}
    else if hi == lo then {lo}
    else Range(lo, hi - 1) + {hi}
  }

  /** What one click does to the selection state; `ctrl` stands for ctrl or meta held. */
  function AfterClick(s: Selection, index: nat, shift: bool, ctrl: bool): Selection
  {
    if shift then
      var anchor := if s.anchor.Some? then s.anchor.value else index;
      Selection(Range(Min(anchor, index), Max(anchor, index)),
                if s.anchor.None? then Some(index) else s.anchor)
    else if ctrl then
      Selection(if index in s.rows then s.rows - {index} else s.rows + {index}, Some(index))
    else
      Selection(if |s.rows| == 1 && index in s.rows then {} else {index}, Some(index))
  }

  /** What the start of a drag does; `index` is `None` when the dragged item carries none. */
  function AfterDragStart(s: Selection, index: Option<nat>): Selection
  {
    if index.Some? && index.value !in s.rows then Selection({index.value}, index) else s
  }

  /** The component's selection state, updated in place by the two handlers. */
  class RowSelection {
    var selected: set<nat>
    var anchor: Option<nat>

    function State(): Selection
      reads this
    {
      Selection(selected, anchor)
    }

    constructor ()
      ensures selected == {} && anchor == None
    {
      selected := {};
      anchor := None;
    }

    /** `handleRowClick`. */
    method Click(index: nat, shiftKey: bool, ctrlKey: bool, metaKey: bool)
      modifies this
      ensures State() == AfterClick(old(State()), index, shiftKey, ctrlKey || metaKey)
    {
      var isCtrl := metaKey || ctrlKey;
      var isSelected := index in selected;
      var selectedCount := |selected|;
      var newSelection := selected;

      if shiftKey {
        var from := if anchor.Some? then anchor.value else index;
        var start := Min(from, index);
        var end := Max(from, index);
        newSelection := {};
        var i := start;
        while i <= end
          invariant start <= i <= end + 1
          invariant forall k :: k in newSelection <==> start <= k < i
        {
          newSelection := newSelection + {i};
          i := i + 1;
        }
        assert newSelection == Range(start, end);
        if anchor.None? {
          anchor := Some(index);
        }
      } else if isCtrl {
        if isSelected {
          newSelection := newSelection - {index};
        } else {
          newSelection := newSelection + {index};
        }
        anchor := Some(index);
      } else {
        if selectedCount == 1 && isSelected {
          newSelection := {};
        } else {
          newSelection := {index};
        }
        anchor := Some(index);
      }
      selected := newSelection;
    }

    /** `handleDragStart`. */
    method DragStart(index: Option<nat>)
      modifies this
      ensures State() == AfterDragStart(old(State()), index)
    {
      if index.Some? && index.value !in selected {
        selected := {index.value};
        anchor := index;
      }
    }
  }

  // ---------------------------------------------------------------------
  // Lemmas

  /**
   * Shift wins over ctrl: a shift-click selects exactly the rows between
   * the anchor (the clicked row when there is none) and the clicked row,
   * whatever was selected before.
   */
  lemma ShiftClickSelectsRange(s: Selection, index: nat, ctrl: bool)
    ensures var anchor := if s.anchor.Some? then s.anchor.value else index;
            var r := AfterClick(s, index, true, ctrl);
            forall i :: i in r.rows <==> Min(anchor, index) <= i <= Max(anchor, index)
  {
  }

  /**
   * A shift-click with no anchor selects only the clicked row and anchors
   * there; with an anchor, the anchor stays.
   */
  lemma ShiftClickAnchor(s: Selection, index: nat, ctrl: bool)
    ensures var r := AfterClick(s, index, true, ctrl);
            && (s.anchor.None? ==> r.rows == {index} && r.anchor == Some(index))
            && (s.anchor.Some? ==> r.anchor == s.anchor)
  {
    if s.anchor.None? {
      var r := AfterClick(s, index, true, ctrl);
      assert forall i :: i in r.rows <==> i == index;
    }
  }

  /** A ctrl-click flips the clicked row only. */
  lemma CtrlClickToggles(s: Selection, index: nat)
    ensures var r := AfterClick(s, index, false, true);
            && (index in r.rows <==> index !in s.rows)
            && forall i :: i != index ==> (i in r.rows <==> i in s.rows)
  {
  }

  /** Two ctrl-clicks on the same row give back the selection there was. */
  lemma CtrlClickTwiceRestores(s: Selection, index: nat)
    ensures AfterClick(AfterClick(s, index, false, true), index, false, true).rows == s.rows
  {
    var once := AfterClick(s, index, false, true);
    var twice := AfterClick(once, index, false, true);
    assert forall i :: i in twice.rows <==> i in s.rows;
  }

  /**
   * A plain click on the only selected row clears the selection; any other
   * plain click selects exactly the clicked row.
   */
  lemma PlainClickSelects(s: Selection, index: nat)
    ensures var r := AfterClick(s, index, false, false);
            && (s.rows == {index} ==> r.rows == {})
            && (s.rows != {index} ==> r.rows == {index})
  {
    if |s.rows| == 1 && index in s.rows {
      var rest := s.rows - {index};
      assert |rest| == 0;
      assert rest == {};
      assert s.rows == {index};
    }
  }

  /** Every click without shift moves the anchor to the clicked row. */
  lemma NonShiftClickAnchors(s: Selection, index: nat, ctrl: bool)
    ensures AfterClick(s, index, false, ctrl).anchor == Some(index)
  {
  }

  /**
   * A drag started on an unselected row selects exactly that row and
   * anchors there; on a selected row (or with no index) it changes nothing.
   */
  lemma DragStartSelects(s: Selection, index: Option<nat>)
    ensures var r := AfterDragStart(s, index);
            && (index.Some? && index.value !in s.rows ==> r.rows == {index.value} && r.anchor == index)
            && (index.None? || index.value in s.rows ==> r == s)
  {
  }
}
