/**
 * `CenteredFlowLayout` (Thoughts/Layouts/CenteredFlowLayout.swift): subviews
 * wrapped greedily into rows no wider than the proposed width, then stacked
 * from the top with each row's subviews laid out from the left.
 *
 * The line-breaker keeps a running `rowWidth`. It starts at `-spacing`, so
 * the first row counts one spacing fewer than it has subviews, but it is
 * reset to 0 on every break, so every later row counts one spacing per
 * subview: such a row can break one subview early, when the room left is at
 * least the next subview's width but less than that width plus one spacing.
 * An empty first row appears when the first subview alone is wider than
 * the proposal.
 */
module CenteredFlow {
  import opened Wrappers
  import opened LayoutGeometry

  /** `CenteredFlowLayout.spacing`. */
  const Spacing: real := 4.0

  /** The variables of the loop in `rows(proposal:spacing:)`. */
  datatype LineState = LineState(rows: seq<Row>, row: Row, rowWidth: real)

  function Initial(spacing: real): LineState
  {
    LineState([], [], -spacing)
  }

  /** The break test: the next subview of width `w` does not fit after `rowWidth`. */
  predicate Overflows(rowWidth: real, w: real, width: real, spacing: real)
  {
    rowWidth + spacing + w > width
  }

  /** The first half of a step: close the row when the next subview does not fit. */
  function Break(st: LineState, w: real, width: real, spacing: real): LineState
  {
    if Overflows(st.rowWidth, w, width, spacing) then LineState(st.rows + [st.row], [], 0.0) else st
  }

  /** The second half of a step: put the subview on the row and count its width. */
  function Append(st: LineState, item: Item, spacing: real): LineState
  {
    LineState(st.rows, st.row + [item], st.rowWidth + spacing + item.size.width)
  }

  /** The loop state after the subviews `items`. */
  function Scan(items: seq<Item>, width: real, spacing: real): LineState
  {
    if items == [] then Initial(spacing)
    else
      var last := items[|items| - 1];
      Append(Break(Scan(items[..|items| - 1], width, spacing), last.size.width, width, spacing), last, spacing)
  }

  /** After the loop: the open row is kept if it is not empty. */
  function Finish(st: LineState): seq<Row>
  {
    st.rows + (if st.row != [] then [st.row] else [])
  }

  /** `LayoutSubviews.rows(proposal:spacing:)`. */
  function Rows(items: seq<Item>, width: Option<real>, spacing: real): (rows: seq<Row>)
    ensures width.None? ==> rows == [[]]
    ensures width.Some? && items == [] ==> rows == []
  {
    match width {
      case None => [[]]
      case Some(w) => Finish(Scan(items, w, spacing))
    }
  }

  /** What the loop counts for a row: each width and one spacing each, less one spacing on the first row. */
  function Accumulated(row: Row, first: bool, spacing: real): real
  {
    if row == [] then (if first then -spacing else 0.0)
    else Accumulated(row[..|row| - 1], first, spacing) + spacing + row[|row| - 1].size.width
  }

  /** The accounting in closed form: `Σw + (n - 1)·spacing` on the first row, `Σw + n·spacing` on the others. */
  lemma {:induction false} AccumulatedClosedForm(row: Row, first: bool, spacing: real)
    ensures Accumulated(row, first, spacing)
      == SumWidths(row) + (|row| as real) * spacing - (if first then spacing else 0.0)
  {
    if row != [] {
      var init := row[..|row| - 1];
      AccumulatedClosedForm(init, first, spacing);
      assert (|row| as real) * spacing == (|init| as real) * spacing + spacing;
    }
  }

  /** A subview stays on the row it is offered to. */
  predicate Fits(before: Row, first: bool, item: Item, width: real, spacing: real)
  {
    !Overflows(Accumulated(before, first, spacing), item.size.width, width, spacing)
  }

  /** Every subview on a row fit after the ones before it; the first one of a later row is not tested. */
  ghost predicate RowFits(row: Row, first: bool, width: real, spacing: real)
  {
    forall i :: (if first then 0 else 1) <= i < |row| ==> Fits(row[..i], first, row[i], width, spacing)
  }

  /** The greedy wrapping: rows fit, and each later row starts with a subview that did not fit on the row before. */
  ghost predicate Wrapped(rows: seq<Row>, width: real, spacing: real)
  {
    && (forall k :: 0 <= k < |rows| ==> RowFits(rows[k], k == 0, width, spacing))
    && (forall k :: 1 <= k < |rows| ==> rows[k] != [] && !Fits(rows[k - 1], k == 1, rows[k][0], width, spacing))
  }

  /** What the loop keeps true. */
  ghost predicate ScanInvariant(st: LineState, items: seq<Item>, width: real, spacing: real)
  {
    && Flatten(st.rows) + st.row == items
    && st.rowWidth == Accumulated(st.row, st.rows == [], spacing)
    && Wrapped(st.rows + [st.row], width, spacing)
    && (st.rows != [] || items != [] ==> st.row != [])
  }

  lemma AppendKeepsRowFits(row: Row, first: bool, item: Item, width: real, spacing: real)
    requires RowFits(row, first, width, spacing)
    requires Fits(row, first, item, width, spacing) || (!first && row == [])
    ensures RowFits(row + [item], first, width, spacing)
  {
    var row' := row + [item];
    forall i | (if first then 0 else 1) <= i < |row'|
      ensures Fits(row'[..i], first, row'[i], width, spacing)
    {
      if i < |row| {
        assert row'[..i] == row[..i];
      } else {
        assert row'[..i] == row;
      }
    }
  }

  /** A step that closes the row keeps the invariant. */
  lemma BreakStep(st: LineState, items: seq<Item>, item: Item, width: real, spacing: real)
    requires ScanInvariant(st, items, width, spacing)
    requires Overflows(st.rowWidth, item.size.width, width, spacing)
    ensures ScanInvariant(Append(Break(st, item.size.width, width, spacing), item, spacing), items + [item], width, spacing)
  {
    var st' := Append(Break(st, item.size.width, width, spacing), item, spacing);
    var rows := st.rows + [st.row];
    assert rows != [];
    AppendKeepsRowFits([], false, item, width, spacing);
    assert RowFits([item], false, width, spacing) by {
      assert [] + [item] == [item];
    }
    assert Flatten(rows) == Flatten(st.rows) + st.row;
    assert st'.row == [item];
    var all := rows + [[item]];
    assert all[..|rows|] == rows;
    forall k | 0 <= k < |all| ensures RowFits(all[k], k == 0, width, spacing) {
      if k < |rows| {
        assert all[k] == (st.rows + [st.row])[k];
      }
    }
    forall k | 1 <= k < |all|
      ensures all[k] != [] && !Fits(all[k - 1], k == 1, all[k][0], width, spacing)
    {
      if k < |rows| {
        assert all[k] == (st.rows + [st.row])[k] && all[k - 1] == (st.rows + [st.row])[k - 1];
      } else {
        assert all[k - 1] == st.row && (k == 1 <==> st.rows == []);
      }
    }
    assert Wrapped(all, width, spacing);
  }

  /** A step that stays on the row keeps the invariant. */
  lemma FitStep(st: LineState, items: seq<Item>, item: Item, width: real, spacing: real)
    requires ScanInvariant(st, items, width, spacing)
    requires !Overflows(st.rowWidth, item.size.width, width, spacing)
    ensures ScanInvariant(Append(Break(st, item.size.width, width, spacing), item, spacing), items + [item], width, spacing)
  {
    var st' := Append(Break(st, item.size.width, width, spacing), item, spacing);
    var row' := st.row + [item];
    assert st' == LineState(st.rows, row', st.rowWidth + spacing + item.size.width);
    assert row'[..|row'| - 1] == st.row;
    var before := st.rows + [st.row];
    var all := st.rows + [row'];
    assert before[|st.rows|] == st.row;
    assert RowFits(st.row, st.rows == [], width, spacing);
    AppendKeepsRowFits(st.row, st.rows == [], item, width, spacing);
    forall k | 0 <= k < |all| ensures RowFits(all[k], k == 0, width, spacing) {
      if k < |st.rows| {
        assert all[k] == before[k];
      }
    }
    forall k | 1 <= k < |all|
      ensures all[k] != [] && !Fits(all[k - 1], k == 1, all[k][0], width, spacing)
    {
      assert all[k - 1] == before[k - 1];
      if k < |st.rows| {
        assert all[k] == before[k];
      } else {
        assert all[k][0] == before[k][0];
      }
    }
    assert Flatten(st.rows) + row' == (Flatten(st.rows) + st.row) + [item];
  }

  lemma {:induction false} ScanKeepsInvariant(items: seq<Item>, width: real, spacing: real)
    ensures ScanInvariant(Scan(items, width, spacing), items, width, spacing)
  {
    if items == [] {
      assert Wrapped([[]], width, spacing);
    } else {
      var init := items[..|items| - 1];
      var item := items[|items| - 1];
      var st := Scan(init, width, spacing);
      ScanKeepsInvariant(init, width, spacing);
      assert items == init + [item];
      if Overflows(st.rowWidth, item.size.width, width, spacing) {
        BreakStep(st, init, item, width, spacing);
      } else {
        FitStep(st, init, item, width, spacing);
      }
    }
  }

  /** The loop's `rowWidth` follows `Accumulated` for the open row. */
  lemma {:induction false} ScanRowWidth(items: seq<Item>, width: real, spacing: real)
    ensures var st := Scan(items, width, spacing);
            st.rowWidth == Accumulated(st.row, st.rows == [], spacing)
  {
    if items != [] {
      var init := items[..|items| - 1];
      ScanRowWidth(init, width, spacing);
      var st := Scan(init, width, spacing);
      var row := Scan(items, width, spacing).row;
      assert row[..|row| - 1] == Break(st, items[|items| - 1].size.width, width, spacing).row;
    }
  }

  /** Every subview ends up on exactly one row, in order, with its fitted size. */
  lemma RowsKeepItems(items: seq<Item>, width: real, spacing: real)
    ensures Flatten(Rows(items, Some(width), spacing)) == items
  {
    var st := Scan(items, width, spacing);
    ScanKeepsInvariant(items, width, spacing);
    if st.row != [] {
      assert Flatten(st.rows + [st.row]) == Flatten(st.rows) + st.row by {
        assert (st.rows + [st.row])[..|st.rows|] == st.rows;
      }
    } else {
      assert Finish(st) == st.rows;
    }
  }

  /** The rows are the greedy wrapping: each subview stays on its row exactly when it fits there. */
  lemma RowsWrapped(items: seq<Item>, width: real, spacing: real)
    ensures Wrapped(Rows(items, Some(width), spacing), width, spacing)
  {
    var st := Scan(items, width, spacing);
    ScanKeepsInvariant(items, width, spacing);
  }

  /** Only the first row can be empty, and it is exactly when the first subview alone is wider than the proposal. */
  lemma EmptyRowOnlyFirst(items: seq<Item>, width: real, spacing: real)
    ensures var rows := Rows(items, Some(width), spacing);
            && (forall k :: 1 <= k < |rows| ==> rows[k] != [])
            && (items != [] ==> (rows[0] == [] <==> items[0].size.width > width))
  {
    var rows := Rows(items, Some(width), spacing);
    RowsKeepItems(items, width, spacing);
    RowsWrapped(items, width, spacing);
    if items != [] {
      assert rows != [];
      if rows[0] == [] {
        FlattenFirst(rows);
        assert !Fits(rows[0], true, rows[1][0], width, spacing);
      } else {
        FlattenFirst(rows);
        assert Fits(rows[0][..0], true, rows[0][0], width, spacing);
        assert rows[0][..0] == [];
      }
    }
  }

  /** The first subview is the first one of the first non-empty row among the first two. */
  lemma FlattenFirst(rows: seq<Row>)
    requires Flatten(rows) != [] && (forall k :: 1 <= k < |rows| ==> rows[k] != [])
    ensures rows[0] != [] ==> Flatten(rows)[0] == rows[0][0]
    ensures rows[0] == [] ==> |rows| > 1 && Flatten(rows)[0] == rows[1][0]
  {
    FlattenPrefix(rows, 1);
    if |rows| > 1 {
      FlattenPrefix(rows, 2);
      assert rows[..2] == [rows[0], rows[1]];
      assert Flatten(rows[..2]) == Flatten(rows[..1]) + rows[1];
    }
    assert rows[..1] == [rows[0]];
    assert Flatten(rows[..1]) == Flatten([]) + rows[0];
    if |rows| == 1 { assert rows == rows[..1]; }
  }

  /** The subviews of a prefix of the rows come first. */
  lemma {:induction false} FlattenPrefix(rows: seq<Row>, n: nat)
    requires n <= |rows|
    ensures Flatten(rows[..n]) <= Flatten(rows)
    decreases |rows| - n
  {
    if n < |rows| {
      FlattenPrefix(rows, n + 1);
      assert rows[..n + 1][..n] == rows[..n];
    } else {
      assert rows[..n] == rows;
    }
  }

  /** Every row holding two or more subviews, and the first row with one, stays within the width as the loop counts it. */
  lemma FullRowsWithinWidth(items: seq<Item>, width: real, spacing: real)
    ensures var rows := Rows(items, Some(width), spacing);
            forall k :: 0 <= k < |rows| && (|rows[k]| >= 2 || (k == 0 && rows[k] != [])) ==>
              Accumulated(rows[k], k == 0, spacing) <= width
  {
    var rows := Rows(items, Some(width), spacing);
    RowsWrapped(items, width, spacing);
    forall k | 0 <= k < |rows| && (|rows[k]| >= 2 || (k == 0 && rows[k] != []))
      ensures Accumulated(rows[k], k == 0, spacing) <= width
    {
      var row := rows[k];
      assert Fits(row[..|row| - 1], k == 0, row[|row| - 1], width, spacing);
    }
  }

  /**
   * The same rows measured as they are shown, each subview's width plus one
   * spacing between neighbours, also stay within the width when the spacing
   * is not negative.
   */
  lemma RowsWithinShownWidth(items: seq<Item>, width: real, spacing: real)
    requires spacing >= 0.0
    ensures var rows := Rows(items, Some(width), spacing);
            forall k :: 0 <= k < |rows| && (|rows[k]| >= 2 || (k == 0 && rows[k] != [])) ==>
              SumWidths(rows[k]) + ((|rows[k]| - 1) as real) * spacing <= width
  {
    var rows := Rows(items, Some(width), spacing);
    FullRowsWithinWidth(items, width, spacing);
    forall k | 0 <= k < |rows| && (|rows[k]| >= 2 || (k == 0 && rows[k] != []))
      ensures SumWidths(rows[k]) + ((|rows[k]| - 1) as real) * spacing <= width
    {
      AccumulatedClosedForm(rows[k], k == 0, spacing);
      assert ((|rows[k]| - 1) as real) * spacing == (|rows[k]| as real) * spacing - spacing;
    }
  }

  /** The loop of `rows(proposal:spacing:)`. */
  method ComputeRows(items: seq<Item>, proposalWidth: Option<real>, spacing: real) returns (rows: seq<Row>)
    ensures rows == Rows(items, proposalWidth, spacing)
  {
    if proposalWidth.None? {
      return [[]];
    }
    var width := proposalWidth.value;
    rows := [];
    var row: Row := [];
    var rowWidth := -spacing;
    var i := 0;
    while i < |items|
      invariant 0 <= i <= |items|
      invariant Scan(items[..i], width, spacing) == LineState(rows, row, rowWidth)
    {
      assert items[..i + 1][..i] == items[..i];
      var item := items[i];
      if rowWidth + spacing + item.size.width > width {
        rows := rows + [row];
        row := [];
        rowWidth := 0.0;
      }
      row := row + [item];
      rowWidth := rowWidth + spacing + item.size.width;
      i := i + 1;
    }
    assert items[..i] == items;
    if row != [] {
      rows := rows + [row];
    }
  }

  /** `sizeThatFits(proposal:subviews:cache:)`: the widest row, spacing left out, and the rows' heights added up. */
  function SizeThatFits(items: seq<Item>, proposalWidth: Option<real>): (s: Size)
    ensures var rows := Rows(items, proposalWidth, Spacing);
            && s.height == TotalHeight(rows)
            && s.width >= 0.0
            && (forall k :: 0 <= k < |rows| ==> SumWidths(rows[k]) <= s.width)
            && (s.width == 0.0 || exists k :: 0 <= k < |rows| && s.width == SumWidths(rows[k]))
  {
    var rows := Rows(items, proposalWidth, Spacing);
    Size(MaxRowWidth(rows), TotalHeight(rows))
  }

  /** With no proposed width, the layout asks for no room at all. */
  lemma NoProposalNoSize(items: seq<Item>)
    ensures SizeThatFits(items, None) == Size(0.0, 0.0)
  {
    var rows: seq<Row> := [[]];
    assert rows[..0] == [];
  }

  /** `placeSubviews(in:proposal:subviews:cache:)`. */
  method PlaceSubviews(items: seq<Item>, minX: real, minY: real, proposalWidth: Option<real>)
    returns (placements: seq<Placement>)
    ensures placements == Placed(Rows(items, proposalWidth, Spacing), minX, minY, Spacing)
  {
    var rows := ComputeRows(items, proposalWidth, Spacing);
    placements := PlaceRows(rows, minX, minY, Spacing);
  }

  /** With a proposed width, every subview is placed once, in order, with its fitted size. */
  lemma PlacementsCoverSubviews(items: seq<Item>, minX: real, minY: real, width: real)
    ensures var ps := Placed(Rows(items, Some(width), Spacing), minX, minY, Spacing);
            |ps| == |items| && forall j :: 0 <= j < |items| ==> ps[j].view == items[j].view && ps[j].proposal == items[j].size
  {
    RowsKeepItems(items, width, Spacing);
    PlacedCoversItems(Rows(items, Some(width), Spacing), minX, minY, Spacing);
  }

  /** The last subview is placed on the bottom edge of the size the layout asks for. */
  lemma LastSubviewAtReportedHeight(items: seq<Item>, minX: real, minY: real, width: real)
    requires items != []
    ensures var ps := Placed(Rows(items, Some(width), Spacing), minX, minY, Spacing);
            |ps| > 0 && ps[|ps| - 1].bottomLeading.y == minY + SizeThatFits(items, Some(width)).height
  {
    var rows := Rows(items, Some(width), Spacing);
    RowsKeepItems(items, width, Spacing);
    var st := Scan(items, width, Spacing);
    ScanKeepsInvariant(items, width, Spacing);
    assert rows == st.rows + [st.row];
    LastRowOnBottomEdge(rows, minX, minY, Spacing);
  }
}
