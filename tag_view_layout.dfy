/**
 * `TagViewLayout` (Thoughts/Layouts/TagViewLayout.swift): the same greedy
 * line-breaker as `CenteredFlowLayout`, with the spacing given at
 * construction, except that the last subview (the text entry field) is
 * stretched to take up what is left of its row. The break test for that
 * subview still uses its own fitted width; only what is appended changes.
 * With a proposed width the layout reports that width as its own.
 */
module TagView {
  import opened Wrappers
  import opened LayoutGeometry
  import opened CenteredFlow

  /**
   * The width the last subview is given: what is left of the row after the
   * break test. It is never narrower than the fitted width when the subview
   * stays on the open row; on a fresh row it is the width less one spacing.
   */
  function StretchedWidth(st: LineState, item: Item, width: real, spacing: real): (w: real)
    ensures !Overflows(st.rowWidth, item.size.width, width, spacing) ==> w >= item.size.width
    ensures Overflows(st.rowWidth, item.size.width, width, spacing) ==> w == width - spacing
  {
    width - Break(st, item.size.width, width, spacing).rowWidth - spacing
  }

  /**
   * The step for the last subview: the break is decided on its fitted width,
   * as for every other subview, and the row then comes out exactly full.
   */
  function Stretch(st: LineState, item: Item, width: real, spacing: real): (r: LineState)
    ensures Overflows(st.rowWidth, item.size.width, width, spacing) ==> r.rows == st.rows + [st.row] && |r.row| == 1
    ensures !Overflows(st.rowWidth, item.size.width, width, spacing) ==> r.rows == st.rows && |r.row| == |st.row| + 1
    ensures r.rowWidth == width
  {
    var b := Break(st, item.size.width, width, spacing);
    Append(b, Item(item.view, Size(StretchedWidth(st, item, width, spacing), item.size.height)), spacing)
  }

  /** The loop state after all of `items`: every subview but the last goes through the plain step. */
  function TagScan(items: seq<Item>, width: real, spacing: real): LineState
  {
    if items == [] then Initial(spacing)
    else Stretch(Scan(items[..|items| - 1], width, spacing), items[|items| - 1], width, spacing)
  }

  /** `LayoutSubviews.rows(proposal:spacing:)` of this file. */
  function TagRows(items: seq<Item>, width: Option<real>, spacing: real): (rows: seq<Row>)
    ensures width.None? ==> rows == [[]]
    ensures width.Some? && items == [] ==> rows == []
  {
    match width {
      case None => [[]]
      case Some(w) => Finish(TagScan(items, w, spacing))
    }
  }

  /** The last subview as it is laid out: its own view and height, and the stretched width. */
  function LastLaidOut(items: seq<Item>, width: real, spacing: real): Item
    requires items != []
  {
    var last := items[|items| - 1];
    Item(last.view, Size(StretchedWidth(Scan(items[..|items| - 1], width, spacing), last, width, spacing), last.size.height))
  }

  /** The rows break where `CenteredFlowLayout`'s rows break: the closed rows are the same, and the open row differs only in its last subview. */
  lemma SameBreaksAsCenteredFlow(items: seq<Item>, width: real, spacing: real)
    requires items != []
    ensures var tag, plain := TagScan(items, width, spacing), Scan(items, width, spacing);
            && tag.rows == plain.rows
            && |tag.row| == |plain.row| > 0
            && tag.row[..|tag.row| - 1] == plain.row[..|plain.row| - 1]
            && tag.row[|tag.row| - 1] == LastLaidOut(items, width, spacing)
  {
    var init := items[..|items| - 1];
    var b := Break(Scan(init, width, spacing), items[|items| - 1].size.width, width, spacing);
    var tag, plain := TagScan(items, width, spacing), Scan(items, width, spacing);
    assert tag.row[..|tag.row| - 1] == b.row;
    assert plain.row[..|plain.row| - 1] == b.row;
  }

  /** The subviews keep their order; all but the last keep their fitted size, the last is `LastLaidOut`. */
  lemma TagRowsKeepItems(items: seq<Item>, width: real, spacing: real)
    requires items != []
    ensures Flatten(TagRows(items, Some(width), spacing)) == items[..|items| - 1] + [LastLaidOut(items, width, spacing)]
  {
    var init := items[..|items| - 1];
    var st := Scan(init, width, spacing);
    ScanKeepsInvariant(init, width, spacing);
    assert Flatten(st.rows) + st.row == init;
    BreakFlattens(st, items[|items| - 1].size.width, width, spacing);
    var tag := TagScan(items, width, spacing);
    assert tag.rows + [tag.row] == TagRows(items, Some(width), spacing);
    assert (tag.rows + [tag.row])[..|tag.rows|] == tag.rows;
  }

  /** A break closes the open row without losing or reordering a subview. */
  lemma BreakFlattens(st: LineState, w: real, width: real, spacing: real)
    ensures var b := Break(st, w, width, spacing);
            Flatten(b.rows) + b.row == Flatten(st.rows) + st.row
  {
    var b := Break(st, w, width, spacing);
    if b != st {
      assert b.rows[..|st.rows|] == st.rows;
    }
  }

  /** The stretch step keeps `rowWidth` the accumulated width of the open row. */
  lemma StretchAccumulates(st: LineState, item: Item, width: real, spacing: real)
    requires st.rowWidth == Accumulated(st.row, st.rows == [], spacing)
    ensures var r := Stretch(st, item, width, spacing);
            r.rowWidth == Accumulated(r.row, r.rows == [], spacing)
  {
    var b := Break(st, item.size.width, width, spacing);
    var r := Stretch(st, item, width, spacing);
    assert b.rowWidth == Accumulated(b.row, b.rows == [], spacing);
    assert r.rows == b.rows && r.row[..|r.row| - 1] == b.row;
  }

  /** The row holding the last subview is full exactly, counted as the loop counts it. */
  lemma LastRowFills(items: seq<Item>, width: real, spacing: real)
    requires items != []
    ensures var rows := TagRows(items, Some(width), spacing);
            |rows| > 0 && Accumulated(rows[|rows| - 1], |rows| == 1, spacing) == width
  {
    var init := items[..|items| - 1];
    ScanRowWidth(init, width, spacing);
    var tag := TagScan(items, width, spacing);
    StretchAccumulates(Scan(init, width, spacing), items[|items| - 1], width, spacing);
    assert TagRows(items, Some(width), spacing) == tag.rows + [tag.row];
  }

  /** The loop of `rows(proposal:spacing:)`, with the last index treated apart. */
  method ComputeTagRows(items: seq<Item>, proposalWidth: Option<real>, spacing: real) returns (rows: seq<Row>)
    ensures rows == TagRows(items, proposalWidth, spacing)
  {
    if proposalWidth.None? {
      return [[]];
    }
    var width := proposalWidth.value;
    rows := [];
    var row: Row := [];
    var rowWidth := -spacing;
    var index := 0;
    while index < |items|
      invariant 0 <= index <= |items|
      invariant index < |items| ==> Scan(items[..index], width, spacing) == LineState(rows, row, rowWidth)
      invariant index == |items| ==> TagScan(items, width, spacing) == LineState(rows, row, rowWidth)
    {
      assert items[..index + 1][..index] == items[..index];
      var item := items[index];
      if rowWidth + spacing + item.size.width > width {
        rows := rows + [row];
        row := [];
        rowWidth := 0.0;
      }
      if index + 1 >= |items| {
        var size := Size(width - rowWidth - spacing, item.size.height);
        row := row + [Item(item.view, size)];
        rowWidth := rowWidth + spacing + size.width;
        assert items[..index] == items[..|items| - 1];
      } else {
        row := row + [item];
        rowWidth := rowWidth + spacing + item.size.width;
      }
      index := index + 1;
    }
    if row != [] {
      rows := rows + [row];
    }
  }

  /** `sizeThatFits(proposal:subviews:cache:)`: the proposed width when there is one, else the widest row; the rows' heights added up. */
  function TagSizeThatFits(items: seq<Item>, proposalWidth: Option<real>, spacing: real): (s: Size)
    ensures proposalWidth.Some? ==> s.width == proposalWidth.value
    ensures s.height == TotalHeight(TagRows(items, proposalWidth, spacing))
  {
    var rows := TagRows(items, proposalWidth, spacing);
    Size(if proposalWidth.Some? then proposalWidth.value else MaxRowWidth(rows), TotalHeight(rows))
  }

  /** With no proposed width the layout asks for no room at all. */
  lemma TagNoProposalNoSize(items: seq<Item>, spacing: real)
    ensures TagSizeThatFits(items, None, spacing) == Size(0.0, 0.0)
  {
    var rows: seq<Row> := [[]];
    assert rows[..0] == [];
  }

  /** `placeSubviews(in:proposal:subviews:cache:)`. */
  method TagPlaceSubviews(items: seq<Item>, minX: real, minY: real, proposalWidth: Option<real>, spacing: real)
    returns (placements: seq<Placement>)
    ensures placements == Placed(TagRows(items, proposalWidth, spacing), minX, minY, spacing)
  {
    var rows := ComputeTagRows(items, proposalWidth, spacing);
    placements := PlaceRows(rows, minX, minY, spacing);
  }

  /** Every subview is placed once, in order; all but the last with their fitted size, the last one stretched and on the bottom edge. */
  lemma TagPlacementsCoverSubviews(items: seq<Item>, minX: real, minY: real, width: real, spacing: real)
    requires items != []
    ensures var ps := Placed(TagRows(items, Some(width), spacing), minX, minY, spacing);
            && |ps| == |items|
            && (forall j :: 0 <= j < |items| ==> ps[j].view == items[j].view)
            && (forall j :: 0 <= j < |items| - 1 ==> ps[j].proposal == items[j].size)
            && ps[|ps| - 1].proposal == LastLaidOut(items, width, spacing).size
            && ps[|ps| - 1].bottomLeading.y == minY + TagSizeThatFits(items, Some(width), spacing).height
  {
    var rows := TagRows(items, Some(width), spacing);
    var flat := Flatten(rows);
    TagRowsKeepItems(items, width, spacing);
    PlacedCoversItems(rows, minX, minY, spacing);
    forall j | 0 <= j < |items| ensures flat[j].view == items[j].view {
      if j < |items| - 1 {
        assert flat[j] == items[..|items| - 1][j];
      }
    }
    forall j | 0 <= j < |items| - 1 ensures flat[j].size == items[j].size {
      assert flat[j] == items[..|items| - 1][j];
    }
    var tag := TagScan(items, width, spacing);
    assert rows == tag.rows + [tag.row];
    LastRowOnBottomEdge(rows, minX, minY, spacing);
  }
}
