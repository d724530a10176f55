/**
 * The arithmetic the two SwiftUI layouts share (Thoughts/Layouts/CenteredFlowLayout.swift
 * and Thoughts/Layouts/TagViewLayout.swift): rows of subviews with their
 * sizes, the size a set of rows needs, and where each subview is placed.
 * `CGFloat` is `real`; a subview is named by its position among the
 * layout's subviews, and `place(at:anchor:proposal:)` is recorded as a
 * `Placement` with the `.bottomLeading` anchor.
 */
module LayoutGeometry {

  datatype Size = Size(width: real, height: real)

  datatype Point = Point(x: real, y: real)

  /** `SubviewDetails`: a subview and the size it is laid out with. */
  datatype Item = Item(view: nat, size: Size)

  type Row = seq<Item>

  /** One `place(at:anchor: .bottomLeading, proposal:)` call. */
  datatype Placement = Placement(view: nat, bottomLeading: Point, proposal: Size)

  function Max(a: real, b: real): real
  {
    if a >= b then a else b
  }

  /** The rows one after another. */
  function Flatten(rows: seq<Row>): seq<Item>
  {
    if rows == [] then [] else Flatten(rows[..|rows| - 1]) + rows[|rows| - 1]
  }

  /** `row.map { $0.width }.reduce(0.0, +)`. */
  function SumWidths(row: Row): real
  {
    if row == [] then 0.0 else SumWidths(row[..|row| - 1]) + row[|row| - 1].size.width
  }

  /** `row.map { $0.height }.reduce(0.0, max)`: the tallest subview, and never below 0. */
  function MaxHeight(row: Row): (h: real)
    ensures h >= 0.0 && forall i :: 0 <= i < |row| ==> row[i].size.height <= h
    ensures h == 0.0 || exists i :: 0 <= i < |row| && h == row[i].size.height
  {
    if row == [] then 0.0
    else
      var init := row[..|row| - 1];
      var h := Max(MaxHeight(init), row[|row| - 1].size.height);
      assert forall i :: 0 <= i < |init| ==> init[i] == row[i];
      h
  }

  /** The width part of `sizeThatFits`: the widest row, spacing left out, and never below 0. */
  function MaxRowWidth(rows: seq<Row>): (w: real)
    ensures w >= 0.0 && forall k :: 0 <= k < |rows| ==> SumWidths(rows[k]) <= w
    ensures w == 0.0 || exists k :: 0 <= k < |rows| && w == SumWidths(rows[k])
  {
    if rows == [] then 0.0
    else
      var init := rows[..|rows| - 1];
      var w := Max(MaxRowWidth(init), SumWidths(rows[|rows| - 1]));
      assert forall k :: 0 <= k < |init| ==> init[k] == rows[k];
      w
  }

  /** The height part of `sizeThatFits`: the rows' heights added up. */
  function TotalHeight(rows: seq<Row>): real
  {
    if rows == [] then 0.0 else TotalHeight(rows[..|rows| - 1]) + MaxHeight(rows[|rows| - 1])
  }

  /** How far `posX` has moved after the subviews of `row`: each width plus the spacing. */
  function Advance(row: Row, spacing: real): real
  {
    if row == [] then 0.0 else Advance(row[..|row| - 1], spacing) + row[|row| - 1].size.width + spacing
  }

  /** The placements of one row whose bottom edge is at `bottom`, starting at `minX`. */
  function RowPlacements(row: Row, minX: real, bottom: real, spacing: real): (ps: seq<Placement>)
    ensures |ps| == |row|
  {
    if row == [] then []
    else
      var init := row[..|row| - 1];
      var last := row[|row| - 1];
      RowPlacements(init, minX, bottom, spacing)
        + [Placement(last.view, Point(minX + Advance(init, spacing), bottom), last.size)]
  }

  /** The placements of all rows: row `k`'s bottom edge is `minY` plus the heights of rows `0..k`. */
  function Placed(rows: seq<Row>, minX: real, minY: real, spacing: real): (ps: seq<Placement>)
    ensures |ps| == |Flatten(rows)|
  {
    if rows == [] then []
    else
      var init := rows[..|rows| - 1];
      Placed(init, minX, minY, spacing)
        + RowPlacements(rows[|rows| - 1], minX, minY + TotalHeight(rows), spacing)
  }

  /** Each subview of a row is placed with its own size, in order. */
  lemma {:induction false} RowPlacementsFollowRow(row: Row, minX: real, bottom: real, spacing: real)
    ensures forall i :: 0 <= i < |row| ==>
      var p := RowPlacements(row, minX, bottom, spacing)[i];
      p.view == row[i].view && p.proposal == row[i].size && p.bottomLeading.y == bottom
  {
    if row != [] {
      RowPlacementsFollowRow(row[..|row| - 1], minX, bottom, spacing);
    }
  }

  /** A row starts at `minX`, and each subview sits its width plus the spacing right of the one before. */
  lemma {:induction false} RowPlacementsAdvance(row: Row, minX: real, bottom: real, spacing: real)
    ensures |row| > 0 ==> RowPlacements(row, minX, bottom, spacing)[0].bottomLeading.x == minX
    ensures forall i :: 0 <= i < |row| - 1 ==>
      var ps := RowPlacements(row, minX, bottom, spacing);
      ps[i + 1].bottomLeading.x == ps[i].bottomLeading.x + row[i].size.width + spacing
  {
    if row != [] {
      var init := row[..|row| - 1];
      RowPlacementsAdvance(init, minX, bottom, spacing);
      if |row| >= 2 {
        var ps := RowPlacements(row, minX, bottom, spacing);
        var n := |row| - 1;
        assert ps[n - 1] == RowPlacements(init, minX, bottom, spacing)[n - 1];
        RowPlacementsX(init, minX, bottom, spacing);
        assert init == init[..n - 1] + [row[n - 1]];
        assert init[..n - 1] == row[..n - 1];
      }
    }
  }

  lemma RowPlacementsX(row: Row, minX: real, bottom: real, spacing: real)
    requires |row| > 0
    ensures RowPlacements(row, minX, bottom, spacing)[|row| - 1].bottomLeading.x == minX + Advance(row[..|row| - 1], spacing)
  {
  }

  /** Every subview of every row is placed exactly once, in order, with its size. */
  lemma {:induction false} PlacedCoversItems(rows: seq<Row>, minX: real, minY: real, spacing: real)
    ensures forall j :: 0 <= j < |Flatten(rows)| ==>
      Placed(rows, minX, minY, spacing)[j].view == Flatten(rows)[j].view
      && Placed(rows, minX, minY, spacing)[j].proposal == Flatten(rows)[j].size
  {
    if rows != [] {
      var init := rows[..|rows| - 1];
      var last := rows[|rows| - 1];
      var before, row := Placed(init, minX, minY, spacing), RowPlacements(last, minX, minY + TotalHeight(rows), spacing);
      var ps, items := Placed(rows, minX, minY, spacing), Flatten(rows);
      assert ps == before + row && items == Flatten(init) + last;
      PlacedCoversItems(init, minX, minY, spacing);
      RowPlacementsFollowRow(last, minX, minY + TotalHeight(rows), spacing);
      forall j | 0 <= j < |items|
        ensures ps[j].view == items[j].view && ps[j].proposal == items[j].size
      {
        if j < |before| {
          assert ps[j] == before[j] && items[j] == Flatten(init)[j];
        } else {
          assert ps[j] == row[j - |before|] && items[j] == last[j - |before|];
        }
      }
    }
  }

  /** The subviews of the last row sit on the bottom edge of the height `sizeThatFits` reports. */
  lemma LastRowOnBottomEdge(rows: seq<Row>, minX: real, minY: real, spacing: real)
    requires |rows| > 0 && rows[|rows| - 1] != []
    ensures var ps := Placed(rows, minX, minY, spacing);
            ps[|ps| - 1].bottomLeading.y == minY + TotalHeight(rows)
  {
    var last := rows[|rows| - 1];
    RowPlacementsFollowRow(last, minX, minY + TotalHeight(rows), spacing);
  }

  /** One more row of placements; its bottom edge is the height of all rows so far. */
  lemma PlacedStep(rows: seq<Row>, k: nat, minX: real, minY: real, spacing: real)
    requires k < |rows|
    ensures TotalHeight(rows[..k + 1]) == TotalHeight(rows[..k]) + MaxHeight(rows[k])
    ensures Placed(rows[..k + 1], minX, minY, spacing)
      == Placed(rows[..k], minX, minY, spacing) + RowPlacements(rows[k], minX, minY + TotalHeight(rows[..k + 1]), spacing)
  {
    assert rows[..k + 1][..k] == rows[..k];
  }

  /** One more placement in a row, at the current `posX`. */
  lemma RowStep(row: Row, i: nat, minX: real, bottom: real, spacing: real)
    requires i < |row|
    ensures Advance(row[..i + 1], spacing) == Advance(row[..i], spacing) + row[i].size.width + spacing
    ensures RowPlacements(row[..i + 1], minX, bottom, spacing)
      == RowPlacements(row[..i], minX, bottom, spacing)
         + [Placement(row[i].view, Point(minX + Advance(row[..i], spacing), bottom), row[i].size)]
  {
    assert row[..i + 1][..i] == row[..i];
  }

  /** One row of the nested loop: `posX` starts at `minX` and moves right by each width plus the spacing. */
  method PlaceRow(row: Row, minX: real, bottom: real, spacing: real) returns (placed: seq<Placement>)
    ensures placed == RowPlacements(row, minX, bottom, spacing)
  {
    placed := [];
    var posX := minX;
    var i := 0;
    while i < |row|
      invariant 0 <= i <= |row|
      invariant posX == minX + Advance(row[..i], spacing)
      invariant placed == RowPlacements(row[..i], minX, bottom, spacing)
    {
      RowStep(row, i, minX, bottom, spacing);
      placed := placed + [Placement(row[i].view, Point(posX, bottom), row[i].size)];
      posX := posX + row[i].size.width + spacing;
      i := i + 1;
    }
    assert row[..i] == row;
  }

  /**
   * The nested loop of `placeSubviews(in:proposal:subviews:cache:)`: `posY`
   * moves down by each row's height, and each row is placed on its bottom edge.
   */
  method PlaceRows(rows: seq<Row>, minX: real, minY: real, spacing: real) returns (placements: seq<Placement>)
    ensures placements == Placed(rows, minX, minY, spacing)
  {
    placements := [];
    var posY := minY;
    var k := 0;
    while k < |rows|
      invariant 0 <= k <= |rows|
      invariant posY == minY + TotalHeight(rows[..k])
      invariant placements == Placed(rows[..k], minX, minY, spacing)
    {
      var rowHeight := MaxHeight(rows[k]);
      PlacedStep(rows, k, minX, minY, spacing);
      var placedRow := PlaceRow(rows[k], minX, posY + rowHeight, spacing);
      placements := placements + placedRow;
      posY := posY + rowHeight;
      k := k + 1;
    }
    assert rows[..k] == rows;
  }
}
