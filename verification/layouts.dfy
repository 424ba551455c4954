/** The two integer target layouts of dist/main.js: the "table" layout, an
    affine map of each node's `(column, row)` cells, and the "grid" layout, a
    5 x 5 x N lattice indexed by node position. Both targets keep the zero
    rotation of a fresh `Object3D`. */
module Layouts {
  import opened JsValues
  import opened Geometry
  import opened Records

  // ---------------------------------------------------------------------
  // Table layout
  // ---------------------------------------------------------------------

  /** `x = column * 140 - 1330`, `y = - (row * 180) + 990`, `z` untouched:
      columns are 140 apart from x = -1330, rows 180 apart downward from
      y = 990, and NaN in a cell stays NaN in its coordinate. */
  function TablePosition(column: Number, row: Number): (p: Vec3)
    ensures p.z == Int(0)
    ensures p.x.NaN? <==> column.NaN?
    ensures p.y.NaN? <==> row.NaN?
    ensures column.Int? ==> p.x.v + 1330 == column.v * 140
    ensures row.Int? ==> 990 - p.y.v == row.v * 180
  {
    Vec3(Plus(Times(column, 140), -1330),
         Plus(Negate(Times(row, 180)), 990),
         Int(0))
  }

  /** The table-layout target of one node. A column or row cell that does not
      coerce to a number gives a NaN coordinate rather than an error. */
  function TableTarget(e: Element): (o: Object3D)
    ensures o.rotation == Origin && o.position.z == Int(0)
    ensures o.position.x.NaN? <==> ToNumber(e.column).NaN?
    ensures o.position.y.NaN? <==> ToNumber(e.row).NaN?
  {
    Object3D(TablePosition(ToNumber(e.column), ToNumber(e.row)), Origin)
  }

  /** `targets.table`: one target per node, in node order. */
  function TableLayout(es: seq<Element>): (ts: seq<Object3D>)
    ensures |ts| == |es|
  {
    seq(|es|, k requires 0 <= k < |es| => TableTarget(es[k]))
  }

  /** Targets built one per node, in node order, are the table layout. */
  lemma LaidOutPrefix(es: seq<Element>, ts: seq<Object3D>)
    requires |ts| == |es|
    requires forall k :: 0 <= k < |ts| ==> ts[k] == TableTarget(es[k])
    ensures ts == TableLayout(es)
  {
  }

  /** The cell `(column, row)` a table-layout position was computed from, if
      it is one. */
  function TableCell(p: Vec3): Option<(int, int)> {
    if p.x.Int? && p.y.Int? && p.z == Int(0)
       && (p.x.v + 1330) % 140 == 0 && (990 - p.y.v) % 180 == 0
    then Some(((p.x.v + 1330) / 140, (990 - p.y.v) / 180))
    else None
  }

  /** Every numeric cell is recovered from its table position. */
  lemma TableCellInverts(column: int, row: int)
    ensures TableCell(TablePosition(Int(column), Int(row))) == Some((column, row))
  {
    var p := TablePosition(Int(column), Int(row));
    assert p.x.v + 1330 == column * 140;
    assert 990 - p.y.v == row * 180;
  }

  /** Conversely, a position that names a cell is that cell's table position. */
  lemma TableCellSound(p: Vec3, column: int, row: int)
    requires TableCell(p) == Some((column, row))
    ensures TablePosition(Int(column), Int(row)) == p
  {
    assert column * 140 == p.x.v + 1330;
    assert row * 180 == 990 - p.y.v;
  }

  /** Distinct numeric cells are placed at distinct positions. */
  lemma TableLayoutInjective(c1: int, r1: int, c2: int, r2: int)
    requires (c1, r1) != (c2, r2)
    ensures TablePosition(Int(c1), Int(r1)) != TablePosition(Int(c2), Int(r2))
  {
    TableCellInverts(c1, r1);
    TableCellInverts(c2, r2);
  }

  /** A column or row cell written as a numeral string lays out exactly like
      the number it spells. */
  lemma NumeralCellsLayOutAlike(e: Element, column: int, row: int)
    requires e.column == Str(IntToString(column)) && e.row == Str(IntToString(row))
    ensures TableTarget(e).position == TablePosition(Int(column), Int(row))
  {
    NumeralRoundTrip(column);
    NumeralRoundTrip(row);
  }

  /** The first two shipped nodes sit at the two ends of the top row, and every
      shipped node lies within x in [-1190, 1190] on one of two rows. The
      shipped nodes are what the shipped table decodes to
      (`ShippedTableDecodes`). */
  lemma ShippedTableLayout()
    ensures |TableLayout(ShippedElements)| == 10
    ensures TableLayout(ShippedElements)[0].position == Vec3(Int(-1190), Int(810), Int(0))
    ensures TableLayout(ShippedElements)[1].position == Vec3(Int(1190), Int(810), Int(0))
    ensures forall k :: 0 <= k < 10 ==>
      var p := TableLayout(ShippedElements)[k].position;
      p.x.Int? && -1190 <= p.x.v <= 1190 && p.y.Int? && p.y.v in {810, 630}
  {
    var es := ShippedElements;
    InBandOnTopRows(es[0]); InBandOnTopRows(es[1]); InBandOnTopRows(es[2]); InBandOnTopRows(es[3]);
    InBandOnTopRows(es[4]); InBandOnTopRows(es[5]); InBandOnTopRows(es[6]); InBandOnTopRows(es[7]);
    InBandOnTopRows(es[8]); InBandOnTopRows(es[9]);
  }

  /** A node in columns 1..18 of rows 1..2 lies within x in [-1190, 1190] on
      y = 810 or y = 630. */
  lemma InBandOnTopRows(e: Element)
    requires e.column.Num? && 1 <= e.column.n <= 18 && e.row.Num? && 1 <= e.row.n <= 2
    ensures var p := TableTarget(e).position;
      p.x.Int? && -1190 <= p.x.v <= 1190 && p.y.Int? && p.y.v in {810, 630}
  {
  }

  // ---------------------------------------------------------------------
  // Grid layout
  // ---------------------------------------------------------------------

  /** Node `i` of the grid: column `i % 5`, row `floor(i / 5) % 5`, layer
      `floor(i / 25)`. */
  function GridPosition(i: nat): (p: Vec3)
    ensures p.x.Int? && p.y.Int? && p.z.Int?
    ensures p.x.v in {-800, -400, 0, 400, 800}
    ensures p.y.v in {-800, -400, 0, 400, 800}
    ensures p.z.v >= -2000 && (p.z.v + 2000) % 1000 == 0
    ensures p.z.v == -2000 <==> i < 25
  {
    var column, row := i % 5, (i / 5) % 5;
    assert column in {0, 1, 2, 3, 4} && row in {0, 1, 2, 3, 4};
    Vec3(Int(column * 400 - 800),
         Int(-row * 400 + 800),
         Int((i / 25) * 1000 - 2000))
  }

  function GridTarget(i: nat): (o: Object3D)
    ensures o.rotation == Origin
  {
    Object3D(GridPosition(i), Origin)
  }

  /** `targets.grid`: one target per node, in node order. */
  function GridLayout(n: nat): (ts: seq<Object3D>)
    ensures |ts| == n
  {
    seq(n, k requires 0 <= k < n => GridTarget(k))
  }

  /** The node index a grid position was computed from, if it is one. */
  function GridIndex(p: Vec3): Option<nat> {
    if p.x.Int? && p.y.Int? && p.z.Int?
       && (p.x.v + 800) % 400 == 0 && -800 <= p.x.v <= 800
       && (800 - p.y.v) % 400 == 0 && -800 <= p.y.v <= 800
       && (p.z.v + 2000) % 1000 == 0 && -2000 <= p.z.v
    then Some(((p.z.v + 2000) / 1000) * 25
              + ((800 - p.y.v) / 400) * 5
              + (p.x.v + 800) / 400)
    else None
  }

  /** An index splits into its column, row and layer digits. */
  lemma GridDigits(i: nat)
    ensures i == (i / 25) * 25 + ((i / 5) % 5) * 5 + i % 5
  {
    assert i == (i / 5) * 5 + i % 5;
    assert i / 5 == ((i / 5) / 5) * 5 + (i / 5) % 5;
    assert (i / 5) / 5 == i / 25;
  }

  /** Digits in range recombine to an index with exactly those digits. */
  lemma GridDigitsUnique(a: nat, b: nat, c: nat)
    requires a < 5 && b < 5
    ensures var i := c * 25 + b * 5 + a; i % 5 == a && (i / 5) % 5 == b && i / 25 == c
  {
    var i := c * 25 + b * 5 + a;
    assert i == (c * 5 + b) * 5 + a;
    assert i / 5 == c * 5 + b;
    assert (i / 5) % 5 == b;
    assert i / 25 == (i / 5) / 5;
  }

  /** Every node index is recovered from its grid position. */
  lemma GridIndexInverts(i: nat)
    ensures GridIndex(GridPosition(i)) == Some(i)
  {
    var p := GridPosition(i);
    assert (p.x.v + 800) / 400 == i % 5;
    assert (800 - p.y.v) / 400 == (i / 5) % 5;
    assert (p.z.v + 2000) / 1000 == i / 25;
    GridDigits(i);
  }

  /** Conversely, a position that names an index is that index's grid position. */
  lemma GridIndexSound(p: Vec3, i: nat)
    requires GridIndex(p) == Some(i)
    ensures GridPosition(i) == p
  {
    var a := (p.x.v + 800) / 400;
    var b := (800 - p.y.v) / 400;
    var c := (p.z.v + 2000) / 1000;
    assert 0 <= a < 5 && 0 <= b < 5 && 0 <= c;
    GridDigitsUnique(a, b, c);
  }

  /** Distinct nodes get distinct grid positions, for any number of nodes: the
      layer coordinate grows without bound, so the lattice never wraps. */
  lemma GridInjective(i: nat, j: nat)
    requires i != j
    ensures GridPosition(i) != GridPosition(j)
  {
    GridIndexInverts(i);
    GridIndexInverts(j);
  }

  /** Consecutive nodes step +400 in x along a row; at the end of a row x
      returns to -800 and y drops by 400; at the end of a layer y returns to
      800 and z moves 1000 back. */
  lemma GridStep(i: nat)
    ensures (i + 1) % 5 != 0 ==>
      GridPosition(i + 1).x.v == GridPosition(i).x.v + 400
      && GridPosition(i + 1).y == GridPosition(i).y
      && GridPosition(i + 1).z == GridPosition(i).z
    ensures (i + 1) % 5 == 0 && (i + 1) % 25 != 0 ==>
      GridPosition(i).x.v == 800 && GridPosition(i + 1).x.v == -800
      && GridPosition(i + 1).y.v == GridPosition(i).y.v - 400
      && GridPosition(i + 1).z == GridPosition(i).z
    ensures (i + 1) % 25 == 0 ==>
      GridPosition(i).x.v == 800 && GridPosition(i + 1).x.v == -800
      && GridPosition(i).y.v == -800 && GridPosition(i + 1).y.v == 800
      && GridPosition(i + 1).z.v == GridPosition(i).z.v + 1000
  {
    GridDigits(i);
    GridDigits(i + 1);
    if (i + 1) % 5 != 0 {
      assert (i + 1) / 5 == i / 5;
      assert (i + 1) / 25 == i / 25;
    } else if (i + 1) % 25 != 0 {
      assert (i + 1) / 5 == i / 5 + 1;
      assert (i + 1) / 25 == i / 25;
    } else {
      assert (i + 1) / 5 == i / 5 + 1;
      assert (i + 1) / 25 == i / 25 + 1;
    }
  }

  /** The first two grid nodes: (-800, 800, -2000) and (-400, 800, -2000). */
  lemma GridFirstNodes()
    ensures GridPosition(0) == Vec3(Int(-800), Int(800), Int(-2000))
    ensures GridPosition(1) == Vec3(Int(-400), Int(800), Int(-2000))
  {
  }
}
