/** The start-up sequence `init` of dist/main.js, restricted to the core: one
    pass over the flat table builds the nodes and their table-layout targets,
    a second pass builds the grid targets, and the page then transitions to
    the table layout over a base duration of 1000 ms. */
module Startup {
  import opened JsValues
  import opened Geometry
  import opened Records
  import opened Layouts
  import opened Transition

  /** The base duration, in milliseconds, every button passes to `transform`. */
  const BaseDuration: real := 1000.0

  /** The nodes and the two integer target lists, index-aligned with them. */
  datatype Scene = Scene(elements: seq<Element>, table: seq<Object3D>, grid: seq<Object3D>)

  /** Every target list has one entry per node, in node order. */
  predicate Aligned(s: Scene) {
    && |s.table| == |s.elements|
    && |s.grid| == |s.elements|
    && (forall k :: 0 <= k < |s.elements| ==> s.table[k] == TableTarget(s.elements[k]))
    && (forall k :: 0 <= k < |s.grid| ==> s.grid[k] == GridTarget(k))
  }

  /** The node loop of `init`: one node and its table-layout target per
      stride of five cells. */
  method DecodeTable(table: seq<Value>) returns (elements: seq<Element>, targets: seq<Object3D>)
    ensures elements == Elements(table)
    ensures targets == TableLayout(elements)
  {
    elements := [];
    targets := [];
    var i := 0;
    while i < |table|
      invariant i == 5 * |elements| && |elements| <= StrideCount(|table|)
      invariant forall k :: 0 <= k < |elements| ==> elements[k] == ElementAt(table, k)
      invariant |targets| == |elements|
      invariant forall k :: 0 <= k < |targets| ==> targets[k] == TableTarget(elements[k])
    {
      // The iteration at cell `i` builds node `i / 5`, the next one.
      var e := ElementAt(table, |elements|);
      elements, targets := elements + [e], targets + [TableTarget(e)];
      i := i + 5;
    }
    DecodedPrefix(table, elements);
    LaidOutPrefix(elements, targets);
  }

  /** The grid loop of `init`: one grid target per node, in node order. */
  method BuildGrid(n: nat) returns (grid: seq<Object3D>)
    ensures grid == GridLayout(n)
  {
    grid := [];
    var j := 0;
    while j < n
      invariant j <= n && |grid| == j
      invariant forall k :: 0 <= k < j ==> grid[k] == GridTarget(k)
    {
      grid := grid + [GridTarget(j)];
      j := j + 1;
    }
  }

  /** `init` restricted to the core: decode the table with its table-layout
      targets, build the grid targets, then transition to the table layout. */
  method Init(table: seq<Value>, draws: seq<real>) returns (scene: Scene, outcome: Outcome)
    requires 2 * StrideCount(|table|) <= |draws|
    ensures scene.elements == Elements(table)
    ensures Aligned(scene)
    ensures scene.table == TableLayout(scene.elements) && scene.grid == GridLayout(|scene.elements|)
    ensures outcome == Transform([], |scene.elements|, scene.table, BaseDuration, draws)
    ensures !outcome.threw && |outcome.registry| == 2 * |scene.elements| + 1
  {
    var elements, tableTargets := DecodeTable(table);
    var grid := BuildGrid(|elements|);
    scene := Scene(elements, tableTargets, grid);
    outcome := Transform([], |elements|, tableTargets, BaseDuration, draws);
  }

  /** Pressing any of the table, grid or reset buttons on an initialised page
      never throws: each schedules two tweens per node and the closing
      2000 ms timer. */
  lemma LayoutButtonsNeverThrow(s: Scene, pending: seq<Task>, draws: seq<real>)
    requires Aligned(s) && 2 * |s.elements| <= |draws|
    ensures var o := Transform(pending, |s.elements|, s.table, BaseDuration, draws);
      !o.threw && |o.registry| == 2 * |s.elements| + 1 && o.registry[2 * |s.elements|] == Timer(2000.0, true)
    ensures var o := Transform(pending, |s.elements|, s.grid, BaseDuration, draws);
      !o.threw && |o.registry| == 2 * |s.elements| + 1 && o.registry[2 * |s.elements|] == Timer(2000.0, true)
  {
  }

  /** On the shipped table, start-up schedules 21 tasks: a position and a
      rotation tween for each of the ten nodes, aimed at its table target,
      and the closing timer. */
  lemma ShippedStartUp(draws: seq<real>)
    requires 20 <= |draws|
    ensures Elements(ShippedTable) == ShippedElements
    ensures var o := Transform([], 10, TableLayout(ShippedElements), BaseDuration, draws);
      && !o.threw && |o.registry| == 21
      && o.registry[0] == Tween(0, Position, Vec3(Int(-1190), Int(810), Int(0)), Jittered(draws[0], BaseDuration), QuadraticInOut)
      && o.registry[2] == Tween(1, Position, Vec3(Int(1190), Int(810), Int(0)), Jittered(draws[2], BaseDuration), QuadraticInOut)
      && o.registry[20] == Timer(2000.0, true)
  {
    ShippedTableDecodes();
    ShippedTableLayout();
    var ts := TableLayout(ShippedElements);
    CompletedTaskAt([], 10, ts, BaseDuration, draws, 0);
    CompletedTaskAt([], 10, ts, BaseDuration, draws, 2);
  }
}
