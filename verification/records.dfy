/** The flat `table` array of dist/main.js and its decoding into nodes: the
    array is read in strides of five cells, `symbol, name, mass, column, row`,
    and each stride becomes one node labelled with its 1-based position. */
module Records {
  import opened JsValues

  /** One node of the display, as the loop of `init` reads it. */
  datatype Element = Element(number: int, symbol: Value, name: Value, mass: Value, column: Value, row: Value)

  /** `table[k]`: indices past the end read `undefined`. */
  function Read(table: seq<Value>, k: nat): Value {
    if k < |table| then table[k] else Undefined
  }

  /** How many times the loop `for (i = 0; i < n; i += 5)` runs: the
      smallest multiple of the stride that reaches `n`, divided by it. */
  function StrideCount(n: nat): (k: nat)
    ensures n <= 5 * k < n + 5
  {
    (n + 4) / 5
  }

  /** The node that the iteration starting at cell `i = 5 * k` builds,
      labelled `i / 5 + 1` as the page labels it. */
  function ElementAt(table: seq<Value>, k: nat): (e: Element)
    ensures e.number == k + 1
  {
    var i := 5 * k;
    Element(i / 5 + 1, Read(table, i), Read(table, i + 1), Read(table, i + 2), Read(table, i + 3), Read(table, i + 4))
  }

  /** Node `k` is numbered `k + 1` and its cells are the table's window of
      five cells at offset `5 * k`, with `undefined` wherever the window
      runs past the end of the table. */
  lemma ElementAtWindow(table: seq<Value>, k: nat)
    ensures ElementAt(table, k).number == k + 1
    ensures 5 * k + 5 <= |table| ==> Cells(ElementAt(table, k)) == table[5 * k .. 5 * k + 5]
    ensures forall f :: 0 <= f < 5 && |table| <= 5 * k + f ==> Cells(ElementAt(table, k))[f] == Undefined
  {
  }

  /** Every node decoded from the table, in table order. */
  function Elements(table: seq<Value>): (es: seq<Element>)
    ensures |es| == StrideCount(|table|)
  {
    seq(StrideCount(|table|), k requires 0 <= k < StrideCount(|table|) => ElementAt(table, k))
  }

  /** Nodes built one per stride, as many as the loop runs, are the decoded
      nodes. */
  lemma DecodedPrefix(table: seq<Value>, es: seq<Element>)
    requires |table| <= 5 * |es| && |es| <= StrideCount(|table|)
    requires forall k :: 0 <= k < |es| ==> es[k] == ElementAt(table, k)
    ensures es == Elements(table)
  {
  }

  /** The five cells a node is read from, in table order. */
  function Cells(e: Element): seq<Value> {
    [e.symbol, e.name, e.mass, e.column, e.row]
  }

  /** Writes nodes back as a flat table, five cells each: the inverse of
      decoding. */
  function Flatten(es: seq<Element>): (table: seq<Value>)
    ensures |table| == 5 * |es|
  {
    if |es| == 0 then [] else Cells(es[0]) + Flatten(es[1..])
  }

  /** Cells JavaScript reads past the end of a table whose length is not a
      multiple of the stride. */
  function Padding(n: nat): (p: seq<Value>)
    ensures |p| == n && forall k :: 0 <= k < n ==> p[k] == Undefined
  {
    seq(n, _ => Undefined)
  }

  /** Numbers are the 1-based positions of the nodes. */
  predicate Numbered(es: seq<Element>) {
    forall k :: 0 <= k < |es| ==> es[k].number == k + 1
  }

  lemma {:induction false} FlattenAt(es: seq<Element>, k: nat, f: nat)
    requires k < |es| && f < 5
    ensures Flatten(es)[5 * k + f] == Cells(es[k])[f]
  {
    if k > 0 {
      FlattenAt(es[1..], k - 1, f);
      assert Flatten(es) == Cells(es[0]) + Flatten(es[1..]);
      assert 5 * k + f == 5 + (5 * (k - 1) + f);
    }
  }

  /** Decoding the flattening of numbered nodes gives back those nodes. */
  lemma DecodeFlatten(es: seq<Element>)
    requires Numbered(es)
    ensures Elements(Flatten(es)) == es
  {
    var t := Flatten(es);
    var ds := Elements(t);
    assert StrideCount(|t|) == |es|;
    forall k | 0 <= k < |es|
      ensures ds[k] == es[k]
    {
      FlattenAt(es, k, 0);
      FlattenAt(es, k, 1);
      FlattenAt(es, k, 2);
      FlattenAt(es, k, 3);
      FlattenAt(es, k, 4);
    }
  }

  /** Flattening the decoded nodes gives back the table, extended with
      `undefined` cells up to the next multiple of the stride. */
  lemma FlattenDecode(table: seq<Value>)
    ensures Flatten(Elements(table)) == table + Padding(5 * StrideCount(|table|) - |table|)
  {
    var es := Elements(table);
    var lhs := Flatten(es);
    var rhs := table + Padding(5 * StrideCount(|table|) - |table|);
    assert |lhs| == |rhs|;
    forall j | 0 <= j < |lhs|
      ensures lhs[j] == rhs[j]
    {
      var k, f := j / 5, j % 5;
      assert j == 5 * k + f;
      FlattenAt(es, k, f);
      assert lhs[j] == Cells(ElementAt(table, k))[f];
      assert Cells(ElementAt(table, k))[f] == Read(table, j);
    }
  }

  /** A table made of whole strides round-trips exactly. */
  lemma FlattenDecodeWhole(table: seq<Value>)
    requires |table| % 5 == 0
    ensures Flatten(Elements(table)) == table
  {
    FlattenDecode(table);
    assert Padding(0) == [];
  }

  /** The nodes of the table shipped with the page, `I` to `X`, each written
      as its five cells `symbol, name, mass, column, row` behind its number. */
  const ShippedElements: seq<Element> := [
    Element(1, Str("I"), Str("One"), Str("1.00794"), Num(1), Num(1)),
    Element(2, Str("II"), Str("Two"), Str("4.002602"), Num(18), Num(1)),
    Element(3, Str("III"), Str("Three"), Str("6.941"), Num(1), Num(2)),
    Element(4, Str("IV"), Str("Four"), Str("9.012182"), Num(2), Num(2)),
    Element(5, Str("V"), Str("Five"), Str("10.811"), Num(13), Num(2)),
    Element(6, Str("VI"), Str("Six"), Str("12.0107"), Num(14), Num(2)),
    Element(7, Str("VII"), Str("Seven"), Str("14.0067"), Num(15), Num(2)),
    Element(8, Str("VIII"), Str("Eight"), Str("15.9994"), Num(16), Num(2)),
    Element(9, Str("IX"), Str("Nine"), Str("18.9984032"), Num(17), Num(2)),
    Element(10, Str("X"), Str("Ten"), Str("20.1797"), Num(18), Num(2))
  ]

  /** The shipped flat table of fifty cells, obtained by flattening the ten
      nodes above: their cells, stride after stride, in the order the page's
      array literal lists them. */
  const ShippedTable: seq<Value> := Flatten(ShippedElements)

  /** The shipped table has fifty cells and decodes to exactly the ten listed
      nodes, numbered 1 to 10. */
  lemma ShippedTableDecodes()
    ensures |ShippedTable| == 50
    ensures Elements(ShippedTable) == ShippedElements
    ensures Numbered(Elements(ShippedTable))
  {
    assert Numbered(ShippedElements) by {
      forall k | 0 <= k < |ShippedElements|
        ensures ShippedElements[k].number == k + 1
      {
        assert k in {0, 1, 2, 3, 4, 5, 6, 7, 8, 9};
      }
    }
    DecodeFlatten(ShippedElements);
  }
}
