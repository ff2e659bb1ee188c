/** The order fields are declared in does not reach the hash: only their names order them. */
module FieldOrder {
  import opened Ints
  import opened Types
  import opened Texts
  import opened Represented
  import opened Hashing

  /** A field and what it holds. */
  datatype Cell = Cell(field: Field, v: Val)

  function Cells(fields: seq<Field>, vs: seq<Val>, order: seq<nat>): (cells: seq<Cell>)
    requires |fields| == |vs| && Below(order, |fields|)
    ensures |cells| == |order|
    ensures forall k | 0 <= k < |order| :: cells[k] == Cell(fields[order[k]], vs[order[k]])
  {
    seq(|order|, k requires 0 <= k < |order| => Cell(fields[order[k]], vs[order[k]]))
  }

  function FoldedCells(t: seq<Layout>, cells: seq<Cell>, h: i64): i64
    decreases |cells|
  {
    if cells == [] then h
    else FoldedCells(t, cells[1..], Folded(t, cells[0].field.ty, FoldBytes(h, cells[0].field.name), cells[0].v))
  }

  lemma {:induction false} FoldOfCells(t: seq<Layout>, fields: seq<Field>, vs: seq<Val>, order: seq<nat>, h: i64)
    requires |fields| == |vs| && Below(order, |fields|)
    ensures FoldedFields(t, fields, order, h, vs) == FoldedCells(t, Cells(fields, vs, order), h)
    decreases |order|
  {
    hide Folded, FoldBytes;
    if order != [] {
      var one := fields[order[0]];
      FoldOfCells(t, fields, vs, order[1..], Folded(t, one.ty, FoldBytes(h, one.name), vs[order[0]]));
      assert Cells(fields, vs, order)[1..] == Cells(fields, vs, order[1..]);
    }
  }

  /** Names that differ, in their order. */
  ghost predicate Rising(cells: seq<Cell>) {
    forall i, j | 0 <= i < j < |cells| :: Order(cells[i].field.name, cells[j].field.name) < 0
  }

  /** There is one way to put the same things in order. */
  lemma {:induction false} OneOrder(a: seq<Cell>, b: seq<Cell>)
    requires Rising(a) && Rising(b) && (forall c :: c in a <==> c in b)
    ensures a == b
    decreases |a|
  {
    if a == [] {
      NoneMeansEmpty(b);
    } else {
      assert a[0] in b && b != [];
      assert b[0] in a;
      FirstIsFirst(a, b);
      forall c ensures c in a[1..] <==> c in b[1..] {
        LaterDiffer(a, c);
        LaterDiffer(b, c);
      }
      OneOrder(a[1..], b[1..]);
      assert a == [a[0]] + a[1..] && b == [b[0]] + b[1..];
    }
  }

  lemma NoneMeansEmpty(cells: seq<Cell>)
    ensures cells == [] || exists c :: c in cells
  {
    assert cells == [] || cells[0] in cells;
  }

  lemma FirstIsFirst(a: seq<Cell>, b: seq<Cell>)
    requires Rising(a) && Rising(b) && a != [] && b != [] && a[0] in b && b[0] in a
    ensures a[0] == b[0]
  {
    var i :| 0 <= i < |b| && b[i] == a[0];
    var j :| 0 <= j < |a| && a[j] == b[0];
    OrderTotal(a[0].field.name, b[0].field.name, []);
  }

  lemma LaterDiffer(cells: seq<Cell>, c: Cell)
    requires Rising(cells) && cells != []
    ensures c in cells[1..] <==> c in cells && c != cells[0]
  {
    OrderTotal(c.field.name, c.field.name, []);
    if c in cells[1..] {
      var k :| 0 <= k < |cells| - 1 && cells[1..][k] == c;
      assert cells[k + 1] == c;
    }
  }

  ghost predicate RisingBy(fields: seq<Field>, order: seq<nat>)
    requires Below(order, |fields|)
  {
    forall i, j | 0 <= i < j < |order| :: Order(fields[order[i]].name, fields[order[j]].name) < 0
  }

  /** The sort holds every position once, and sorts. */
  lemma {:induction false} Sorts(fields: seq<Field>, n: nat)
    requires n <= |fields| && Distinct(fields)
    ensures RisingBy(fields, InNameOrder(fields, n))
    ensures forall p: nat :: p in InNameOrder(fields, n) <==> p < n
    decreases n
  {
    if n > 0 {
      Sorts(fields, n - 1);
      PlacedSorts(fields, InNameOrder(fields, n - 1), n - 1);
    }
  }

  lemma {:induction false} PlacedSorts(fields: seq<Field>, order: seq<nat>, p: nat)
    requires p < |fields| && Below(order, p) && Distinct(fields) && RisingBy(fields, order)
    ensures RisingBy(fields, Placed(fields, order, p))
    ensures forall q: nat :: q in Placed(fields, order, p) <==> q == p || q in order
    decreases |order|
  {
    hide Order;
    if order != [] {
      var name, first := fields[p].name, fields[order[0]].name;
      OrderTotal(name, first, []);
      if Order(name, first) < 0 {
        forall j | 0 <= j < |order| ensures Order(name, fields[order[j]].name) < 0 {
          Before(name, first, fields[order[j]].name);
        }
      } else {
        PlacedSorts(fields, order[1..], p);
        var rest := Placed(fields, order[1..], p);
        forall j | 0 <= j < |rest| ensures Order(first, fields[rest[j]].name) < 0 {
          assert rest[j] in rest;
          if rest[j] != p {
            var k :| 0 <= k < |order| - 1 && order[1..][k] == rest[j];
            assert order[k + 1] == rest[j];
          }
        }
      }
    }
  }

  lemma Before(a: Text, b: Text, c: Text)
    requires Order(a, b) < 0 && (b == c || Order(b, c) < 0)
    ensures Order(a, c) < 0
  {
    OrderTotal(a, b, c);
    OrderTotal(a, c, b);
    OrderTotal(b, c, a);
    OrderTotal(b, a, c);
  }

  /** The same fields holding the same things, declared in any order, hash alike. */
  lemma DeclaredInAnyOrder(
    t: seq<Layout>, one: seq<Field>, vs: seq<Val>, other: seq<Field>, ws: seq<Val>, h: i64)
    requires |one| == |vs| && |other| == |ws| && Distinct(one) && Distinct(other)
    requires forall i | 0 <= i < |one| :: exists j :: 0 <= j < |other| && other[j] == one[i] && ws[j] == vs[i]
    requires forall j | 0 <= j < |other| :: exists i :: 0 <= i < |one| && one[i] == other[j] && vs[i] == ws[j]
    ensures FoldedFields(t, one, InNameOrder(one, |one|), h, vs) == FoldedFields(t, other, InNameOrder(other, |other|), h, ws)
  {
    hide FoldedFields, InNameOrder;
    var a, b := InNameOrder(one, |one|), InNameOrder(other, |other|);
    Sorts(one, |one|);
    Sorts(other, |other|);
    var x, y := Cells(one, vs, a), Cells(other, ws, b);
    forall c ensures c in x <==> c in y {
      CellsHold(one, vs, a, c);
      CellsHold(other, ws, b, c);
    }
    OneOrder(x, y);
    FoldOfCells(t, one, vs, a, h);
    FoldOfCells(t, other, ws, b, h);
  }

  lemma CellsHold(fields: seq<Field>, vs: seq<Val>, order: seq<nat>, c: Cell)
    requires |fields| == |vs| && Below(order, |fields|) && (forall p: nat :: p in order <==> p < |fields|)
    ensures c in Cells(fields, vs, order) <==> exists i :: 0 <= i < |fields| && fields[i] == c.field && vs[i] == c.v
  {
    var cells := Cells(fields, vs, order);
    if i :| 0 <= i < |fields| && fields[i] == c.field && vs[i] == c.v {
      var p: nat := i;
      assert p in order;
      var k :| 0 <= k < |order| && order[k] == p;
      assert cells[k] == c;
    }
    if c in cells {
      var k :| 0 <= k < |cells| && cells[k] == c;
      assert fields[order[k]] == c.field && vs[order[k]] == c.v;
    }
  }
}
