/** The piece catalogue and the piece objects of the game
    (java/uk/ac/soton/comp1206/game/GamePiece.java).

    Each of the 15 catalogue entries owns one 3x3 `int` array, shared by every
    piece created from it: the piece constructor stamps the entry's colour
    value into the occupied cells of that very array, and rotation gives the
    rotated piece a fresh array of its own. */
module Pieces {
  import opened Outcomes

  /** A two-dimensional block of cells, indexed `[x][y]`. */
  type Matrix = seq<seq<int>>

  const PieceCount: int := 15

  /** A valid argument of `createPiece`. */
  type PieceNumber = n: int | 0 <= n < 15

  predicate Is3x3(m: Matrix) {
    |m| == 3 && forall i :: 0 <= i < 3 ==> |m[i]| == 3
  }

  /** The contents of a two-dimensional array, indexed like the array. */
  function Cells(a: array2<int>): (m: Matrix)
    reads a
    ensures |m| == a.Length0
    ensures forall i :: 0 <= i < a.Length0 ==> |m[i]| == a.Length1
    ensures forall i, j :: 0 <= i < a.Length0 && 0 <= j < a.Length1 ==> m[i][j] == a[i, j]
  {
    seq(a.Length0, i reads a requires 0 <= i < a.Length0 =>
      seq(a.Length1, j reads a requires 0 <= j < a.Length1 => a[i, j]))
  }

  /** An entry of the `GamePieceType` enum: its 0/1 shape, name and value. */
  datatype PieceType = PieceType(shape: Matrix, name: string, value: int)

  /** The enum entries in their declared order. */
  const Catalogue: seq<PieceType> := [
    PieceType([[0, 0, 0], [1, 1, 1], [0, 0, 0]], "Line", 1),
    PieceType([[0, 0, 0], [1, 1, 1], [1, 0, 1]], "C", 2),
    PieceType([[0, 1, 0], [1, 1, 1], [0, 1, 0]], "Plus", 3),
    PieceType([[0, 0, 0], [0, 1, 0], [0, 0, 0]], "Dot", 4),
    PieceType([[1, 1, 0], [1, 1, 0], [0, 0, 0]], "Square", 5),
    PieceType([[0, 0, 0], [1, 1, 1], [0, 0, 1]], "L", 6),
    PieceType([[0, 0, 1], [1, 1, 1], [0, 0, 0]], "J", 7),
    PieceType([[0, 0, 0], [0, 1, 1], [1, 1, 0]], "S", 8),
    PieceType([[1, 1, 0], [0, 1, 1], [0, 0, 0]], "Z", 9),
    PieceType([[1, 0, 0], [1, 1, 0], [1, 0, 0]], "T", 10),
    PieceType([[1, 0, 1], [0, 1, 0], [1, 0, 1]], "X", 11),
    PieceType([[0, 0, 0], [1, 1, 0], [1, 0, 0]], "Corner", 12),
    PieceType([[1, 0, 0], [1, 1, 0], [0, 0, 0]], "Inverse Corner", 13),
    PieceType([[1, 0, 0], [0, 1, 0], [0, 0, 1]], "Diagonal", 14),
    PieceType([[0, 1, 0], [0, 1, 0], [0, 0, 0]], "Double", 15)
  ]

  /** There are `PieceCount` entries; entry `k` has value `k + 1`, a 3x3
      shape of zeros and ones, and at least one occupied cell. */
  lemma CatalogueShape()
    ensures |Catalogue| == PieceCount
    ensures forall k :: 0 <= k < PieceCount ==>
      Catalogue[k].value == k + 1 && Is3x3(Catalogue[k].shape)
    ensures forall k, i, j :: 0 <= k < PieceCount && 0 <= i < 3 && 0 <= j < 3 ==>
      Catalogue[k].shape[i][j] in {0, 1}
    ensures forall k :: 0 <= k < PieceCount ==> Occupied(Catalogue[k].shape) >= 1
  {
  }

  /** Entry `k` of the catalogue: value `k + 1` and a 3x3 shape. */
  lemma EntryValue(k: PieceNumber)
    ensures |Catalogue| == PieceCount && Catalogue[k].value == k + 1 && Is3x3(Catalogue[k].shape)
  {
    CatalogueShape();
  }

  /** What the constructor writes into one cell: empty stays empty, anything
      else becomes the piece's value. */
  function StampCell(c: int, value: int): int {
    if c == 0 then 0 else value
  }

  /** The shape with the piece's value stamped into every occupied cell. */
  function Stamp(shape: Matrix, value: int): (m: Matrix)
    ensures |m| == |shape|
    ensures forall i :: 0 <= i < |shape| ==> |m[i]| == |shape[i]|
  {
    seq(|shape|, i requires 0 <= i < |shape| =>
      seq(|shape[i]|, j requires 0 <= j < |shape[i]| => StampCell(shape[i][j], value)))
  }

  /** Every cell of `m` is empty or holds `value`. */
  predicate ValuedBy(m: Matrix, value: int) {
    forall i, j :: 0 <= i < |m| && 0 <= j < |m[i]| ==> m[i][j] == 0 || m[i][j] == value
  }

  /** After stamping, a cell is 0 or the value, and (for a non-zero value) it
      is non-zero exactly where the shape was. */
  lemma StampValues(shape: Matrix, value: int)
    ensures ValuedBy(Stamp(shape, value), value)
    ensures value != 0 ==> forall i, j :: 0 <= i < |shape| && 0 <= j < |shape[i]| ==>
      (Stamp(shape, value)[i][j] != 0 <==> shape[i][j] != 0)
  {
  }

  /** Stamping a block whose cells are already 0 or the value changes
      nothing; in particular stamping twice is stamping once. */
  lemma StampFixesValued(m: Matrix, value: int)
    requires ValuedBy(m, value)
    ensures Stamp(m, value) == m
  {
    var s := Stamp(m, value);
    forall i | 0 <= i < |m|
      ensures s[i] == m[i]
    {
      assert forall j :: 0 <= j < |m[i]| ==> s[i][j] == m[i][j];
    }
  }

  lemma StampIdempotent(m: Matrix, value: int)
    ensures Stamp(Stamp(m, value), value) == Stamp(m, value)
  {
    StampValues(m, value);
    StampFixesValued(Stamp(m, value), value);
  }

  /** The block makeup of a freshly created piece number `n`. */
  function PieceMatrix(n: PieceNumber): Matrix {
    Stamp(Catalogue[n].shape, n + 1)
  }

  /** One clockwise quarter turn of a 3x3 block, `new[a][b] = old[b][2-a]`. */
  function Rotated(m: Matrix): (r: Matrix)
    requires Is3x3(m)
    ensures Is3x3(r)
  {
    seq(3, a requires 0 <= a < 3 => seq(3, b requires 0 <= b < 3 => m[b][2 - a]))
  }

  /** `k` quarter turns; none when `k <= 0`. */
  function Rotations(m: Matrix, k: int): (r: Matrix)
    requires Is3x3(m)
    ensures Is3x3(r)
    decreases k
  {
    if k <= 0 then m else Rotated(Rotations(m, k - 1))
  }

  /** A 3x3 array's contents, written out. */
  lemma CellsOf3x3(a: array2<int>)
    requires a.Length0 == 3 && a.Length1 == 3
    ensures Cells(a) == [[a[0, 0], a[0, 1], a[0, 2]], [a[1, 0], a[1, 1], a[1, 2]], [a[2, 0], a[2, 1], a[2, 2]]]
  {
    var c := Cells(a);
    assert c[0] == [a[0, 0], a[0, 1], a[0, 2]];
    assert c[1] == [a[1, 0], a[1, 1], a[1, 2]];
    assert c[2] == [a[2, 0], a[2, 1], a[2, 2]];
  }

  /** A quarter turn, written out cell by cell. */
  lemma RotatedOf3x3(m: Matrix)
    requires Is3x3(m)
    ensures Rotated(m) == [[m[0][2], m[1][2], m[2][2]], [m[0][1], m[1][1], m[2][1]], [m[0][0], m[1][0], m[2][0]]]
  {
    var r := Rotated(m);
    assert r[0] == [m[0][2], m[1][2], m[2][2]];
    assert r[1] == [m[0][1], m[1][1], m[2][1]];
    assert r[2] == [m[0][0], m[1][0], m[2][0]];
  }

  /** An array filled as the quarter turn of another holds its rotation. */
  lemma RotatedCells(a: array2<int>, r: array2<int>)
    requires a.Length0 == 3 && a.Length1 == 3 && r.Length0 == 3 && r.Length1 == 3
    requires r[2, 0] == a[0, 0] && r[1, 0] == a[0, 1] && r[0, 0] == a[0, 2]
    requires r[2, 1] == a[1, 0] && r[1, 1] == a[1, 1] && r[0, 1] == a[1, 2]
    requires r[2, 2] == a[2, 0] && r[1, 2] == a[2, 1] && r[0, 2] == a[2, 2]
    ensures Cells(r) == Rotated(Cells(a))
  {
    CellsOf3x3(a);
    CellsOf3x3(r);
    RotatedOf3x3(Cells(a));
  }

  lemma RotatedValuedBy(m: Matrix, value: int)
    requires Is3x3(m) && ValuedBy(m, value)
    ensures ValuedBy(Rotated(m), value)
  {
  }

  /** Any number of quarter turns keeps a block made of one value. */
  lemma {:induction false} RotationsValuedBy(m: Matrix, value: int, k: int)
    requires Is3x3(m) && ValuedBy(m, value)
    ensures ValuedBy(Rotations(m, k), value)
    decreases k
  {
    if k > 0 {
      RotationsValuedBy(m, value, k - 1);
      RotatedValuedBy(Rotations(m, k - 1), value);
    }
  }

  /** Two quarter turns are a half turn: cell `(i, j)` comes from `(2 - i, 2 - j)`. */
  lemma HalfTurn(m: Matrix)
    requires Is3x3(m)
    ensures forall i, j :: 0 <= i < 3 && 0 <= j < 3 ==> Rotated(Rotated(m))[i][j] == m[2 - i][2 - j]
  {
  }

  /** Two 3x3 blocks that agree cell by cell are equal. */
  lemma SameCells(a: Matrix, b: Matrix)
    requires Is3x3(a) && Is3x3(b)
    requires forall i, j :: 0 <= i < 3 && 0 <= j < 3 ==> a[i][j] == b[i][j]
    ensures a == b
  {
    forall i | 0 <= i < 3
      ensures a[i] == b[i]
    {
      assert a[i][0] == b[i][0] && a[i][1] == b[i][1] && a[i][2] == b[i][2];
    }
  }

  /** Four quarter turns give back the original block, cell for cell. */
  lemma FourRotationsIdentity(m: Matrix)
    requires Is3x3(m)
    ensures Rotations(m, 4) == m
  {
    var h := Rotated(Rotated(m));
    HalfTurn(m);
    HalfTurn(h);
    assert Rotations(m, 2) == h;
    assert Rotations(m, 4) == Rotated(Rotated(h));
    SameCells(Rotated(Rotated(h)), m);
  }

  lemma {:induction false} RotationsAdd(m: Matrix, a: nat, b: nat)
    requires Is3x3(m)
    ensures Rotations(Rotations(m, a), b) == Rotations(m, a + b)
    decreases b
  {
    if b > 0 {
      RotationsAdd(m, a, b - 1);
    }
  }

  /** Rotation is a cyclic group of order 4: `k` turns are `k % 4` turns. */
  lemma {:induction false} RotationsModFour(m: Matrix, k: nat)
    requires Is3x3(m)
    ensures Rotations(m, k) == Rotations(m, k % 4)
    decreases k
  {
    if k >= 4 {
      RotationsModFour(m, k - 4);
      RotationsAdd(m, 4, k - 4);
      FourRotationsIdentity(m);
      assert Rotations(m, k) == Rotations(m, k - 4);
      assert (k - 4) % 4 == k % 4;
    }
  }

  function CountNonZero(row: seq<int>): nat {
    if row == [] then 0 else Indicator(row[0]) + CountNonZero(row[1..])
  }

  /** The number of occupied cells. */
  function Occupied(m: Matrix): nat {
    if m == [] then 0 else CountNonZero(m[0]) + Occupied(m[1..])
  }

  function Indicator(c: int): nat { if c != 0 then 1 else 0 }

  lemma CountNonZeroOf3(row: seq<int>)
    requires |row| == 3
    ensures CountNonZero(row) == Indicator(row[0]) + Indicator(row[1]) + Indicator(row[2])
  {
    var tail := row[1..];
    assert tail[0] == row[1] && tail[1..] == [row[2]];
    assert CountNonZero([row[2]]) == Indicator(row[2]);
    assert CountNonZero(tail) == Indicator(row[1]) + CountNonZero([row[2]]);
  }

  lemma OccupiedOf3x3(m: Matrix)
    requires Is3x3(m)
    ensures Occupied(m) ==
      Indicator(m[0][0]) + Indicator(m[0][1]) + Indicator(m[0][2]) +
      Indicator(m[1][0]) + Indicator(m[1][1]) + Indicator(m[1][2]) +
      Indicator(m[2][0]) + Indicator(m[2][1]) + Indicator(m[2][2])
  {
    CountNonZeroOf3(m[0]);
    CountNonZeroOf3(m[1]);
    CountNonZeroOf3(m[2]);
    var tail := m[1..];
    assert tail[0] == m[1] && tail[1..] == [m[2]];
    assert Occupied([m[2]]) == CountNonZero(m[2]);
    assert Occupied(tail) == CountNonZero(m[1]) + Occupied([m[2]]);
  }

  /** A quarter turn keeps the number of occupied cells. */
  lemma RotatedOccupied(m: Matrix)
    requires Is3x3(m)
    ensures Occupied(Rotated(m)) == Occupied(m)
  {
    OccupiedOf3x3(m);
    OccupiedOf3x3(Rotated(m));
  }

  /** A piece: its block makeup (replaced on rotation), value and name. */
  class GamePiece {
    var blocks: array2<int>
    const value: int
    const name: string

    ghost predicate Valid()
      reads this, blocks
    {
      && blocks.Length0 == 3 && blocks.Length1 == 3
      && 1 <= value <= PieceCount
      && ValuedBy(Cells(blocks), value)
    }

    /** The current block makeup. */
    function Shape(): Matrix
      reads this, blocks
    {
      Cells(blocks)
    }

    /** The private constructor: keeps the given array as its own and stamps
        `value` into every non-zero cell of it, in place. */
    constructor (name: string, blocks: array2<int>, value: int)
      modifies blocks
      ensures this.name == name && this.blocks == blocks && this.value == value
      ensures Shape() == Stamp(old(Cells(blocks)), value)
    {
      this.name := name;
      this.blocks := blocks;
      this.value := value;
      new;
      ghost var original := Cells(blocks);
      var x := 0;
      while x < blocks.Length0
        invariant 0 <= x <= blocks.Length0
        invariant this.blocks == blocks
        invariant forall i, j :: 0 <= i < blocks.Length0 && 0 <= j < blocks.Length1 ==>
          blocks[i, j] == if i < x then StampCell(original[i][j], value) else original[i][j]
      {
        var y := 0;
        while y < blocks.Length1
          invariant 0 <= y <= blocks.Length1
          invariant this.blocks == blocks
          invariant forall i, j :: 0 <= i < blocks.Length0 && 0 <= j < blocks.Length1 ==>
            blocks[i, j] == if i < x || (i == x && j < y) then StampCell(original[i][j], value) else original[i][j]
        {
          if blocks[x, y] != 0 {
            blocks[x, y] := value;
          }
          y := y + 1;
        }
        x := x + 1;
      }
      assert Cells(blocks) == Stamp(original, value) by {
        var s := Stamp(original, value);
        forall i | 0 <= i < blocks.Length0
          ensures Cells(blocks)[i] == s[i]
        {
        }
      }
    }

    /** `getValueAtCoordinate(x, y)`: for a valid piece, empty or the value. */
    function GetValueAtCoordinate(x: int, y: int): (v: int)
      reads this, blocks
      requires 0 <= x < blocks.Length0 && 0 <= y < blocks.Length1
      ensures Valid() ==> v == 0 || v == value
    {
      blocks[x, y]
    }

    /** One quarter turn: a fresh array is filled cell by cell and replaces
        the old one, which is left as it was. */
    method Rotate()
      requires blocks.Length0 == 3 && blocks.Length1 == 3
      modifies this`blocks
      ensures fresh(blocks) && blocks.Length0 == 3 && blocks.Length1 == 3
      ensures Shape() == Rotated(old(Shape()))
      ensures Occupied(Shape()) == Occupied(old(Shape()))
      ensures old(Valid()) ==> Valid()
    {
      ghost var before := Shape();
      ghost var valid := Valid();
      var rotated := new int[blocks.Length0, blocks.Length1];
      FillQuarterTurn(blocks, rotated);
      blocks := rotated;
      RotatedOccupied(before);
      if valid {
        RotatedValuedBy(before, value);
      }
    }

    /** `rotate(rotations)`: that many quarter turns, none when `rotations <= 0`. */
    method RotateTimes(rotations: int)
      requires Valid()
      modifies this`blocks
      ensures Valid()
      ensures Shape() == Rotations(old(Shape()), rotations)
      ensures blocks == old(blocks) || fresh(blocks)
    {
      ghost var start := Shape();
      var turns := if rotations <= 0 then 0 else rotations;
      for rotated := 0 to turns
        invariant blocks.Length0 == 3 && blocks.Length1 == 3
        invariant Shape() == Rotations(start, rotated)
        invariant blocks == old(blocks) || fresh(blocks)
      {
        ghost var before := Shape();
        Rotate();
        assert Shape() == Rotated(before) == Rotations(start, rotated + 1);
      }
      assert Rotations(start, rotations) == Rotations(start, turns);
      RotationsValuedBy(start, value, rotations);
    }
  }

  /** The nine assignments of `rotate()`: cell `(x, y)` of `a` goes to cell
      `(2 - y, x)` of `r`. */
  method FillQuarterTurn(a: array2<int>, r: array2<int>)
    requires a.Length0 == 3 && a.Length1 == 3 && r.Length0 == 3 && r.Length1 == 3
    requires a != r
    modifies r
    ensures Cells(r) == Rotated(Cells(a))
  {
    r[2, 0] := a[0, 0];
    r[1, 0] := a[0, 1];
    r[0, 0] := a[0, 2];

    r[2, 1] := a[1, 0];
    r[1, 1] := a[1, 1];
    r[0, 1] := a[1, 2];

    r[2, 2] := a[2, 0];
    r[1, 2] := a[2, 1];
    r[0, 2] := a[2, 2];

    RotatedCells(a, r);
  }

  /** A fresh 3x3 array holding `shape`. */
  method NewShapeArray(shape: Matrix) returns (a: array2<int>)
    requires Is3x3(shape)
    ensures fresh(a) && a.Length0 == 3 && a.Length1 == 3 && Cells(a) == shape
  {
    a := new int[3, 3]((i, j) requires 0 <= i < 3 && 0 <= j < 3 => shape[i][j]);
    forall i | 0 <= i < 3
      ensures Cells(a)[i] == shape[i]
    {
    }
  }

  /** The `GamePieceType` enum constants: one shared array per entry. Each
      array has its entry's occupancy pattern; until the first piece of the
      entry is created it holds ones, afterwards the entry's value. */
  class PieceTable {
    const shapes: seq<array2<int>>

    /** One 3x3 array per entry, no two entries sharing one. */
    ghost predicate Valid() {
      && |shapes| == PieceCount
      && (forall k, l :: 0 <= k < l < |shapes| ==> shapes[k] != shapes[l])
      && forall k :: 0 <= k < |shapes| ==> shapes[k].Length0 == 3 && shapes[k].Length1 == 3
    }

    /** Every array still gives its entry's piece when stamped with the
        entry's value: it holds the declared shape, or that shape with the
        value already stamped in. */
    ghost predicate Intact()
      reads shapes
    {
      Valid() && forall k :: 0 <= k < |shapes| ==> Stamp(Cells(shapes[k]), k + 1) == PieceMatrix(k)
    }

    /** The enum's static initialisation: one array per entry, holding the
        declared shape. */
    constructor ()
      ensures Valid() && Intact()
      ensures forall k :: 0 <= k < |shapes| ==> fresh(shapes[k]) && Cells(shapes[k]) == Catalogue[k].shape
    {
      var arrays: seq<array2<int>> := [];
      for k := 0 to PieceCount
        invariant |arrays| == k
        invariant forall m :: 0 <= m < k ==> fresh(arrays[m])
        invariant forall m, l :: 0 <= m < l < k ==> arrays[m] != arrays[l]
        invariant forall m :: 0 <= m < k ==>
          arrays[m].Length0 == 3 && arrays[m].Length1 == 3 && Cells(arrays[m]) == Catalogue[m].shape
      {
        EntryValue(k);
        var a := NewShapeArray(Catalogue[k].shape);
        arrays := arrays + [a];
      }
      shapes := arrays;
    }
  }

  /** `createPiece(piece)`: the piece of the given number, whose value is
      `piece + 1`, built on the entry's shared array, into which the
      constructor stamps the value; an unknown number throws
      IndexOutOfBoundsException. Only that entry's array changes, and an
      intact table stays intact, so whatever earlier creations and rotations
      did, the new piece's block makeup is always `PieceMatrix(piece)`. */
  method CreatePiece(table: PieceTable, piece: int) returns (r: Result<GamePiece>)
    requires table.Valid()
    modifies if 0 <= piece < |table.shapes| then {table.shapes[piece]} else {}
    ensures r.Err? <==> !(0 <= piece < PieceCount)
    ensures r.Err? ==> r.exception == IndexOutOfBounds
    ensures r.Ok? ==> && fresh(r.value) && r.value.Valid()
                      && r.value.blocks == table.shapes[piece]
                      && r.value.value == piece + 1
                      && r.value.name == Catalogue[piece].name
                      && r.value.Shape() == Stamp(old(Cells(table.shapes[piece])), piece + 1)
    ensures old(table.Intact()) ==> table.Intact() && (r.Ok? ==> r.value.Shape() == PieceMatrix(piece))
  {
    if piece < 0 || piece >= PieceCount {
      return Err(IndexOutOfBounds);
    }
    EntryValue(piece);
    ghost var wasIntact := table.Intact();
    ghost var all := seq(|table.shapes|, k requires 0 <= k < |table.shapes| reads table.shapes => Cells(table.shapes[k]));
    ghost var before := Cells(table.shapes[piece]);
    var entry := Catalogue[piece];
    var p := new GamePiece(entry.name, table.shapes[piece], entry.value);
    StampValues(before, piece + 1);
    if wasIntact {
      StampKeepsIntact(table, piece, all);
    }
    r := Ok(p);
  }

  /** Stamping an entry's array again leaves an intact table intact: the
      other arrays are untouched and stamping a stamped block changes
      nothing. */
  lemma StampKeepsIntact(table: PieceTable, piece: PieceNumber, before: seq<Matrix>)
    requires table.Valid() && |before| == PieceCount
    requires forall k :: 0 <= k < PieceCount ==> Stamp(before[k], k + 1) == PieceMatrix(k)
    requires Cells(table.shapes[piece]) == Stamp(before[piece], piece + 1)
    requires forall k :: 0 <= k < PieceCount && k != piece ==> Cells(table.shapes[k]) == before[k]
    ensures table.Intact()
    ensures Cells(table.shapes[piece]) == PieceMatrix(piece)
  {
    StampIdempotent(before[piece], piece + 1);
  }

  /** `createPiece(piece, rotation)`: the new piece turned `rotation` times. */
  method CreateRotatedPiece(table: PieceTable, piece: int, rotation: int) returns (r: Result<GamePiece>)
    requires table.Valid()
    modifies if 0 <= piece < |table.shapes| then {table.shapes[piece]} else {}
    ensures r.Err? <==> !(0 <= piece < PieceCount)
    ensures r.Ok? ==> && fresh(r.value) && r.value.Valid()
                      && r.value.value == piece + 1
                      && r.value.Shape() == Rotations(Stamp(old(Cells(table.shapes[piece])), piece + 1), rotation)
    ensures old(table.Intact()) ==> table.Intact() && (r.Ok? ==> r.value.Shape() == Rotations(PieceMatrix(piece), rotation))
  {
    r := CreatePiece(table, piece);
    if r.Ok? {
      r.value.RotateTimes(rotation);
    }
  }

  /** Two pieces of the same number share the entry's array, yet creating
      the second leaves the first piece's block makeup as it was. */
  method CreateTwice(table: PieceTable, n: PieceNumber) returns (first: GamePiece, second: GamePiece)
    requires table.Intact()
    modifies table.shapes
    ensures table.Intact()
    ensures first != second && first.blocks == second.blocks
    ensures first.Shape() == second.Shape() == PieceMatrix(n)
  {
    var r := CreatePiece(table, n);
    first := r.value;
    r := CreatePiece(table, n);
    second := r.value;
  }
}
