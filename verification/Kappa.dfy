/** Cohen's kappa between two lists of pass/fail labels, in exact rationals and before rounding. */
module Kappa {
  datatype Agreement = Refused | Undefined | Kappa(value: real)

  function Count(labels: seq<bool>): nat {
    if labels == [] then 0 else (if labels[0] then 1 else 0) + Count(labels[1..])
  }

  function Matches(left: seq<bool>, right: seq<bool>): nat
    requires |left| == |right|
  {
    if left == [] then 0 else (if left[0] == right[0] then 1 else 0) + Matches(left[1..], right[1..])
  }

  function Observed(left: seq<bool>, right: seq<bool>): real
    requires |left| == |right| > 0
  {
    Matches(left, right) as real / |left| as real
  }

  function Expected(left: seq<bool>, right: seq<bool>): real
    requires |left| == |right| > 0
  {
    var p, q := Count(left) as real / |left| as real, Count(right) as real / |right| as real;
    p * q + (1.0 - p) * (1.0 - q)
  }

  function CohenKappa(left: seq<bool>, right: seq<bool>): Agreement {
    if |left| != |right| || left == [] then Refused
    else
      var (observed, expected) := (Observed(left, right), Expected(left, right));
      if expected == 1.0 then Undefined
      else Kappa((observed - expected) / (1.0 - expected))
  }

  // ------------------------------------------------------------------ the four cells

  /** How often the left label is `x` where the right one is `y`. */
  function Cell(left: seq<bool>, right: seq<bool>, x: bool, y: bool): nat
    requires |left| == |right|
  {
    if left == [] then 0
    else (if left[0] == x && right[0] == y then 1 else 0) + Cell(left[1..], right[1..], x, y)
  }

  lemma {:induction false} CellsOf(left: seq<bool>, right: seq<bool>)
    requires |left| == |right|
    ensures Cell(left, right, true, true) + Cell(left, right, true, false) == Count(left)
    ensures Cell(left, right, true, true) + Cell(left, right, false, true) == Count(right)
    ensures Cell(left, right, true, true) + Cell(left, right, false, false) == Matches(left, right)
    ensures Matches(left, right) + Cell(left, right, true, false) + Cell(left, right, false, true) == |left|
  {
    if left != [] {
      CellsOf(left[1..], right[1..]);
    }
  }

  lemma {:induction false} EmptyCell(left: seq<bool>, right: seq<bool>, x: bool, y: bool)
    requires |left| == |right|
    ensures Cell(left, right, x, y) == 0 <==> forall i | 0 <= i < |left| :: left[i] != x || right[i] != y
  {
    if left != [] {
      EmptyCell(left[1..], right[1..], x, y);
      assert forall i | 1 <= i < |left| :: left[i] == left[1..][i - 1] && right[i] == right[1..][i - 1];
      assert forall i | 0 <= i < |left| - 1 :: left[1..][i] == left[i + 1] && right[1..][i] == right[i + 1];
    }
  }

  lemma {:induction false} CellSymmetric(left: seq<bool>, right: seq<bool>, x: bool, y: bool)
    requires |left| == |right|
    ensures Cell(left, right, x, y) == Cell(right, left, y, x)
  {
    if left != [] {
      CellSymmetric(left[1..], right[1..], x, y);
    }
  }

  // ------------------------------------------------------------------ kappa by the cells

  /** Products of the four cells: how far agreement is above chance, and how far it could be. */
  function Above(a: nat, b: nat, c: nat, d: nat): int {
    2 * (a * d - b * c)
  }

  function Room(a: nat, b: nat, c: nat, d: nat): nat {
    (a + b) * (b + d) + (a + c) * (c + d)
  }

  lemma RoomIdentities(a: nat, b: nat, c: nat, d: nat)
    ensures (a + b + c + d) * (a + d) - (a + b) * (a + c) - (c + d) * (b + d) == Above(a, b, c, d)
    ensures (a + b + c + d) * (a + b + c + d) - (a + b) * (a + c) - (c + d) * (b + d) == Room(a, b, c, d)
    ensures Room(a, b, c, d) - Above(a, b, c, d) == (b + c) * (a + b + c + d)
    ensures Room(a, b, c, d) + Above(a, b, c, d) == (b + c) * (a + d) + (b - c) * (b - c) + 4 * (a * d)
  {
  }

  lemma Zero(x: nat, y: nat)
    ensures x * y == 0 <==> x == 0 || y == 0
  {
  }

  lemma NoRoom(a: nat, b: nat, c: nat, d: nat)
    requires a + b + c + d > 0
    ensures Room(a, b, c, d) == 0 <==> b == 0 && c == 0 && (a == 0 || d == 0)
  {
    Zero(a + b, b + d);
    Zero(a + c, c + d);
  }

  /** The same products over the reals. */
  lemma AboveReal(a: nat, b: nat, c: nat, d: nat, x: real, l: real, r: real, n: real)
    requires x == (a + d) as real && l == (a + b) as real && r == (a + c) as real && n == (a + b + c + d) as real
    ensures x * n - (l * r + (n - l) * (n - r)) == Above(a, b, c, d) as real
    ensures n * n - (l * r + (n - l) * (n - r)) == Room(a, b, c, d) as real
  {
    hide Above, Room;
    RoomIdentities(a, b, c, d);
    ToReal(a + d, a + b + c + d);
    ToReal(a + b, a + c);
    ToReal(c + d, b + d);
    ToReal(a + b + c + d, a + b + c + d);
    assert n - l == (c + d) as real && n - r == (b + d) as real;
  }

  lemma ToReal(x: int, y: int)
    ensures x as real * y as real == (x * y) as real
  {
  }

  lemma ExpectedScaled(n: real, p: real, q: real, left: real, right: real)
    requires p * n == left && q * n == right
    ensures (p * q + (1.0 - p) * (1.0 - q)) * (n * n) == left * right + (n - left) * (n - right)
  {
    Fourfold(p, q, n);
    Fourfold(1.0 - p, 1.0 - q, n);
    assert (1.0 - p) * n == n - left && (1.0 - q) * n == n - right;
  }

  lemma Fourfold(x: real, y: real, n: real)
    ensures x * y * (n * n) == (x * n) * (y * n)
  {
  }

  lemma Scaled(o: real, e: real, n: real, x: real, w: real)
    requires o * n == x && e * (n * n) == w
    ensures (o - e) * (n * n) == x * n - w && (1.0 - e) * (n * n) == n * n - w
  {
    assert o * (n * n) == (o * n) * n;
  }

  /** Observed and expected agreement, scaled by the square of the length. */
  lemma ByCells(left: seq<bool>, right: seq<bool>, a: nat, b: nat, c: nat, d: nat)
    requires |left| == |right| > 0
    requires a == Cell(left, right, true, true) && b == Cell(left, right, true, false)
    requires c == Cell(left, right, false, true) && d == Cell(left, right, false, false)
    ensures a + b + c + d == |left|
    ensures var n := |left| as real;
            (Observed(left, right) - Expected(left, right)) * (n * n) == Above(a, b, c, d) as real
            && (1.0 - Expected(left, right)) * (n * n) == Room(a, b, c, d) as real
  {
    hide Above, Room, Cell, Count, Matches;
    CellsOf(left, right);
    var n, x, l, r := |left| as real, Matches(left, right) as real, Count(left) as real, Count(right) as real;
    FromShares(Observed(left, right), Expected(left, right), n, x, l, r);
    AboveReal(a, b, c, d, x, l, r, n);
  }

  lemma FromShares(o: real, e: real, n: real, x: real, l: real, r: real)
    requires n > 0.0 && o == x / n && e == (l / n) * (r / n) + (1.0 - l / n) * (1.0 - r / n)
    ensures (o - e) * (n * n) == x * n - (l * r + (n - l) * (n - r))
    ensures (1.0 - e) * (n * n) == n * n - (l * r + (n - l) * (n - r))
  {
    ExpectedScaled(n, l / n, r / n, l, r);
    Scaled(o, e, n, x, l * r + (n - l) * (n - r));
  }

  lemma QuotientScaled(x: real, y: real, s: real, x': real, y': real)
    requires s > 0.0 && x * s == x' && y * s == y' && y != 0.0
    ensures y' != 0.0 && x / y == x' / y'
  {
    var q := x / y;
    assert q * y == x;
    assert q * y' == q * y * s == x';
  }

  lemma QuotientRange(x: real, y: real)
    requires y > 0.0 && -y <= x <= y
    ensures -1.0 <= x / y <= 1.0
    ensures x / y == 1.0 <==> x == y
    ensures x / y == -1.0 <==> x == -y
    ensures x / y == 0.0 <==> x == 0.0
  {
    var q := x / y;
    assert q * y == x;
    assert q > 1.0 ==> q * y > y;
    assert q < -1.0 ==> q * y < -y;
  }

  /** The whole score by its cells. */
  lemma KappaByCells(left: seq<bool>, right: seq<bool>, a: nat, b: nat, c: nat, d: nat)
    requires |left| == |right| > 0
    requires a == Cell(left, right, true, true) && b == Cell(left, right, true, false)
    requires c == Cell(left, right, false, true) && d == Cell(left, right, false, false)
    ensures a + b + c + d == |left|
    ensures CohenKappa(left, right) ==
            if Room(a, b, c, d) == 0 then Undefined
            else Kappa(Above(a, b, c, d) as real / Room(a, b, c, d) as real)
  {
    hide Above, Room, Cell, Observed, Expected;
    ByCells(left, right, a, b, c, d);
    var (o, e, n) := (Observed(left, right), Expected(left, right), |left| as real);
    assert n * n > 0.0;
    if e != 1.0 {
      QuotientScaled(o - e, 1.0 - e, n * n, Above(a, b, c, d) as real, Room(a, b, c, d) as real);
    }
  }

  /** Kappa is undefined exactly when the two lists are the same constant. */
  lemma UndefinedWhenConstant(left: seq<bool>, right: seq<bool>)
    requires |left| == |right| > 0
    ensures CohenKappa(left, right).Undefined? <==> left == right && forall i | 0 <= i < |left| :: left[i] == left[0]
  {
    hide CohenKappa, Cell, Room;
    var a, b := Cell(left, right, true, true), Cell(left, right, true, false);
    var c, d := Cell(left, right, false, true), Cell(left, right, false, false);
    KappaByCells(left, right, a, b, c, d);
    NoRoom(a, b, c, d);
    EmptyCell(left, right, true, true);
    EmptyCell(left, right, true, false);
    EmptyCell(left, right, false, true);
    EmptyCell(left, right, false, false);
    OffDiagonal(left, right);
  }

  lemma OffDiagonal(left: seq<bool>, right: seq<bool>)
    requires |left| == |right|
    ensures Cell(left, right, true, false) == 0 && Cell(left, right, false, true) == 0 <==> left == right
  {
    hide Cell;
    EmptyCell(left, right, true, false);
    EmptyCell(left, right, false, true);
  }

  lemma Diagonal(left: seq<bool>, right: seq<bool>)
    requires |left| == |right|
    ensures Cell(left, right, true, true) == 0 && Cell(left, right, false, false) == 0
            <==> forall i | 0 <= i < |left| :: left[i] != right[i]
  {
    hide Cell;
    EmptyCell(left, right, true, true);
    EmptyCell(left, right, false, false);
  }

  /** The two ends of the range, over the cells. */
  lemma CellRange(a: nat, b: nat, c: nat, d: nat)
    requires Room(a, b, c, d) > 0
    ensures 0 - Room(a, b, c, d) <= Above(a, b, c, d) <= Room(a, b, c, d)
    ensures Above(a, b, c, d) == Room(a, b, c, d) <==> b == 0 && c == 0
    ensures Above(a, b, c, d) == 0 - Room(a, b, c, d) <==> a == 0 && d == 0 && b == c
  {
    NoRoom(a, b, c, d);
    hide Above, Room;
    RoomIdentities(a, b, c, d);
    Zero(b + c, a + b + c + d);
    Zero(b + c, a + d);
    Zero(a, d);
    Square(b - c);
  }

  lemma Square(x: int)
    ensures x * x >= 0 && (x * x == 0 <==> x == 0)
  {
  }

  /** Otherwise it lies between -1 and 1: 1 exactly for equal lists, -1 exactly for opposites with as many of each label. */
  lemma KappaRange(left: seq<bool>, right: seq<bool>)
    requires CohenKappa(left, right).Kappa?
    ensures -1.0 <= CohenKappa(left, right).value <= 1.0
    ensures CohenKappa(left, right).value == 1.0 <==> left == right
    ensures CohenKappa(left, right).value == -1.0
            <==> (forall i | 0 <= i < |left| :: left[i] != right[i]) && 2 * Count(left) == |left|
  {
    var a, b := Cell(left, right, true, true), Cell(left, right, true, false);
    var c, d := Cell(left, right, false, true), Cell(left, right, false, false);
    KappaByCells(left, right, a, b, c, d);
    hide CohenKappa, Cell, Room, Above, Count;
    CellsOf(left, right);
    CellRange(a, b, c, d);
    QuotientRange(Above(a, b, c, d) as real, Room(a, b, c, d) as real);
    OffDiagonal(left, right);
    Diagonal(left, right);
  }

  lemma KappaSymmetric(left: seq<bool>, right: seq<bool>)
    ensures CohenKappa(left, right) == CohenKappa(right, left)
  {
    if |left| == |right| > 0 {
      var a, b := Cell(left, right, true, true), Cell(left, right, true, false);
      var c, d := Cell(left, right, false, true), Cell(left, right, false, false);
      hide CohenKappa, Cell;
      CellSymmetric(left, right, true, true);
      CellSymmetric(left, right, true, false);
      CellSymmetric(left, right, false, true);
      CellSymmetric(left, right, false, false);
      KappaByCells(left, right, a, b, c, d);
      KappaByCells(right, left, a, c, b, d);
      assert Room(a, b, c, d) == Room(a, c, b, d) && Above(a, b, c, d) == Above(a, c, b, d);
    }
  }
}
