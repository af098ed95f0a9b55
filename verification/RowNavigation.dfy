/** Moving the selection between the rows of the slot grid. */
module RowNavigation {
  import opened Bytes

  /** app_slot_rowcol: C's division and remainder, which round towards zero. */
  function Row(slot: int): int { if slot < 0 then -(-slot / 10) else slot / 10 }
  function Col(slot: int): int { slot - 10 * Row(slot) }

  /** Rows and columns as C divides: a column is one digit, with the slot's sign. */
  lemma RowColIs(slot: int)
    ensures slot == 10 * Row(slot) + Col(slot) && -10 < Col(slot) < 10
    ensures (slot >= 0 ==> Col(slot) >= 0) && (slot <= 0 ==> Col(slot) <= 0)
  {}

  function Distance(a: int, b: int): nat { if a > b then a - b else b - a }

  predicate Occupied(slots: seq<int>, row: int) { exists i :: 0 <= i < |slots| && Row(slots[i]) == row }

  predicate IsDirection(dir: int) { dir == 1 || dir == -1 }

  /** `b` lies after `a` going `dir`. */
  predicate Beyond(a: int, b: int, dir: int) { if dir == 1 then a < b else b < a }

  /** `to` is the row a step from `from` lands on: the next occupied one, or the first one from
      the far side when no occupied row is left in that direction. */
  ghost predicate Lands(slots: seq<int>, from: int, dir: int, to: int) {
    && Occupied(slots, to)
    && (if exists row :: Occupied(slots, row) && Beyond(from, row, dir)
        then
          && Beyond(from, to, dir)
          && forall row :: Occupied(slots, row) && Beyond(from, row, dir) ==> !Beyond(row, to, dir)
        else forall row :: Occupied(slots, row) ==> !Beyond(row, to, dir))
  }

  /** `i` is the first of the slots in `row` that lie nearest to column `col`. */
  predicate Nearest(slots: seq<int>, row: int, col: int, i: nat) {
    && i < |slots| && Row(slots[i]) == row
    && (forall j :: 0 <= j < |slots| && Row(slots[j]) == row ==>
        Distance(Col(slots[i]), col) <= Distance(Col(slots[j]), col))
    && (forall j :: 0 <= j < i && Row(slots[j]) == row ==> Distance(Col(slots[i]), col) < Distance(Col(slots[j]), col))
  }

  /** No slot of the row is nearer, and none before it as near. */
  lemma NearestFirst(slots: seq<int>, row: int, col: int, i: nat, j: nat)
    requires Nearest(slots, row, col, i) && j < |slots| && Row(slots[j]) == row
    ensures var a, b := Col(slots[i]) - col, Col(slots[j]) - col;
      && (if b >= 0 then -b <= a <= b else b <= a <= -b)
      && (b == a || b == -a ==> i <= j)
  {}

  /** What one press of Up or Down does to the selected index. */
  ghost predicate Moves(slots: seq<int>, selected: nat, dir: int, next: nat) {
    && selected < |slots| && next < |slots|
    && Lands(slots, Row(slots[selected]), dir, Row(slots[next]))
    && Nearest(slots, Row(slots[next]), Col(slots[selected]), next)
  }

  lemma MovesOnce(slots: seq<int>, selected: nat, dir: int, a: nat, b: nat)
    requires IsDirection(dir) && Moves(slots, selected, dir, a) && Moves(slots, selected, dir, b)
    ensures a == b
  {}

  lemma Wraps(x: int, n: nat)
    requires -1 <= x <= n && n > 0
    ensures (x + n) % n == if x == -1 then n - 1 else if x == n then 0 else x
  {}

  class Grid {
    /** The slot of each product. */
    var slots: seq<int>
    var selected: nat

    ghost predicate Valid()
      reads this
    {
      (forall i :: 0 <= i < |slots| ==> IsInt32(slots[i])) && (slots != [] ==> selected < |slots|)
    }

    constructor Empty()
      ensures Valid() && slots == [] && selected == 0
    {
      slots, selected := [], 0;
    }

    /** app_refresh, when a new list has arrived: the selection stays on a product. */
    method Refresh(products: seq<int>)
      requires forall i :: 0 <= i < |products| ==> IsInt32(products[i])
      modifies this
      ensures Valid() && slots == products
      ensures old(selected) < |products| ==> selected == old(selected)
      ensures old(selected) >= |products| ==> selected == if products == [] then 0 else |products| - 1
    {
      slots := products;
      if selected >= |slots| {
        selected := if |slots| > 0 then |slots| - 1 else 0;
      }
    }

    /** find_in_row */
    method FindInRow(targetRow: int, desiredCol: int) returns (best: int)
      requires Valid() && -10 < desiredCol < 10
      ensures best == -1 || best >= 0
      ensures best == -1 ==> !Occupied(slots, targetRow)
      ensures best >= 0 ==> Nearest(slots, targetRow, desiredCol, best)
    {
      var bestDist := INT_MAX;
      best := -1;
      for i := 0 to |slots|
        invariant -1 <= best < i
        invariant best == -1 ==> bestDist == INT_MAX && forall j :: 0 <= j < i ==> Row(slots[j]) != targetRow
        invariant best >= 0 ==> Row(slots[best]) == targetRow && bestDist == Distance(Col(slots[best]), desiredCol)
        invariant best >= 0 ==> forall j :: 0 <= j < i && Row(slots[j]) == targetRow ==>
          if j < best then bestDist < Distance(Col(slots[j]), desiredCol)
          else bestDist <= Distance(Col(slots[j]), desiredCol)
      {
        var r, c := Row(slots[i]), Col(slots[i]);
        if r == targetRow {
          var d := if c > desiredCol then c - desiredCol else desiredCol - c;
          if d < bestDist {
            bestDist := d;
            best := i;
          }
        }
      }
    }

    /** The bounds that move_vertical computes. */
    method RowBounds() returns (minr: int, maxr: int)
      requires Valid() && slots != []
      ensures Occupied(slots, minr) && Occupied(slots, maxr)
      ensures forall i :: 0 <= i < |slots| ==> minr <= Row(slots[i]) <= maxr
    {
      minr, maxr := INT_MAX, INT_MIN;
      for i := 0 to |slots|
        invariant forall j :: 0 <= j < i ==> minr <= Row(slots[j]) <= maxr
        invariant i == 0 ==> minr == INT_MAX && maxr == INT_MIN
        invariant i > 0 ==> Occupied(slots, minr) && Occupied(slots, maxr)
      {
        if Row(slots[i]) < minr {
          minr := Row(slots[i]);
        }
        if Row(slots[i]) > maxr {
          maxr := Row(slots[i]);
        }
      }
    }

    /** Either loop of move_vertical: the first occupied row from `start` on. */
    method Scan(start: int, dir: int, minr: int, maxr: int, col: int) returns (idx: int)
      requires Valid() && IsDirection(dir) && -10 < col < 10
      requires forall i :: 0 <= i < |slots| ==> minr <= Row(slots[i]) <= maxr
      requires if dir == 1 then minr <= start else start <= maxr
      ensures idx == -1 || 0 <= idx < |slots|
      ensures idx == -1 ==> forall row :: Occupied(slots, row) ==> Beyond(row, start, dir)
      ensures idx >= 0 ==>
        var row := Row(slots[idx]);
        && Nearest(slots, row, col, idx)
        && !Beyond(row, start, dir)
        && forall other :: Occupied(slots, other) && Beyond(other, row, dir) ==> Beyond(other, start, dir)
    {
      var target := start;
      idx := -1;
      while minr <= target <= maxr
        invariant idx == -1
        invariant !Beyond(target, start, dir)
        invariant forall row :: Occupied(slots, row) && Beyond(row, target, dir) ==> Beyond(row, start, dir)
        decreases if dir == 1 then maxr - target else target - minr
      {
        idx := FindInRow(target, col);
        if idx >= 0 {
          break;
        }
        target := target + dir;
      }
    }

    /** move_vertical */
    method MoveVertical(dir: int)
      requires Valid() && IsDirection(dir)
      modifies `selected
      ensures Valid()
      ensures if slots == [] then selected == old(selected) else Moves(slots, old(selected), dir, selected)
    {
      if slots == [] {
        return;
      }
      var r, c := Row(slots[selected]), Col(slots[selected]);
      assert Occupied(slots, r);
      var minr, maxr := RowBounds();
      var idx := Scan(r + dir, dir, minr, maxr, c);
      if idx < 0 {
        idx := Scan(if dir > 0 then minr else maxr, dir, minr, maxr, c);
      }
      if idx >= 0 {
        assert Occupied(slots, Row(slots[idx]));
        selected := idx;
      }
    }

    /** move_horizontal */
    method MoveHorizontal(dir: int)
      requires Valid() && IsDirection(dir)
      modifies `selected
      ensures Valid()
      ensures slots == [] ==> selected == old(selected)
      ensures slots != [] && dir == 1 ==> selected == if old(selected) + 1 == |slots| then 0 else old(selected) + 1
      ensures slots != [] && dir == -1 ==> selected == if old(selected) == 0 then |slots| - 1 else old(selected) - 1
    {
      if slots == [] {
        return;
      }
      Wraps(selected + dir, |slots|);
      selected := (selected + dir + |slots|) % |slots|;
    }
  }

  // ----- once around -----

  predicate Ascending(rows: seq<int>) { forall i, j :: 0 <= i < j < |rows| ==> rows[i] < rows[j] }

  function Insert(rows: seq<int>, row: int): (r: seq<int>)
    requires Ascending(rows)
    ensures Ascending(r) && forall x :: x in r <==> x in rows || x == row
  {
    if rows == [] || row < rows[0] then [row] + rows
    else if row == rows[0] then rows
    else
      var rest := Insert(rows[1..], row);
      assert forall x :: x in rows[1..] ==> rows[0] < x;
      assert forall i :: 0 <= i < |rest| ==> rest[i] in rest;
      [rows[0]] + rest
  }

  /** The distinct occupied rows, from the top. */
  function Rows(slots: seq<int>): (r: seq<int>)
    ensures Ascending(r)
    ensures forall row :: row in r <==> Occupied(slots, row)
  {
    if slots == [] then []
    else
      OccupiedLast(slots);
      Insert(Rows(slots[..|slots| - 1]), Row(slots[|slots| - 1]))
  }

  lemma OccupiedLast(slots: seq<int>)
    requires slots != []
    ensures forall row ::
              Occupied(slots, row) <==> Occupied(slots[..|slots| - 1], row) || row == Row(slots[|slots| - 1])
  {}

  /** `k` places on from `i`, going `dir` round a circle of `n`. */
  function Turn(i: nat, dir: int, k: nat, n: nat): int
    requires IsDirection(dir) && i < n && k <= n
  {
    var j := if dir == 1 then i + k else i - k;
    if j >= n then j - n else if j < 0 then j + n else j
  }

  lemma LandsNext(slots: seq<int>, i: nat, dir: int, to: int)
    requires IsDirection(dir) && i < |Rows(slots)| && Lands(slots, Rows(slots)[i], dir, to)
    ensures to == Rows(slots)[Turn(i, dir, 1, |Rows(slots)|)]
  {
    hide Row, Occupied, Rows;
    var rows := Rows(slots);
    var n := |rows|;
    assert to in rows;
    var k :| 0 <= k < n && rows[k] == to;
    var j := Turn(i, dir, 1, n);
    assert Occupied(slots, rows[j]) && Occupied(slots, rows[0]) && Occupied(slots, rows[n - 1]);
  }

  /** Successive presses of one of the two keys. */
  ghost predicate Pressed(slots: seq<int>, dir: int, path: seq<nat>) {
    forall k {:trigger path[k]} :: 0 <= k < |path| ==>
        path[k] < |slots| && (k > 0 ==> Moves(slots, path[k - 1], dir, path[k]))
  }

  lemma {:induction false} PressedRows(slots: seq<int>, dir: int, path: seq<nat>, i: nat, k: nat)
    requires IsDirection(dir) && Pressed(slots, dir, path) && k < |path| && k <= |Rows(slots)|
    requires i < |Rows(slots)| && Row(slots[path[0]]) == Rows(slots)[i]
    ensures Row(slots[path[k]]) == Rows(slots)[Turn(i, dir, k, |Rows(slots)|)]
  {
    hide Row, Occupied, Rows, Lands, Nearest;
    if k > 0 {
      assert Moves(slots, path[k - 1], dir, path[k]);
      PressedRows(slots, dir, path, i, k - 1);
      LandsNext(slots, Turn(i, dir, k - 1, |Rows(slots)|), dir, Row(slots[path[k]]));
    }
  }

  /** Every place on the circle is some number of places on. */
  function Turns(i: nat, dir: int, j: nat, n: nat): (k: nat)
    requires IsDirection(dir) && i < n && j < n
    ensures k < n && Turn(i, dir, k, n) == j
  {
    if dir == 1 then (if j >= i then j - i else j - i + n) else (if j <= i then i - j else i - j + n)
  }

  lemma StartRow(slots: seq<int>, path: seq<nat>, dir: int) returns (i: nat)
    requires Pressed(slots, dir, path) && path != []
    ensures i < |Rows(slots)| && Rows(slots)[i] == Row(slots[path[0]])
  {
    assert Occupied(slots, Row(slots[path[0]]));
    i :| 0 <= i < |Rows(slots)| && Rows(slots)[i] == Row(slots[path[0]]);
  }

  /** Pressing Up or Down once per occupied row ends in the row it began in, and visits every
      one of them ... */
  lemma OnceAround(slots: seq<int>, dir: int, path: seq<nat>, row: int)
    requires IsDirection(dir) && Pressed(slots, dir, path) && |path| == |Rows(slots)| + 1
    ensures Row(slots[path[|path| - 1]]) == Row(slots[path[0]])
    ensures Occupied(slots, row) ==> exists k :: 0 <= k < |path| - 1 && Row(slots[path[k]]) == row
  {
    hide Row, Moves, Rows;
    var rows := Rows(slots);
    var n := |rows|;
    var i := StartRow(slots, path, dir);
    PressedRows(slots, dir, path, i, n);
    if Occupied(slots, row) {
      var j :| 0 <= j < n && rows[j] == row;
      PressedRows(slots, dir, path, i, Turns(i, dir, j, n));
    }
  }

  /** ... and no row twice. */
  lemma NeverTwice(slots: seq<int>, dir: int, path: seq<nat>, j: nat, k: nat)
    requires IsDirection(dir) && Pressed(slots, dir, path) && j < k < |path| && k < |Rows(slots)|
    ensures Row(slots[path[j]]) != Row(slots[path[k]])
  {
    hide Row, Moves, Occupied, Rows;
    var i := StartRow(slots, path, dir);
    PressedRows(slots, dir, path, i, j);
    PressedRows(slots, dir, path, i, k);
    assert Turn(i, dir, j, |Rows(slots)|) != Turn(i, dir, k, |Rows(slots)|);
  }
}
