/** A car of the puzzle: a rigid piece lying along one axis of the grid. */
module Cars {

  /** The two axes a car can lie along (CAR_HORIZONTAL and CAR_VERTICAL in the source). */
  datatype Orientation = Horizontal | Vertical

  /**
   * A car: its one-character symbol, the grid cell (x, y) of its top or left end,
   * its axis and its length in cells.
   */
  datatype Car = Car(id: char, x: int, y: int, orientation: Orientation, size: nat)
  {
    /** The main car is the one whose symbol is 'X'. */
    predicate IsMain() { id == 'X' }

    /** Extent along x: the length when horizontal, one cell otherwise. */
    function Width(): int { if orientation == Horizontal then size else 1 }

    /** Extent along y: the length when vertical, one cell otherwise. */
    function Height(): int { if orientation == Vertical then size else 1 }

    /** The coordinate of the car along its own axis (`start` in the move generator). */
    function Start(): int { if orientation == Horizontal then x else y }

    /** The axis coordinate of the car's far end (`end` in the move generator). */
    function End(): int { Start() + size - 1 }

    /** The k-th cell of the car, counted from its top or left end. */
    function Cell(k: int): (int, int) {
      if orientation == Horizontal then (x + k, y) else (x, y + k)
    }

    /** The cells the car covers: Cell(0) up to Cell(size - 1). */
    ghost function Footprint(): set<(int, int)> {
      set k | 0 <= k < size :: Cell(k)
    }

    /** Does the car cover cell (px, py)? */
    predicate Intersects(px: int, py: int) {
      if orientation == Horizontal then
        if y != py then false else x <= px && px <= x + size - 1
      else
        if x != px then false else y <= py && py <= y + size - 1
    }
  }

  /** The footprint test is exactly membership in the footprint. */
  lemma IntersectsIsFootprint(c: Car, px: int, py: int)
    ensures c.Intersects(px, py) <==> (px, py) in c.Footprint()
  {
    if c.Intersects(px, py) {
      var k := if c.orientation == Horizontal then px - c.x else py - c.y;
      assert c.Cell(k) == (px, py);
    }
  }

  /** Width and height are the sides of the footprint's bounding box, anchored at (x, y). */
  lemma IntersectsIsBox(c: Car, px: int, py: int)
    ensures c.Intersects(px, py) <==> c.x <= px < c.x + c.Width() && c.y <= py < c.y + c.Height()
  {
  }

  /** The k-th cell of a car is covered by it exactly when 0 <= k < size. */
  lemma CellCovered(c: Car, k: int)
    ensures c.Intersects(c.Cell(k).0, c.Cell(k).1) <==> 0 <= k < c.size
  {
  }
}
