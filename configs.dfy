/**
 * Configurations: the ordered list of cars a board holds, seen as a value.
 * Everything the board class computes is specified here: the state key, the main car,
 * the solved test, the rendering, and the invariants a legal configuration keeps.
 */
module Configs {
  import opened Options
  import opened Cars

  /** One entry of a state key: the symbol and position of one car (`id + x + "." + y`). */
  datatype KeyEntry = KeyEntry(id: char, x: int, y: int)

  /** The visited-state key of a configuration, one entry per car in board order. */
  type Key = seq<KeyEntry>

  function KeyOf(cars: seq<Car>): Key {
    seq(|cars|, i requires 0 <= i < |cars| => KeyEntry(cars[i].id, cars[i].x, cars[i].y))
  }

  /** What a move never changes about a car: its symbol, axis and length. */
  datatype ShapeEntry = ShapeEntry(id: char, orientation: Orientation, size: nat)

  function Shape(cars: seq<Car>): seq<ShapeEntry> {
    seq(|cars|, i requires 0 <= i < |cars| => ShapeEntry(cars[i].id, cars[i].orientation, cars[i].size))
  }

  /** Two configurations with the same shapes and the same key are the same configuration. */
  lemma KeyDeterminesConfig(a: seq<Car>, b: seq<Car>)
    requires Shape(a) == Shape(b) && KeyOf(a) == KeyOf(b)
    ensures a == b
  {
    assert |a| == |Shape(a)| == |Shape(b)| == |b|;
    forall i | 0 <= i < |a|
      ensures a[i] == b[i]
    {
      assert Shape(a)[i] == Shape(b)[i];
      assert KeyOf(a)[i] == KeyOf(b)[i];
    }
  }

  /** The car's cells that exist all lie in the width x height grid. */
  predicate InGrid(c: Car, w: int, h: int) {
    c.size == 0 || (0 <= c.x && 0 <= c.y && c.x + c.Width() <= w && c.y + c.Height() <= h)
  }

  /** A car properly placed: at least one cell, all of them in the grid. */
  predicate OnBoard(c: Car, w: int, h: int) {
    c.size >= 1 && InGrid(c, w, h)
  }

  predicate AllInGrid(cars: seq<Car>, w: int, h: int) {
    forall i :: 0 <= i < |cars| ==> InGrid(cars[i], w, h)
  }

  predicate AllOnBoard(cars: seq<Car>, w: int, h: int) {
    forall i :: 0 <= i < |cars| ==> OnBoard(cars[i], w, h)
  }

  /** No cell is covered by two cars. */
  ghost predicate NoOverlap(cars: seq<Car>) {
    forall i, j, px, py :: 0 <= i < j < |cars| && cars[i].Intersects(px, py) ==> !cars[j].Intersects(px, py)
  }

  predicate UniqueIds(cars: seq<Car>) {
    forall i, j :: 0 <= i < j < |cars| ==> cars[i].id != cars[j].id
  }

  /** Is cell (px, py) covered by some car? (`getCarAt(px, py) !== null`) */
  predicate Occupied(cars: seq<Car>, px: int, py: int) {
    exists i {:trigger cars[i].Intersects(px, py)} :: 0 <= i < |cars| && cars[i].Intersects(px, py)
  }

  /** The index of the last main car: `addCar` points `mainCar` at every main car it appends. */
  function LastMain(cars: seq<Car>): (r: Option<nat>)
    ensures r.Some? ==> r.value < |cars| && cars[r.value].IsMain()
  {
    if |cars| == 0 then None
    else if cars[|cars| - 1].IsMain() then Some(|cars| - 1)
    else LastMain(cars[..|cars| - 1])
  }

  /** LastMain finds the last main car: none comes after it, and None means there is none. */
  lemma {:induction false} LastMainIsLast(cars: seq<Car>)
    ensures LastMain(cars).Some? ==> forall j :: LastMain(cars).value < j < |cars| ==> !cars[j].IsMain()
    ensures LastMain(cars).None? ==> forall j :: 0 <= j < |cars| ==> !cars[j].IsMain()
  {
    if |cars| > 0 && !cars[|cars| - 1].IsMain() {
      LastMainIsLast(cars[..|cars| - 1]);
      assert forall j :: 0 <= j < |cars| - 1 ==> cars[..|cars| - 1][j] == cars[j];
    }
  }

  /** The main car depends on the symbols only. */
  lemma {:induction false} LastMainSameIds(a: seq<Car>, b: seq<Car>)
    requires |a| == |b| && forall i :: 0 <= i < |a| ==> a[i].id == b[i].id
    ensures LastMain(a) == LastMain(b)
  {
    if |a| > 0 {
      LastMainSameIds(a[..|a| - 1], b[..|b| - 1]);
    }
  }

  /** The index of the first car with symbol id (`getCarById`), or None. */
  function FirstWithId(cars: seq<Car>, id: char): (r: Option<nat>)
    ensures r.Some? ==> r.value < |cars| && cars[r.value].id == id
                        && forall j :: 0 <= j < r.value ==> cars[j].id != id
    ensures r.None? ==> forall j :: 0 <= j < |cars| ==> cars[j].id != id
  {
    if |cars| == 0 then None
    else if cars[0].id == id then Some(0)
    else match FirstWithId(cars[1..], id)
      case None => None
      case Some(j) => Some(j + 1)
  }

  /** The first index holding symbol id is the one FirstWithId finds. */
  lemma FirstWithIdAt(cars: seq<Car>, id: char, i: nat)
    requires i < |cars| && cars[i].id == id && forall k :: 0 <= k < i ==> cars[k].id != id
    ensures FirstWithId(cars, id) == Some(i)
  {
    var r := FirstWithId(cars, id);
    assert r.Some? && cars[r.value].id == id;
    assert !(r.value < i);
  }

  /**
   * The effective solved test (the later `isSolved` accessor): the main car's x equals
   * the board width minus the main car's width.
   */
  predicate Solved(w: int, cars: seq<Car>) {
    match LastMain(cars)
    case None => false
    case Some(m) => cars[m].x == w - cars[m].Width()
  }

  /** On a board whose cars are in the grid, a horizontal main car is solved iff it covers the rightmost cell of its row. */
  lemma SolvedMeansAtExit(w: int, h: int, cars: seq<Car>)
    requires AllOnBoard(cars, w, h) && LastMain(cars).Some?
    requires cars[LastMain(cars).value].orientation == Horizontal
    ensures Solved(w, cars) <==> cars[LastMain(cars).value].Intersects(w - 1, cars[LastMain(cars).value].y)
  {
    assert OnBoard(cars[LastMain(cars).value], w, h);
  }
}
