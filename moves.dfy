/**
 * The move generator (`findPossibleMoves`) as a function of the configuration,
 * and what it guarantees: which positions it produces, in which order, and that
 * every move slides one car along its axis into free cells.
 */
module Moves {
  import opened Options
  import opened Cars
  import opened Configs

  /** The cell at axis coordinate k in car c's row (horizontal car) or column (vertical car). */
  function AxisCell(c: Car, k: int): (int, int) {
    if c.orientation == Horizontal then (k, c.y) else (c.x, k)
  }

  /** The length of the car's axis: the board width or height (`boardEnd`). */
  function Limit(c: Car, w: int, h: int): int {
    if c.orientation == Horizontal then w else h
  }

  predicate Free(cars: seq<Car>, cell: (int, int)) {
    !Occupied(cars, cell.0, cell.1)
  }

  /**
   * Backward probing from axis coordinate k towards 0: every free cell reached is a
   * new position of the car's near end; probing stops at the first occupied cell.
   */
  function BackPositions(cars: seq<Car>, c: Car, k: int): seq<int>
    decreases k + 1
  {
    if k < 0 || !Free(cars, AxisCell(c, k)) then []
    else [k] + BackPositions(cars, c, k - 1)
  }

  /**
   * Forward probing from axis coordinate k up to limit - 1: for every free cell reached
   * the car's far end lands on it, so its near end is at k - (size - 1).
   */
  function ForwardPositions(cars: seq<Car>, c: Car, limit: int, k: int): seq<int>
    decreases limit - k
  {
    if k >= limit || !Free(cars, AxisCell(c, k)) then []
    else [k - (c.size - 1)] + ForwardPositions(cars, c, limit, k + 1)
  }

  /** Every position the generator tries for car i, in probing order. */
  function CarPositions(w: int, h: int, cars: seq<Car>, i: nat): seq<int>
    requires i < |cars|
  {
    var c := cars[i];
    BackPositions(cars, c, c.Start() - 1) + ForwardPositions(cars, c, Limit(c, w, h), c.End() + 1)
  }

  /** A generated move: the configuration of the cloned board, the index of the car that was changed, and `move`. */
  datatype Candidate = Candidate(cars: seq<Car>, moved: nat, delta: int)

  /**
   * The move built for car i with its near end at axis position p: the clone's car found
   * by `getCarById(car.id)` gets the probed cell as (x, y), and `move` is the change of
   * that coordinate relative to car i.
   */
  function SlideTo(cars: seq<Car>, i: nat, p: int): Candidate
    requires i < |cars|
  {
    var c := cars[i];
    var t := FirstWithId(cars, c.id).value;
    var cell := AxisCell(c, p);
    var nc := cars[t].(x := cell.0, y := cell.1);
    Candidate(cars[t := nc], t, if c.orientation == Horizontal then nc.x - c.x else nc.y - c.y)
  }

  function Slides(cars: seq<Car>, i: nat, ps: seq<int>): (r: seq<Candidate>)
    requires i < |cars|
  {
    seq(|ps|, j requires 0 <= j < |ps| => SlideTo(cars, i, ps[j]))
  }

  /** The moves for a concatenation of positions are the moves for each part, in order. */
  lemma SlidesAppend(cars: seq<Car>, i: nat, ps: seq<int>, qs: seq<int>)
    requires i < |cars|
    ensures Slides(cars, i, ps + qs) == Slides(cars, i, ps) + Slides(cars, i, qs)
  {
  }

  function CarCandidates(w: int, h: int, cars: seq<Car>, i: nat): seq<Candidate>
    requires i < |cars|
  {
    Slides(cars, i, CarPositions(w, h, cars, i))
  }

  /** The moves generated for the first n cars, in the generator's order. */
  function CandidatesUpTo(w: int, h: int, cars: seq<Car>, n: nat): seq<Candidate>
    requires n <= |cars|
  {
    if n == 0 then [] else CandidatesUpTo(w, h, cars, n - 1) + CarCandidates(w, h, cars, n - 1)
  }

  /** Every move `findPossibleMoves` returns, in order. */
  function Candidates(w: int, h: int, cars: seq<Car>): seq<Candidate> {
    CandidatesUpTo(w, h, cars, |cars|)
  }

  /** Car c moved by d along its own axis. */
  function Shift(c: Car, d: int): Car {
    if c.orientation == Horizontal then c.(x := c.x + d) else c.(y := c.y + d)
  }

  /**
   * The reference definition of a legal slide of car c to axis position p: stay on the
   * board along the axis, actually move, and cross only free cells on the way.
   */
  ghost predicate LegalSlide(w: int, h: int, cars: seq<Car>, c: Car, p: int) {
    (0 <= p < c.Start() && forall q :: p <= q < c.Start() ==> Free(cars, AxisCell(c, q)))
    || (c.Start() < p && p + c.size - 1 < Limit(c, w, h)
        && forall q :: c.End() < q <= p + c.size - 1 ==> Free(cars, AxisCell(c, q)))
  }

  /** Backward probing yields k, k - 1, ...: exactly the positions down to which every cell is free. */
  lemma {:induction false} BackPositionsSpec(cars: seq<Car>, c: Car, k: int)
    ensures forall j :: 0 <= j < |BackPositions(cars, c, k)| ==> BackPositions(cars, c, k)[j] == k - j
    ensures forall p :: p in BackPositions(cars, c, k) <==>
              0 <= p <= k && forall q :: p <= q <= k ==> Free(cars, AxisCell(c, q))
    decreases k + 1
  {
    if k >= 0 && Free(cars, AxisCell(c, k)) {
      BackPositionsSpec(cars, c, k - 1);
      var rest := BackPositions(cars, c, k - 1);
      assert BackPositions(cars, c, k) == [k] + rest;
      forall p | 0 <= p <= k && (forall q :: p <= q <= k ==> Free(cars, AxisCell(c, q)))
        ensures p in BackPositions(cars, c, k)
      {
        if p < k {
          assert forall q :: p <= q <= k - 1 ==> Free(cars, AxisCell(c, q));
          assert p in rest;
        }
      }
    } else if k >= 0 {
      assert !Free(cars, AxisCell(c, k));
    }
  }

  /** Forward probing yields k - (size - 1), then one more each step: exactly the positions whose far end is reached through free cells. */
  lemma {:induction false} ForwardPositionsSpec(cars: seq<Car>, c: Car, limit: int, k: int)
    ensures forall j :: 0 <= j < |ForwardPositions(cars, c, limit, k)| ==>
              ForwardPositions(cars, c, limit, k)[j] == k - (c.size - 1) + j
    ensures forall p :: p in ForwardPositions(cars, c, limit, k) <==>
              k <= p + c.size - 1 < limit && forall q :: k <= q <= p + c.size - 1 ==> Free(cars, AxisCell(c, q))
    decreases limit - k
  {
    if k < limit && Free(cars, AxisCell(c, k)) {
      ForwardPositionsSpec(cars, c, limit, k + 1);
      var rest := ForwardPositions(cars, c, limit, k + 1);
      assert ForwardPositions(cars, c, limit, k) == [k - (c.size - 1)] + rest;
      forall p | k <= p + c.size - 1 < limit && (forall q :: k <= q <= p + c.size - 1 ==> Free(cars, AxisCell(c, q)))
        ensures p in ForwardPositions(cars, c, limit, k)
      {
        if p + c.size - 1 > k {
          assert forall q :: k + 1 <= q <= p + c.size - 1 ==> Free(cars, AxisCell(c, q));
          assert p in rest;
        }
      }
    } else if k < limit {
      assert !Free(cars, AxisCell(c, k));
    }
  }

  /**
   * A backward probe from hi that found every cell down to k + 1 free and stops at k
   * (off the grid or occupied) yields hi, hi - 1, ..., k + 1.
   */
  lemma {:induction false} BackPositionsRun(cars: seq<Car>, c: Car, hi: int, k: int)
    requires k <= hi && (k >= -1 || k == hi)
    requires forall q :: k < q <= hi ==> Free(cars, AxisCell(c, q))
    requires k < 0 || !Free(cars, AxisCell(c, k))
    ensures |BackPositions(cars, c, hi)| == hi - k
    ensures forall j :: 0 <= j < hi - k ==> BackPositions(cars, c, hi)[j] == hi - j
    decreases hi - k
  {
    if k < hi {
      BackPositionsRun(cars, c, hi - 1, k);
      assert BackPositions(cars, c, hi) == [hi] + BackPositions(cars, c, hi - 1);
    }
  }

  /**
   * A forward probe from lo that found every cell up to k - 1 free and stops at k
   * (the limit or occupied) yields lo - (size - 1), ..., k - 1 - (size - 1).
   */
  lemma {:induction false} ForwardPositionsRun(cars: seq<Car>, c: Car, limit: int, lo: int, k: int)
    requires lo <= k && (k <= limit || k == lo)
    requires forall q :: lo <= q < k ==> Free(cars, AxisCell(c, q))
    requires k >= limit || !Free(cars, AxisCell(c, k))
    ensures |ForwardPositions(cars, c, limit, lo)| == k - lo
    ensures forall j :: 0 <= j < k - lo ==> ForwardPositions(cars, c, limit, lo)[j] == lo + j - (c.size - 1)
    decreases k - lo
  {
    if lo < k {
      ForwardPositionsRun(cars, c, limit, lo + 1, k);
      assert ForwardPositions(cars, c, limit, lo) == [lo - (c.size - 1)] + ForwardPositions(cars, c, limit, lo + 1);
    }
  }

  /**
   * The probe-run characterization: car i's positions are start - 1, start - 2, ... (backward,
   * one per consecutive free cell) followed by start + 1, start + 2, ... (forward), and a
   * position is produced exactly when sliding there is legal.
   */
  lemma CarPositionsSpec(w: int, h: int, cars: seq<Car>, i: nat)
    requires i < |cars|
    ensures var c := cars[i];
            var ps := CarPositions(w, h, cars, i);
            var nb := |BackPositions(cars, c, c.Start() - 1)|;
            nb <= |ps|
            && (forall j :: 0 <= j < nb ==> ps[j] == c.Start() - 1 - j)
            && (forall j :: nb <= j < |ps| ==> ps[j] == c.Start() + 1 + (j - nb))
            && (forall p :: p in ps <==> LegalSlide(w, h, cars, c, p))
  {
    var c := cars[i];
    BackPositionsSpec(cars, c, c.Start() - 1);
    ForwardPositionsSpec(cars, c, Limit(c, w, h), c.End() + 1);
    var back := BackPositions(cars, c, c.Start() - 1);
    var fwd := ForwardPositions(cars, c, Limit(c, w, h), c.End() + 1);
    var ps := CarPositions(w, h, cars, i);
    assert ps == back + fwd;
    forall p ensures p in ps <==> LegalSlide(w, h, cars, c, p) {
      assert p in ps <==> p in back || p in fwd;
      if p in fwd {
        assert forall q :: c.End() + 1 <= q <= p + c.size - 1 ==> Free(cars, AxisCell(c, q));
      }
    }
  }

  /** With unique symbols, the car the clone changes is car i itself, moved by p - start. */
  lemma SlideToUnique(cars: seq<Car>, i: nat, p: int)
    requires i < |cars| && UniqueIds(cars)
    ensures SlideTo(cars, i, p) == Candidate(cars[i := Shift(cars[i], p - cars[i].Start())], i, p - cars[i].Start())
  {
    var t := FirstWithId(cars, cars[i].id).value;
    assert t == i;
  }

  /** Where the m-th move comes from: some car i and one of its probed positions p. */
  lemma {:induction false} CandidateOrigin(w: int, h: int, cars: seq<Car>, n: nat, m: nat) returns (i: nat, p: int)
    requires n <= |cars| && m < |CandidatesUpTo(w, h, cars, n)|
    ensures i < n && p in CarPositions(w, h, cars, i) && CandidatesUpTo(w, h, cars, n)[m] == SlideTo(cars, i, p)
  {
    var prev := CandidatesUpTo(w, h, cars, n - 1);
    if m < |prev| {
      i, p := CandidateOrigin(w, h, cars, n - 1, m);
    } else {
      i := n - 1;
      p := CarPositions(w, h, cars, i)[m - |prev|];
    }
  }

  /** Every probed position of every car yields a move in the list. */
  lemma {:induction false} CandidateFromOrigin(w: int, h: int, cars: seq<Car>, n: nat, i: nat, j: nat) returns (m: nat)
    requires n <= |cars| && i < n && j < |CarCandidates(w, h, cars, i)|
    ensures m < |CandidatesUpTo(w, h, cars, n)| && CandidatesUpTo(w, h, cars, n)[m] == CarCandidates(w, h, cars, i)[j]
  {
    var prev := CandidatesUpTo(w, h, cars, n - 1);
    assert CandidatesUpTo(w, h, cars, n) == prev + CarCandidates(w, h, cars, n - 1);
    if i < n - 1 {
      m := CandidateFromOrigin(w, h, cars, n - 1, i, j);
    } else {
      m := |prev| + j;
    }
  }

  /**
   * Each move changes exactly one car, and only its axis coordinate, by a nonzero offset
   * equal to `move`, through legal cells; every other car and the order are unchanged,
   * so the key changes too.
   */
  lemma MoveChangesOneCar(w: int, h: int, cars: seq<Car>, m: nat)
    requires UniqueIds(cars) && m < |Candidates(w, h, cars)|
    ensures var mv := Candidates(w, h, cars)[m];
            mv.moved < |cars| && |mv.cars| == |cars|
            && (forall j :: 0 <= j < |cars| && j != mv.moved ==> mv.cars[j] == cars[j])
            && mv.cars[mv.moved] == Shift(cars[mv.moved], mv.delta)
            && mv.delta != 0
            && LegalSlide(w, h, cars, cars[mv.moved], cars[mv.moved].Start() + mv.delta)
            && KeyOf(mv.cars) != KeyOf(cars)
  {
    var i, p := CandidateOrigin(w, h, cars, |cars|, m);
    CarPositionsSpec(w, h, cars, i);
    SlideToUnique(cars, i, p);
    var mv := Candidates(w, h, cars)[m];
    assert mv.cars[i] == Shift(cars[i], p - cars[i].Start());
    assert KeyOf(mv.cars)[i] != KeyOf(cars)[i];
  }

  /** Every legal slide of every car is among the generated moves. */
  lemma MovesComplete(w: int, h: int, cars: seq<Car>, i: nat, p: int) returns (m: nat)
    requires UniqueIds(cars) && i < |cars| && LegalSlide(w, h, cars, cars[i], p)
    ensures m < |Candidates(w, h, cars)|
    ensures Candidates(w, h, cars)[m] == Candidate(cars[i := Shift(cars[i], p - cars[i].Start())], i, p - cars[i].Start())
  {
    CarPositionsSpec(w, h, cars, i);
    var ps := CarPositions(w, h, cars, i);
    var j :| 0 <= j < |ps| && ps[j] == p;
    assert CarCandidates(w, h, cars, i)[j] == SlideTo(cars, i, p);
    m := CandidateFromOrigin(w, h, cars, |cars|, i, j);
    SlideToUnique(cars, i, p);
  }

  /** A move keeps every car's symbol, axis and length, and the order of the cars. */
  lemma MovePreservesShape(w: int, h: int, cars: seq<Car>, m: nat)
    requires m < |Candidates(w, h, cars)|
    ensures Shape(Candidates(w, h, cars)[m].cars) == Shape(cars)
  {
    var i, p := CandidateOrigin(w, h, cars, |cars|, m);
    var mv := Candidates(w, h, cars)[m];
    assert |Shape(mv.cars)| == |Shape(cars)|;
    forall j | 0 <= j < |cars| ensures Shape(mv.cars)[j] == Shape(cars)[j] {
    }
  }

  /** Sliding a car legally keeps every car on the board and no two cars overlapping. */
  lemma SlideKeepsLegal(w: int, h: int, cars: seq<Car>, i: nat, p: int)
    requires AllOnBoard(cars, w, h) && NoOverlap(cars) && i < |cars|
    requires LegalSlide(w, h, cars, cars[i], p)
    ensures AllOnBoard(cars[i := Shift(cars[i], p - cars[i].Start())], w, h)
    ensures NoOverlap(cars[i := Shift(cars[i], p - cars[i].Start())])
  {
    var c := cars[i];
    var nc := Shift(c, p - c.Start());
    var after := cars[i := nc];
    assert OnBoard(c, w, h);
    assert OnBoard(nc, w, h);
    assert AllOnBoard(after, w, h) by {
      forall j | 0 <= j < |after| ensures OnBoard(after[j], w, h) {
        if j != i { assert OnBoard(cars[j], w, h); }
      }
    }
    // every cell of the moved car was either its own or crossed, hence free
    forall px, py | nc.Intersects(px, py) && !c.Intersects(px, py)
      ensures Free(cars, (px, py))
    {
      var q := if c.orientation == Horizontal then px else py;
      assert (px, py) == AxisCell(c, q);
    }
    forall a, b, px, py | 0 <= a < b < |after| && after[a].Intersects(px, py)
      ensures !after[b].Intersects(px, py)
    {
      if a == i {
        if c.Intersects(px, py) {
          assert !cars[b].Intersects(px, py);
        } else {
          assert Free(cars, (px, py));
        }
      } else if b == i {
        assert cars[a].Intersects(px, py);
        assert !c.Intersects(px, py);
        assert !Free(cars, (px, py));
      } else {
        assert cars[a].Intersects(px, py);
      }
    }
  }

  /**
   * If no two cars overlap, every car is on the board and the symbols are unique, the same
   * holds on every board the generator returns.
   */
  lemma MovePreservesLegality(w: int, h: int, cars: seq<Car>, m: nat)
    requires AllOnBoard(cars, w, h) && NoOverlap(cars) && UniqueIds(cars)
    requires m < |Candidates(w, h, cars)|
    ensures AllOnBoard(Candidates(w, h, cars)[m].cars, w, h)
    ensures NoOverlap(Candidates(w, h, cars)[m].cars)
    ensures UniqueIds(Candidates(w, h, cars)[m].cars)
  {
    var mv := Candidates(w, h, cars)[m];
    MoveChangesOneCar(w, h, cars, m);
    MovePreservesShape(w, h, cars, m);
    var i := mv.moved;
    var p := cars[i].Start() + mv.delta;
    assert mv.cars == cars[i := Shift(cars[i], p - cars[i].Start())];
    SlideKeepsLegal(w, h, cars, i, p);
    forall a, b | 0 <= a < b < |mv.cars| ensures mv.cars[a].id != mv.cars[b].id {
      assert Shape(mv.cars)[a] == Shape(cars)[a] && Shape(mv.cars)[b] == Shape(cars)[b];
    }
  }
}
