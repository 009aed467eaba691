/**
 * The board: an ordered list of cars on a width x height grid, with the car the
 * `mainCar` field refers to. A reference to a car is modelled by its index in `cars`;
 * changing a car's field in place replaces the car at that index.
 */
module Boards {
  import opened Options
  import opened Cars
  import opened Configs
  import opened Rendering
  import opened Moves
  import opened Loading

  /** One entry of `findPossibleMoves`: the moved clone, its changed car, and the signed offset. */
  datatype MoveRecord = MoveRecord(board: Board, car: Car, move: int)

  /** The record rec is the generated move c on a board of the given size. */
  ghost predicate Produced(rec: MoveRecord, c: Candidate, w: nat, h: nat)
    reads rec.board
  {
    rec.board.width == w && rec.board.height == h && rec.board.Valid()
    && rec.board.cars == c.cars && c.moved < |c.cars|
    && rec.car == c.cars[c.moved] && rec.move == c.delta
  }

  /** Records matching two candidate lists, concatenated, match the concatenated list. */
  lemma ProducedConcat(a: seq<MoveRecord>, ca: seq<Candidate>, b: seq<MoveRecord>, cb: seq<Candidate>, w: nat, h: nat)
    requires |a| == |ca| && forall m :: 0 <= m < |a| ==> Produced(a[m], ca[m], w, h)
    requires |b| == |cb| && forall m :: 0 <= m < |b| ==> Produced(b[m], cb[m], w, h)
    ensures |a + b| == |ca + cb| && forall m :: 0 <= m < |a + b| ==> Produced((a + b)[m], (ca + cb)[m], w, h)
  {
    forall m | 0 <= m < |a + b| ensures Produced((a + b)[m], (ca + cb)[m], w, h) {
      if m < |a| {
        assert (a + b)[m] == a[m] && (ca + cb)[m] == ca[m];
      } else {
        assert (a + b)[m] == b[m - |a|] && (ca + cb)[m] == cb[m - |a|];
      }
    }
  }

  class Board {
    const width: nat
    const height: nat
    var cars: seq<Car>
    /** The index of the car `mainCar` refers to, or None while there is none. */
    var mainCar: Option<nat>

    /** `mainCar` is the last main car added: addCar points it at every car whose symbol is 'X'. */
    ghost predicate Valid()
      reads this
    {
      mainCar == LastMain(cars)
    }

    constructor (width: nat, height: nat)
      ensures this.width == width && this.height == height
      ensures cars == [] && mainCar == None && Valid()
    {
      this.width := width;
      this.height := height;
      cars := [];
      mainCar := None;
    }

    /** Appends a new car; a main car becomes `mainCar`. */
    method AddCar(id: char, x: int, y: int, orientation: Orientation, size: nat) returns (car: Car)
      requires Valid()
      modifies this
      ensures Valid()
      ensures car == Car(id, x, y, orientation, size)
      ensures cars == old(cars) + [car]
      ensures mainCar == if car.IsMain() then Some(|old(cars)|) else old(mainCar)
    {
      car := Car(id, x, y, orientation, size);
      cars := cars + [car];
      if car.IsMain() {
        mainCar := Some(|cars| - 1);
      }
      assert cars[..|cars| - 1] == old(cars);
    }

    /**
     * Reads the first 36 characters of the text as a row-major 6 x 6 grid and appends its
     * cars: a new symbol starts a one-cell horizontal car, a repeated one grows its car,
     * turning it vertical when seen in another row. The rest of the text is ignored.
     */
    method LoadBoard(boardText: string)
      requires Valid() && |boardText| >= 36
      modifies this
      ensures Valid()
      ensures cars == old(cars) + Load(boardText[..36])
    {
      // the source's `cars` dictionary: symbol -> the car (here: its index in this.cars)
      var known: map<char, nat> := map[];
      ghost var base := cars;
      for lineIdx := 0 to 6
        invariant Loaded(boardText, lineIdx * 6, base, known)
      {
        for cellIdx := 0 to 6
          invariant Loaded(boardText, lineIdx * 6 + cellIdx, base, known)
        {
          known := LoadCellAt(boardText, lineIdx, cellIdx, base, known);
        }
      }
      LoadFromPrefix(boardText, 36, 36);
    }

    /** After scanning n cells: the board holds base followed by the cars loaded so far, and known maps each of their symbols to its car. */
    ghost predicate Loaded(text: string, n: nat, base: seq<Car>, known: map<char, nat>)
      reads this
    {
      n <= |text| && Valid() && cars == base + LoadFrom(text, n)
      && (forall ch :: ch in known ==> |base| <= known[ch] < |cars| && cars[known[ch]].id == ch)
      && (forall i :: |base| <= i < |cars| ==> cars[i].id in known)
    }

    /** A repeat sighting of car i's symbol in row lineIdx: another row turns it vertical, and it grows by one cell. */
    method GrowCar(i: nat, lineIdx: int)
      requires Valid() && i < |cars|
      modifies this
      ensures Valid() && mainCar == old(mainCar)
      ensures cars == old(cars)[i := Grow(old(cars)[i], lineIdx)]
    {
      var car := cars[i];
      if car.y != lineIdx {
        car := car.(orientation := Vertical);
      }
      car := car.(size := car.size + 1);
      cars := cars[i := car];
      assert forall j :: 0 <= j < |cars| ==> cars[j].id == old(cars)[j].id;
      LastMainSameIds(old(cars), cars);
    }

    /** One cell of `loadBoard`'s scan: cell cellIdx of row lineIdx. */
    method LoadCellAt(boardText: string, lineIdx: nat, cellIdx: nat, ghost base: seq<Car>, known: map<char, nat>)
      returns (known': map<char, nat>)
      requires cellIdx < 6 && lineIdx * 6 + cellIdx < |boardText|
      requires Loaded(boardText, lineIdx * 6 + cellIdx, base, known)
      modifies this
      ensures Loaded(boardText, lineIdx * 6 + cellIdx + 1, base, known')
    {
      known' := known;
      var n := lineIdx * 6 + cellIdx;
      var cell := boardText[n];
      if cell != '.' {
        if cell in known {
          var i := known[cell];
          LoadFromGrows(boardText, lineIdx, cellIdx, base, cars, i);
          GrowCar(i, lineIdx);
        } else {
          LoadFromAdds(boardText, lineIdx, cellIdx, base, cars);
          var car := AddCar(cell, cellIdx, lineIdx, Horizontal, 1);
          known' := known[cell := |cars| - 1];
        }
      } else {
        LoadFromSkips(boardText, n);
      }
    }

    /** The effective solved test: the main car's x is the width minus its width. */
    predicate IsSolved()
      reads this
      requires Valid() && mainCar.Some?
      ensures IsSolved() <==> Solved(width, cars)
    {
      var m := cars[mainCar.value];
      m.x == width - m.Width()
    }

    /** The row-major grid string: '.' everywhere, then each car's symbol painted over its cells. */
    method ToString() returns (s: string)
      requires PaintsInside(cars, width, height)
      ensures s == Render(width, height, cars)
    {
      var result := new char[width * height](_ => '.');
      for n := 0 to |cars|
        invariant result[..] == PaintAll(Blank(width * height), cars[..n], width)
      {
        PaintInto(result, cars[n]);
        assert cars[..n + 1][..n] == cars[..n];
      }
      assert cars[..|cars|] == cars;
      s := result[..];
    }

    /** `toString`'s inner loop: write car's symbol at the flat index of each of its cells. */
    method PaintInto(result: array<char>, car: Car)
      requires forall k :: 0 <= k < car.size ==> 0 <= CellIndex(car, k, width) < result.Length
      modifies result
      ensures result[..] == PaintCar(old(result[..]), car, width, car.size)
    {
      for k := 0 to car.size
        invariant result[..] == PaintCar(old(result[..]), car, width, k)
      {
        assert 0 <= CellIndex(car, k, width) < result.Length;
        if car.orientation == Horizontal {
          result[car.x + k + car.y * width] := car.id;
        } else {
          result[car.x + (car.y + k) * width] := car.id;
        }
      }
    }

    /** The grid as rows: row j, column i holds the symbol of the car covering cell (i, j), or '.'. */
    method ToStringLines() returns (lines: seq<seq<char>>)
      requires AllInGrid(cars, width, height)
      ensures |lines| == height
      ensures forall j :: 0 <= j < height ==> |lines[j]| == width
      ensures forall j, i :: 0 <= j < height && 0 <= i < width ==> lines[j][i] == Glyph(cars, i, j)
    {
      var result := new char[height, width]((_, _) => '.');
      for n := 0 to |cars|
        invariant forall j, i :: 0 <= j < height && 0 <= i < width ==> result[j, i] == Glyph(cars[..n], i, j)
      {
        var car := cars[n];
        assert InGrid(car, width, height);
        assert cars[..n + 1][..n] == cars[..n];
        for k := 0 to car.size
          invariant forall j, i :: 0 <= j < height && 0 <= i < width ==>
                      result[j, i] == if car.(size := k).Intersects(i, j) then car.id else Glyph(cars[..n], i, j)
        {
          if car.orientation == Horizontal {
            result[car.y, car.x + k] := car.id;
          } else {
            result[car.y + k, car.x] := car.id;
          }
        }
      }
      assert cars[..|cars|] == cars;
      lines := [];
      for j := 0 to height
        invariant |lines| == j
        invariant forall r :: 0 <= r < j ==> |lines[r]| == width
        invariant forall r, i :: 0 <= r < j && 0 <= i < width ==> lines[r][i] == result[r, i]
      {
        var line := seq(width, i requires 0 <= i < width reads result => result[j, i]);
        lines := lines + [line];
      }
    }

    /** The visited-state key: each car's symbol and position, in board order. */
    method AsKey() returns (key: Key)
      ensures key == KeyOf(cars)
    {
      key := [];
      for n := 0 to |cars|
        invariant |key| == n
        invariant forall j :: 0 <= j < n ==> key[j] == KeyEntry(cars[j].id, cars[j].x, cars[j].y)
      {
        key := key + [KeyEntry(cars[n].id, cars[n].x, cars[n].y)];
      }
    }

    /** A new board of the same size holding equal cars in the same order. */
    method Clone() returns (board: Board)
      requires Valid()
      ensures fresh(board) && board.Valid()
      ensures board.width == width && board.height == height
      ensures board.cars == cars && board.mainCar == mainCar
    {
      board := new Board(width, height);
      for n := 0 to |cars|
        invariant fresh(board) && board.Valid()
        invariant board.width == width && board.height == height
        invariant board.cars == cars[..n]
      {
        var car := cars[n];
        var _ := board.AddCar(car.id, car.x, car.y, car.orientation, car.size);
        assert cars[..n + 1] == cars[..n] + [car];
      }
      assert cars[..|cars|] == cars;
    }

    /** The index of the first car covering cell (x, y), or None when the cell is empty. */
    method GetCarAt(x: int, y: int) returns (r: Option<nat>)
      ensures r.None? <==> !Occupied(cars, x, y)
      ensures r.Some? ==> r.value < |cars| && cars[r.value].Intersects(x, y)
                          && forall j :: 0 <= j < r.value ==> !cars[j].Intersects(x, y)
    {
      for n := 0 to |cars|
        invariant forall j :: 0 <= j < n ==> !cars[j].Intersects(x, y)
      {
        if cars[n].Intersects(x, y) {
          return Some(n);
        }
      }
      return None;
    }

    /** The index of the first car with symbol id, or None. */
    method GetCarById(id: char) returns (r: Option<nat>)
      ensures r == FirstWithId(cars, id)
    {
      for n := 0 to |cars|
        invariant forall j :: 0 <= j < n ==> cars[j].id != id
      {
        if cars[n].id == id {
          return Some(n);
        }
      }
      return None;
    }

    /**
     * The loop body of the move generator for car n with its near end at axis position p:
     * clone the board, find the clone's car by symbol and put it on the probed cell.
     */
    method SlideClone(n: nat, p: int) returns (rec: MoveRecord)
      requires Valid() && n < |cars|
      ensures fresh(rec.board) && Produced(rec, SlideTo(cars, n, p), width, height)
    {
      var car := cars[n];
      var i := if car.orientation == Horizontal then p else car.x;
      var j := if car.orientation == Vertical then p else car.y;
      var board := Clone();
      var t := board.GetCarById(car.id);
      var newCar := board.cars[t.value].(x := i, y := j);
      ghost var before := board.cars;
      board.cars := board.cars[t.value := newCar];
      LastMainSameIds(before, board.cars);
      var move := if car.orientation == Horizontal then newCar.x - car.x else newCar.y - car.y;
      rec := MoveRecord(board, newCar, move);
    }

    /** Pushes the move for position p onto the moves found so far (those for the positions ps). */
    method AppendSlide(n: nat, p: int, moves: seq<MoveRecord>, ghost ps: seq<int>) returns (moves': seq<MoveRecord>)
      requires Valid() && n < |cars|
      requires |moves| == |ps| && forall m :: 0 <= m < |moves| ==> Produced(moves[m], SlideTo(cars, n, ps[m]), width, height)
      ensures |moves'| == |ps| + 1
      ensures forall m :: 0 <= m < |moves'| ==> Produced(moves'[m], SlideTo(cars, n, (ps + [p])[m]), width, height)
    {
      var rec := SlideClone(n, p);
      moves' := moves + [rec];
      forall m | 0 <= m < |moves'|
        ensures Produced(moves'[m], SlideTo(cars, n, (ps + [p])[m]), width, height)
      {
        if m < |moves| {
          assert moves'[m] == moves[m] && (ps + [p])[m] == ps[m];
        }
      }
    }

    /**
     * Every single-car slide of every distance: for each car, probe backward from the cell
     * before its near end and forward from the cell after its far end, one move per free
     * cell, stopping at the first occupied cell or the edge.
     */
    method FindPossibleMoves() returns (possibleMoves: seq<MoveRecord>)
      requires Valid()
      ensures |possibleMoves| == |Candidates(width, height, cars)|
      ensures forall m :: 0 <= m < |possibleMoves| ==>
                Produced(possibleMoves[m], Candidates(width, height, cars)[m], width, height)
    {
      possibleMoves := [];
      for n := 0 to |cars|
        invariant |possibleMoves| == |CandidatesUpTo(width, height, cars, n)|
        invariant forall m :: 0 <= m < |possibleMoves| ==>
                    Produced(possibleMoves[m], CandidatesUpTo(width, height, cars, n)[m], width, height)
      {
        var back := ProbeBackward(n);
        var forward := ProbeForward(n);
        ghost var c := cars[n];
        ghost var bs, fs := BackPositions(cars, c, c.Start() - 1), ForwardPositions(cars, c, Limit(c, width, height), c.End() + 1);
        SlidesAppend(cars, n, bs, fs);
        ProducedConcat(back, Slides(cars, n, bs), forward, Slides(cars, n, fs), width, height);
        var both := back + forward;
        ProducedConcat(possibleMoves, CandidatesUpTo(width, height, cars, n), both, CarCandidates(width, height, cars, n), width, height);
        possibleMoves := possibleMoves + both;
      }
    }

    /** The probe's test: `getCarAt` on the cell at axis position k of car's line finds nothing. */
    method FreeAt(car: Car, k: int) returns (free: bool)
      ensures free <==> Free(cars, AxisCell(car, k))
    {
      var i := if car.orientation == Horizontal then k else car.x;
      var j := if car.orientation == Vertical then k else car.y;
      var occupant := GetCarAt(i, j);
      free := occupant == None;
    }

    /** The backward probe for car n: positions start - 1, start - 2, ... while the cell is free. */
    method ProbeBackward(n: nat) returns (recs: seq<MoveRecord>)
      requires Valid() && n < |cars|
      ensures var ps := BackPositions(cars, cars[n], cars[n].Start() - 1);
              |recs| == |ps| && forall m :: 0 <= m < |recs| ==> Produced(recs[m], SlideTo(cars, n, ps[m]), width, height)
    {
      ghost var cs := cars;
      var car := cars[n];
      var start := car.Start();
      recs := [];
      ghost var ps: seq<int> := [];
      var k := start - 1;
      while k >= 0
        invariant cars == cs && k <= start - 1
        invariant BackPositions(cs, car, start - 1) == ps + BackPositions(cs, car, k)
        invariant |recs| == |ps| && forall m :: 0 <= m < |recs| ==> Produced(recs[m], SlideTo(cars, n, ps[m]), width, height)
        decreases k
      {
        var free := FreeAt(car, k);
        if !free {
          break;
        }
        recs := AppendSlide(n, k, recs, ps);
        ps := ps + [k];
        k := k - 1;
      }
      assert BackPositions(cs, car, k) == [];
      assert ps == BackPositions(cs, car, start - 1);
    }

    /** The forward probe for car n: the far end steps onto end + 1, end + 2, ... while the cell is free. */
    method ProbeForward(n: nat) returns (recs: seq<MoveRecord>)
      requires Valid() && n < |cars|
      ensures var c := cars[n];
              var ps := ForwardPositions(cars, c, Limit(c, width, height), c.End() + 1);
              |recs| == |ps| && forall m :: 0 <= m < |recs| ==> Produced(recs[m], SlideTo(cars, n, ps[m]), width, height)
    {
      ghost var cs := cars;
      var car := cars[n];
      var end := car.End();
      var boardEnd := Limit(car, width, height);
      recs := [];
      ghost var ps: seq<int> := [];
      var k := end + 1;
      while k < boardEnd
        invariant cars == cs && end + 1 <= k
        invariant ForwardPositions(cs, car, boardEnd, end + 1) == ps + ForwardPositions(cs, car, boardEnd, k)
        invariant |recs| == |ps| && forall m :: 0 <= m < |recs| ==> Produced(recs[m], SlideTo(cars, n, ps[m]), width, height)
        decreases boardEnd - k
      {
        var free := FreeAt(car, k);
        if !free {
          break;
        }
        // the far end lands on cell k, so the near end is at k - (size - 1)
        recs := AppendSlide(n, k - (car.size - 1), recs, ps);
        ps := ps + [k - (car.size - 1)];
        k := k + 1;
      }
      assert ForwardPositions(cs, car, boardEnd, k) == [];
      assert ps == ForwardPositions(cs, car, boardEnd, end + 1);
    }
  }
}
