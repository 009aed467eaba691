/**
 * Rendering: `toString` paints every car's symbol into a row-major buffer of
 * width * height cells, car after car; `toStringLines` does the same row by row.
 * Glyph is the reference meaning of one cell of either rendering.
 */
module Rendering {
  import opened Cars
  import opened Configs

  /** The symbol in cell (px, py) of a rendering: the last car covering it, or '.'. */
  function Glyph(cars: seq<Car>, px: int, py: int): char {
    if |cars| == 0 then '.'
    else if cars[|cars| - 1].Intersects(px, py) then cars[|cars| - 1].id
    else Glyph(cars[..|cars| - 1], px, py)
  }

  /** With no overlap, the symbol in a cell is that of the one car covering it. */
  lemma {:induction false} GlyphOfCover(cars: seq<Car>, px: int, py: int)
    requires NoOverlap(cars)
    ensures forall i :: 0 <= i < |cars| && cars[i].Intersects(px, py) ==> Glyph(cars, px, py) == cars[i].id
    ensures !Occupied(cars, px, py) ==> Glyph(cars, px, py) == '.'
  {
    if |cars| > 0 {
      var init := cars[..|cars| - 1];
      assert NoOverlap(init) by {
        forall i, j, qx, qy | 0 <= i < j < |init| && init[i].Intersects(qx, qy)
          ensures !init[j].Intersects(qx, qy)
        {
          assert init[i] == cars[i] && init[j] == cars[j];
        }
      }
      GlyphOfCover(init, px, py);
      if !Occupied(cars, px, py) {
        assert !Occupied(init, px, py) by {
          forall i | 0 <= i < |init| ensures !init[i].Intersects(px, py) {
            assert init[i] == cars[i];
          }
        }
      }
      forall i | 0 <= i < |cars| && cars[i].Intersects(px, py)
        ensures Glyph(cars, px, py) == cars[i].id
      {
        if i < |cars| - 1 {
          assert init[i] == cars[i];
        }
      }
    }
  }

  /** The flat index toString writes for the k-th cell of a car on a grid of width w. */
  function CellIndex(c: Car, k: int, w: int): int {
    if c.orientation == Horizontal then c.x + k + c.y * w else c.x + (c.y + k) * w
  }

  /** s with the first k cells of c set to the car's symbol (toString's inner loop). */
  function PaintCar(s: seq<char>, c: Car, w: int, k: nat): (r: seq<char>)
    ensures |r| == |s|
  {
    if k == 0 then s
    else
      var p := PaintCar(s, c, w, k - 1);
      var i := CellIndex(c, k - 1, w);
      if 0 <= i < |p| then p[i := c.id] else p
  }

  /** s with every car painted, in board order (toString's outer loop). */
  function PaintAll(s: seq<char>, cars: seq<Car>, w: int): (r: seq<char>)
    ensures |r| == |s|
  {
    if |cars| == 0 then s
    else PaintCar(PaintAll(s, cars[..|cars| - 1], w), cars[|cars| - 1], w, cars[|cars| - 1].size)
  }

  function Blank(n: nat): (r: seq<char>)
    ensures |r| == n && forall i :: 0 <= i < n ==> r[i] == '.'
  {
    seq(n, _ => '.')
  }

  /** The row-major grid string of a configuration (`toString`). */
  function Render(w: nat, h: nat, cars: seq<Car>): seq<char> {
    PaintAll(Blank(w * h), cars, w)
  }

  /** Every flat index toString writes lies inside the w * h buffer. */
  predicate PaintsInside(cars: seq<Car>, w: int, h: int) {
    forall i, k :: 0 <= i < |cars| && 0 <= k < cars[i].size ==> 0 <= CellIndex(cars[i], k, w) < w * h
  }

  /** A cell no car covers renders as '.'. */
  lemma {:induction false} GlyphEmpty(cars: seq<Car>, px: int, py: int)
    requires !Occupied(cars, px, py)
    ensures Glyph(cars, px, py) == '.'
  {
    if |cars| > 0 {
      var init := cars[..|cars| - 1];
      assert !Occupied(init, px, py) by {
        forall i | 0 <= i < |init| ensures !init[i].Intersects(px, py) {
          assert init[i] == cars[i];
        }
      }
      GlyphEmpty(init, px, py);
    }
  }

  lemma MulAtLeast(a: int, w: int)
    requires a >= 1 && w >= 0
    ensures a * w >= w
  {
    assert a * w == (a - 1) * w + w;
  }

  /** Distinct cells of a grid of width w have distinct row-major indices. */
  lemma FlatInjective(w: int, r1: int, c1: int, r2: int, c2: int)
    requires 0 <= c1 < w && 0 <= c2 < w && r1 * w + c1 == r2 * w + c2
    ensures r1 == r2 && c1 == c2
  {
    if r1 < r2 {
      assert r2 * w - r1 * w == (r2 - r1) * w;
      MulAtLeast(r2 - r1, w);
    } else if r2 < r1 {
      assert r1 * w - r2 * w == (r1 - r2) * w;
      MulAtLeast(r1 - r2, w);
    }
  }

  /** The row-major index of a cell of the grid lies inside the buffer. */
  lemma FlatInRange(w: int, h: int, px: int, py: int)
    requires 0 <= px < w && 0 <= py < h
    ensures 0 <= py * w + px < w * h
  {
    assert py * w >= 0;
    assert w * h - py * w == (h - py) * w;
    MulAtLeast(h - py, w);
  }

  /** After painting the first k cells of c, a position holds c's symbol iff one of them maps there. */
  lemma {:induction false} PaintCarAt(s: seq<char>, c: Car, w: int, k: nat, p: int)
    requires 0 <= p < |s|
    ensures PaintCar(s, c, w, k)[p] == if exists j :: 0 <= j < k && CellIndex(c, j, w) == p then c.id else s[p]
  {
    if k > 0 {
      PaintCarAt(s, c, w, k - 1, p);
      if CellIndex(c, k - 1, w) != p {
        if exists j :: 0 <= j < k && CellIndex(c, j, w) == p {
          var j :| 0 <= j < k && CellIndex(c, j, w) == p;
          assert j < k - 1;
        }
      }
    }
  }

  /** For a car in the grid, a cell of its footprint is exactly a cell toString writes for it. */
  lemma CellIndexIsCell(c: Car, w: int, h: int, px: int, py: int)
    requires InGrid(c, w, h) && 0 <= px < w && 0 <= py
    ensures (exists j :: 0 <= j < c.size && CellIndex(c, j, w) == py * w + px) <==> c.Intersects(px, py)
  {
    if c.Intersects(px, py) {
      var j := if c.orientation == Horizontal then px - c.x else py - c.y;
      assert CellIndex(c, j, w) == py * w + px;
    }
    if exists j :: 0 <= j < c.size && CellIndex(c, j, w) == py * w + px {
      var j :| 0 <= j < c.size && CellIndex(c, j, w) == py * w + px;
      if c.orientation == Horizontal {
        FlatInjective(w, c.y, c.x + j, py, px);
      } else {
        FlatInjective(w, c.y + j, c.x, py, px);
      }
    }
  }

  /** Painting cars in the grid over s: a cell holds its glyph when covered, the old symbol otherwise. */
  lemma {:induction false} PaintAllAt(s: seq<char>, cars: seq<Car>, w: int, h: int, px: int, py: int)
    requires AllInGrid(cars, w, h) && 0 <= px < w && 0 <= py && py * w + px < |s|
    ensures PaintAll(s, cars, w)[py * w + px] == if Occupied(cars, px, py) then Glyph(cars, px, py) else s[py * w + px]
  {
    if |cars| > 0 {
      var init := cars[..|cars| - 1];
      var last := cars[|cars| - 1];
      assert AllInGrid(init, w, h) by {
        forall i | 0 <= i < |init| ensures InGrid(init[i], w, h) { assert init[i] == cars[i]; }
      }
      PaintAllAt(s, init, w, h, px, py);
      var p := py * w + px;
      PaintCarAt(PaintAll(s, init, w), last, w, last.size, p);
      CellIndexIsCell(last, w, h, px, py);
      assert Occupied(cars, px, py) <==> last.Intersects(px, py) || Occupied(init, px, py) by {
        if Occupied(init, px, py) {
          var i :| 0 <= i < |init| && init[i].Intersects(px, py);
          assert cars[i] == init[i];
        }
        if Occupied(cars, px, py) && !last.Intersects(px, py) {
          var i :| 0 <= i < |cars| && cars[i].Intersects(px, py);
          assert init[i] == cars[i];
        }
      }
    }
  }

  /** The meaning of toString: cell (px, py) of the rendering, at index py * w + px, holds its glyph. */
  lemma RenderGlyph(w: nat, h: nat, cars: seq<Car>, px: int, py: int)
    requires AllInGrid(cars, w, h) && 0 <= px < w && 0 <= py < h
    ensures |Render(w, h, cars)| == w * h
    ensures 0 <= py * w + px < w * h && Render(w, h, cars)[py * w + px] == Glyph(cars, px, py)
  {
    FlatInRange(w, h, px, py);
    PaintAllAt(Blank(w * h), cars, w, h, px, py);
    if !Occupied(cars, px, py) {
      GlyphEmpty(cars, px, py);
    }
  }
}
