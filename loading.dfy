/**
 * Loading a board from its 36-character row-major 6 x 6 grid (`loadBoard`), and the
 * round trip with the rendering: the rendering of a car list in the form loading
 * produces is read back as that list, so rendering it again gives the grid it was read from.
 */
module Loading {
  import opened Options
  import opened Cars
  import opened Configs
  import opened Rendering

  /** A repeat sighting of a car's symbol in row `row`: another row makes it vertical, and it grows by one cell. */
  function Grow(c: Car, row: int): Car {
    c.(orientation := if c.y != row then Vertical else c.orientation, size := c.size + 1)
  }

  /** One step of the scan: the cell in column col of row row holds the symbol cell. */
  function LoadCell(cs: seq<Car>, cell: char, col: int, row: int): seq<Car> {
    if cell == '.' then cs
    else match FirstWithId(cs, cell)
      case Some(i) => cs[i := Grow(cs[i], row)]
      case None => cs + [Car(cell, col, row, Horizontal, 1)]
  }

  /** The cars built after scanning the first n cells of the grid (six cells per row). */
  function LoadFrom(text: string, n: nat): seq<Car>
    requires n <= |text|
  {
    if n == 0 then [] else LoadCell(LoadFrom(text, n - 1), text[n - 1], (n - 1) % 6, (n - 1) / 6)
  }

  /** The scan of the first n cells reads nothing beyond them. */
  lemma {:induction false} LoadFromPrefix(text: string, m: nat, n: nat)
    requires n <= m <= |text|
    ensures LoadFrom(text[..m], n) == LoadFrom(text, n)
  {
    if n > 0 {
      LoadFromPrefix(text, m, n - 1);
      assert text[..m][n - 1] == text[n - 1];
    }
  }

  /** The cars `loadBoard` appends for a 36-character grid. */
  function Load(text: string): seq<Car>
    requires |text| == 36
  {
    LoadFrom(text, 36)
  }

  /** One scan step keeps the symbols unique and adds the scanned symbol, with one more cell, to the list. */
  lemma LoadCellFacts(cs: seq<Car>, cell: char, col: int, row: int)
    requires UniqueIds(cs) && forall i :: 0 <= i < |cs| ==> cs[i].id != '.'
    ensures var r := LoadCell(cs, cell, col, row);
            UniqueIds(r) && |cs| <= |r|
            && (forall i :: 0 <= i < |r| ==> r[i].id != '.')
            && (forall i :: 0 <= i < |cs| ==> r[i].id == cs[i].id)
            && (forall i :: 0 <= i < |r| ==> r[i].size == (if i < |cs| then cs[i].size else 0) + (if r[i].id == cell then 1 else 0))
            && (forall i :: |cs| <= i < |r| ==> r[i].id == cell)
            && (cell != '.' ==> exists i :: 0 <= i < |r| && r[i].id == cell)
  {
    var r := LoadCell(cs, cell, col, row);
    if cell != '.' {
      match FirstWithId(cs, cell)
      case Some(i) =>
        assert r[i].id == cell;
      case None =>
        assert r[|cs|].id == cell;
    }
  }

  /** Loading any text yields unique symbols other than '.', one car for every symbol scanned. */
  lemma {:induction false} LoadFromIds(text: string, n: nat)
    requires n <= |text|
    ensures var r := LoadFrom(text, n);
            UniqueIds(r)
            && (forall i :: 0 <= i < |r| ==> r[i].id != '.')
            && (forall j :: 0 <= j < n && text[j] != '.' ==> exists i :: 0 <= i < |r| && r[i].id == text[j])
  {
    if n > 0 {
      LoadFromIds(text, n - 1);
      var prev := LoadFrom(text, n - 1);
      var r := LoadFrom(text, n);
      LoadCellFacts(prev, text[n - 1], (n - 1) % 6, (n - 1) / 6);
      forall j | 0 <= j < n - 1 && text[j] != '.' ensures exists i :: 0 <= i < |r| && r[i].id == text[j] {
        var k :| 0 <= k < |prev| && prev[k].id == text[j];
        assert r[k].id == text[j];
      }
    }
  }

  /** Cell n = row * 6 + col lies in column n % 6 of row n / 6. */
  lemma RowColumn(row: nat, col: nat)
    requires col < 6
    ensures (row * 6 + col) % 6 == col && (row * 6 + col) / 6 == row
  {
  }

  /**
   * Scanning the symbol in column col of row row, when an already loaded car has it,
   * grows that car (cars: base followed by the loaded cars).
   */
  lemma LoadFromGrows(text: string, row: nat, col: nat, base: seq<Car>, cars: seq<Car>, i: nat)
    requires col < 6 && row * 6 + col < |text| && cars == base + LoadFrom(text, row * 6 + col)
    requires |base| <= i < |cars| && cars[i].id == text[row * 6 + col]
    ensures cars[i := Grow(cars[i], row)] == base + LoadFrom(text, row * 6 + col + 1)
  {
    var n := row * 6 + col;
    RowColumn(row, col);
    LoadFromIds(text, n);
    var prev := LoadFrom(text, n);
    var l := i - |base|;
    assert prev[l] == cars[i];
    assert FirstWithId(prev, text[n]) == Some(l);
    assert LoadFrom(text, n + 1) == prev[l := Grow(prev[l], row)];
  }

  /** Scanning a symbol no loaded car has appends a one-cell horizontal car at that cell. */
  lemma LoadFromAdds(text: string, row: nat, col: nat, base: seq<Car>, cars: seq<Car>)
    requires col < 6 && row * 6 + col < |text| && cars == base + LoadFrom(text, row * 6 + col)
    requires text[row * 6 + col] != '.'
    requires forall i :: |base| <= i < |cars| ==> cars[i].id != text[row * 6 + col]
    ensures cars + [Car(text[row * 6 + col], col, row, Horizontal, 1)] == base + LoadFrom(text, row * 6 + col + 1)
  {
    var n := row * 6 + col;
    RowColumn(row, col);
    var prev := LoadFrom(text, n);
    assert forall i :: 0 <= i < |prev| ==> prev[i] == cars[|base| + i];
    assert LoadFrom(text, n + 1) == prev + [Car(text[n], col, row, Horizontal, 1)];
  }

  /** Scanning an empty cell changes nothing. */
  lemma LoadFromSkips(text: string, n: nat)
    requires n < |text| && text[n] == '.'
    ensures LoadFrom(text, n + 1) == LoadFrom(text, n)
  {
  }

  /** The number of occurrences of ch in s. */
  function Count(s: seq<char>, ch: char): nat {
    if |s| == 0 then 0 else Count(s[..|s| - 1], ch) + (if s[|s| - 1] == ch then 1 else 0)
  }

  /** Each car loaded from any text has as many cells as its symbol has occurrences. */
  lemma {:induction false} LoadFromSizes(text: string, n: nat)
    requires n <= |text|
    ensures var r := LoadFrom(text, n);
            forall i :: 0 <= i < |r| ==> r[i].size >= 1 && r[i].size == Count(text[..n], r[i].id)
  {
    if n > 0 {
      LoadFromSizes(text, n - 1);
      LoadFromIds(text, n - 1);
      var prev := LoadFrom(text, n - 1);
      var r := LoadFrom(text, n);
      var cell := text[n - 1];
      LoadCellFacts(prev, cell, (n - 1) % 6, (n - 1) / 6);
      assert text[..n][..n - 1] == text[..n - 1];
      if |prev| < |r| {
        // a new car: its symbol was not scanned before
        NotSeenCount(text[..n - 1], cell, prev);
      }
      forall i | 0 <= i < |r| ensures r[i].size >= 1 && r[i].size == Count(text[..n], r[i].id) {
      }
    }
  }

  /** A symbol that no loaded car has does not occur in the scanned text. */
  lemma {:induction false} NotSeenCount(s: seq<char>, ch: char, cs: seq<Car>)
    requires forall j :: 0 <= j < |s| && s[j] != '.' ==> exists i :: 0 <= i < |cs| && cs[i].id == s[j]
    requires ch != '.' && forall i :: 0 <= i < |cs| ==> cs[i].id != ch
    ensures Count(s, ch) == 0
  {
    if |s| > 0 {
      var init := s[..|s| - 1];
      assert forall j :: 0 <= j < |init| ==> init[j] == s[j];
      NotSeenCount(init, ch, cs);
      assert s[|s| - 1] != '.' ==> exists i :: 0 <= i < |cs| && cs[i].id == s[|s| - 1];
    }
  }

  /** The row-major index of a car's first cell on the 6 x 6 grid. */
  function First(c: Car): int { c.y * 6 + c.x }

  /**
   * A car list in the form loading produces: cars on the 6 x 6 board, no overlap, unique
   * symbols other than '.', a one-cell car horizontal, and the cars in the order their
   * first cells appear in the row-major scan.
   */
  ghost predicate Canonical(cs: seq<Car>) {
    AllOnBoard(cs, 6, 6) && NoOverlap(cs) && UniqueIds(cs)
    && (forall i :: 0 <= i < |cs| ==> cs[i].id != '.')
    && (forall i :: 0 <= i < |cs| && cs[i].orientation == Vertical ==> cs[i].size >= 2)
    && (forall i, j :: 0 <= i < j < |cs| ==> First(cs[i]) < First(cs[j]))
  }

  /** A well-formed grid: 36 cells, the rendering of a canonical car list. */
  ghost predicate WellFormedGrid(text: string) {
    |text| == 36 && exists cs :: Canonical(cs) && Render(6, 6, cs) == text
  }

  /** How many of car c's cells lie among the first n cells of the row-major scan. */
  function Seen(c: Car, n: int): nat {
    var d := n - First(c);
    if d <= 0 then 0
    else if c.orientation == Horizontal then (if d < c.size then d else c.size)
    else var v := (d + 5) / 6; if v < c.size then v else c.size
  }

  /** Car c as the scan has built it after n cells. */
  function Trunc(c: Car, n: int): Car {
    var s := Seen(c, n);
    c.(size := s, orientation := if s >= 2 then c.orientation else Horizontal)
  }

  /** The number of leading cars whose first cell comes before cell n. */
  function Below(cs: seq<Car>, n: int): (j: nat)
    ensures j <= |cs|
  {
    if |cs| == 0 || First(cs[0]) >= n then 0 else 1 + Below(cs[1..], n)
  }

  /** The cars of cs as the scan has built them after n cells. */
  function Partial(cs: seq<Car>, n: int): seq<Car> {
    seq(Below(cs, n), i requires 0 <= i < Below(cs, n) => Trunc(cs[i], n))
  }

  /** With the cars sorted by first cell, the cars begun before cell n are a prefix. */
  lemma {:induction false} BelowSpec(cs: seq<Car>, n: int)
    requires forall i, j :: 0 <= i < j < |cs| ==> First(cs[i]) < First(cs[j])
    ensures forall i :: 0 <= i < |cs| ==> (i < Below(cs, n) <==> First(cs[i]) < n)
  {
    if |cs| > 0 && First(cs[0]) < n {
      var tail := cs[1..];
      assert forall i, j :: 0 <= i < j < |tail| ==> First(tail[i]) < First(tail[j]) by {
        forall i, j | 0 <= i < j < |tail| ensures First(tail[i]) < First(tail[j]) {
          assert tail[i] == cs[i + 1] && tail[j] == cs[j + 1];
        }
      }
      BelowSpec(tail, n);
      forall i | 1 <= i < |cs| ensures (i < Below(cs, n) <==> First(cs[i]) < n) {
        assert cs[i] == tail[i - 1];
      }
    } else if |cs| > 0 {
      forall i | 0 <= i < |cs| ensures First(cs[i]) >= n {
        if i > 0 { assert First(cs[0]) < First(cs[i]); }
      }
    }
  }

  /** Below is the length of the prefix of cars begun before cell n. */
  lemma BelowIs(cs: seq<Car>, n: int, j: nat)
    requires forall i, k :: 0 <= i < k < |cs| ==> First(cs[i]) < First(cs[k])
    requires j <= |cs| && (forall i :: 0 <= i < j ==> First(cs[i]) < n) && (j < |cs| ==> First(cs[j]) >= n)
    ensures Below(cs, n) == j
  {
    BelowSpec(cs, n);
    if j < |cs| { assert !(First(cs[j]) < n); }
    if j > 0 { assert First(cs[j - 1]) < n; }
  }

  /** The first cell of a car on the board is one of its cells. */
  lemma FirstCellCovered(c: Car)
    requires OnBoard(c, 6, 6)
    ensures First(c) % 6 == c.x && First(c) / 6 == c.y && c.Intersects(c.x, c.y)
    ensures 0 <= First(c) < 36
  {
  }

  /** Scanning one more cell adds one to a car's count exactly when the car covers that cell. */
  lemma SeenStep(c: Car, n: int)
    requires OnBoard(c, 6, 6) && 0 <= n
    ensures Seen(c, n + 1) == Seen(c, n) + (if c.Intersects(n % 6, n / 6) then 1 else 0)
    ensures c.Intersects(n % 6, n / 6) ==> First(c) <= n
                                           && (Seen(c, n) == 0 <==> n == First(c))
                                           && (n / 6 != c.y <==> c.orientation == Vertical && n != First(c))
  {
  }

  /** What one scan step means for car i of a canonical list. */
  lemma CarStep(cs: seq<Car>, n: nat, i: nat)
    requires Canonical(cs) && n < 36 && i < |cs|
    ensures Seen(cs[i], n + 1) == Seen(cs[i], n) + (if cs[i].Intersects(n % 6, n / 6) then 1 else 0)
    ensures cs[i].Intersects(n % 6, n / 6) ==> First(cs[i]) <= n && (Seen(cs[i], n) == 0 <==> n == First(cs[i]))
                                               && (n / 6 != cs[i].y <==> cs[i].orientation == Vertical && n != First(cs[i]))
    ensures First(cs[i]) == n ==> cs[i].Intersects(n % 6, n / 6) && cs[i].x == n % 6 && cs[i].y == n / 6
  {
    assert OnBoard(cs[i], 6, 6);
    SeenStep(cs[i], n);
    FirstCellCovered(cs[i]);
  }

  /** A cell no car covers changes nothing. */
  lemma LoadStepEmpty(cs: seq<Car>, n: nat)
    requires Canonical(cs) && n < 36 && !Occupied(cs, n % 6, n / 6)
    ensures Partial(cs, n + 1) == Partial(cs, n)
  {
    BelowSpec(cs, n);
    BelowSpec(cs, n + 1);
    var L, L' := Partial(cs, n), Partial(cs, n + 1);
    forall i | 0 <= i < |cs| ensures First(cs[i]) != n && Seen(cs[i], n + 1) == Seen(cs[i], n) {
      CarStep(cs, n, i);
    }
    BelowIs(cs, n + 1, |L|);
    assert |L'| == |L|;
    forall i | 0 <= i < |L| ensures L'[i] == L[i] {
    }
  }

  /** At the first cell of car i, the i cars before it have begun, and car i begins. */
  lemma StartIndex(cs: seq<Car>, n: nat, i: nat)
    requires Canonical(cs) && n < 36 && i < |cs| && First(cs[i]) == n
    ensures |Partial(cs, n)| == i && |Partial(cs, n + 1)| == i + 1
  {
    BelowIs(cs, n, i);
    BelowIs(cs, n + 1, i + 1);
  }

  /** The first cell of car i appends it as a one-cell horizontal car. */
  lemma LoadStepStart(cs: seq<Car>, n: nat, i: nat)
    requires Canonical(cs) && n < 36 && i < |cs| && First(cs[i]) == n
    ensures FirstWithId(Partial(cs, n), cs[i].id) == None
    ensures Partial(cs, n + 1) == Partial(cs, n) + [Car(cs[i].id, n % 6, n / 6, Horizontal, 1)]
  {
    StartIndex(cs, n, i);
    BelowSpec(cs, n);
    BelowSpec(cs, n + 1);
    var L, L' := Partial(cs, n), Partial(cs, n + 1);
    CarStep(cs, n, i);
    forall k | 0 <= k < |L| ensures L[k].id != cs[i].id && L'[k] == L[k] {
      CarStep(cs, n, k);
    }
  }

  /** Before a later cell of car i, the partial list already holds car i, found by its symbol. */
  lemma GrowFound(cs: seq<Car>, n: nat, i: nat)
    requires Canonical(cs) && n < 36 && i < |cs| && cs[i].Intersects(n % 6, n / 6) && First(cs[i]) != n
    ensures i < |Partial(cs, n)|
    ensures FirstWithId(Partial(cs, n), cs[i].id) == Some(i)
  {
    BelowSpec(cs, n);
    var L := Partial(cs, n);
    CarStep(cs, n, i);
    forall k | 0 <= k < i ensures L[k].id != cs[i].id { }
    FirstWithIdAt(L, cs[i].id, i);
  }

  /** A later cell of car i begins no car. */
  lemma GrowKeepsLength(cs: seq<Car>, n: nat, i: nat)
    requires Canonical(cs) && n < 36 && i < |cs| && cs[i].Intersects(n % 6, n / 6) && First(cs[i]) != n
    ensures |Partial(cs, n + 1)| == |Partial(cs, n)|
  {
    BelowSpec(cs, n);
    BelowSpec(cs, n + 1);
    CarStep(cs, n, i);
    forall k | 0 <= k < |cs| && k != i ensures First(cs[k]) != n {
      CarStep(cs, n, k);
    }
    BelowIs(cs, n + 1, Below(cs, n));
  }

  /** A later cell of car i, already begun, grows it. */
  lemma LoadStepGrow(cs: seq<Car>, n: nat, i: nat)
    requires Canonical(cs) && n < 36 && i < |cs| && cs[i].Intersects(n % 6, n / 6) && First(cs[i]) != n
    ensures i < |Partial(cs, n)|
    ensures FirstWithId(Partial(cs, n), cs[i].id) == Some(i)
    ensures Partial(cs, n + 1) == Partial(cs, n)[i := Grow(Partial(cs, n)[i], n / 6)]
  {
    GrowFound(cs, n, i);
    GrowKeepsLength(cs, n, i);
    BelowSpec(cs, n);
    BelowSpec(cs, n + 1);
    var L, L' := Partial(cs, n), Partial(cs, n + 1);
    forall k | 0 <= k < |L'| ensures L'[k] == L[i := Grow(L[i], n / 6)][k] {
      CarStep(cs, n, k);
    }
  }

  /** Cell n of the rendering of a canonical list: '.' when empty, else the covering car's symbol. */
  lemma RenderedCell(cs: seq<Car>, n: nat)
    requires Canonical(cs) && n < 36
    ensures |Render(6, 6, cs)| == 36
    ensures !Occupied(cs, n % 6, n / 6) ==> Render(6, 6, cs)[n] == '.'
    ensures forall i :: 0 <= i < |cs| && cs[i].Intersects(n % 6, n / 6) ==> Render(6, 6, cs)[n] == cs[i].id
  {
    var col, row := n % 6, n / 6;
    assert n == row * 6 + col;
    assert AllInGrid(cs, 6, 6) by {
      forall i | 0 <= i < |cs| ensures InGrid(cs[i], 6, 6) { assert OnBoard(cs[i], 6, 6); }
    }
    RenderGlyph(6, 6, cs, col, row);
    GlyphOfCover(cs, col, row);
  }

  /** One scan step turns the partial list after n cells into the partial list after n + 1. */
  lemma LoadStep(cs: seq<Car>, n: nat)
    requires Canonical(cs) && n < 36
    ensures |Render(6, 6, cs)| == 36
    ensures LoadCell(Partial(cs, n), Render(6, 6, cs)[n], n % 6, n / 6) == Partial(cs, n + 1)
  {
    RenderedCell(cs, n);
    if !Occupied(cs, n % 6, n / 6) {
      LoadStepEmpty(cs, n);
    } else {
      var i :| 0 <= i < |cs| && cs[i].Intersects(n % 6, n / 6);
      if First(cs[i]) == n {
        LoadStepStart(cs, n, i);
      } else {
        LoadStepGrow(cs, n, i);
      }
    }
  }

  /** Loading the first n cells of the rendering of a canonical list rebuilds its partial list. */
  lemma {:induction false} LoadPrefix(cs: seq<Car>, n: nat)
    requires Canonical(cs) && n <= 36
    ensures |Render(6, 6, cs)| == 36 && LoadFrom(Render(6, 6, cs), n) == Partial(cs, n)
  {
    if n == 0 {
      BelowSpec(cs, 0);
      forall i | 0 <= i < |cs| ensures First(cs[i]) >= 0 { assert OnBoard(cs[i], 6, 6); }
    } else {
      LoadPrefix(cs, n - 1);
      LoadStep(cs, n - 1);
    }
  }

  /** Loading the rendering of a canonical car list gives back exactly that list. */
  lemma LoadRender(cs: seq<Car>)
    requires Canonical(cs)
    ensures |Render(6, 6, cs)| == 36 && Load(Render(6, 6, cs)) == cs
  {
    LoadPrefix(cs, 36);
    BelowSpec(cs, 36);
    forall i | 0 <= i < |cs| ensures First(cs[i]) < 36 && Trunc(cs[i], 36) == cs[i] {
      assert OnBoard(cs[i], 6, 6);
    }
  }

  /** The round trip: loading a well-formed grid and rendering it returns the grid. */
  lemma RenderLoad(text: string)
    requires WellFormedGrid(text)
    ensures Render(6, 6, Load(text)) == text
  {
    var cs :| Canonical(cs) && Render(6, 6, cs) == text;
    LoadRender(cs);
  }
}
