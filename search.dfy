/**
 * The search space of the solver, as values: configurations joined by the moves the
 * generator produces, paths of such moves, and the finite set of keys the search can
 * ever visit from a given start.
 */
module Search {
  import opened Options
  import opened Cars
  import opened Configs
  import opened Moves

  /** b is the configuration of one of the moves generated on a (`findPossibleMoves`). */
  ghost predicate Next(w: int, h: int, a: seq<Car>, b: seq<Car>) {
    exists m :: 0 <= m < |Candidates(w, h, a)| && Candidates(w, h, a)[m].cars == b
  }

  /** b is generated on a by moving the car that ends up as car, by move cells. */
  ghost predicate Edge(w: int, h: int, a: seq<Car>, b: seq<Car>, car: Car, move: int) {
    exists m :: 0 <= m < |Candidates(w, h, a)| && Candidates(w, h, a)[m].cars == b
                && Candidates(w, h, a)[m].moved < |b| && b[Candidates(w, h, a)[m].moved] == car
                && Candidates(w, h, a)[m].delta == move
  }

  /** p is a sequence of configurations from root, each one move after the one before. */
  ghost predicate PathFrom(w: int, h: int, root: seq<Car>, p: seq<seq<Car>>) {
    |p| > 0 && p[0] == root && forall i :: 0 <= i < |p| - 1 ==> Next(w, h, p[i], p[i + 1])
  }

  /** Every car's x and y lie in [-b, b]. */
  predicate Bounded(cars: seq<Car>, b: int) {
    forall i :: 0 <= i < |cars| ==> -b <= cars[i].x <= b && -b <= cars[i].y <= b
  }

  function Abs(v: int): nat { if v < 0 then -v else v }

  function Max(a: nat, b: nat): nat { if a < b then b else a }

  /** A bound on the coordinates of every configuration reachable from cars on a w x h board. */
  function CoordBound(w: nat, h: nat, cars: seq<Car>): (b: nat)
    ensures b >= w && b >= h && Bounded(cars, b)
  {
    if |cars| == 0 then Max(w, h)
    else
      var c := cars[|cars| - 1];
      var b := Max(CoordBound(w, h, cars[..|cars| - 1]), Max(Abs(c.x), Abs(c.y)));
      assert forall i :: 0 <= i < |cars| - 1 ==> cars[i] == cars[..|cars| - 1][i];
      b
  }

  /** A generated position of a car lies within [-b, b] when the car and the board do. */
  lemma PositionBounded(w: int, h: int, cars: seq<Car>, i: nat, p: int, b: int)
    requires i < |cars| && p in CarPositions(w, h, cars, i)
    requires b >= w && b >= h && -b <= cars[i].Start() <= b
    ensures -b <= p <= b
  {
    var c := cars[i];
    BackPositionsSpec(cars, c, c.Start() - 1);
    ForwardPositionsSpec(cars, c, Limit(c, w, h), c.End() + 1);
    if p !in BackPositions(cars, c, c.Start() - 1) {
      assert p in ForwardPositions(cars, c, Limit(c, w, h), c.End() + 1);
    }
  }

  /** A move keeps every coordinate within a bound that covers the board. */
  lemma MoveStaysBounded(w: int, h: int, cars: seq<Car>, m: nat, b: int)
    requires b >= w && b >= h && Bounded(cars, b) && m < |Candidates(w, h, cars)|
    ensures Bounded(Candidates(w, h, cars)[m].cars, b)
  {
    var i, p := CandidateOrigin(w, h, cars, |cars|, m);
    PositionBounded(w, h, cars, i, p, b);
    var after := Candidates(w, h, cars)[m].cars;
    forall j | 0 <= j < |after| ensures -b <= after[j].x <= b && -b <= after[j].y <= b {
    }
  }

  /** Every key of a configuration with these shapes and coordinates in [-b, b]. */
  function Universe(shape: seq<ShapeEntry>, b: int): set<Key>
  {
    if |shape| == 0 then {[]}
    else set k, x, y | k in Universe(shape[1..], b) && -b <= x <= b && -b <= y <= b
                       :: [KeyEntry(shape[0].id, x, y)] + k
  }

  lemma {:induction false} KeyInUniverse(cars: seq<Car>, b: int)
    requires Bounded(cars, b)
    ensures KeyOf(cars) in Universe(Shape(cars), b)
  {
    if |cars| > 0 {
      var tail := cars[1..];
      assert Bounded(tail, b) by {
        forall i | 0 <= i < |tail| ensures -b <= tail[i].x <= b && -b <= tail[i].y <= b {
          assert tail[i] == cars[i + 1];
        }
      }
      KeyInUniverse(tail, b);
      assert Shape(cars)[1..] == Shape(tail);
      assert KeyOf(cars) == [KeyEntry(cars[0].id, cars[0].x, cars[0].y)] + KeyOf(tail);
    }
  }

  /** Adding elements of u to s leaves fewer elements of u outside it. */
  lemma DiffShrinks<T>(u: set<T>, s: set<T>, s': set<T>)
    requires s <= s' <= u && s != s'
    ensures |u - s'| < |u - s|
  {
    var e :| e in s' && e !in s;
    assert e in s' - s;
    assert u - s == (u - s') + (s' - s);
    assert (u - s') * (s' - s) == {};
  }

  /** Every configuration the search records has its key, the start's shapes and coordinates in [-b, b]. */
  ghost predicate ConfsOk(conf: map<Key, seq<Car>>, root: seq<Car>, b: int) {
    forall k :: k in conf ==> KeyOf(conf[k]) == k && Shape(conf[k]) == Shape(root) && Bounded(conf[k], b)
  }

  /** Adding a bounded configuration of the start's shape under its own key keeps the map consistent. */
  lemma ConfsAdd(conf: map<Key, seq<Car>>, root: seq<Car>, b: int, cars: seq<Car>)
    requires ConfsOk(conf, root, b) && Shape(cars) == Shape(root) && Bounded(cars, b)
    ensures ConfsOk(conf[KeyOf(cars) := cars], root, b)
  {
  }

  /** u holds the key of every configuration with these shapes and coordinates in [-b, b]. */
  ghost predicate Covers(u: set<Key>, shape: seq<ShapeEntry>, b: int) {
    forall cars :: Shape(cars) == shape && Bounded(cars, b) ==> KeyOf(cars) in u
  }

  /** There is a finite set of keys covering every bounded configuration of given shapes. */
  lemma FiniteCover(shape: seq<ShapeEntry>, b: int) returns (u: set<Key>)
    ensures Covers(u, shape, b)
  {
    u := Universe(shape, b);
    forall cars | Shape(cars) == shape && Bounded(cars, b) ensures KeyOf(cars) in u {
      KeyInUniverse(cars, b);
    }
  }

  /** Recording more such configurations leaves fewer keys of a cover unrecorded. */
  lemma Shrinks(conf: map<Key, seq<Car>>, conf': map<Key, seq<Car>>, root: seq<Car>, b: int, u: set<Key>)
    requires Covers(u, Shape(root), b)
    requires ConfsOk(conf', root, b) && conf.Keys <= conf'.Keys && conf.Keys != conf'.Keys
    ensures |u - conf'.Keys| < |u - conf.Keys|
  {
    forall k | k in conf' ensures k in u {
      assert KeyOf(conf'[k]) == k;
    }
    DiffShrinks(u, conf.Keys, conf'.Keys);
  }

  /** Configurations with the same shapes have the same main car. */
  lemma SameShapeMain(a: seq<Car>, b: seq<Car>)
    requires Shape(a) == Shape(b)
    ensures LastMain(a) == LastMain(b)
  {
    assert |a| == |Shape(a)| == |Shape(b)| == |b|;
    forall i | 0 <= i < |a| ensures a[i].id == b[i].id {
      assert Shape(a)[i] == Shape(b)[i];
    }
    LastMainSameIds(a, b);
  }

  /**
   * A breadth-first search so far, as values: the visited keys, the expanded ones among
   * them, the configuration of each key and the number of moves the search found from
   * the start to it. Every expanded configuration is unsolved and all of its moves lead
   * to visited keys at most one move further.
   */
  ghost predicate Explored(w: int, h: int, root: seq<Car>, visited: set<Key>, done: set<Key>,
                           conf: map<Key, seq<Car>>, dist: map<Key, nat>)
  {
    KeyOf(root) in visited && visited <= conf.Keys && visited <= dist.Keys && done <= visited
    && conf[KeyOf(root)] == root && dist[KeyOf(root)] == 0
    && (forall k :: k in visited ==> KeyOf(conf[k]) == k && Shape(conf[k]) == Shape(root))
    && (forall k :: k in done ==> !Solved(w, conf[k]))
    && (forall k, m :: k in done && 0 <= m < |Candidates(w, h, conf[k])| ==>
          KeyOf(Candidates(w, h, conf[k])[m].cars) in visited
          && dist[KeyOf(Candidates(w, h, conf[k])[m].cars)] <= dist[k] + 1)
  }

  /**
   * Along a path from the start, as long as the steps stay below the distance d that
   * every visited but unexpanded key has reached, each configuration is visited and was
   * found at most as many moves from the start as its place on the path.
   */
  lemma {:induction false} VisitedAlongPath(w: int, h: int, root: seq<Car>, visited: set<Key>, done: set<Key>,
                                            conf: map<Key, seq<Car>>, dist: map<Key, nat>, d: int,
                                            p: seq<seq<Car>>, n: nat)
    requires Explored(w, h, root, visited, done, conf, dist)
    requires forall k :: k in visited && k !in done ==> dist[k] >= d
    requires PathFrom(w, h, root, p) && 1 <= n <= |p| && n - 1 <= d
    ensures KeyOf(p[n - 1]) in visited && conf[KeyOf(p[n - 1])] == p[n - 1] && dist[KeyOf(p[n - 1])] <= n - 1
    decreases n
  {
    if n > 1 {
      VisitedAlongPath(w, h, root, visited, done, conf, dist, d, p, n - 1);
      var a := p[n - 2];
      var ka := KeyOf(a);
      assert ka in done;
      assert Next(w, h, a, p[n - 1]);
      var m :| 0 <= m < |Candidates(w, h, a)| && Candidates(w, h, a)[m].cars == p[n - 1];
      MovePreservesShape(w, h, a, m);
      KeyDeterminesConfig(conf[KeyOf(p[n - 1])], p[n - 1]);
    }
  }

  /** A search that expanded every visited key without meeting a solved configuration shows none is reachable. */
  lemma NoReachableSolution(w: int, h: int, root: seq<Car>, visited: set<Key>, done: set<Key>,
                            conf: map<Key, seq<Car>>, dist: map<Key, nat>, p: seq<seq<Car>>)
    requires Explored(w, h, root, visited, done, conf, dist) && visited == done
    requires PathFrom(w, h, root, p)
    ensures !Solved(w, p[|p| - 1])
  {
    VisitedAlongPath(w, h, root, visited, done, conf, dist, |p|, p, |p|);
  }

  /** Every key in keys is that of a configuration some path from root ends on. */
  ghost predicate AllReachable(w: int, h: int, root: seq<Car>, keys: set<Key>) {
    forall k :: k in keys ==> exists p :: PathFrom(w, h, root, p) && KeyOf(p[|p| - 1]) == k
  }

  /** The configuration every path from root ends on has its key in keys. */
  ghost predicate AllRecorded(w: int, h: int, root: seq<Car>, keys: set<Key>) {
    forall p :: PathFrom(w, h, root, p) ==> KeyOf(p[|p| - 1]) in keys
  }

  /** A search that expanded every visited key has visited every configuration reachable from the start. */
  lemma ExhaustedRecordsAll(w: int, h: int, root: seq<Car>, visited: set<Key>, done: set<Key>,
                            conf: map<Key, seq<Car>>, dist: map<Key, nat>)
    requires Explored(w, h, root, visited, done, conf, dist) && visited == done
    ensures AllRecorded(w, h, root, visited)
  {
    forall p | PathFrom(w, h, root, p) ensures KeyOf(p[|p| - 1]) in visited {
      VisitedAlongPath(w, h, root, visited, done, conf, dist, |p|, p, |p|);
    }
  }

  /**
   * When every visited but unexpanded key lies at least d moves from the start, every
   * path from the start to a solved configuration takes at least d moves.
   */
  lemma NoShorterSolution(w: int, h: int, root: seq<Car>, visited: set<Key>, done: set<Key>,
                          conf: map<Key, seq<Car>>, dist: map<Key, nat>, d: int, p: seq<seq<Car>>)
    requires Explored(w, h, root, visited, done, conf, dist)
    requires forall k :: k in visited && k !in done ==> dist[k] >= d
    requires PathFrom(w, h, root, p) && Solved(w, p[|p| - 1])
    ensures |p| - 1 >= d
  {
    if |p| - 1 < d {
      VisitedAlongPath(w, h, root, visited, done, conf, dist, d, p, |p|);
    }
  }

  /**
   * Expanding a visited, unsolved key k whose moves all lead to keys now visited, at most
   * one move further, keeps the search explored, with k counted as expanded.
   */
  lemma ExploredStep(w: int, h: int, root: seq<Car>, visited: set<Key>, done: set<Key>,
                     conf: map<Key, seq<Car>>, dist: map<Key, nat>,
                     visited': set<Key>, conf': map<Key, seq<Car>>, dist': map<Key, nat>, k: Key)
    requires Explored(w, h, root, visited, done, conf, dist)
    requires visited <= visited' <= conf'.Keys && visited' <= dist'.Keys
    requires forall j :: j in visited ==> conf'[j] == conf[j] && dist'[j] == dist[j]
    requires forall j :: j in visited' ==> KeyOf(conf'[j]) == j && Shape(conf'[j]) == Shape(root)
    requires k in visited && !Solved(w, conf[k])
    requires forall m :: 0 <= m < |Candidates(w, h, conf[k])| ==>
               KeyOf(Candidates(w, h, conf[k])[m].cars) in visited'
               && dist'[KeyOf(Candidates(w, h, conf[k])[m].cars)] <= dist[k] + 1
    ensures Explored(w, h, root, visited', done + {k}, conf', dist')
  {
    forall j, m | j in done + {k} && 0 <= m < |Candidates(w, h, conf'[j])|
      ensures KeyOf(Candidates(w, h, conf'[j])[m].cars) in visited'
              && dist'[KeyOf(Candidates(w, h, conf'[j])[m].cars)] <= dist'[j] + 1
    {
      if j != k {
        assert KeyOf(Candidates(w, h, conf[j])[m].cars) in visited;
      }
    }
  }

  /**
   * Breadth-first order of the queue keys qk: their distances never decrease and span at
   * most one, every visited key is expanded or queued, and the expanded keys lie no
   * further from the start than the head of the queue.
   */
  ghost predicate Layered(visited: set<Key>, done: set<Key>, qk: seq<Key>, dist: map<Key, nat>)
  {
    visited <= dist.Keys && done <= visited
    && (forall j :: 0 <= j < |qk| ==> qk[j] in visited)
    && (forall k :: k in visited ==> k in done || k in qk)
    && (forall i, j :: 0 <= i < j < |qk| ==> dist[qk[i]] <= dist[qk[j]])
    && (|qk| > 0 ==> dist[qk[|qk| - 1]] <= dist[qk[0]] + 1 && forall k :: k in done ==> dist[k] <= dist[qk[0]])
  }

  /** Seen from the head of the queue, every visited key is at most one move further, and an unexpanded one no nearer. */
  lemma LayeredHead(visited: set<Key>, done: set<Key>, qk: seq<Key>, dist: map<Key, nat>)
    requires Layered(visited, done, qk, dist) && |qk| > 0
    ensures forall k :: k in visited ==> dist[k] <= dist[qk[0]] + 1
    ensures forall k :: k in visited && k !in done ==> dist[k] >= dist[qk[0]]
  {
    forall k | k in visited ensures dist[k] <= dist[qk[0]] + 1 && (k !in done ==> dist[k] >= dist[qk[0]]) {
      if k !in done {
        var j :| 0 <= j < |qk| && qk[j] == k;
        if j > 0 {
          assert dist[qk[j]] <= dist[qk[|qk| - 1]];
        }
      }
    }
  }

  /**
   * The queue keys grew from qs to qs' by appending exactly the keys that joined the
   * visited set s to make s', each found d moves from the start; nothing was appended
   * when no key joined.
   */
  ghost predicate Grown(s: set<Key>, qs: seq<Key>, s': set<Key>, qs': seq<Key>, dist': map<Key, nat>, d: nat) {
    s <= s' && |qs| <= |qs'| && qs'[..|qs|] == qs
    && (forall j :: |qs| <= j < |qs'| ==> qs'[j] in s' && qs'[j] !in s && qs'[j] in dist' && dist'[qs'[j]] == d)
    && (forall k :: k in s' ==> k in s || k in qs'[|qs|..])
    && (s' == s ==> qs' == qs)
  }

  /** Visiting one more key at distance d and queueing it keeps the growth exact. */
  lemma GrownAdd(s: set<Key>, qs: seq<Key>, s1: set<Key>, qs1: seq<Key>, dist1: map<Key, nat>,
                 d: nat, k: Key, dist2: map<Key, nat>)
    requires Grown(s, qs, s1, qs1, dist1, d) && k !in s1
    requires dist2 == dist1[k := d]
    ensures Grown(s, qs, s1 + {k}, qs1 + [k], dist2, d)
  {
    var qs2 := qs1 + [k];
    assert qs2[..|qs|] == qs1[..|qs|];
    assert k in s1 + {k} && k !in s;
    forall j | |qs| <= j < |qs2| ensures qs2[j] in s1 + {k} && qs2[j] !in s && qs2[j] in dist2 && dist2[qs2[j]] == d {
      if j < |qs1| {
        assert qs2[j] == qs1[j];
      }
    }
    forall x | x in s1 + {k} ensures x in s || x in qs2[|qs|..] {
      if x == k {
        assert qs2[|qs2| - 1] == k;
      } else if x !in s {
        var j :| 0 <= j < |qs1[|qs|..]| && qs1[|qs|..][j] == x;
        assert qs2[|qs| + j] == x;
      }
    }
  }

  /**
   * Popping the head of qk, expanding it and appending the newly visited keys, each one
   * move further than the popped key, keeps the breadth-first order.
   */
  lemma LayeredStep(visited: set<Key>, done: set<Key>, qk: seq<Key>, dist: map<Key, nat>,
                    visited': set<Key>, qk': seq<Key>, dist': map<Key, nat>)
    requires Layered(visited, done, qk, dist) && |qk| > 0
    requires visited <= visited' <= dist'.Keys && forall j :: j in visited ==> dist'[j] == dist[j]
    requires Grown(visited, qk[1..], visited', qk', dist', dist[qk[0]] + 1)
    ensures Layered(visited', done + {qk[0]}, qk', dist')
  {
    LayeredHead(visited, done, qk, dist);
    StepRange(visited, done, qk, dist, visited', qk', dist');
    StepSorted(visited, done, qk, dist, visited', qk', dist');
    StepCovers(visited, done, qk, dist, visited', qk', dist');
  }

  /** After the step every queue key is visited and lies d or d + 1 moves out, d the popped key's distance. */
  lemma StepRange(visited: set<Key>, done: set<Key>, qk: seq<Key>, dist: map<Key, nat>,
                  visited': set<Key>, qk': seq<Key>, dist': map<Key, nat>)
    requires Layered(visited, done, qk, dist) && |qk| > 0
    requires visited <= visited' <= dist'.Keys && forall j :: j in visited ==> dist'[j] == dist[j]
    requires Grown(visited, qk[1..], visited', qk', dist', dist[qk[0]] + 1)
    ensures forall j :: 0 <= j < |qk'| ==> qk'[j] in visited' && dist[qk[0]] <= dist'[qk'[j]] <= dist[qk[0]] + 1
  {
  }

  /** After the step the queue keys' distances still never decrease. */
  lemma StepSorted(visited: set<Key>, done: set<Key>, qk: seq<Key>, dist: map<Key, nat>,
                   visited': set<Key>, qk': seq<Key>, dist': map<Key, nat>)
    requires Layered(visited, done, qk, dist) && |qk| > 0
    requires visited <= visited' <= dist'.Keys && forall j :: j in visited ==> dist'[j] == dist[j]
    requires Grown(visited, qk[1..], visited', qk', dist', dist[qk[0]] + 1)
    ensures forall i, j :: 0 <= i < j < |qk'| ==> dist'[qk'[i]] <= dist'[qk'[j]]
  {
  }

  /** After the step every visited key is expanded or still queued. */
  lemma StepCovers(visited: set<Key>, done: set<Key>, qk: seq<Key>, dist: map<Key, nat>,
                   visited': set<Key>, qk': seq<Key>, dist': map<Key, nat>)
    requires Layered(visited, done, qk, dist) && |qk| > 0
    requires visited <= visited' <= dist'.Keys
    requires Grown(visited, qk[1..], visited', qk', dist', dist[qk[0]] + 1)
    ensures forall k :: k in visited' ==> k in done + {qk[0]} || k in qk'
  {
  }
}
