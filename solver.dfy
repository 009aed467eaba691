/**
 * The solver: a breadth-first search from a start board. `states` maps the key of every
 * board seen to the way it was first reached (parent board, changed car, move); a FIFO
 * queue holds the boards still to expand. On reaching a solved board the path back to
 * the start is rebuilt from the parent links.
 */
module Solving {
  import opened Options
  import opened Cars
  import opened Configs
  import opened Moves
  import opened Boards
  import opened Search

  /** How a state was first reached: `{parent, car, move}`, all None for the start. */
  datatype StateRec = StateRec(parent: Option<Board>, car: Option<Car>, move: Option<int>)

  /** One entry of the solution: a board, and the car moved and by how much to reach it. */
  datatype Step = Step(board: Board, car: Option<Car>, move: Option<int>)

  /** Each entry after the first is reached from the one before by its recorded move. */
  ghost predicate Chain(w: int, h: int, path: seq<Step>)
    reads set i | 0 <= i < |path| :: path[i].board
  {
    forall i :: 1 <= i < |path| ==>
      path[i].car.Some? && path[i].move.Some?
      && Edge(w, h, path[i - 1].board.cars, path[i].board.cars, path[i].car.value, path[i].move.value)
  }

  /** Prepending the board a move started from extends a chain. */
  lemma ChainStep(w: int, h: int, p: Board, t: Board, car: Car, move: int, rest: seq<Step>)
    requires Chain(w, h, [Step(t, None, None)] + rest)
    requires Edge(w, h, p.cars, t.cars, car, move)
    ensures Chain(w, h, [Step(p, None, None)] + ([Step(t, Some(car), Some(move))] + rest))
  {
    var old_ := [Step(t, None, None)] + rest;
    var new_ := [Step(p, None, None)] + ([Step(t, Some(car), Some(move))] + rest);
    forall i | 2 <= i < |new_|
      ensures new_[i].car.Some? && new_[i].move.Some?
              && Edge(w, h, new_[i - 1].board.cars, new_[i].board.cars, new_[i].car.value, new_[i].move.value)
    {
      assert new_[i] == old_[i - 1] && new_[i - 1].board == old_[i - 2].board;
    }
  }

  /** A chain only depends on the configuration of its first board. */
  lemma ChainHead(w: int, h: int, a: Board, b: Board, rest: seq<Step>)
    requires Chain(w, h, [Step(a, None, None)] + rest) && a.cars == b.cars
    ensures Chain(w, h, [Step(b, None, None)] + rest)
  {
    var old_ := [Step(a, None, None)] + rest;
    var new_ := [Step(b, None, None)] + rest;
    forall i | 1 <= i < |new_|
      ensures new_[i].car.Some? && new_[i].move.Some?
              && Edge(w, h, new_[i - 1].board.cars, new_[i].board.cars, new_[i].car.value, new_[i].move.value)
    {
      assert new_[i] == old_[i] && new_[i - 1].board.cars == old_[i - 1].board.cars;
    }
  }

  /** The queue's boards are valid w x h boards holding the configurations of the keys qk. */
  ghost predicate Queued(queue: seq<Board>, qk: seq<Key>, conf: map<Key, seq<Car>>, w: nat, h: nat)
    reads set j | 0 <= j < |queue| :: queue[j]
  {
    |queue| == |qk|
    && forall j :: 0 <= j < |queue| ==>
         queue[j].Valid() && queue[j].width == w && queue[j].height == h
         && qk[j] in conf && conf[qk[j]] == queue[j].cars
  }

  /** The parent boards recorded in a states map. */
  ghost function ParentsOf(st: map<Key, StateRec>): set<Board> {
    set k | k in st && st[k].parent.Some? :: st[k].parent.value
  }

  /**
   * State k was first reached by a generated move from its parent's configuration, which
   * is itself recorded, and lies one move further from the start than it (conf: the
   * configuration of each key, dist: the number of moves to it along the parent links).
   */
  ghost predicate LinkedAt(w: int, h: int, st: map<Key, StateRec>, k: Key, conf: map<Key, seq<Car>>, dist: map<Key, nat>)
    requires k in st
    reads ParentsOf(st)
  {
    var s := st[k];
    s.parent.Some? && s.car.Some? && s.move.Some?
    && var pk := KeyOf(s.parent.value.cars);
    pk in st && pk in conf && pk in dist && k in conf && k in dist
    && conf[pk] == s.parent.value.cars && dist[k] == dist[pk] + 1
    && Edge(w, h, conf[pk], conf[k], s.car.value, s.move.value)
  }

  /** The parent links: the start's entry rk is empty and every other entry leads back towards it. */
  ghost predicate Tree(w: int, h: int, st: map<Key, StateRec>, rk: Key, conf: map<Key, seq<Car>>, dist: map<Key, nat>)
    reads ParentsOf(st)
  {
    rk in st && st[rk] == StateRec(None, None, None) && rk in dist && dist[rk] == 0
    && st.Keys == conf.Keys && st.Keys == dist.Keys
    && forall k {:trigger LinkedAt(w, h, st, k, conf, dist)} :: k in st && k != rk ==> LinkedAt(w, h, st, k, conf, dist)
  }

  /** Recording a new key reached from the recorded board p by a generated move keeps the parent links. */
  lemma TreeAdd(w: int, h: int, st: map<Key, StateRec>, rk: Key, conf: map<Key, seq<Car>>, dist: map<Key, nat>,
                p: Board, pk: Key, car: Car, move: int, cars: seq<Car>, key: Key, d: nat)
    requires Tree(w, h, st, rk, conf, dist)
    requires pk == KeyOf(p.cars) && pk in conf && conf[pk] == p.cars && d == dist[pk] + 1
    requires key == KeyOf(cars) && key !in st && Edge(w, h, p.cars, cars, car, move)
    ensures Tree(w, h, st[key := StateRec(Some(p), Some(car), Some(move))], rk, conf[key := cars], dist[key := d])
  {
    var st', conf', dist' := st[key := StateRec(Some(p), Some(car), Some(move))], conf[key := cars], dist[key := d];
    forall k | k in st' && k != rk ensures LinkedAt(w, h, st', k, conf', dist') {
      if k != key {
        assert LinkedAt(w, h, st, k, conf, dist);
      }
    }
  }

  /** Queueing a valid board under a new key keeps the queue matched with its keys. */
  lemma QueuedAdd(queue: seq<Board>, qk: seq<Key>, conf: map<Key, seq<Car>>, w: nat, h: nat, nb: Board)
    requires Queued(queue, qk, conf, w, h) && KeyOf(nb.cars) !in conf
    requires nb.Valid() && nb.width == w && nb.height == h
    ensures Queued(queue + [nb], qk + [KeyOf(nb.cars)], conf[KeyOf(nb.cars) := nb.cars], w, h)
  {
    var queue', qk' := queue + [nb], qk + [KeyOf(nb.cars)];
    forall j | 0 <= j < |queue'|
      ensures queue'[j].Valid() && queue'[j].width == w && queue'[j].height == h
              && qk'[j] in conf[KeyOf(nb.cars) := nb.cars] && conf[KeyOf(nb.cars) := nb.cars][qk'[j]] == queue'[j].cars
    {
      if j < |queue| {
        assert queue'[j] == queue[j] && qk'[j] == qk[j];
      }
    }
  }

  /**
   * What `solve` promises of its result r for the start board start, whose cars are root:
   * None when no sequence of moves reaches a solved configuration; otherwise a moves list
   * from the start's empty entry, along generated moves, to a solved board, no longer
   * than any sequence of moves to a solved configuration; a solved start answers itself.
   */
  ghost predicate Answers(w: nat, h: nat, root: seq<Car>, start: Board, r: Option<seq<Step>>)
    reads if r.Some? then set i | 0 <= i < |r.value| :: r.value[i].board else {}
  {
    (r.None? ==> forall p :: PathFrom(w, h, root, p) ==> !Solved(w, p[|p| - 1]))
    && (r.Some? ==> |r.value| >= 1 && r.value[0] == Step(start, None, None)
                    && Chain(w, h, r.value) && Solved(w, r.value[|r.value| - 1].board.cars)
                    && forall p :: PathFrom(w, h, root, p) && Solved(w, p[|p| - 1]) ==> |r.value| <= |p|)
    && (Solved(w, root) ==> r == Some([Step(start, None, None)]))
  }

  /** The search state is consistent: parent links, recorded configurations and the queue. */
  ghost predicate SearchOk(w: nat, h: nat, root: seq<Car>, B: int, rk: Key,
                           st: map<Key, StateRec>, queue: seq<Board>, qk: seq<Key>, conf: map<Key, seq<Car>>, dist: map<Key, nat>)
    reads ParentsOf(st), set j | 0 <= j < |queue| :: queue[j]
  {
    Tree(w, h, st, rk, conf, dist) && ConfsOk(conf, root, B) && Queued(queue, qk, conf, w, h)
  }

  /** Recording the generated move c from the board b, recorded under bk, as a new state keeps the search state consistent. */
  lemma SearchOkAdd(w: nat, h: nat, root: seq<Car>, B: int, rk: Key,
                    st: map<Key, StateRec>, queue: seq<Board>, qk: seq<Key>, conf: map<Key, seq<Car>>, dist: map<Key, nat>,
                    b: Board, bk: Key, rec: MoveRecord, c: Candidate, d: nat)
    requires SearchOk(w, h, root, B, rk, st, queue, qk, conf, dist)
    requires bk in conf && conf[bk] == b.cars && KeyOf(b.cars) == bk && d == dist[bk] + 1
    requires Produced(rec, c, w, h) && Edge(w, h, b.cars, c.cars, rec.car, rec.move)
    requires Shape(c.cars) == Shape(root) && Bounded(c.cars, B) && KeyOf(c.cars) !in st
    ensures SearchOk(w, h, root, B, rk, st[KeyOf(rec.board.cars) := StateRec(Some(b), Some(rec.car), Some(rec.move))],
                     queue + [rec.board], qk + [KeyOf(rec.board.cars)],
                     conf[KeyOf(rec.board.cars) := rec.board.cars], dist[KeyOf(rec.board.cars) := d])
  {
    TreeAdd(w, h, st, rk, conf, dist, b, bk, rec.car, rec.move, c.cars, KeyOf(c.cars), d);
    ConfsAdd(conf, root, B, c.cars);
    QueuedAdd(queue, qk, conf, w, h, rec.board);
  }

  /**
   * The expansion loop's bookkeeping after the first i generated moves cands, starting
   * from the states st0, queue keys qk0, configurations conf0 and distances dist0: old
   * entries are kept, the keys entered so far are queued with distance d (the expanded
   * board's distance plus one), and every move looked at so far has its key recorded.
   */
  ghost predicate Progress(d: nat, st0: map<Key, StateRec>, qk0: seq<Key>, conf0: map<Key, seq<Car>>, dist0: map<Key, nat>,
                           cands: seq<Candidate>, i: int,
                           st: map<Key, StateRec>, qk: seq<Key>, conf: map<Key, seq<Car>>, dist: map<Key, nat>)
  {
    (forall k :: k in conf0 ==> k in conf && conf[k] == conf0[k] && k in dist0 && k in dist && dist[k] == dist0[k])
    && (forall k :: k in st0 ==> k in st && st[k] == st0[k])
    && Grown(st0.Keys, qk0, st.Keys, qk, dist, d)
    && (forall k :: k in st ==> k in dist && dist[k] <= d)
    && 0 <= i <= |cands|
    && (forall m :: 0 <= m < i ==> KeyOf(cands[m].cars) in st)
  }

  /** Passing over the i-th move, whose key is already recorded, keeps the bookkeeping. */
  lemma ProgressSkip(d: nat, st0: map<Key, StateRec>, qk0: seq<Key>, conf0: map<Key, seq<Car>>, dist0: map<Key, nat>,
                     cands: seq<Candidate>, i: int,
                     st: map<Key, StateRec>, qk: seq<Key>, conf: map<Key, seq<Car>>, dist: map<Key, nat>)
    requires Progress(d, st0, qk0, conf0, dist0, cands, i, st, qk, conf, dist)
    requires i < |cands| && KeyOf(cands[i].cars) in st
    ensures Progress(d, st0, qk0, conf0, dist0, cands, i + 1, st, qk, conf, dist)
  {
  }

  /** Entering the i-th move's new key keeps the bookkeeping. */
  lemma ProgressAdd(d: nat, st0: map<Key, StateRec>, qk0: seq<Key>, conf0: map<Key, seq<Car>>, dist0: map<Key, nat>,
                    cands: seq<Candidate>, i: int,
                    st: map<Key, StateRec>, qk: seq<Key>, conf: map<Key, seq<Car>>, dist: map<Key, nat>,
                    v: StateRec, cars: seq<Car>)
    requires Progress(d, st0, qk0, conf0, dist0, cands, i, st, qk, conf, dist)
    requires i < |cands| && KeyOf(cands[i].cars) !in st && st.Keys == conf.Keys == dist.Keys
    ensures Progress(d, st0, qk0, conf0, dist0, cands, i + 1, st[KeyOf(cands[i].cars) := v], qk + [KeyOf(cands[i].cars)],
                     conf[KeyOf(cands[i].cars) := cars], dist[KeyOf(cands[i].cars) := d])
  {
    var key := KeyOf(cands[i].cars);
    GrownAdd(st0.Keys, qk0, st.Keys, qk, dist, d, key, dist[key := d]);
    assert st[key := v].Keys == st.Keys + {key};
    forall m | 0 <= m < i + 1 ensures KeyOf(cands[m].cars) in st[key := v] {
      if m < i {
        assert KeyOf(cands[m].cars) in st;
      }
    }
  }

  /** The records moves are the generated moves cands. */
  ghost predicate ProducedAll(moves: seq<MoveRecord>, cands: seq<Candidate>, w: nat, h: nat)
    reads set m | 0 <= m < |moves| :: moves[m].board
  {
    |moves| == |cands| && forall m :: 0 <= m < |moves| ==> Produced(moves[m], cands[m], w, h)
  }

  /** The expansion loop's invariant after the first i moves. */
  ghost predicate ExpandInv(w: nat, h: nat, root: seq<Car>, B: int, rk: Key, d: nat,
                            st0: map<Key, StateRec>, qk0: seq<Key>, conf0: map<Key, seq<Car>>, dist0: map<Key, nat>,
                            moves: seq<MoveRecord>, cands: seq<Candidate>, i: int,
                            st: map<Key, StateRec>, queue: seq<Board>, qk: seq<Key>, conf: map<Key, seq<Car>>, dist: map<Key, nat>)
    reads ParentsOf(st), set j | 0 <= j < |queue| :: queue[j], set m | 0 <= m < |moves| :: moves[m].board
  {
    SearchOk(w, h, root, B, rk, st, queue, qk, conf, dist)
    && Progress(d, st0, qk0, conf0, dist0, cands, i, st, qk, conf, dist)
    && ProducedAll(moves, cands, w, h)
  }

  /** Before the expansion loop its invariant holds of the unchanged search state. */
  lemma ExpandStart(w: nat, h: nat, root: seq<Car>, B: int, rk: Key, d: nat,
                    st: map<Key, StateRec>, qk: seq<Key>, conf: map<Key, seq<Car>>, dist: map<Key, nat>, queue: seq<Board>,
                    moves: seq<MoveRecord>, cands: seq<Candidate>)
    requires SearchOk(w, h, root, B, rk, st, queue, qk, conf, dist)
    requires forall k :: k in st ==> dist[k] <= d
    requires ProducedAll(moves, cands, w, h)
    ensures ExpandInv(w, h, root, B, rk, d, st, qk, conf, dist, moves, cands, 0, st, queue, qk, conf, dist)
  {
  }

  /** Recording the i-th move, whose key is new, keeps the expansion loop's invariant. */
  lemma ExpandAdd(w: nat, h: nat, root: seq<Car>, B: int, rk: Key, d: nat,
                  st0: map<Key, StateRec>, qk0: seq<Key>, conf0: map<Key, seq<Car>>, dist0: map<Key, nat>,
                  moves: seq<MoveRecord>, cands: seq<Candidate>, i: int,
                  st: map<Key, StateRec>, queue: seq<Board>, qk: seq<Key>, conf: map<Key, seq<Car>>, dist: map<Key, nat>,
                  b: Board, bk: Key)
    requires ExpandInv(w, h, root, B, rk, d, st0, qk0, conf0, dist0, moves, cands, i, st, queue, qk, conf, dist)
    requires bk in conf0 && conf0[bk] == b.cars && KeyOf(b.cars) == bk && d == dist0[bk] + 1
    requires cands == Candidates(w, h, b.cars) && B >= w && B >= h
    requires i < |moves| && KeyOf(moves[i].board.cars) !in st
    ensures ExpandInv(w, h, root, B, rk, d, st0, qk0, conf0, dist0, moves, cands, i + 1,
                      st[KeyOf(moves[i].board.cars) := StateRec(Some(b), Some(moves[i].car), Some(moves[i].move))],
                      queue + [moves[i].board], qk + [KeyOf(moves[i].board.cars)],
                      conf[KeyOf(moves[i].board.cars) := moves[i].board.cars], dist[KeyOf(moves[i].board.cars) := d])
  {
    var c := cands[i];
    assert Produced(moves[i], c, w, h);
    MovePreservesShape(w, h, b.cars, i);
    MoveStaysBounded(w, h, b.cars, i, B);
    assert Edge(w, h, b.cars, c.cars, moves[i].car, moves[i].move);
    SearchOkAdd(w, h, root, B, rk, st, queue, qk, conf, dist, b, bk, moves[i], c, d);
    ProgressAdd(d, st0, qk0, conf0, dist0, cands, i, st, qk, conf, dist,
                StateRec(Some(b), Some(moves[i].car), Some(moves[i].move)), moves[i].board.cars);
  }

  /** Passing over the i-th move, whose key is already recorded, keeps the expansion loop's invariant. */
  lemma ExpandSkip(w: nat, h: nat, root: seq<Car>, B: int, rk: Key, d: nat,
                   st0: map<Key, StateRec>, qk0: seq<Key>, conf0: map<Key, seq<Car>>, dist0: map<Key, nat>,
                   moves: seq<MoveRecord>, cands: seq<Candidate>, i: int,
                   st: map<Key, StateRec>, queue: seq<Board>, qk: seq<Key>, conf: map<Key, seq<Car>>, dist: map<Key, nat>)
    requires ExpandInv(w, h, root, B, rk, d, st0, qk0, conf0, dist0, moves, cands, i, st, queue, qk, conf, dist)
    requires i < |moves| && KeyOf(moves[i].board.cars) in st
    ensures ExpandInv(w, h, root, B, rk, d, st0, qk0, conf0, dist0, moves, cands, i + 1, st, queue, qk, conf, dist)
  {
    assert Produced(moves[i], cands[i], w, h);
    ProgressSkip(d, st0, qk0, conf0, dist0, cands, i, st, qk, conf, dist);
  }

  /**
   * The breadth-first bookkeeping of the search loop over the visited keys, the expanded
   * keys done and the queue keys qk: what Explored and Layered state, the recorded maps
   * cover exactly the visited keys, and a solved start is still the only thing queued.
   */
  ghost predicate SolveProgress(w: nat, h: nat, root: seq<Car>, start: Board, rk: Key, visited: set<Key>, queue: seq<Board>,
                                qk: seq<Key>, conf: map<Key, seq<Car>>, dist: map<Key, nat>, done: set<Key>)
  {
    Explored(w, h, root, visited, done, conf, dist) && Layered(visited, done, qk, dist)
    && visited == conf.Keys && visited == dist.Keys && |queue| == |qk|
    && (Solved(w, root) ==> queue == [start] && qk == [rk])
  }

  /** The search state before the first iteration: only the start is recorded and queued. */
  lemma SolveStart(w: nat, h: nat, root: seq<Car>, B: int, start: Board,
                   st: map<Key, StateRec>, queue: seq<Board>, qk: seq<Key>, conf: map<Key, seq<Car>>, dist: map<Key, nat>)
    requires start.Valid() && start.width == w && start.height == h && start.cars == root && Bounded(root, B)
    requires st == map[KeyOf(root) := StateRec(None, None, None)] && queue == [start] && qk == [KeyOf(root)]
    requires conf == map[KeyOf(root) := root] && dist == map[KeyOf(root) := 0]
    ensures SearchOk(w, h, root, B, KeyOf(root), st, queue, qk, conf, dist)
    ensures SolveProgress(w, h, root, start, KeyOf(root), st.Keys, queue, qk, conf, dist, {})
  {
    assert Queued(queue, qk, conf, w, h);
  }

  /** What the loop knows of the board it takes off the queue. */
  lemma SolvePop(w: nat, h: nat, root: seq<Car>, B: int, rk: Key, start: Board,
                 st: map<Key, StateRec>, queue: seq<Board>, qk: seq<Key>, conf: map<Key, seq<Car>>, dist: map<Key, nat>, done: set<Key>)
    requires SearchOk(w, h, root, B, rk, st, queue, qk, conf, dist)
    requires SolveProgress(w, h, root, start, rk, st.Keys, queue, qk, conf, dist, done)
    requires start.Valid() && start.mainCar.Some? && start.cars == root && rk == KeyOf(root) && |queue| > 0
    ensures queue[0].Valid() && queue[0].mainCar.Some? && queue[0].width == w && queue[0].height == h
    ensures qk[0] in conf && conf[qk[0]] == queue[0].cars && KeyOf(queue[0].cars) == qk[0]
    ensures SearchOk(w, h, root, B, rk, st, queue[1..], qk[1..], conf, dist)
    ensures Tree(w, h, st, rk, conf, dist) && ConfsOk(conf, root, B) && rk == KeyOf(root) && conf[rk] == root
    ensures rk in st && st[rk] == StateRec(None, None, None)
    ensures forall k :: k in st ==> dist[k] <= dist[qk[0]] + 1
  {
    SameShapeMain(queue[0].cars, root);
    LayeredHead(st.Keys, done, qk, dist);
    assert Queued(queue[1..], qk[1..], conf, w, h) by {
      forall j | 0 <= j < |queue| - 1 ensures queue[1..][j] == queue[j + 1] && qk[1..][j] == qk[j + 1] { }
    }
  }

  /**
   * When the board taken off the queue, recorded under qk[0], is solved: no path from the
   * start reaches a solved configuration in fewer moves than its distance, and a solved
   * start is that board itself, at distance 0.
   */
  lemma SolveFound(w: nat, h: nat, root: seq<Car>, start: Board, rk: Key, visited: set<Key>, queue: seq<Board>,
                   qk: seq<Key>, conf: map<Key, seq<Car>>, dist: map<Key, nat>, done: set<Key>)
    requires SolveProgress(w, h, root, start, rk, visited, queue, qk, conf, dist, done)
    requires rk == KeyOf(root) && |qk| > 0
    ensures forall p :: PathFrom(w, h, root, p) && Solved(w, p[|p| - 1]) ==> |p| >= dist[qk[0]] + 1
    ensures Solved(w, root) ==> queue[0] == start && dist[qk[0]] == 0
  {
    LayeredHead(visited, done, qk, dist);
    forall p | PathFrom(w, h, root, p) && Solved(w, p[|p| - 1])
      ensures |p| >= dist[qk[0]] + 1
    {
      NoShorterSolution(w, h, root, visited, done, conf, dist, dist[qk[0]], p);
    }
  }

  /**
   * One expansion step of the search loop keeps its bookkeeping: the board recorded under
   * qk[0] is not solved and the expansion left the visited keys, queue keys and maps
   * grown as Expand promises. The visited keys only grow, and if they stay the same the
   * queue gets shorter.
   */
  lemma SolveStep(w: nat, h: nat, root: seq<Car>, B: int, U: set<Key>, start: Board, rk: Key,
                  visited: set<Key>, queue: seq<Board>, qk: seq<Key>, conf: map<Key, seq<Car>>, dist: map<Key, nat>, done: set<Key>,
                  visited': set<Key>, queue': seq<Board>, qk': seq<Key>, conf': map<Key, seq<Car>>, dist': map<Key, nat>)
    requires SolveProgress(w, h, root, start, rk, visited, queue, qk, conf, dist, done)
    requires rk == KeyOf(root) && |qk| > 0 && !Solved(w, conf[qk[0]]) && Covers(U, Shape(root), B)
    requires ConfsOk(conf', root, B) && visited' == conf'.Keys && visited' == dist'.Keys && |queue'| == |qk'|
    requires forall k :: k in conf ==> k in conf' && conf'[k] == conf[k] && k in dist && k in dist' && dist'[k] == dist[k]
    requires Grown(visited, qk[1..], visited', qk', dist', dist[qk[0]] + 1)
    requires forall m :: 0 <= m < |Candidates(w, h, conf[qk[0]])| ==>
               KeyOf(Candidates(w, h, conf[qk[0]])[m].cars) in visited'
               && dist'[KeyOf(Candidates(w, h, conf[qk[0]])[m].cars)] <= dist[qk[0]] + 1
    ensures SolveProgress(w, h, root, start, rk, visited', queue', qk', conf', dist', done + {qk[0]})
    ensures visited <= visited'
    ensures visited' != visited ==> |U - visited'| < |U - visited|
    ensures visited' == visited ==> |queue'| < |queue|
  {
    LayeredHead(visited, done, qk, dist);
    ExploredStep(w, h, root, visited, done, conf, dist, visited', conf', dist', qk[0]);
    LayeredStep(visited, done, qk, dist, visited', qk', dist');
    if visited' != visited {
      Shrinks(conf, conf', root, B, U);
    }
  }

  /**
   * An empty queue means every visited key was expanded, so no path from the start
   * reaches a solved configuration; the start's entry is still the empty one.
   */
  lemma SolveEnd(w: nat, h: nat, root: seq<Car>, B: int, start: Board, rk: Key, st: map<Key, StateRec>, queue: seq<Board>,
                 qk: seq<Key>, conf: map<Key, seq<Car>>, dist: map<Key, nat>, done: set<Key>)
    requires SearchOk(w, h, root, B, rk, st, queue, qk, conf, dist)
    requires SolveProgress(w, h, root, start, rk, st.Keys, queue, qk, conf, dist, done) && |queue| == 0
    ensures Answers(w, h, root, start, None)
    ensures rk in st && st[rk] == StateRec(None, None, None)
    ensures AllRecorded(w, h, root, st.Keys)
  {
    forall p | PathFrom(w, h, root, p) ensures !Solved(w, p[|p| - 1]) {
      NoReachableSolution(w, h, root, st.Keys, done, conf, dist, p);
    }
    ExhaustedRecordsAll(w, h, root, st.Keys, done, conf, dist);
  }

  /** Following the parent links from a recorded key k back to the start gives a path from the start to k's configuration. */
  lemma {:induction false} TreePath(w: nat, h: nat, root: seq<Car>, st: map<Key, StateRec>, rk: Key,
                                    conf: map<Key, seq<Car>>, dist: map<Key, nat>, k: Key) returns (p: seq<seq<Car>>)
    requires Tree(w, h, st, rk, conf, dist) && rk in conf && conf[rk] == root && k in st
    ensures PathFrom(w, h, root, p) && p[|p| - 1] == conf[k]
    decreases dist[k]
  {
    if k == rk {
      p := [root];
    } else {
      assert LinkedAt(w, h, st, k, conf, dist);
      var s := st[k];
      var pk := KeyOf(s.parent.value.cars);
      var q := TreePath(w, h, root, st, rk, conf, dist, pk);
      var m :| 0 <= m < |Candidates(w, h, conf[pk])| && Candidates(w, h, conf[pk])[m].cars == conf[k]
               && Candidates(w, h, conf[pk])[m].moved < |conf[k]| && conf[k][Candidates(w, h, conf[pk])[m].moved] == s.car.value
               && Candidates(w, h, conf[pk])[m].delta == s.move.value;
      assert Next(w, h, conf[pk], conf[k]);
      p := q + [conf[k]];
      forall i | 0 <= i < |p| - 1 ensures Next(w, h, p[i], p[i + 1]) {
        if i < |q| - 1 {
          assert p[i] == q[i] && p[i + 1] == q[i + 1];
        }
      }
    }
  }

  /** Every key the parent links record is that of a configuration reachable from the start. */
  lemma TreeReachable(w: nat, h: nat, root: seq<Car>, B: int, st: map<Key, StateRec>, rk: Key,
                      conf: map<Key, seq<Car>>, dist: map<Key, nat>)
    requires Tree(w, h, st, rk, conf, dist) && ConfsOk(conf, root, B) && rk in conf && conf[rk] == root
    ensures AllReachable(w, h, root, st.Keys)
  {
    forall k | k in st ensures exists p :: PathFrom(w, h, root, p) && KeyOf(p[|p| - 1]) == k {
      var p := TreePath(w, h, root, st, rk, conf, dist, k);
      assert KeyOf(p[|p| - 1]) == k;
    }
  }

  class Solver {
    /** The start board. */
    const board: Board
    /** The key of every board seen, with the way it was first reached. */
    var states: map<Key, StateRec>

    constructor (board: Board)
      ensures this.board == board
      ensures states == map[KeyOf(board.cars) := StateRec(None, None, None)]
    {
      this.board := board;
      var key := board.AsKey();
      states := map[key := StateRec(None, None, None)];
    }

    /**
     * Breadth-first search from the start board (`solve`). A result starts with the start
     * board's empty entry, follows generated moves and ends on a solved board, and no
     * sequence of moves reaches a solved board in fewer steps; None means no sequence of
     * moves from the start reaches a solved board. The states map keeps the start's empty
     * entry, and every key in it is that of a board reachable from the start; when the
     * answer is None it holds the key of every reachable board.
     */
    method Solve() returns (r: Option<seq<Step>>)
      requires board.Valid() && board.mainCar.Some?
      requires states == map[KeyOf(board.cars) := StateRec(None, None, None)]
      modifies this
      ensures r.None? ==> forall p :: PathFrom(board.width, board.height, board.cars, p) ==> !Solved(board.width, p[|p| - 1])
      ensures r.Some? ==> |r.value| >= 1 && r.value[0] == Step(board, None, None)
                          && Chain(board.width, board.height, r.value)
                          && Solved(board.width, r.value[|r.value| - 1].board.cars)
      ensures r.Some? ==> forall p :: PathFrom(board.width, board.height, board.cars, p) && Solved(board.width, p[|p| - 1])
                                      ==> |r.value| <= |p|
      ensures Solved(board.width, board.cars) ==> r == Some([Step(board, None, None)])
      ensures KeyOf(board.cars) in states && states[KeyOf(board.cars)] == StateRec(None, None, None)
      ensures AllReachable(board.width, board.height, board.cars, states.Keys)
      ensures r.None? ==> AllRecorded(board.width, board.height, board.cars, states.Keys)
    {
      var st;
      r, st := Search(states);
      states := st;
    }

    /**
     * The search loop of `solve` on the states map st0, returning its result and the
     * states map it leaves behind.
     */
    method Search(st0: map<Key, StateRec>) returns (r: Option<seq<Step>>, st: map<Key, StateRec>)
      requires board.Valid() && board.mainCar.Some?
      requires st0 == map[KeyOf(board.cars) := StateRec(None, None, None)]
      ensures Answers(board.width, board.height, board.cars, board, r)
      ensures KeyOf(board.cars) in st && st[KeyOf(board.cars)] == StateRec(None, None, None)
      ensures AllReachable(board.width, board.height, board.cars, st.Keys)
      ensures r.None? ==> AllRecorded(board.width, board.height, board.cars, st.Keys)
    {
      var w, h := board.width, board.height;
      ghost var root := board.cars;
      ghost var rk := KeyOf(root);
      ghost var B := CoordBound(w, h, root);
      ghost var U := FiniteCover(Shape(root), B);
      ghost var conf := map[rk := root];
      ghost var dist := map[rk := 0];
      ghost var done: set<Key> := {};
      ghost var qk := [rk];
      var queue := [board];
      st := st0;
      SolveStart(w, h, root, B, board, st, queue, qk, conf, dist);
      while |queue| != 0
        invariant board.cars == root
        invariant SearchOk(w, h, root, B, rk, st, queue, qk, conf, dist)
        invariant SolveProgress(w, h, root, board, rk, st.Keys, queue, qk, conf, dist, done)
        decreases |U - st.Keys|, |queue|
      {
        var b := queue[0];
        ghost var bk := qk[0];
        SolvePop(w, h, root, B, rk, board, st, queue, qk, conf, dist, done);
        if b.IsSolved() {
          TreeReachable(w, h, root, B, st, rk, conf, dist);
          var path := Finish(st, b, rk, queue, qk, conf, dist, done, B);
          return Some(path), st;
        }
        st, queue, qk, conf, dist := Advance(st, b, queue, qk, conf, dist, done, rk, U, B);
        done := done + {bk};
      }
      SolveEnd(w, h, root, B, board, rk, st, queue, qk, conf, dist, done);
      TreeReachable(w, h, root, B, st, rk, conf, dist);
      return None, st;
    }

    /**
     * The solved branch of the search loop: b, just taken off the queue, is solved, and
     * the moves list rebuilt from its parent links is a shortest solution.
     */
    method Finish(st: map<Key, StateRec>, b: Board, ghost rk: Key, ghost queue: seq<Board>, ghost qk: seq<Key>,
                  ghost conf: map<Key, seq<Car>>, ghost dist: map<Key, nat>, ghost done: set<Key>, ghost B: int)
      returns (path: seq<Step>)
      requires SolveProgress(board.width, board.height, board.cars, board, rk, st.Keys, queue, qk, conf, dist, done)
      requires Tree(board.width, board.height, st, rk, conf, dist) && ConfsOk(conf, board.cars, B)
      requires rk == KeyOf(board.cars) && conf[rk] == board.cars
      requires |queue| > 0 && b == queue[0] && qk[0] in conf && conf[qk[0]] == b.cars && KeyOf(b.cars) == qk[0]
      requires Solved(board.width, b.cars)
      ensures Answers(board.width, board.height, board.cars, board, Some(path))
    {
      SolveFound(board.width, board.height, board.cars, board, rk, st.Keys, queue, qk, conf, dist, done);
      path := Rebuild(st, b, rk, conf, dist, B);
      if Solved(board.width, board.cars) {
        assert path == [path[0]];
      }
    }

    /**
     * The rest of an iteration of the search loop when b, the head of the queue, is not
     * solved: b is taken off the queue and expanded. The loop's invariant is kept, with b
     * now expanded, and the search makes progress: it records a new key, or the queue
     * gets shorter.
     */
    method Advance(st: map<Key, StateRec>, b: Board, queue: seq<Board>, ghost qk: seq<Key>,
                   ghost conf: map<Key, seq<Car>>, ghost dist: map<Key, nat>, ghost done: set<Key>,
                   ghost rk: Key, ghost U: set<Key>, ghost B: int)
      returns (st': map<Key, StateRec>, queue': seq<Board>, ghost qk': seq<Key>, ghost conf': map<Key, seq<Car>>, ghost dist': map<Key, nat>)
      requires board.Valid() && board.mainCar.Some? && rk == KeyOf(board.cars)
      requires B == CoordBound(board.width, board.height, board.cars) && Covers(U, Shape(board.cars), B)
      requires SearchOk(board.width, board.height, board.cars, B, rk, st, queue, qk, conf, dist)
      requires SolveProgress(board.width, board.height, board.cars, board, rk, st.Keys, queue, qk, conf, dist, done)
      requires |queue| > 0 && b == queue[0] && !Solved(board.width, b.cars)
      ensures SearchOk(board.width, board.height, board.cars, B, rk, st', queue', qk', conf', dist')
      ensures SolveProgress(board.width, board.height, board.cars, board, rk, st'.Keys, queue', qk', conf', dist', done + {qk[0]})
      ensures forall k :: k in st ==> k in st' && st'[k] == st[k]
      ensures st'.Keys != st.Keys ==> |U - st'.Keys| < |U - st.Keys|
      ensures st'.Keys == st.Keys ==> |queue'| < |queue|
    {
      var moves := b.FindPossibleMoves();
      assert unchanged(board, ParentsOf(st), set j | 0 <= j < |queue| :: queue[j]);
      st', queue', qk', conf', dist' := ExpandHead(st, b, moves, queue, qk, conf, dist, done, rk, U, B);
    }

    /** The rest of `Advance` once the moves of b, the head of the queue, are generated: b is popped and expanded with them. */
    method ExpandHead(st: map<Key, StateRec>, b: Board, moves: seq<MoveRecord>, queue: seq<Board>, ghost qk: seq<Key>,
                      ghost conf: map<Key, seq<Car>>, ghost dist: map<Key, nat>, ghost done: set<Key>,
                      ghost rk: Key, ghost U: set<Key>, ghost B: int)
      returns (st': map<Key, StateRec>, queue': seq<Board>, ghost qk': seq<Key>, ghost conf': map<Key, seq<Car>>, ghost dist': map<Key, nat>)
      requires board.Valid() && board.mainCar.Some? && rk == KeyOf(board.cars)
      requires B == CoordBound(board.width, board.height, board.cars) && Covers(U, Shape(board.cars), B)
      requires SearchOk(board.width, board.height, board.cars, B, rk, st, queue, qk, conf, dist)
      requires SolveProgress(board.width, board.height, board.cars, board, rk, st.Keys, queue, qk, conf, dist, done)
      requires |queue| > 0 && b == queue[0] && !Solved(board.width, b.cars)
      requires ProducedAll(moves, Candidates(board.width, board.height, b.cars), board.width, board.height)
      ensures SearchOk(board.width, board.height, board.cars, B, rk, st', queue', qk', conf', dist')
      ensures SolveProgress(board.width, board.height, board.cars, board, rk, st'.Keys, queue', qk', conf', dist', done + {qk[0]})
      ensures forall k :: k in st ==> k in st' && st'[k] == st[k]
      ensures st'.Keys != st.Keys ==> |U - st'.Keys| < |U - st.Keys|
      ensures st'.Keys == st.Keys ==> |queue'| < |queue|
    {
      SolvePop(board.width, board.height, board.cars, B, rk, board, st, queue, qk, conf, dist, done);
      st', queue', qk', conf', dist' := Expand(st, b, moves, queue[1..], qk[0], qk[1..], rk, conf, dist, B);
      SolveStep(board.width, board.height, board.cars, B, U, board, rk, st.Keys, queue, qk, conf, dist, done,
                st'.Keys, queue', qk', conf', dist');
    }

    /**
     * One expansion of board b, whose key is bk, on the states map st: the `for (let move
     * of board.findPossibleMoves())` loop over b's generated moves. Every move whose key is
     * not in the map yet is recorded with b as its parent and its board pushed onto the
     * queue; a move to a key already seen changes nothing.
     */
    method Expand(st: map<Key, StateRec>, b: Board, moves: seq<MoveRecord>, queue: seq<Board>, ghost bk: Key, ghost qk: seq<Key>, ghost rk: Key,
                  ghost conf: map<Key, seq<Car>>, ghost dist: map<Key, nat>, ghost B: int)
      returns (st': map<Key, StateRec>, queue': seq<Board>, ghost qk': seq<Key>, ghost conf': map<Key, seq<Car>>, ghost dist': map<Key, nat>)
      requires SearchOk(board.width, board.height, board.cars, B, rk, st, queue, qk, conf, dist)
      requires B >= board.width && B >= board.height
      requires b.Valid() && b.width == board.width && b.height == board.height
      requires ProducedAll(moves, Candidates(board.width, board.height, b.cars), board.width, board.height)
      requires bk in conf && conf[bk] == b.cars
      requires forall k :: k in st ==> dist[k] <= dist[bk] + 1
      ensures SearchOk(board.width, board.height, board.cars, B, rk, st', queue', qk', conf', dist')
      ensures ConfsOk(conf', board.cars, B) && st'.Keys == conf'.Keys && st'.Keys == dist'.Keys && |queue'| == |qk'|
      ensures forall k :: k in conf ==> k in conf' && conf'[k] == conf[k] && k in dist && k in dist' && dist'[k] == dist[k]
      ensures Grown(st.Keys, qk, st'.Keys, qk', dist', dist[bk] + 1)
      ensures forall k :: k in st ==> k in st' && st'[k] == st[k]
      ensures forall m :: 0 <= m < |Candidates(board.width, board.height, b.cars)| ==>
                KeyOf(Candidates(board.width, board.height, b.cars)[m].cars) in st'
                && dist'[KeyOf(Candidates(board.width, board.height, b.cars)[m].cars)] <= dist[bk] + 1
    {
      ghost var cands := Candidates(board.width, board.height, b.cars);
      ghost var d := dist[bk] + 1;
      assert KeyOf(b.cars) == bk;
      st', queue', qk', conf', dist' := st, queue, qk, conf, dist;
      ExpandStart(board.width, board.height, board.cars, B, rk, d, st, qk, conf, dist, queue, moves, cands);
      for i := 0 to |moves|
        invariant ExpandInv(board.width, board.height, board.cars, B, rk, d, st, qk, conf, dist, moves, cands, i,
                            st', queue', qk', conf', dist')
      {
        var key := KeyOf(moves[i].board.cars);
        if key !in st' {
          ExpandAdd(board.width, board.height, board.cars, B, rk, d, st, qk, conf, dist, moves, cands, i,
                    st', queue', qk', conf', dist', b, bk);
          st' := st'[key := StateRec(Some(b), Some(moves[i].car), Some(moves[i].move))];
          queue' := queue' + [moves[i].board];
          qk' := qk' + [key];
          conf' := conf'[key := moves[i].board.cars];
          dist' := dist'[key := d];
        } else {
          ExpandSkip(board.width, board.height, board.cars, B, rk, d, st, qk, conf, dist, moves, cands, i,
                     st', queue', qk', conf', dist');
        }
      }
    }

    /**
     * Rebuilds the moves list of a solved board b from the states map st: follows the
     * parent links from b back to the start, putting each board with the move that
     * reached it in front, then puts the start board's empty entry in front of all.
     */
    method Rebuild(st: map<Key, StateRec>, b: Board, ghost rk: Key, ghost conf: map<Key, seq<Car>>, ghost dist: map<Key, nat>, ghost B: int)
      returns (movesList: seq<Step>)
      requires Tree(board.width, board.height, st, rk, conf, dist) && ConfsOk(conf, board.cars, B)
      requires rk == KeyOf(board.cars) && conf[rk] == board.cars
      requires KeyOf(b.cars) in st && conf[KeyOf(b.cars)] == b.cars
      ensures |movesList| == dist[KeyOf(b.cars)] + 1
      ensures movesList[0] == Step(board, None, None) && movesList[|movesList| - 1].board.cars == b.cars
      ensures Chain(board.width, board.height, movesList)
    {
      movesList := [];
      var thisBoard := b;
      var key := KeyOf(b.cars);
      var state := st[key];
      while state.parent != None
        invariant Tree(board.width, board.height, st, rk, conf, dist)
        invariant key == KeyOf(thisBoard.cars) && key in st && state == st[key] && conf[key] == thisBoard.cars
        invariant |movesList| + dist[key] == dist[KeyOf(b.cars)]
        invariant Chain(board.width, board.height, [Step(thisBoard, None, None)] + movesList)
        invariant movesList == [] ==> thisBoard == b
        invariant movesList != [] ==> movesList[|movesList| - 1].board == b
        decreases dist[key]
      {
        assert key != rk;
        assert LinkedAt(board.width, board.height, st, key, conf, dist);
        var parent := state.parent.value;
        ChainStep(board.width, board.height, parent, thisBoard, state.car.value, state.move.value, movesList);
        movesList := [Step(thisBoard, state.car, state.move)] + movesList;
        thisBoard := parent;
        key := KeyOf(thisBoard.cars);
        state := st[key];
      }
      // only the start's entry has no parent
      assert key != rk ==> LinkedAt(board.width, board.height, st, key, conf, dist);
      ChainHead(board.width, board.height, thisBoard, board, movesList);
      movesList := [Step(board, None, None)] + movesList;
    }
  }
}
