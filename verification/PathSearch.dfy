/** The greedy best-first search that monsters follow
    (GameRoom::FindPath, and its copy in the client's DevScene).

    The search orders cells by their distance to the destination alone, so it does
    not compute shortest paths.  What it does compute is stated here: a real walk to
    one canonical cell, whatever order the priority queue breaks ties in. */
module PathSearch {
  import opened Geometry

  /** Why a room may refuse to search, what it may step on, and how far it looks. */
  datatype Query = Query(free: Cell -> bool, src: Cell, dest: Cell, maxDepth: int) {

    /** One legal move of the search. */
    predicate Step(a: Cell, b: Cell) {
      Dist(a, b) == 1 && free(b) && Dist(src, b) < maxDepth
    }

    predicate IsWalk(p: seq<Cell>) {
      |p| > 0 && p[0] == src && forall i :: 0 <= i < |p| - 1 ==> Step(p[i], p[i + 1])
    }

    ghost predicate Reachable(c: Cell) {
      exists p :: IsWalk(p) && p[|p| - 1] == c
    }

    /** The preference between end cells: closer to the destination, then closer to
        the source, then first in the order of a cell map. */
    predicate Better(a: Cell, b: Cell) {
      if Dist(a, dest) != Dist(b, dest) then Dist(a, dest) < Dist(b, dest)
      else if Dist(src, a) != Dist(src, b) then Dist(src, a) < Dist(src, b)
      else Less(a, b)
    }

    /** The canonical end cell: reachable, and preferred to every other reachable cell. */
    ghost predicate IsBestEnd(e: Cell) {
      Reachable(e) && forall c :: Reachable(c) && c != e ==> Better(e, c)
    }

    /** What a successful search promises about its path. */
    ghost predicate IsAnswer(p: seq<Cell>) {
      IsWalk(p) && NoRepeats(p) && IsBestEnd(p[|p| - 1])
    }
  }

  ghost predicate NoRepeats(p: seq<Cell>) {
    forall i, j :: 0 <= i < j < |p| ==> p[i] != p[j]
  }

  datatype Node = Node(cost: int, pos: Cell)

  // ---------- facts about the specification ----------

  lemma {:induction false} BetterIsTransitive(q: Query, a: Cell, b: Cell, c: Cell)
    requires q.Better(a, b) && q.Better(b, c)
    ensures q.Better(a, c)
  {
  }

  lemma {:induction false} BestEndIsUnique(q: Query, a: Cell, b: Cell)
    requires q.IsBestEnd(a) && q.IsBestEnd(b)
    ensures a == b
  {
  }

  lemma {:induction false} SourceIsReachable(q: Query)
    ensures q.Reachable(q.src)
  {
    assert q.IsWalk([q.src]);
  }

  lemma {:induction false} WalkStaysInClosedSet(q: Query, s: set<Cell>, p: seq<Cell>)
    requires q.IsWalk(p) && q.src in s
    requires forall a, b :: a in s && q.Step(a, b) ==> b in s
    ensures p[|p| - 1] in s
  {
    if |p| > 1 {
      var front := p[..|p| - 1];
      assert q.IsWalk(front);
      WalkStaysInClosedSet(q, s, front);
      assert q.Step(p[|p| - 2], p[|p| - 1]);
    }
  }

  /** When a search answers, its end is the destination exactly if the destination can
      be reached; otherwise the end is as near to the destination as any reachable cell. */
  lemma {:induction false} AnswerReachesDestination(q: Query, p: seq<Cell>)
    requires q.IsAnswer(p)
    ensures p[|p| - 1] == q.dest <==> q.Reachable(q.dest)
    ensures forall c :: q.Reachable(c) ==> Dist(p[|p| - 1], q.dest) <= Dist(c, q.dest)
  {
  }

  /** The path consists of the source alone exactly when no reachable cell is strictly
      nearer to the destination. */
  lemma {:induction false} AnswerIsTrivialIff(q: Query, p: seq<Cell>)
    requires q.IsAnswer(p)
    ensures |p| == 1 <==> forall c :: q.Reachable(c) ==> Dist(q.src, q.dest) <= Dist(c, q.dest)
  {
    var e := p[|p| - 1];
    SourceIsReachable(q);
    if |p| == 1 {
      AnswerReachesDestination(q, p);
    } else {
      assert p[0] != p[|p| - 1];
      assert q.Better(e, q.src) && Dist(q.src, e) > 0;
    }
  }

  /** Every cell after the first can be stepped on and lies within the depth limit. */
  lemma {:induction false} AnswerCellsAreFree(q: Query, p: seq<Cell>, i: nat)
    requires q.IsWalk(p) && 0 < i < |p|
    ensures q.free(p[i]) && Dist(q.src, p[i]) < q.maxDepth && Dist(p[i - 1], p[i]) == 1
  {
    assert q.Step(p[i - 1], p[i - 1 + 1]);
  }

  /** Completeness without the vocabulary of the search: whatever route of single steps over
      cells that can be entered, inside the depth limit, one takes from the source, its end
      is no better than the end of the answer.  It is no nearer to the destination; at the
      same distance it is no nearer to the source; and after that the smaller x, then the
      smaller y wins. */
  lemma {:induction false} AnswerBeatsRoute(q: Query, p: seq<Cell>, route: seq<Cell>)
    requires q.IsAnswer(p)
    requires |route| > 0 && route[0] == q.src
    requires forall i :: 0 < i < |route| ==>
      Dist(route[i - 1], route[i]) == 1 && q.free(route[i]) && Dist(q.src, route[i]) < q.maxDepth
    ensures var e, c := p[|p| - 1], route[|route| - 1];
      && Dist(e, q.dest) <= Dist(c, q.dest)
      && (Dist(e, q.dest) == Dist(c, q.dest) ==> Dist(q.src, e) <= Dist(q.src, c))
      && (Dist(e, q.dest) == Dist(c, q.dest) && Dist(q.src, e) == Dist(q.src, c) ==>
            e.x < c.x || (e.x == c.x && e.y <= c.y))
  {
    RouteIsWalk(q, route);
    var e, c := p[|p| - 1], route[|route| - 1];
    assert q.Reachable(c);
    assert c == e || q.Better(e, c);
  }

  lemma {:induction false} RouteIsWalk(q: Query, route: seq<Cell>)
    requires |route| > 0 && route[0] == q.src
    requires forall i :: 0 < i < |route| ==>
      Dist(route[i - 1], route[i]) == 1 && q.free(route[i]) && Dist(q.src, route[i]) < q.maxDepth
    ensures q.IsWalk(route)
  {
    forall i | 0 <= i < |route| - 1
      ensures q.Step(route[i], route[i + 1])
    {
      var k := i + 1;
      assert 0 < k < |route| && route[k - 1] == route[i];
    }
  }

  // ---------- the state of a running search ----------

  /** `best` is exact and stays within the depth limit. */
  ghost predicate Costs(q: Query, best: map<Cell, int>) {
    forall c :: c in best ==> best[c] == Dist(c, q.dest) && Dist(q.src, c) < q.maxDepth
  }

  /** `parent` is a tree of steps rooted at the source.  `rank` numbers the discovered
      cells; a cell's parent always has a smaller number. */
  ghost predicate Tree(step: (Cell, Cell) -> bool, root: Cell, cells: set<Cell>, parent: map<Cell, Cell>,
                       rank: map<Cell, nat>) {
    && cells == parent.Keys == rank.Keys
    && root in cells && parent[root] == root
    && forall c {:trigger parent[c]} :: c in cells && c != root ==> parent[c] in cells && Link(step, rank, c, parent[c])
  }

  ghost predicate Link(step: (Cell, Cell) -> bool, rank: map<Cell, nat>, child: Cell, par: Cell) {
    child in rank && par in rank && rank[par] < rank[child] && step(par, child)
  }

  /** The queue holds the discovered cells that were not visited yet, each of them once. */
  ghost predicate Frontier(best: map<Cell, int>, pq: multiset<Node>, closed: set<Cell>) {
    && closed <= best.Keys
    && (forall n :: n in pq ==> n.pos in best && n.pos !in closed && n.cost == best[n.pos])
    && (forall c :: c in best && c !in closed ==> Node(best[c], c) in pq)
    && (forall n {:trigger pq[n]} :: pq[n] <= 1)
  }

  /** Every legal move from a visited cell leads to a discovered one. */
  ghost predicate Expanded(q: Query, found: set<Cell>, closed: set<Cell>) {
    forall a, b :: a in closed && q.Step(a, b) ==> b in found
  }

  lemma {:induction false} Grow(step: (Cell, Cell) -> bool, root: Cell, cells: set<Cell>, parent: map<Cell, Cell>,
             rank: map<Cell, nat>, from: Cell, to: Cell)
    requires Tree(step, root, cells, parent, rank)
    requires from in cells && to !in cells && step(from, to)
    ensures Tree(step, root, cells + {to}, parent[to := from], rank[to := rank[from] + 1])
  {
  }

  lemma {:induction false} Push(best: map<Cell, int>, pq: multiset<Node>, closed: set<Cell>, cost: int, to: Cell)
    requires Frontier(best, pq, closed) && to !in best
    ensures Frontier(best[to := cost], pq + multiset{Node(cost, to)}, closed)
  {
  }

  lemma {:induction false} Reserve(q: Query, best: map<Cell, int>, parent: map<Cell, Cell>, rank: map<Cell, nat>,
                pq: multiset<Node>, closed: set<Cell>, from: Cell, to: Cell, cost: int)
    requires Costs(q, best) && Tree(q.Step, q.src, best.Keys, parent, rank) && Frontier(best, pq, closed)
    requires from in best && to !in best && q.Step(from, to) && cost == Dist(to, q.dest)
    ensures Costs(q, best[to := cost])
    ensures Tree(q.Step, q.src, best[to := cost].Keys, parent[to := from], rank[to := rank[from] + 1])
    ensures Frontier(best[to := cost], pq + multiset{Node(cost, to)}, closed)
  {
    Grow(q.Step, q.src, best.Keys, parent, rank, from, to);
    Push(best, pq, closed, cost, to);
    assert best[to := cost].Keys == best.Keys + {to};
  }

  lemma {:induction false} Pop(best: map<Cell, int>, pq: multiset<Node>, closed: set<Cell>, node: Node)
    requires Frontier(best, pq, closed) && node in pq
    ensures node.pos in best && node.pos !in closed && node.cost == best[node.pos]
    ensures Frontier(best, pq - multiset{node}, closed + {node.pos})
  {
  }

  lemma {:induction false} CheapestExists(pq: multiset<Node>) returns (least: Node)
    requires pq != multiset{}
    ensures least in pq && forall m :: m in pq ==> least.cost <= m.cost
    decreases |pq|
  {
    var x :| x in pq;
    var rest := pq - multiset{x};
    least := x;
    if rest != multiset{} {
      var n := CheapestExists(rest);
      if n.cost < x.cost {
        least := n;
      }
    }
    forall m | m in pq
      ensures least.cost <= m.cost
    {
      assert m == x || m in rest;
    }
  }

  /** A walk over an ordered set has a first cell. */
  lemma {:induction false} FirstCellExists(s: set<Cell>) returns (first: Cell)
    requires s != {}
    ensures first in s && forall d :: d in s && d != first ==> Less(first, d)
  {
    var c :| c in s;
    var rest := s - {c};
    assert forall d :: d in s && d != c ==> d in rest;
    if rest == {} {
      first := c;
    } else {
      var r := FirstCellExists(rest);
      if Less(c, r) {
        first := c;
        forall d | d in rest
          ensures Less(c, d)
        {
          LessIsTransitive(c, r, d);
        }
      } else {
        first := r;
      }
    }
  }

  lemma {:induction false} LessIsTransitive(a: Cell, b: Cell, c: Cell)
    requires a != b && !Less(b, a) && (b == c || Less(b, c))
    ensures Less(a, c)
  {
  }

  // ---------- the algorithm ----------

  /** `GameRoom::FindPath`; `pushes` counts what was put into the queue. */
  method FindPath(q: Query, oldPath: seq<Cell>) returns (ok: bool, path: seq<Cell>, ghost pushes: nat)
    ensures ok <==> Dist(q.src, q.dest) < q.maxDepth
    ensures !ok ==> path == oldPath
    ensures ok ==> q.IsAnswer(path)
    ensures ok ==> pushes <= 2 * q.maxDepth * (q.maxDepth - 1) + 1
  {
    pushes := 0;
    var depth := Dist(q.src, q.dest);
    if depth >= q.maxDepth {
      return false, oldPath, 0;
    }
    var found, best, parent;
    ghost var rank, closed;
    found, best, parent, rank, closed, pushes := Explore(q);
    DiscoveredAreFew(q, best);
    ok := true;
    var end := q.dest;
    if !found {
      end := Fallback(q, best);
    }
    path := Rebuild(parent, end, q.Step, q.src, rank);
    EndIsBest(q, best, closed, found, path);
  }

  /** Takes the queue's top: any node of least cost. */
  method PopTop(ghost q: Query, ghost best: map<Cell, int>, pq0: multiset<Node>, ghost closed: set<Cell>)
    returns (node: Node, pq: multiset<Node>)
    requires pq0 != multiset{}
    requires Costs(q, best) && Frontier(best, pq0, closed) && q.dest !in closed
    ensures node.pos in best && node.pos !in closed && node.cost == best[node.pos]
    ensures Frontier(best, pq, closed + {node.pos})
    ensures q.dest in best ==> node.pos == q.dest
  {
    ghost var least := CheapestExists(pq0);
    node :| node in pq0 && forall n :: n in pq0 ==> node.cost <= n.cost;
    pq := pq0 - multiset{node};
    Pop(best, pq0, closed, node);
    DestinationComesFirst(q, best, pq0, closed, node);
  }

  /** The loop over the queue. */
  method Explore(q: Query)
    returns (found: bool, best: map<Cell, int>, parent: map<Cell, Cell>, ghost rank: map<Cell, nat>,
             ghost closed: set<Cell>, ghost pushes: nat)
    requires Dist(q.src, q.dest) < q.maxDepth
    ensures Costs(q, best) && Tree(q.Step, q.src, best.Keys, parent, rank) && pushes == |best.Keys|
    ensures found ==> q.dest in best
    ensures !found ==> closed == best.Keys && Expanded(q, best.Keys, closed)
  {
    var cost := Dist(q.src, q.dest);
    var pq := multiset{Node(cost, q.src)};
    best := map[q.src := cost];
    parent := map[q.src := q.src];
    rank, closed, pushes := map[q.src := 0], {}, 1;
    assert Dist(q.src, q.src) == 0;

    found := false;
    while pq != multiset{}
      invariant Costs(q, best) && Tree(q.Step, q.src, best.Keys, parent, rank) && Frontier(best, pq, closed)
      invariant Expanded(q, best.Keys, closed)
      invariant q.dest !in closed && !found
      invariant pushes == |best.Keys|
      decreases Ball(q.src, q.maxDepth) - closed
    {
      var node;
      node, pq := PopTop(q, best, pq, closed);

      if best[node.pos] < node.cost {
        assert false;  // `best` is exact, so no stale node is ever skipped
      }

      if node.pos == q.dest {
        found := true;
        break;
      }
      InBall(q.src, q.maxDepth, node.pos);
      ghost var pushed;
      pq, best, parent, rank, pushed := Visit(q, node.pos, pq, best, parent, rank, closed);
      closed := closed + {node.pos};
      pushes := pushes + pushed;
    }
  }

  /** Once the destination is discovered it is the next node the queue gives out. */
  lemma {:induction false} DestinationComesFirst(q: Query, best: map<Cell, int>, pq: multiset<Node>, closed: set<Cell>, node: Node)
    requires Costs(q, best) && Frontier(best, pq, closed)
    requires node in pq && q.dest !in closed
    requires forall n :: n in pq ==> node.cost <= n.cost
    ensures q.dest in best ==> node.pos == q.dest
  {
  }

  lemma {:induction false} DiscoveredAreFew(q: Query, best: map<Cell, int>)
    requires Costs(q, best) && q.maxDepth >= 1
    ensures |best.Keys| <= 2 * q.maxDepth * (q.maxDepth - 1) + 1
  {
    forall c | c in best.Keys
      ensures c in Ball(q.src, q.maxDepth)
    {
      InBall(q.src, q.maxDepth, c);
    }
    BallSize(q.src, q.maxDepth);
    SubsetSize(best.Keys, Ball(q.src, q.maxDepth));
  }

  /** From one cell the search has discovered n more, each one step away. */
  ghost predicate Discovered(step: (Cell, Cell) -> bool, from: Cell, before: set<Cell>, after: set<Cell>, n: nat) {
    before <= after && |after| == |before| + n && forall c :: c in after && c !in before ==> step(from, c)
  }

  lemma {:induction false} DiscoverOne(step: (Cell, Cell) -> bool, from: Cell, before: set<Cell>, best: map<Cell, int>,
                                       to: Cell, cost: int, n: nat)
    requires Discovered(step, from, before, best.Keys, n) && to !in best && step(from, to)
    ensures Discovered(step, from, before, best[to := cost].Keys, n + 1)
  {
  }

  /** The visit of one node: reserve each of its four neighbours that is legal and new. */
  method Visit(q: Query, pos: Cell, pq0: multiset<Node>, best0: map<Cell, int>, parent0: map<Cell, Cell>,
               ghost rank0: map<Cell, nat>, ghost closed: set<Cell>)
    returns (pq: multiset<Node>, best: map<Cell, int>, parent: map<Cell, Cell>, ghost rank: map<Cell, nat>,
             ghost pushed: nat)
    requires Costs(q, best0) && Tree(q.Step, q.src, best0.Keys, parent0, rank0) && Frontier(best0, pq0, closed + {pos})
    requires Expanded(q, best0.Keys, closed)
    requires q.dest !in best0 && pos in best0
    ensures Costs(q, best) && Tree(q.Step, q.src, best.Keys, parent, rank) && Frontier(best, pq, closed + {pos})
    ensures Expanded(q, best.Keys, closed + {pos})
    ensures Discovered(q.Step, pos, best0.Keys, best.Keys, pushed)
  {
    pq, best, parent, rank, pushed := pq0, best0, parent0, rank0, 0;
    for dir := 0 to 4
      invariant Costs(q, best) && Tree(q.Step, q.src, best.Keys, parent, rank) && Frontier(best, pq, closed + {pos})
      invariant Discovered(q.Step, pos, best0.Keys, best.Keys, pushed)
      invariant forall b :: b in Tried(pos, dir) && q.Step(pos, b) ==> b in best
      invariant q.dest in best ==> q.dest in Tried(pos, dir)
    {
      var nextPos := Neighbour(pos, dir);
      TriedFacts(pos, dir);
      var cost := Dist(nextPos, q.dest);
      // A missing entry reads as 0, which is also the exact value of the destination.
      var bestValue := if nextPos in best then best[nextPos] else 0;
      OnlyDestinationIsZero(q, nextPos);
      if q.free(nextPos) {
        var depth := Dist(q.src, nextPos);
        if depth < q.maxDepth {
          if bestValue == 0 || bestValue > cost {
            Reserve(q, best, parent, rank, pq, closed + {pos}, pos, nextPos, cost);
            rank := rank[nextPos := rank[pos] + 1];
            DiscoverOne(q.Step, pos, best0.Keys, best, nextPos, cost, pushed);
            best := best[nextPos := cost];
            pq := pq + multiset{Node(cost, nextPos)};
            pushed := pushed + 1;
            parent := parent[nextPos := pos];
          }
        }
      }
    }
    TriedFacts(pos, 0);
  }

  lemma {:induction false} OnlyDestinationIsZero(q: Query, c: Cell)
    ensures Dist(c, q.dest) == 0 <==> c == q.dest
  {
  }

  /** The replacement rule of the scan below prefers as `Better` does. */
  lemma {:induction false} KeepBetter(q: Query, end: Cell, pos: Cell)
    requires Less(end, pos)
    ensures Dist(end, q.dest) == Dist(pos, q.dest) ==>
              if Dist(end, q.src) > Dist(pos, q.src) then q.Better(pos, end) else q.Better(end, pos)
    ensures Dist(end, q.dest) > Dist(pos, q.dest) ==> q.Better(pos, end)
    ensures Dist(end, q.dest) < Dist(pos, q.dest) ==> q.Better(end, pos)
  {
  }

  /** The scan over `best` in key order that picks the end cell of an unfinished search. */
  method Fallback(q: Query, best: map<Cell, int>) returns (end: Cell)
    requires best.Keys != {}
    requires forall c :: c in best ==> best[c] == Dist(c, q.dest)
    ensures end in best
    ensures forall c :: c in best && c != end ==> q.Better(end, c)
  {
    var rest := best.Keys;
    ghost var seen: set<Cell> := {};
    var bestScore: int := -1;  // stands for FLT_MAX, the score of "nothing seen yet"
    end := q.dest;
    while rest != {}
      invariant rest + seen == best.Keys && rest !! seen
      invariant forall a, b :: a in seen && b in rest ==> Less(a, b)
      invariant seen == {} ==> bestScore == -1
      invariant seen != {} ==> end in seen && bestScore == Dist(end, q.dest)
      invariant forall c :: c in seen && c != end ==> q.Better(end, c)
    {
      ghost var first := FirstCellExists(rest);
      var pos :| pos in rest && forall d :: d in rest && d != pos ==> Less(pos, d);
      ghost var oldEnd, oldSeen := end, seen;
      rest := rest - {pos};
      seen := seen + {pos};
      var score := best[pos];
      if bestScore == score {
        var dist1 := Dist(end, q.src);
        var dist2 := Dist(pos, q.src);
        if dist1 > dist2 {
          end := pos;
        }
      } else if bestScore == -1 || bestScore > score {
        end := pos;
        bestScore := score;
      }
      if oldSeen != {} {
        KeepBetter(q, oldEnd, pos);
        forall c | c in oldSeen && c != oldEnd && end == pos
          ensures q.Better(end, c)
        {
          BetterIsTransitive(q, pos, oldEnd, c);
        }
      }
    }
  }

  /** Follows parents from the end cell to the source and reverses the result. */
  method Rebuild(parent: map<Cell, Cell>, end: Cell,
                 ghost step: (Cell, Cell) -> bool, ghost root: Cell, ghost rank: map<Cell, nat>)
    returns (path: seq<Cell>)
    requires Tree(step, root, parent.Keys, parent, rank) && end in parent
    ensures path != [] && path[0] == root && path[|path| - 1] == end
    ensures forall i :: 0 <= i < |path| - 1 ==> step(path[i], path[i + 1])
    ensures NoRepeats(path)
  {
    var back: seq<Cell> := [];
    var pos := end;
    while true
      invariant pos in parent
      invariant Trail(step, rank, back + [pos])
      invariant (back + [pos])[0] == end
      decreases rank[pos]
    {
      back := back + [pos];
      if pos == parent[pos] {
        break;
      }
      ExtendTrail(step, rank, back, parent[pos]);
      pos := parent[pos];
    }
    TrailIsPath(step, rank, back);
    path := Reversed(back);
  }

  ghost predicate Trail(step: (Cell, Cell) -> bool, rank: map<Cell, nat>, back: seq<Cell>) {
    && (forall i :: 0 <= i < |back| ==> back[i] in rank)
    && (forall i :: 0 <= i < |back| - 1 ==> Link(step, rank, back[i], back[i + 1]))
  }

  lemma {:induction false} ExtendTrail(step: (Cell, Cell) -> bool, rank: map<Cell, nat>, back: seq<Cell>, next: Cell)
    requires back != [] && Trail(step, rank, back) && Link(step, rank, back[|back| - 1], next)
    ensures Trail(step, rank, back + [next]) && (back + [next])[0] == back[0]
  {
  }

  lemma {:induction false} TrailIsPath(step: (Cell, Cell) -> bool, rank: map<Cell, nat>, back: seq<Cell>)
    requires back != [] && Trail(step, rank, back)
    ensures var path := Reversed(back);
      && |path| == |back| && path[0] == back[|back| - 1] && path[|path| - 1] == back[0]
      && (forall i :: 0 <= i < |path| - 1 ==> step(path[i], path[i + 1]))
      && NoRepeats(path)
  {
    var path := Reversed(back);
    ReversedAt(back);
    forall i | 0 <= i < |path| - 1
      ensures Link(step, rank, path[i + 1], path[i])
    {
      var j := |back| - 2 - i;
      assert path[i] == back[j + 1] && path[i + 1] == back[j];
    }
    RanksRise(step, rank, path);
  }

  lemma {:induction false} RanksRise(step: (Cell, Cell) -> bool, rank: map<Cell, nat>, p: seq<Cell>)
    requires forall i :: 0 <= i < |p| ==> p[i] in rank
    requires forall i :: 0 <= i < |p| - 1 ==> Link(step, rank, p[i + 1], p[i])
    ensures forall i :: 0 <= i < |p| - 1 ==> rank[p[i]] < rank[p[|p| - 1]]
    ensures NoRepeats(p)
  {
    if |p| > 1 {
      var front := p[..|p| - 1];
      RanksRise(step, rank, front);
      assert Link(step, rank, p[|p| - 2 + 1], p[|p| - 2]);
      assert forall i :: 0 <= i < |front| ==> p[i] == front[i];
    }
  }

  function Reversed(s: seq<Cell>): seq<Cell> {
    if s == [] then [] else Reversed(s[1..]) + [s[0]]
  }

  lemma {:induction false} ReversedAt(s: seq<Cell>)
    ensures |Reversed(s)| == |s|
    ensures forall i :: 0 <= i < |s| ==> Reversed(s)[i] == s[|s| - 1 - i]
  {
    if s != [] { ReversedAt(s[1..]); }
  }

  lemma {:induction false} EndIsBest(q: Query, best: map<Cell, int>, closed: set<Cell>, found: bool, path: seq<Cell>)
    requires q.src in best
    requires q.IsWalk(path)
    requires found ==> path[|path| - 1] == q.dest
    requires !found ==> closed == best.Keys && Expanded(q, best.Keys, closed)
    requires !found ==> forall c :: c in best && c != path[|path| - 1] ==> q.Better(path[|path| - 1], c)
    ensures q.IsBestEnd(path[|path| - 1])
  {
    var end := path[|path| - 1];
    assert q.Reachable(end);
    forall c | q.Reachable(c) && c != end
      ensures q.Better(end, c)
    {
      if !found {
        var p :| q.IsWalk(p) && p[|p| - 1] == c;
        WalkStaysInClosedSet(q, best.Keys, p);
      }
    }
  }
}
