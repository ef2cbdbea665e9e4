/**
 * The manager's breadth-first path search over its connection index. From
 * a node, the search moves to the opposite end of every connection filed
 * under the node's id that is currently valid, whichever way the
 * connection points; the first time the goal is taken off the queue, the
 * path is rebuilt backwards through the recorded predecessors.
 */
module PathSearch {
  import opened Util
  import opened Nodes
  import opened Connections
  import opened Buckets

  /** Every connection the index lists under some key. */
  ghost function Indexed(m: map<string, seq<NodeConnection>>): set<NodeConnection>
  {
    set k, c | k in m && c in m[k] :: c
  }

  /** Every node that is an endpoint of an indexed connection. */
  ghost function Endpoints(m: map<string, seq<NodeConnection>>): set<InteractiveNode>
  {
    (set c | c in Indexed(m) && c.source != null :: c.source as InteractiveNode) +
    (set c | c in Indexed(m) && c.target != null :: c.target as InteractiveNode)
  }

  /** One move of the search: some connection filed under `x`'s id leads from `x` to `y`. */
  ghost predicate Step(m: map<string, seq<NodeConnection>>, x: InteractiveNode, y: InteractiveNode)
    reads Indexed(m)
  {
    exists c :: c in Bucket(m, x.data.id) && c.GetOppositeNode(x) == y
  }

  /** `p` leads from `a` to `b` one move at a time. */
  ghost predicate IsPath(m: map<string, seq<NodeConnection>>, p: seq<InteractiveNode>, a: InteractiveNode, b: InteractiveNode)
    reads Indexed(m)
  {
    |p| > 0 && p[0] == a && p[|p| - 1] == b &&
    forall i :: 0 <= i < |p| - 1 ==> Step(m, p[i], p[i + 1])
  }

  /** Nothing leaves `closed` by one move. */
  ghost predicate Closed(m: map<string, seq<NodeConnection>>, closed: set<InteractiveNode>)
    reads Indexed(m)
  {
    forall x, c :: x in closed && c in Bucket(m, x.data.id) && c.GetOppositeNode(x) != null ==> c.GetOppositeNode(x) in closed
  }

  /** A path that starts inside a closed set stays inside it, so it ends inside it. */
  lemma ClosedHoldsPath(m: map<string, seq<NodeConnection>>, closed: set<InteractiveNode>, p: seq<InteractiveNode>, a: InteractiveNode, b: InteractiveNode)
    requires a in closed && Closed(m, closed) && IsPath(m, p, a, b)
    ensures b in closed
  {
    var i := 0;
    while i < |p| - 1
      invariant 0 <= i < |p| && p[i] in closed
    {
      assert Step(m, p[i], p[i + 1]);
      i := i + 1;
    }
  }

  /** A move always lands on an endpoint of an indexed connection. */
  lemma StepInEndpoints(m: map<string, seq<NodeConnection>>, x: InteractiveNode, c: NodeConnection)
    requires c in Bucket(m, x.data.id) && c.GetOppositeNode(x) != null
    ensures c.GetOppositeNode(x) in Endpoints(m)
  {
    assert c in m[x.data.id];
    assert c in Indexed(m);
  }

  /**
   * The state the search keeps: `done` are the nodes taken off the queue,
   * and every move out of them, except out of the `open` ones still being
   * expanded, reaches a visited node. Every visited node has a depth, the
   * number of moves along its recorded predecessors back to the start; a
   * move between visited nodes goes at most one deeper. The queue holds its
   * nodes in order of depth, all at the frontier depth `d` or one more, the
   * node being expanded is at depth `d`, and no visited node is deeper than
   * `d + 1`.
   */
  ghost predicate SearchState(m: map<string, seq<NodeConnection>>, start: InteractiveNode, goal: InteractiveNode,
                              queue: seq<InteractiveNode>, visited: set<InteractiveNode>, done: set<InteractiveNode>,
                              open: set<InteractiveNode>, cameFrom: map<InteractiveNode, InteractiveNode>,
                              depth: map<InteractiveNode, nat>, d: nat)
    reads Indexed(m)
  {
    Frontier(m, start, goal, queue, visited, done, open) &&
    Recorded(m, start, visited, cameFrom, depth) &&
    Layered(m, queue, visited, open, depth, d)
  }

  /** The queue and the done nodes make up the visited ones, and every move out of a closed node reaches a visited one. */
  ghost predicate Frontier(m: map<string, seq<NodeConnection>>, start: InteractiveNode, goal: InteractiveNode,
                           queue: seq<InteractiveNode>, visited: set<InteractiveNode>, done: set<InteractiveNode>,
                           open: set<InteractiveNode>)
    reads Indexed(m)
  {
    NoDup(queue) && visited == done + Elements(queue) && Elements(queue) !! done && open <= done &&
    start in visited && goal !in done &&
    visited <= {start} + Endpoints(m) &&
    (forall x, c :: x in done - open && c in Bucket(m, x.data.id) && c.GetOppositeNode(x) != null ==> c.GetOppositeNode(x) in visited)
  }

  /** Every visited node other than the start has a recorded predecessor, one move closer to the start. */
  ghost predicate Recorded(m: map<string, seq<NodeConnection>>, start: InteractiveNode, visited: set<InteractiveNode>,
                           cameFrom: map<InteractiveNode, InteractiveNode>, depth: map<InteractiveNode, nat>)
    reads Indexed(m)
  {
    (forall v :: v in cameFrom ==> v in visited && cameFrom[v] in visited) &&
    depth.Keys == visited && start in depth && depth[start] == 0 &&
    (forall v :: v in visited && v != start ==> v in cameFrom) &&
    (forall v :: v in cameFrom ==> Traced(m, cameFrom, depth, v))
  }

  /** The depths of the queue, the node being expanded and the visited nodes, relative to the frontier depth `d`. */
  ghost predicate Layered(m: map<string, seq<NodeConnection>>, queue: seq<InteractiveNode>, visited: set<InteractiveNode>,
                          open: set<InteractiveNode>, depth: map<InteractiveNode, nat>, d: nat)
    reads Indexed(m)
  {
    open + Elements(queue) <= visited && visited <= depth.Keys &&
    (forall v :: v in open ==> depth[v] == d) &&
    (forall i :: 0 <= i < |queue| ==> d <= depth[queue[i]] <= d + 1) &&
    (forall i, j :: 0 <= i <= j < |queue| ==> depth[queue[i]] <= depth[queue[j]]) &&
    (forall v :: v in visited ==> depth[v] <= d + 1) &&
    (forall x, y :: x in visited && y in visited && Step(m, x, y) ==> depth[y] <= depth[x] + 1)
  }

  /** `v`'s recorded predecessor is one move closer to the start and has a move to `v`. */
  ghost predicate Traced(m: map<string, seq<NodeConnection>>, cameFrom: map<InteractiveNode, InteractiveNode>,
                         depth: map<InteractiveNode, nat>, v: InteractiveNode)
    requires v in cameFrom
    reads Indexed(m)
  {
    v in depth && cameFrom[v] in depth && depth[cameFrom[v]] + 1 == depth[v] && Step(m, cameFrom[v], v)
  }

  lemma ElementsTail<V>(s: seq<V>)
    requires s != [] && NoDup(s)
    ensures Elements(s) == {s[0]} + Elements(s[1..]) && s[0] !in Elements(s[1..])
  {
    assert s == [s[0]] + s[1..];
  }

  lemma ElementsSnoc<V>(s: seq<V>, x: V)
    ensures Elements(s + [x]) == Elements(s) + {x}
  {
  }

  lemma FewerLeft<V>(u: set<V>, done: set<V>, x: V)
    requires x in u && x !in done
    ensures |u - (done + {x})| < |u - done|
  {
    assert u - (done + {x}) == (u - done) - {x};
  }

  /** Taking the front of the queue, when it is not the goal, opens it for expansion at its own depth. */
  lemma Dequeue(m: map<string, seq<NodeConnection>>, start: InteractiveNode, goal: InteractiveNode,
                queue: seq<InteractiveNode>, visited: set<InteractiveNode>, done: set<InteractiveNode>,
                cameFrom: map<InteractiveNode, InteractiveNode>, depth: map<InteractiveNode, nat>, d: nat)
    requires SearchState(m, start, goal, queue, visited, done, {}, cameFrom, depth, d)
    requires queue != [] && queue[0] != goal
    ensures queue[0] !in done && queue[0] in depth
    ensures SearchState(m, start, goal, queue[1..], visited, done + {queue[0]}, {queue[0]}, cameFrom, depth, depth[queue[0]])
  {
    ElementsTail(queue);
    assert NoDup(queue[1..]) by {
      forall i, j | 0 <= i < j < |queue[1..]| ensures queue[1..][i] != queue[1..][j] {
        assert queue[1..][i] == queue[i + 1] && queue[1..][j] == queue[j + 1];
      }
    }
    assert queue[0] in Elements(queue);
    forall i | 0 <= i < |queue[1..]|
      ensures depth[queue[0]] <= depth[queue[1..][i]] <= depth[queue[0]] + 1
    {
      assert queue[1..][i] == queue[i + 1];
    }
    forall i, j | 0 <= i <= j < |queue[1..]|
      ensures depth[queue[1..][i]] <= depth[queue[1..][j]]
    {
      assert queue[1..][i] == queue[i + 1] && queue[1..][j] == queue[j + 1];
    }
  }

  /**
   * No path from the start reaches a visited node in fewer moves than its
   * depth. Along the path, depth grows by at most one per move while the
   * nodes are visited; where the path first leaves the visited nodes, it
   * leaves from a node still queued or being expanded, so it has already
   * made at least `d` moves, and no visited node is deeper than `d + 1`.
   */
  lemma PathDepth(m: map<string, seq<NodeConnection>>, start: InteractiveNode, goal: InteractiveNode,
                  queue: seq<InteractiveNode>, visited: set<InteractiveNode>, done: set<InteractiveNode>,
                  open: set<InteractiveNode>, cameFrom: map<InteractiveNode, InteractiveNode>,
                  depth: map<InteractiveNode, nat>, d: nat, p: seq<InteractiveNode>, v: InteractiveNode)
    requires SearchState(m, start, goal, queue, visited, done, open, cameFrom, depth, d)
    requires IsPath(m, p, start, v) && v in visited
    ensures depth[v] < |p|
  {
    var j := 0;
    while j + 1 < |p| && p[j + 1] in visited
      invariant 0 <= j < |p| && p[j] in visited && depth[p[j]] <= j
    {
      assert Step(m, p[j], p[j + 1]);
      j := j + 1;
    }
    if j + 1 < |p| {
      assert Step(m, p[j], p[j + 1]);
      var c :| c in Bucket(m, p[j].data.id) && c.GetOppositeNode(p[j]) == p[j + 1];
      assert p[j] !in done - open;
      if p[j] !in open {
        assert p[j] in Elements(queue);
        var i :| 0 <= i < |queue| && queue[i] == p[j];
      }
    }
  }

  /** Recording an unvisited neighbour of the node being expanded, one move deeper. */
  lemma Discover(m: map<string, seq<NodeConnection>>, start: InteractiveNode, goal: InteractiveNode,
                 queue: seq<InteractiveNode>, visited: set<InteractiveNode>, done: set<InteractiveNode>,
                 current: InteractiveNode, cameFrom: map<InteractiveNode, InteractiveNode>,
                 depth: map<InteractiveNode, nat>, d: nat, c: NodeConnection, n: InteractiveNode)
    requires SearchState(m, start, goal, queue, visited, done, {current}, cameFrom, depth, d)
    requires c in Bucket(m, current.data.id) && c.GetOppositeNode(current) == n && n !in visited
    ensures SearchState(m, start, goal, queue + [n], visited + {n}, done, {current}, cameFrom[n := current], depth[n := d + 1], d)
  {
    DiscoverFrontier(m, start, goal, queue, visited, done, current, c, n);
    DiscoverRecorded(m, start, visited, current, cameFrom, depth, d, n);
    DiscoverLayered(m, start, goal, queue, visited, done, current, depth, d, n);
  }

  /** The new node joins the back of the queue; it is an endpoint of the connection that leads to it. */
  lemma DiscoverFrontier(m: map<string, seq<NodeConnection>>, start: InteractiveNode, goal: InteractiveNode,
                         queue: seq<InteractiveNode>, visited: set<InteractiveNode>, done: set<InteractiveNode>,
                         current: InteractiveNode, c: NodeConnection, n: InteractiveNode)
    requires Frontier(m, start, goal, queue, visited, done, {current})
    requires c in Bucket(m, current.data.id) && c.GetOppositeNode(current) == n && n !in visited
    ensures Frontier(m, start, goal, queue + [n], visited + {n}, done, {current})
    ensures Step(m, current, n)
  {
    StepInEndpoints(m, current, c);
    ElementsSnoc(queue, n);
    NoDupSnoc(queue, n);
  }

  /** The new node's predecessor is the node being expanded, one move closer to the start. */
  lemma DiscoverRecorded(m: map<string, seq<NodeConnection>>, start: InteractiveNode, visited: set<InteractiveNode>,
                         current: InteractiveNode, cameFrom: map<InteractiveNode, InteractiveNode>,
                         depth: map<InteractiveNode, nat>, d: nat, n: InteractiveNode)
    requires Recorded(m, start, visited, cameFrom, depth)
    requires current in visited && depth[current] == d && n !in visited && Step(m, current, n)
    ensures Recorded(m, start, visited + {n}, cameFrom[n := current], depth[n := d + 1])
  {
    var cameFrom', depth' := cameFrom[n := current], depth[n := d + 1];
    assert depth'.Keys == visited + {n};
    forall v | v in cameFrom'
      ensures Traced(m, cameFrom', depth', v)
    {
      if v != n {
        assert Traced(m, cameFrom, depth, v);
        assert cameFrom'[v] == cameFrom[v] && cameFrom[v] != n;
      }
    }
  }

  /**
   * The new node sits one deeper than the node being expanded, at the back
   * of the queue. A move into it comes from a node that is not closed, so
   * from the queue or the node being expanded, none of which is shallower
   * than `d`.
   */
  lemma DiscoverLayered(m: map<string, seq<NodeConnection>>, start: InteractiveNode, goal: InteractiveNode,
                        queue: seq<InteractiveNode>, visited: set<InteractiveNode>, done: set<InteractiveNode>,
                        current: InteractiveNode, depth: map<InteractiveNode, nat>, d: nat, n: InteractiveNode)
    requires Frontier(m, start, goal, queue, visited, done, {current}) && Layered(m, queue, visited, {current}, depth, d)
    requires n !in visited
    ensures Layered(m, queue + [n], visited + {n}, {current}, depth[n := d + 1], d)
  {
    var queue', visited', depth' := queue + [n], visited + {n}, depth[n := d + 1];
    ElementsSnoc(queue, n);
    forall i | 0 <= i < |queue'|
      ensures d <= depth'[queue'[i]] <= d + 1
    {
      if i < |queue| {
        assert queue'[i] == queue[i];
      }
    }
    forall i, j | 0 <= i <= j < |queue'|
      ensures depth'[queue'[i]] <= depth'[queue'[j]]
    {
      if j < |queue| {
        assert queue'[i] == queue[i] && queue'[j] == queue[j];
      } else if i < |queue| {
        assert queue'[i] == queue[i];
      }
    }
    forall x, y | x in visited' && y in visited' && Step(m, x, y)
      ensures depth'[y] <= depth'[x] + 1
    {
      if y == n && x != n {
        var e :| e in Bucket(m, x.data.id) && e.GetOppositeNode(x) == n;
        assert x !in done - {current};
        if x != current {
          assert x in Elements(queue);
          var i :| 0 <= i < |queue| && queue[i] == x;
        }
      }
    }
  }

  /** Every node some connection of `list` leads to from `x` is visited. */
  ghost predicate NeighboursVisited(list: seq<NodeConnection>, x: InteractiveNode, visited: set<InteractiveNode>)
    reads set c | c in list
  {
    forall c :: c in list && c.GetOppositeNode(x) != null ==> c.GetOppositeNode(x) in visited
  }

  lemma NeighboursVisitedStep(list: seq<NodeConnection>, i: nat, x: InteractiveNode, visited: set<InteractiveNode>, visited': set<InteractiveNode>)
    requires i < |list| && NeighboursVisited(list[..i], x, visited) && visited <= visited'
    requires list[i].GetOppositeNode(x) != null ==> list[i].GetOppositeNode(x) in visited'
    ensures NeighboursVisited(list[..i + 1], x, visited')
  {
    assert list[..i + 1] == list[..i] + [list[i]];
  }

  /** Once every neighbour of the node being expanded is visited, it is closed. */
  lemma CloseCurrent(m: map<string, seq<NodeConnection>>, start: InteractiveNode, goal: InteractiveNode,
                     queue: seq<InteractiveNode>, visited: set<InteractiveNode>, done: set<InteractiveNode>,
                     current: InteractiveNode, cameFrom: map<InteractiveNode, InteractiveNode>,
                     depth: map<InteractiveNode, nat>, d: nat)
    requires SearchState(m, start, goal, queue, visited, done, {current}, cameFrom, depth, d)
    requires NeighboursVisited(Bucket(m, current.data.id)[..|Bucket(m, current.data.id)|], current, visited)
    ensures SearchState(m, start, goal, queue, visited, done, {}, cameFrom, depth, d)
  {
    assert Bucket(m, current.data.id)[..|Bucket(m, current.data.id)|] == Bucket(m, current.data.id);
  }

  /** An exhausted queue leaves a closed visited set that misses the goal. */
  lemma Exhausted(m: map<string, seq<NodeConnection>>, start: InteractiveNode, goal: InteractiveNode,
                  visited: set<InteractiveNode>, done: set<InteractiveNode>,
                  cameFrom: map<InteractiveNode, InteractiveNode>, depth: map<InteractiveNode, nat>, d: nat)
    requires SearchState(m, start, goal, [], visited, done, {}, cameFrom, depth, d)
    ensures forall p :: !IsPath(m, p, start, goal)
  {
    forall p | IsPath(m, p, start, goal)
      ensures goal in visited
    {
      ClosedHoldsPath(m, visited, p, start, goal);
    }
  }

  /**
   * A predecessor map that leads back from `goal` to `start`: both have a
   * depth, the start's is zero, every recorded predecessor is one move
   * closer to the start and has a move to its successor, and every
   * predecessor other than `start` has one itself.
   */
  ghost predicate Trail(m: map<string, seq<NodeConnection>>, start: InteractiveNode, goal: InteractiveNode,
                        cameFrom: map<InteractiveNode, InteractiveNode>, depth: map<InteractiveNode, nat>)
    reads Indexed(m)
  {
    start in depth && goal in depth && depth[start] == 0 && (goal != start ==> goal in cameFrom) &&
    (forall v :: v in cameFrom ==> Traced(m, cameFrom, depth, v)) &&
    (forall v :: v in cameFrom && cameFrom[v] != start ==> cameFrom[v] in cameFrom)
  }

  lemma GoalInQueue(m: map<string, seq<NodeConnection>>, start: InteractiveNode, goal: InteractiveNode,
                    queue: seq<InteractiveNode>, visited: set<InteractiveNode>, done: set<InteractiveNode>,
                    cameFrom: map<InteractiveNode, InteractiveNode>, depth: map<InteractiveNode, nat>, d: nat)
    requires SearchState(m, start, goal, queue, visited, done, {}, cameFrom, depth, d)
    requires queue != [] && queue[0] == goal
    ensures Trail(m, start, goal, cameFrom, depth)
    ensures forall p :: IsPath(m, p, start, goal) ==> depth[goal] < |p|
  {
    assert goal in visited;
    forall p | IsPath(m, p, start, goal)
      ensures depth[goal] < |p|
    {
      PathDepth(m, start, goal, queue, visited, done, {}, cameFrom, depth, d, p, goal);
    }
  }

  /** Expanding `current`: every unvisited node one move away is visited, queued one move deeper and given `current` as predecessor. */
  method Expand(m: map<string, seq<NodeConnection>>, ghost start: InteractiveNode, ghost goal: InteractiveNode,
                queue: seq<InteractiveNode>, visited: set<InteractiveNode>, ghost done: set<InteractiveNode>,
                current: InteractiveNode, cameFrom: map<InteractiveNode, InteractiveNode>,
                ghost depth: map<InteractiveNode, nat>, ghost d: nat)
    returns (queue': seq<InteractiveNode>, visited': set<InteractiveNode>, cameFrom': map<InteractiveNode, InteractiveNode>,
             ghost depth': map<InteractiveNode, nat>)
    requires SearchState(m, start, goal, queue, visited, done, {current}, cameFrom, depth, d)
    ensures SearchState(m, start, goal, queue', visited', done, {}, cameFrom', depth', d)
  {
    queue', visited', cameFrom', depth' := queue, visited, cameFrom, depth;
    var list: seq<NodeConnection> := Bucket(m, current.data.id);
    var i := 0;
    while i < |list|
      invariant 0 <= i <= |list|
      invariant SearchState(m, start, goal, queue', visited', done, {current}, cameFrom', depth', d)
      invariant NeighboursVisited(list[..i], current, visited')
    {
      var c := list[i];
      ghost var before := visited';
      var neighbour := c.GetOppositeNode(current);
      if neighbour != null && neighbour !in visited' {
        var n: InteractiveNode := neighbour;
        Discover(m, start, goal, queue', visited', done, current, cameFrom', depth', d, c, n);
        queue' := queue' + [n];
        visited' := visited' + {n};
        cameFrom' := cameFrom'[n := current];
        depth' := depth'[n := d + 1];
      }
      NeighboursVisitedStep(list, i, current, before, visited');
      i := i + 1;
    }
    CloseCurrent(m, start, goal, queue', visited', done, current, cameFrom', depth', d);
  }

  /** The search begins with the start node alone, visited and queued at depth zero. */
  lemma Begin(m: map<string, seq<NodeConnection>>, start: InteractiveNode, goal: InteractiveNode)
    ensures SearchState(m, start, goal, [start], {start}, {}, {}, map[], map[start := 0], 0)
  {
    assert Elements([start]) == {start};
  }

  /** One round of the search: take the front of the queue, which is not the goal, and expand it. */
  method Round(m: map<string, seq<NodeConnection>>, ghost start: InteractiveNode, ghost goal: InteractiveNode,
               queue: seq<InteractiveNode>, visited: set<InteractiveNode>, ghost done: set<InteractiveNode>,
               cameFrom: map<InteractiveNode, InteractiveNode>, ghost depth: map<InteractiveNode, nat>, ghost d: nat)
    returns (queue': seq<InteractiveNode>, visited': set<InteractiveNode>, ghost done': set<InteractiveNode>,
             cameFrom': map<InteractiveNode, InteractiveNode>, ghost depth': map<InteractiveNode, nat>, ghost d': nat)
    requires SearchState(m, start, goal, queue, visited, done, {}, cameFrom, depth, d)
    requires queue != [] && queue[0] != goal
    ensures SearchState(m, start, goal, queue', visited', done', {}, cameFrom', depth', d')
    ensures done' == done + {queue[0]} && queue[0] !in done && queue[0] in {start} + Endpoints(m)
  {
    var current := queue[0];
    Dequeue(m, start, goal, queue, visited, done, cameFrom, depth, d);
    done', d' := done + {current}, depth[current];
    queue', visited', cameFrom', depth' := Expand(m, start, goal, queue[1..], visited, done', current, cameFrom, depth, d');
  }

  /**
   * The search proper. It either finds the goal, with a predecessor map
   * that traces back from the goal to the start in as few moves as any path
   * takes, or exhausts every node reachable from the start without meeting
   * the goal.
   */
  method Search(m: map<string, seq<NodeConnection>>, start: InteractiveNode, goal: InteractiveNode)
    returns (found: bool, cameFrom: map<InteractiveNode, InteractiveNode>, ghost depth: map<InteractiveNode, nat>)
    ensures found ==> Trail(m, start, goal, cameFrom, depth) && forall p :: IsPath(m, p, start, goal) ==> depth[goal] < |p|
    ensures !found ==> forall p :: !IsPath(m, p, start, goal)
  {
    ghost var universe := {start} + Endpoints(m);
    var queue: seq<InteractiveNode> := [start];
    var visited: set<InteractiveNode> := {start};
    ghost var done: set<InteractiveNode> := {};
    cameFrom := map[];
    depth := map[start := 0];
    ghost var d: nat := 0;
    found := false;
    Begin(m, start, goal);
    while queue != []
      invariant SearchState(m, start, goal, queue, visited, done, {}, cameFrom, depth, d)
      invariant done <= universe
      decreases |universe - done|
    {
      var current: InteractiveNode := queue[0];
      if current == goal {
        GoalInQueue(m, start, goal, queue, visited, done, cameFrom, depth, d);
        found := true;
        return;
      }
      FewerLeft(universe, done, current);
      queue, visited, done, cameFrom, depth, d := Round(m, start, goal, queue, visited, done, cameFrom, depth, d);
    }
    Exhausted(m, start, goal, visited, done, cameFrom, depth, d);
  }

  /** A path from `a` extends backwards by one move into `a`. */
  lemma PathCons(m: map<string, seq<NodeConnection>>, x: InteractiveNode, p: seq<InteractiveNode>, a: InteractiveNode, b: InteractiveNode)
    requires IsPath(m, p, a, b) && Step(m, x, a)
    ensures IsPath(m, [x] + p, x, b)
  {
    var q := [x] + p;
    forall i | 0 <= i < |q| - 1
      ensures Step(m, q[i], q[i + 1])
    {
      if i > 0 {
        assert q[i] == p[i - 1] && q[i + 1] == p[i];
      }
    }
  }

  /**
   * The search followed, when it meets the goal, by the rebuilding of the
   * path: walk the predecessors back from `goal`, putting each node at the
   * front, until `start` is reached, then put `start` at the front. For
   * distinct endpoints the result is a path with as few nodes as any path
   * from `start` to `goal`, or nothing when no path exists.
   */
  method ShortestPath(m: map<string, seq<NodeConnection>>, start: InteractiveNode, goal: InteractiveNode)
    returns (path: seq<InteractiveNode>)
    requires start != goal
    ensures path != [] ==> IsPath(m, path, start, goal) && |path| >= 2
    ensures path != [] ==> forall p :: IsPath(m, p, start, goal) ==> |path| <= |p|
    ensures path == [] ==> forall p :: !IsPath(m, p, start, goal)
  {
    path := [];
    var found, cameFrom, depth := Search(m, start, goal);
    if !found {
      return;
    }
    var node := goal;
    while node != start
      invariant node in depth && (node != start ==> node in cameFrom)
      invariant IsPath(m, [node] + path, node, goal)
      invariant node == goal <==> path == []
      invariant |path| + depth[node] == depth[goal]
      invariant forall p :: IsPath(m, p, start, goal) ==> depth[goal] < |p|
      decreases depth[node]
    {
      assert Traced(m, cameFrom, depth, node);
      PathCons(m, cameFrom[node], [node] + path, node, goal);
      path := [node] + path;
      node := cameFrom[node];
    }
    path := [start] + path;
  }
}
