/**
 * The generic breadth-first search: a FIFO queue of states to expand and a
 * map from every state seen to the state it was first reached from. The
 * puzzle's successor function and goal test are passed in as functions; a
 * ghost, finite set of states closed under the successor function bounds the
 * search.
 */
module Search {

  /** Each state after the first is a neighbour of the one before it. */
  ghost predicate IsWalk<S>(neighbors: S --> seq<S>, p: seq<S>) {
    forall i :: 0 <= i < |p| - 1 ==> neighbors.requires(p[i]) && p[i + 1] in neighbors(p[i])
  }

  /** `space` is closed under moves, and both functions may be applied anywhere in it. */
  ghost predicate Closed<S>(space: set<S>, neighbors: S --> seq<S>, isSolution: S --> bool) {
    forall s :: s in space ==>
      neighbors.requires(s) && isSolution.requires(s) && forall n :: n in neighbors(s) ==> n in space
  }

  /** No walk from `start` ends in a solution. */
  ghost predicate Unsolvable<S(!new)>(start: S, neighbors: S --> seq<S>, isSolution: S --> bool, space: set<S>)
    requires start in space && Closed(space, neighbors, isSolution)
  {
    WalkInside(space, neighbors, isSolution);
    forall p :: |p| > 0 && p[0] == start && IsWalk(neighbors, p) ==> !isSolution(p[|p| - 1])
  }

  /** A walk that starts in a closed set never leaves it. */
  lemma WalkInside<S>(space: set<S>, neighbors: S --> seq<S>, isSolution: S --> bool)
    requires Closed(space, neighbors, isSolution)
    ensures forall p :: |p| > 0 && p[0] in space && IsWalk(neighbors, p) ==> forall i :: 0 <= i < |p| ==> p[i] in space
  {
    forall p | |p| > 0 && p[0] in space && IsWalk(neighbors, p) ensures forall i :: 0 <= i < |p| ==> p[i] in space {
      WalkPrefixInside(space, neighbors, isSolution, p, |p| - 1);
    }
  }

  lemma {:induction false} WalkPrefixInside<S>(space: set<S>, neighbors: S --> seq<S>, isSolution: S --> bool, p: seq<S>, n: nat)
    requires Closed(space, neighbors, isSolution)
    requires n < |p| && p[0] in space && IsWalk(neighbors, p)
    ensures forall i :: 0 <= i <= n ==> p[i] in space
  {
    if n > 0 {
      var m: nat := n - 1;
      WalkPrefixInside(space, neighbors, isSolution, p, m);
      assert p[m + 1] in neighbors(p[m]);
    }
  }

  /**
   * A set holding `start`, closed under moves and free of solutions shows the
   * puzzle unsolvable.
   */
  lemma ExhaustedUnsolvable<S(!new)>(start: S, neighbors: S --> seq<S>, isSolution: S --> bool, space: set<S>, seen: set<S>)
    requires start in space && Closed(space, neighbors, isSolution)
    requires start in seen && seen <= space
    requires forall s :: s in seen ==> !isSolution(s) && forall n :: n in neighbors(s) ==> n in seen
    ensures Unsolvable(start, neighbors, isSolution, space)
  {
    forall p | |p| > 0 && p[0] == start && IsWalk(neighbors, p) ensures p[|p| - 1] in seen {
      WalkPrefixInside(seen, neighbors, isSolution, p, |p| - 1);
    }
  }

  // ---------------------------------------------------------------------
  // Recording the neighbours of the state being expanded
  // ---------------------------------------------------------------------

  /**
   * The loop over the neighbours of `curr`: a neighbour that is not yet a key
   * gets `curr` as its predecessor and joins the back of the queue; one that is
   * already a key is skipped.
   */
  function Record<S(==)>(preds: map<S, S>, queue: seq<S>, curr: S, ns: seq<S>): (map<S, S>, seq<S>) {
    if ns == [] then (preds, queue)
    else
      var (p, q) := Record(preds, queue, curr, ns[..|ns| - 1]);
      var n := ns[|ns| - 1];
      if n in p then (p, q) else (p[n := curr], q + [n])
  }

  /** Recording one more neighbour. */
  lemma RecordStep<S>(preds: map<S, S>, queue: seq<S>, curr: S, ns: seq<S>, i: nat)
    requires i < |ns|
    ensures var (p, q) := Record(preds, queue, curr, ns[..i]);
      Record(preds, queue, curr, ns[..i + 1]) == if ns[i] in p then (p, q) else (p[ns[i] := curr], q + [ns[i]])
  {
    assert ns[..i + 1][..i] == ns[..i];
  }

  /** No element occurs twice. */
  predicate Distinct<S(==)>(s: seq<S>) {
    forall i, j :: 0 <= i < j < |s| ==> s[i] != s[j]
  }

  /**
   * What recording does: an existing predecessor is never overwritten, every
   * new key has `curr` as its predecessor and is one of the neighbours, every
   * neighbour ends up a key, and the new keys are appended to the back of the
   * queue, once each.
   */
  lemma {:induction false} RecordFacts<S>(preds: map<S, S>, queue: seq<S>, curr: S, ns: seq<S>, p: map<S, S>, q: seq<S>)
    requires (p, q) == Record(preds, queue, curr, ns)
    ensures forall k :: k in preds ==> k in p && p[k] == preds[k]
    ensures forall k :: k in p && k !in preds ==> p[k] == curr && k in ns
    ensures forall n :: n in ns ==> n in p
    ensures |q| >= |queue| && q[..|queue|] == queue
    ensures forall x :: x in q[|queue|..] <==> x in p && x !in preds
    ensures forall i :: |queue| <= i < |q| ==> q[i] in p && q[i] !in preds
    ensures Distinct(q[|queue|..])
  {
    if ns != [] {
      var init := ns[..|ns| - 1];
      var (p0, q0) := Record(preds, queue, curr, init);
      RecordFacts(preds, queue, curr, init, p0, q0);
      var n := ns[|ns| - 1];
      assert forall x :: x in init ==> x in ns;
      assert ns == init + [n];
      if n !in p0 {
        assert (q0 + [n])[..|queue|] == q0[..|queue|];
        assert (q0 + [n])[|queue|..] == q0[|queue|..] + [n];
      }
    }
  }

  // ---------------------------------------------------------------------
  // The search
  // ---------------------------------------------------------------------

  /**
   * Every key but the start has a key as predecessor, is one of its
   * neighbours and ranks above it; the start is its own predecessor.
   */
  ghost predicate Rooted<S>(preds: map<S, S>, start: S, rank: map<S, nat>, neighbors: S --> seq<S>) {
    start in preds && preds[start] == start &&
    (forall k :: k in preds ==> k in rank) &&
    (forall k :: k in preds && k != start ==>
      preds[k] in preds && rank[preds[k]] < rank[k] &&
      neighbors.requires(preds[k]) && k in neighbors(preds[k]))
  }

  /** Consecutive states of `path` are linked in the predecessor map. */
  ghost predicate Linked<S>(preds: map<S, S>, path: seq<S>) {
    forall i :: 0 < i < |path| ==> path[i] in preds && preds[path[i]] == path[i - 1]
  }

  /** Following predecessor links from a rooted map walks along moves. */
  lemma LinkedIsWalk<S>(preds: map<S, S>, start: S, rank: map<S, nat>, neighbors: S --> seq<S>, path: seq<S>)
    requires Rooted(preds, start, rank, neighbors) && Linked(preds, path)
    requires forall i :: 0 < i < |path| ==> path[i] != start
    ensures IsWalk(neighbors, path)
  {
    forall i | 0 <= i < |path| - 1 ensures neighbors.requires(path[i]) && path[i + 1] in neighbors(path[i]) {
      assert preds[path[i + 1]] == path[i];
    }
  }

  /**
   * constructPath: from the solution back along predecessors to the start,
   * each state put at the front; empty when the solution is not a key.
   */
  method ConstructPath<S(==)>(predecessors: map<S, S>, puzzleToSolve: S, solution: S, ghost rank: map<S, nat>, ghost neighbors: S --> seq<S>)
    returns (path: seq<S>)
    requires Rooted(predecessors, puzzleToSolve, rank, neighbors)
    ensures path == [] <==> solution !in predecessors
    ensures path != [] ==> path[0] == puzzleToSolve && path[|path| - 1] == solution
    ensures Linked(predecessors, path)
    ensures forall i :: 0 < i < |path| ==> path[i] != puzzleToSolve
  {
    path := [];
    if solution in predecessors {
      var currentConfig := solution;
      while currentConfig != puzzleToSolve
        invariant currentConfig in predecessors
        invariant path == [] ==> currentConfig == solution
        invariant path != [] ==> path[|path| - 1] == solution && path[0] in predecessors && predecessors[path[0]] == currentConfig
        invariant Linked(predecessors, path)
        invariant forall i :: 0 <= i < |path| ==> path[i] != puzzleToSolve
        decreases rank[currentConfig]
      {
        path := [currentConfig] + path;
        currentConfig := predecessors[currentConfig];
      }
      path := [puzzleToSolve] + path;
    }
  }

  /** What the search returns: a walk from the start to a solution, or nothing when there is none. */
  ghost predicate SearchResult<S(!new)>(start: S, neighbors: S --> seq<S>, isSolution: S --> bool, space: set<S>, path: seq<S>)
    requires start in space && Closed(space, neighbors, isSolution)
  {
    WalkInside(space, neighbors, isSolution);
    (path != [] ==>
      path[0] == start && IsWalk(neighbors, path) && isSolution(path[|path| - 1])) &&
    (path == [] ==> Unsolvable(start, neighbors, isSolution, space)) &&
    (isSolution(start) ==> path == [start])
  }

  class Solver<S(==,!new)> {
    /** Each state seen, mapped to the state it was first reached from. */
    var predecessors: map<S, S>

    constructor()
      ensures predecessors == map[]
    {
      predecessors := map[];
    }

    /** solve: the breadth-first search from `solveThis`. */
    method Solve(solveThis: S, neighbors: S --> seq<S>, isSolution: S --> bool, ghost space: set<S>)
      returns (path: seq<S>)
      requires solveThis in space && Closed(space, neighbors, isSolution)
      modifies this
      ensures SearchResult(solveThis, neighbors, isSolution, space, path)
      ensures solveThis in predecessors && predecessors[solveThis] == solveThis
      ensures Linked(predecessors, path)
    {
      path := GetShortestPath(solveThis, neighbors, isSolution, space);
    }

    /**
     * getShortestPath: expand states in FIFO order from `puzzle`; return the
     * path to the first solution dequeued, or the empty list once the queue
     * runs dry.
     */
    method GetShortestPath(puzzle: S, neighbors: S --> seq<S>, isSolution: S --> bool, ghost space: set<S>)
      returns (path: seq<S>)
      requires puzzle in space && Closed(space, neighbors, isSolution)
      modifies this
      ensures SearchResult(puzzle, neighbors, isSolution, space, path)
      ensures puzzle in predecessors && predecessors[puzzle] == puzzle
      ensures Linked(predecessors, path)
    {
      var queue := [puzzle];
      predecessors := map[puzzle := puzzle];
      ghost var rank: map<S, nat> := map[puzzle := 0];
      ghost var done: set<S> := {};

      while queue != []
        invariant Rooted(predecessors, puzzle, rank, neighbors)
        invariant predecessors.Keys <= space
        invariant QueueInv(predecessors, queue, done)
        invariant DoneInv(predecessors, done, neighbors, isSolution)
        invariant puzzle in done || queue == [puzzle]
        decreases |space - predecessors.Keys|, |queue|
      {
        ghost var queued := queue;
        var currConfig := queue[0];
        queue := queue[1..];
        if isSolution(currConfig) {
          path := ConstructPath(predecessors, puzzle, currConfig, rank, neighbors);
          Found(puzzle, neighbors, isSolution, space, predecessors, rank, done, queued, path);
          return;
        }
        ghost var before := predecessors;
        ghost var waiting := queue;
        var ns := neighbors(currConfig);
        for i := 0 to |ns|
          invariant (predecessors, queue) == Record(before, waiting, currConfig, ns[..i])
        {
          RecordStep(before, waiting, currConfig, ns, i);
          if ns[i] !in predecessors {
            predecessors := predecessors[ns[i] := currConfig];
            queue := queue + [ns[i]];
          }
        }
        assert ns[..|ns|] == ns;
        Expand(puzzle, neighbors, isSolution, space, before, queued, rank, done, predecessors, queue);
        rank := NewRank(before, rank, currConfig, predecessors);
        done := done + {currConfig};
      }
      path := [];
      Exhausted(puzzle, neighbors, isSolution, space, predecessors, done);
    }
  }

  /** The first state dequeued that is a solution yields a shortest-path candidate the search may return. */
  lemma Found<S(!new)>(puzzle: S, neighbors: S --> seq<S>, isSolution: S --> bool, space: set<S>,
                       preds: map<S, S>, rank: map<S, nat>, done: set<S>, queued: seq<S>, path: seq<S>)
    requires puzzle in space && Closed(space, neighbors, isSolution)
    requires Rooted(preds, puzzle, rank, neighbors)
    requires DoneInv(preds, done, neighbors, isSolution)
    requires puzzle in done || queued == [puzzle]
    requires queued != [] && isSolution.requires(queued[0]) && isSolution(queued[0])
    requires path != [] && path[0] == puzzle && path[|path| - 1] == queued[0]
    requires Linked(preds, path) && forall i :: 0 < i < |path| ==> path[i] != puzzle
    ensures SearchResult(puzzle, neighbors, isSolution, space, path)
  {
    LinkedIsWalk(preds, puzzle, rank, neighbors, path);
    WalkInside(space, neighbors, isSolution);
    if isSolution(puzzle) {
      assert puzzle !in done;
      assert |path| == 1;
    }
  }

  /** A queue run dry leaves every seen state expanded: no solution is reachable. */
  lemma Exhausted<S(!new)>(puzzle: S, neighbors: S --> seq<S>, isSolution: S --> bool, space: set<S>,
                           preds: map<S, S>, done: set<S>)
    requires puzzle in space && Closed(space, neighbors, isSolution)
    requires puzzle in preds && preds.Keys <= space
    requires QueueInv(preds, [], done)
    requires DoneInv(preds, done, neighbors, isSolution)
    ensures SearchResult(puzzle, neighbors, isSolution, space, [])
  {
    ExhaustedUnsolvable(puzzle, neighbors, isSolution, space, preds.Keys);
    WalkInside(space, neighbors, isSolution);
  }

  /** The queue holds distinct keys not yet expanded; every key is expanded or queued. */
  ghost predicate QueueInv<S>(preds: map<S, S>, queue: seq<S>, done: set<S>) {
    Distinct(queue) &&
    (forall x :: x in queue ==> x in preds && x !in done) &&
    (forall k :: k in preds ==> k in done || k in queue) &&
    done <= preds.Keys
  }

  /** Every expanded state is no solution and all its neighbours are keys. */
  ghost predicate DoneInv<S>(preds: map<S, S>, done: set<S>, neighbors: S --> seq<S>, isSolution: S --> bool) {
    forall d :: d in done ==>
      neighbors.requires(d) && isSolution.requires(d) && !isSolution(d) &&
      forall n :: n in neighbors(d) ==> n in preds
  }

  /** The ranks after recording: unchanged for old keys, one above `curr` for new ones. */
  ghost function NewRank<S>(preds: map<S, S>, rank: map<S, nat>, curr: S, p: map<S, S>): map<S, nat>
    requires forall k :: k in preds ==> k in rank
    requires curr in rank
  {
    map k | k in p :: if k in preds then rank[k] else rank[curr] + 1
  }

  /** Expanding the state at the head of the queue, when it is not a solution, keeps every loop invariant and makes progress. */
  lemma Expand<S(!new)>(puzzle: S, neighbors: S --> seq<S>, isSolution: S --> bool, space: set<S>,
                        preds: map<S, S>, queued: seq<S>, rank: map<S, nat>, done: set<S>,
                        p: map<S, S>, q: seq<S>)
    requires Closed(space, neighbors, isSolution)
    requires Rooted(preds, puzzle, rank, neighbors) && preds.Keys <= space
    requires QueueInv(preds, queued, done)
    requires DoneInv(preds, done, neighbors, isSolution)
    requires puzzle in done || queued == [puzzle]
    requires queued != [] && !isSolution(queued[0])
    requires (p, q) == Record(preds, queued[1..], queued[0], neighbors(queued[0]))
    ensures Rooted(p, puzzle, NewRank(preds, rank, queued[0], p), neighbors) && p.Keys <= space
    ensures QueueInv(p, q, done + {queued[0]})
    ensures DoneInv(p, done + {queued[0]}, neighbors, isSolution)
    ensures puzzle in done + {queued[0]}
    ensures |space - p.Keys| < |space - preds.Keys| || (p.Keys == preds.Keys && |q| < |queued|)
  {
    var curr, waiting := queued[0], queued[1..];
    RecordFacts(preds, waiting, curr, neighbors(curr), p, q);
    assert curr in queued;
    assert curr in preds && curr in space;
    RecordRooted(puzzle, neighbors, preds, rank, curr, waiting, p);
    RecordQueue(preds, queued, done, p, q);
    RecordDone(neighbors, isSolution, space, preds, done, curr, p);
    Progress(space, preds.Keys, p.Keys, waiting, q);
  }

  lemma RecordDone<S>(neighbors: S --> seq<S>, isSolution: S --> bool, space: set<S>,
                      preds: map<S, S>, done: set<S>, curr: S, p: map<S, S>)
    requires Closed(space, neighbors, isSolution) && preds.Keys <= space && curr in space
    requires DoneInv(preds, done, neighbors, isSolution) && !isSolution(curr)
    requires forall k :: k in preds ==> k in p
    requires forall k :: k in p && k !in preds ==> k in neighbors(curr)
    requires forall n :: n in neighbors(curr) ==> n in p
    ensures DoneInv(p, done + {curr}, neighbors, isSolution) && p.Keys <= space
  {
  }

  lemma RecordRooted<S>(puzzle: S, neighbors: S --> seq<S>, preds: map<S, S>, rank: map<S, nat>, curr: S, waiting: seq<S>, p: map<S, S>)
    requires Rooted(preds, puzzle, rank, neighbors) && curr in preds && neighbors.requires(curr)
    requires forall k :: k in preds ==> k in p && p[k] == preds[k]
    requires forall k :: k in p && k !in preds ==> p[k] == curr && k in neighbors(curr)
    ensures Rooted(p, puzzle, NewRank(preds, rank, curr, p), neighbors)
  {
  }

  lemma RecordQueue<S>(preds: map<S, S>, queued: seq<S>, done: set<S>, p: map<S, S>, q: seq<S>)
    requires QueueInv(preds, queued, done) && queued != []
    requires forall k :: k in preds ==> k in p
    requires |q| >= |queued| - 1 && q[..|queued| - 1] == queued[1..]
    requires forall x :: x in q[|queued| - 1..] <==> x in p && x !in preds
    requires Distinct(q[|queued| - 1..])
    ensures QueueInv(p, q, done + {queued[0]})
  {
    var w := |queued| - 1;
    var added := q[w..];
    assert forall i :: 0 <= i < w ==> q[i] == queued[i + 1];
    forall i, j | 0 <= i < j < |q| ensures q[i] != q[j] {
      if j < w {
        assert queued[i + 1] != queued[j + 1];
      } else if i < w {
        assert q[i] in queued && q[j] == added[j - w];
      } else {
        assert q[i] == added[i - w] && q[j] == added[j - w];
      }
    }
    forall x | x in q ensures x !in done + {queued[0]} {
      var j :| 0 <= j < |q| && q[j] == x;
      if j < w {
        assert queued[0] != queued[j + 1];
        assert x in queued;
      } else {
        assert x == added[j - w];
      }
    }
    forall k | k in p ensures k in done + {queued[0]} || k in q {
      if k !in preds {
        assert k in added;
      } else if k !in done && k != queued[0] {
        var j :| 0 <= j < |queued| && queued[j] == k;
        assert q[j - 1] == k;
      }
    }
  }

  /** Each pass either records a new state or shortens the queue. */
  lemma Progress<S>(space: set<S>, before: set<S>, after: set<S>, waiting: seq<S>, queue: seq<S>)
    requires before <= after <= space
    requires |queue| >= |waiting| && queue[..|waiting|] == waiting
    requires forall i :: |waiting| <= i < |queue| ==> queue[i] in after && queue[i] !in before
    ensures |space - after| < |space - before| || (after == before && |queue| == |waiting|)
  {
    if |queue| > |waiting| {
      var y := queue[|waiting|];
      assert y in after && y !in before;
    }
    if after != before {
      var x :| x in after && x !in before;
      var rest := (space - before) - {x};
      assert space - after <= rest;
      SubsetCard(space - after, rest);
      assert space - before == rest + {x};
    }
  }

  lemma {:induction false} SubsetCard<S>(a: set<S>, b: set<S>)
    requires a <= b
    ensures |a| <= |b|
    decreases b
  {
    if a != {} {
      var x :| x in a;
      SubsetCard(a - {x}, b - {x});
    }
  }
}
