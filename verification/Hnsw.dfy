/** The HNSW graph: insertion, greedy descent and beam search. Distances are taken as an arbitrary
    total order on numbers, and the level of a new node is an input. */
module Hnsw {
  import opened Wrappers
  import Sorting

  type Pair = (int, nat)  // distance, node: the order of both heaps

  predicate Le(a: Pair, b: Pair) {
    a.0 < b.0 || (a.0 == b.0 && a.1 <= b.1)
  }

  datatype Graph = Graph(
    levels: seq<nat>,
    links: seq<seq<seq<nat>>>,  // node, layer, neighbours
    entry: Option<nat>,
    maxLevel: int)

  predicate InLayer(g: Graph, x: nat, lc: nat) {
    x < |g.levels| && lc <= g.levels[x]
  }

  /** Every node has a list for each of its layers, so that indexing by an in-layer node is in range. */
  predicate Shaped(g: Graph) {
    && |g.links| == |g.levels|
    && forall x | 0 <= x < |g.links| :: |g.links[x]| == g.levels[x] + 1
  }

  function Adj(g: Graph, x: nat, lc: nat): seq<nat>
    requires Shaped(g) && InLayer(g, x, lc)
  {
    g.links[x][lc]
  }

  predicate Distinct(s: seq<nat>) {
    forall i, j | 0 <= i < j < |s| :: s[i] != s[j]
  }

  /** Neighbours are other nodes of the same layer, each once. */
  predicate GoodList(g: Graph, x: nat, lc: nat, l: seq<nat>) {
    Distinct(l) && forall y | y in l :: y != x && InLayer(g, y, lc)
  }

  ghost predicate GoodLists(g: Graph)
    requires Shaped(g)
  {
    forall x, lc | InLayer(g, x, lc) :: GoodList(g, x, lc, Adj(g, x, lc))
  }

  ghost predicate Linked(g: Graph) {
    Shaped(g) && GoodLists(g)
  }

  // --- the two heaps, as sets of distinct pairs ---

  lemma {:induction false} LeastExists(s: set<Pair>) returns (p: Pair)
    requires s != {}
    ensures p in s && forall q | q in s :: Le(p, q)
  {
    p :| p in s;
    assert forall q | q in s :: q == p || q in s - {p};
    if s - {p} != {} {
      var q := LeastExists(s - {p});
      if Le(q, p) { p := q; }
    }
  }

  lemma {:induction false} GreatestExists(s: set<Pair>) returns (p: Pair)
    requires s != {}
    ensures p in s && forall q | q in s :: Le(q, p)
  {
    p :| p in s;
    assert forall q | q in s :: q == p || q in s - {p};
    if s - {p} != {} {
      var q := GreatestExists(s - {p});
      if Le(p, q) { p := q; }
    }
  }

  method PeekMin(s: set<Pair>) returns (p: Pair)
    requires s != {}
    ensures p in s && forall q | q in s :: Le(p, q)
  {
    ghost var w := LeastExists(s);
    p :| p in s && forall q | q in s :: Le(p, q);
  }

  method PeekMax(s: set<Pair>) returns (p: Pair)
    requires s != {}
    ensures p in s && forall q | q in s :: Le(q, p)
  {
    ghost var w := GreatestExists(s);
    p :| p in s && forall q | q in s :: Le(q, p);
  }

  predicate Ascending(out: seq<Pair>) {
    forall i, j | 0 <= i < j < |out| :: Le(out[i], out[j]) && out[i] != out[j]
  }

  /** The heap emptied into a list, nearest first. */
  method Drain(s: set<Pair>) returns (out: seq<Pair>)
    ensures Ascending(out) && |out| == |s| && forall p :: p in out <==> p in s
  {
    out := [];
    var rest := s;
    while rest != {}
      invariant rest <= s && |out| + |rest| == |s|
      invariant Ascending(out) && forall p :: p in out <==> p in s && p !in rest
      invariant forall i, q | 0 <= i < |out| && q in rest :: Le(out[i], q) && out[i] != q
    {
      var p := PeekMin(rest);
      out := out + [p];
      rest := rest - {p};
    }
  }

  // --- what the searches promise ---

  ghost predicate Path(g: Graph, lc: nat, p: seq<nat>)
    requires Linked(g)
  {
    && p != []
    && (forall i | 0 <= i < |p| :: InLayer(g, p[i], lc))
    && forall i | 0 <= i < |p| - 1 :: p[i + 1] in Adj(g, p[i], lc)
  }

  ghost predicate Reachable(g: Graph, lc: nat, a: nat, b: nat)
    requires Linked(g)
  {
    exists p :: Path(g, lc, p) && p[0] == a && p[|p| - 1] == b
  }

  lemma ReachSelf(g: Graph, lc: nat, a: nat)
    requires Linked(g) && InLayer(g, a, lc)
    ensures Reachable(g, lc, a, a)
  {
    assert Path(g, lc, [a]);
  }

  lemma ReachNext(g: Graph, lc: nat, a: nat, b: nat, c: nat)
    requires Linked(g) && Reachable(g, lc, a, b) && InLayer(g, b, lc) && c in Adj(g, b, lc)
    ensures InLayer(g, c, lc) && Reachable(g, lc, a, c)
  {
    var p :| Path(g, lc, p) && p[0] == a && p[|p| - 1] == b;
    assert GoodList(g, b, lc, Adj(g, b, lc));
    assert Path(g, lc, p + [c]);
  }

  /** The beam holds at least one result even when asked for none. */
  function Cap(ef: nat): nat {
    if ef == 0 then 1 else ef
  }

  /** x is a result, or the results are full and none of them is farther than x. */
  predicate Ranked(dq: nat -> int, cap: nat, results: set<Pair>, x: nat) {
    (dq(x), x) in results || (|results| == cap && forall r | r in results :: r.0 <= dq(x))
  }

  /** What a beam search returns, with the nodes it visited. */
  ghost predicate Beam(g: Graph, dq: nat -> int, ep: nat, ef: nat, lc: nat, results: set<Pair>, visited: set<nat>)
    requires Linked(g)
  {
    && ep in visited
    && (forall x | x in visited :: InLayer(g, x, lc) && Reachable(g, lc, ep, x) && Ranked(dq, Cap(ef), results, x))
    && 1 <= |results| <= Cap(ef)
    && (forall r | r in results :: r.1 in visited && r.0 == dq(r.1))
    && (forall r, y | r in results && y in Adj(g, r.1, lc) :: y in visited)
  }

  lemma {:induction false} ClosedUnderPaths(g: Graph, lc: nat, s: set<nat>, p: seq<nat>)
    requires Linked(g) && Path(g, lc, p) && p[0] in s
    requires forall x, y | x in s && InLayer(g, x, lc) && y in Adj(g, x, lc) :: y in s
    ensures p[|p| - 1] in s
    decreases |p|
  {
    if |p| > 1 {
      var q := p[1..];
      assert forall i | 0 <= i < |q| :: q[i] == p[i + 1];
      assert p[0 + 1] in Adj(g, p[0], lc);
      ClosedUnderPaths(g, lc, s, q);
    }
  }

  /** A beam that is not full has found exactly the part of the layer reachable from the entry. */
  lemma ShortBeamIsComponent(g: Graph, dq: nat -> int, ep: nat, ef: nat, lc: nat, results: set<Pair>, visited: set<nat>)
    requires Linked(g) && Beam(g, dq, ep, ef, lc, results, visited) && |results| < Cap(ef)
    ensures forall x: nat :: (dq(x), x) in results <==> Reachable(g, lc, ep, x)
  {
    forall x: nat | Reachable(g, lc, ep, x)
      ensures (dq(x), x) in results
    {
      var p :| Path(g, lc, p) && p[0] == ep && p[|p| - 1] == x;
      forall a, b | a in visited && InLayer(g, a, lc) && b in Adj(g, a, lc)
        ensures b in visited
      {
        assert Ranked(dq, Cap(ef), results, a);
        assert (dq(a), a).1 == a;
      }
      ClosedUnderPaths(g, lc, visited, p);
      assert Ranked(dq, Cap(ef), results, x);
    }
    forall x: nat | (dq(x), x) in results
      ensures Reachable(g, lc, ep, x)
    {
      assert (dq(x), x).1 in visited;
    }
  }

  /** What a caller can rely on: the nodes found are distinct, nearest first and reachable; a neighbour of
      one of them is missing only if the list is full and the neighbour no nearer than anything in it; and
      a list that is not full is everything reachable. */
  ghost predicate Optimal(g: Graph, dq: nat -> int, ep: nat, ef: nat, lc: nat, out: seq<Pair>)
    requires Linked(g)
  {
    && Ascending(out) && 1 <= |out| <= Cap(ef)
    && (forall r | r in out :: r.0 == dq(r.1) && InLayer(g, r.1, lc) && Reachable(g, lc, ep, r.1))
    && (forall r, y | r in out && y in Adj(g, r.1, lc) ::
          (dq(y), y) in out || (|out| == Cap(ef) && forall s | s in out :: s.0 <= dq(y)))
    && (|out| < Cap(ef) ==> forall x: nat :: (dq(x), x) in out <==> Reachable(g, lc, ep, x))
  }

  lemma NeighboursRanked(g: Graph, dq: nat -> int, ep: nat, ef: nat, lc: nat, results: set<Pair>, visited: set<nat>)
    requires Linked(g) && Beam(g, dq, ep, ef, lc, results, visited)
    ensures forall r, y | r in results && y in Adj(g, r.1, lc) ::
      (dq(y), y) in results || (|results| == Cap(ef) && forall s | s in results :: s.0 <= dq(y))
  {
    assert forall y | y in visited :: Ranked(dq, Cap(ef), results, y);
  }

  lemma BeamOptimal(g: Graph, dq: nat -> int, ep: nat, ef: nat, lc: nat, results: set<Pair>, visited: set<nat>,
                    out: seq<Pair>)
    requires Linked(g) && Beam(g, dq, ep, ef, lc, results, visited)
    requires Ascending(out) && |out| == |results| && forall p :: p in out <==> p in results
    ensures Optimal(g, dq, ep, ef, lc, out)
  {
    hide Ascending, Ranked, Reachable, Linked;
    NeighboursRanked(g, dq, ep, ef, lc, results, visited);
    if |results| < Cap(ef) { ShortBeamIsComponent(g, dq, ep, ef, lc, results, visited); }
  }

  // --- the searches ---

  /** State of the beam between expansions. */
  ghost predicate Searching(g: Graph, dq: nat -> int, ep: nat, ef: nat, lc: nat,
                            cands: set<Pair>, results: set<Pair>, visited: set<nat>, expanded: set<nat>)
    requires Linked(g)
  {
    && ep in visited && expanded <= visited
    && (forall x | x in visited :: InLayer(g, x, lc) && Reachable(g, lc, ep, x))
    && 1 <= |results| <= Cap(ef)
    && (forall r | r in results :: r.1 in visited && r.0 == dq(r.1))
    && (forall c | c in cands :: c.1 in visited && c.0 == dq(c.1))
    && (forall x | x in visited :: Ranked(dq, Cap(ef), results, x))
    && (forall x | x in visited :: x in expanded || (dq(x), x) in cands || Rejected(dq, ef, results, x))
  }

  /** Not a result, and no farther result could be displaced by it. */
  predicate Rejected(dq: nat -> int, ef: nat, results: set<Pair>, x: nat) {
    (dq(x), x) !in results && |results| == Cap(ef) && forall r | r in results :: r.0 <= dq(x)
  }

  ghost predicate Expanded(g: Graph, lc: nat, visited: set<nat>, expanded: set<nat>)
    requires Linked(g)
  {
    forall x, y | x in expanded && InLayer(g, x, lc) && y in Adj(g, x, lc) :: y in visited
  }

  /** One neighbour offered to the beam. */
  method Offer(dq: nat -> int, ef: nat, nb: nat, cands: set<Pair>, results: set<Pair>)
    returns (cands': set<Pair>, results': set<Pair>)
    requires 1 <= |results| <= Cap(ef) && (dq(nb), nb) !in results
    ensures 1 <= |results'| <= Cap(ef)
    ensures cands' == cands || cands' == cands + {(dq(nb), nb)}
    ensures forall r | r in results' :: r in results || r == (dq(nb), nb)
    ensures forall x | Ranked(dq, Cap(ef), results, x) :: Ranked(dq, Cap(ef), results', x)
    ensures forall x | Rejected(dq, ef, results, x) && x != nb :: Rejected(dq, ef, results', x)
    ensures Ranked(dq, Cap(ef), results', nb)
    ensures (dq(nb), nb) in cands' || Rejected(dq, ef, results', nb)
  {
    var p := (dq(nb), nb);
    var full := |results| >= ef;
    var worst := PeekMax(results);
    cands', results' := cands, results;
    if !full || p.0 < worst.0 {
      cands', results' := cands + {p}, results + {p};
      if |results'| > ef {
        var last := PeekMax(results');
        results' := results' - {last};
      }
    }
  }

  predicate IsNode(g: Graph, x: nat) { x < |g.levels| }

  ghost function Nodes(g: Graph): set<nat> {
    set x: nat | x < |g.levels| && IsNode(g, x)
  }

  /** The links of a visited node lead to nodes of the layer that can be reached. */
  method Neighbours(g: Graph, ghost dq: nat -> int, ghost ep: nat, ghost ef: nat, lc: nat, ghost cands: set<Pair>,
                    ghost results: set<Pair>, ghost visited: set<nat>, ghost expanded: set<nat>, c: nat)
    returns (nbs: seq<nat>)
    requires Linked(g) && Searching(g, dq, ep, ef, lc, cands, results, visited, expanded) && c in visited
    ensures InLayer(g, c, lc) && nbs == Adj(g, c, lc)
    ensures forall i | 0 <= i < |nbs| :: InLayer(g, nbs[i], lc) && Reachable(g, lc, ep, nbs[i])
  {
    hide Reachable, Ranked, Rejected;
    nbs := Adj(g, c, lc);
    forall i | 0 <= i < |nbs|
      ensures InLayer(g, nbs[i], lc) && Reachable(g, lc, ep, nbs[i])
    {
      ReachNext(g, lc, ep, c, nbs[i]);
    }
  }

  lemma NotYetFound(g: Graph, dq: nat -> int, ep: nat, ef: nat, lc: nat, cands: set<Pair>, results: set<Pair>,
                    visited: set<nat>, expanded: set<nat>, nb: nat)
    requires Linked(g) && Searching(g, dq, ep, ef, lc, cands, results, visited, expanded) && nb !in visited
    ensures 1 <= |results| <= Cap(ef) && (dq(nb), nb) !in results
  {
    hide Linked, Reachable, Ranked, Rejected;
  }

  /** Every neighbour of the candidate that was not visited yet is visited and offered to the beam. */
  method Expand(g: Graph, dq: nat -> int, ghost ep: nat, ef: nat, lc: nat, c: nat,
                cands: set<Pair>, results: set<Pair>, visited: set<nat>, ghost expanded: set<nat>)
    returns (cands': set<Pair>, results': set<Pair>, visited': set<nat>)
    requires Linked(g) && c in visited && Expanded(g, lc, visited, expanded)
    requires Searching(g, dq, ep, ef, lc, cands, results, visited, expanded + {c})
    ensures Searching(g, dq, ep, ef, lc, cands', results', visited', expanded + {c})
    ensures Expanded(g, lc, visited', expanded + {c})
    ensures visited <= visited' && (visited' == visited ==> cands' == cands)
  {
    hide Searching, Reachable, Ranked, Rejected, Linked;
    cands', results', visited' := cands, results, visited;
    var nbs := Neighbours(g, dq, ep, ef, lc, cands, results, visited, expanded + {c}, c);
    for i := 0 to |nbs|
      invariant Searching(g, dq, ep, ef, lc, cands', results', visited', expanded + {c})
      invariant visited <= visited' && (visited' == visited ==> cands' == cands)
      invariant forall j | 0 <= j < i :: nbs[j] in visited'
    {
      var nb := nbs[i];
      if nb !in visited' {
        NotYetFound(g, dq, ep, ef, lc, cands', results', visited', expanded + {c}, nb);
        var more, best := Offer(dq, ef, nb, cands', results');
        Offered(g, dq, ep, ef, lc, cands', results', visited', expanded + {c}, nb, more, best);
        cands', results', visited' := more, best, visited' + {nb};
      }
    }
  }

  lemma Offered(g: Graph, dq: nat -> int, ep: nat, ef: nat, lc: nat, cands: set<Pair>, results: set<Pair>,
                visited: set<nat>, expanded: set<nat>, nb: nat, more: set<Pair>, best: set<Pair>)
    requires Linked(g) && Searching(g, dq, ep, ef, lc, cands, results, visited, expanded)
    requires nb !in visited && InLayer(g, nb, lc) && Reachable(g, lc, ep, nb)
    requires 1 <= |best| <= Cap(ef)
    requires more == cands || more == cands + {(dq(nb), nb)}
    requires forall r | r in best :: r in results || r == (dq(nb), nb)
    requires forall x | Ranked(dq, Cap(ef), results, x) :: Ranked(dq, Cap(ef), best, x)
    requires forall x | Rejected(dq, ef, results, x) && x != nb :: Rejected(dq, ef, best, x)
    requires Ranked(dq, Cap(ef), best, nb)
    requires (dq(nb), nb) in more || Rejected(dq, ef, best, nb)
    ensures Searching(g, dq, ep, ef, lc, more, best, visited + {nb}, expanded)
  {
    hide Ranked, Rejected, Reachable, Linked;
  }

  /** When the nearest open candidate is beyond a full beam, every result has been expanded. */
  lemma ResultsExpanded(g: Graph, dq: nat -> int, ep: nat, ef: nat, lc: nat,
                        cands: set<Pair>, results: set<Pair>, visited: set<nat>, expanded: set<nat>)
    requires Linked(g) && Expanded(g, lc, visited, expanded)
    requires Searching(g, dq, ep, ef, lc, cands, results, visited, expanded)
    requires forall c, r | c in cands && r in results :: r.0 < c.0
    ensures Beam(g, dq, ep, ef, lc, results, visited)
  {
    forall r | r in results
      ensures r.1 in expanded
    {
      assert (dq(r.1), r.1) == r;
    }
  }

  lemma StartSearch(g: Graph, dq: nat -> int, ep: nat, ef: nat, lc: nat)
    requires Linked(g) && InLayer(g, ep, lc)
    ensures Searching(g, dq, ep, ef, lc, {(dq(ep), ep)}, {(dq(ep), ep)}, {ep}, {})
    ensures Expanded(g, lc, {ep}, {})
  {
    hide Reachable, Linked;
    ReachSelf(g, lc, ep);
    SelfRanked(dq, Cap(ef), {(dq(ep), ep)}, ep);
  }

  /** Popping a candidate moves it to the expanded nodes. */
  lemma Popped(g: Graph, dq: nat -> int, ep: nat, ef: nat, lc: nat,
               cands: set<Pair>, results: set<Pair>, visited: set<nat>, expanded: set<nat>, c: Pair)
    requires Linked(g) && Searching(g, dq, ep, ef, lc, cands, results, visited, expanded) && c in cands
    ensures Searching(g, dq, ep, ef, lc, cands - {c}, results, visited, expanded + {c.1})
    ensures c.1 in visited
    ensures 1 <= |results|
  {
    hide Reachable, Linked, Ranked, Rejected;
    forall x | x in visited && (dq(x), x) in cands
      ensures x in expanded + {c.1} || (dq(x), x) in cands - {c}
    {
      if (dq(x), x) == c { assert x == c.1; }
    }
  }

  lemma MoreVisited(g: Graph, dq: nat -> int, ep: nat, ef: nat, lc: nat,
                    cands: set<Pair>, results: set<Pair>, visited: set<nat>, expanded: set<nat>, before: set<nat>)
    requires Linked(g) && Searching(g, dq, ep, ef, lc, cands, results, visited, expanded) && before < visited
    ensures Nodes(g) - visited < Nodes(g) - before
  {
    hide Reachable, Linked, Ranked, Rejected;
    assert exists x :: x in visited && x !in before;
    var x :| x in visited && x !in before;
    assert InLayer(g, x, lc) && IsNode(g, x) && x in Nodes(g) - before;
  }

  method SearchLayer(g: Graph, dq: nat -> int, ep: nat, ef: nat, lc: nat)
    returns (out: seq<Pair>, ghost results: set<Pair>, ghost visited: set<nat>)
    requires Linked(g) && InLayer(g, ep, lc)
    ensures Optimal(g, dq, ep, ef, lc, out)
    ensures Beam(g, dq, ep, ef, lc, results, visited)
    ensures Ascending(out) && |out| == |results| && forall p :: p in out <==> p in results
  {
    hide Linked, Searching, Expanded, Beam, Nodes, Ascending, Optimal;
    var cands, best, seen := {(dq(ep), ep)}, {(dq(ep), ep)}, {ep};
    ghost var expanded: set<nat> := {};
    StartSearch(g, dq, ep, ef, lc);
    while cands != {}
      invariant Searching(g, dq, ep, ef, lc, cands, best, seen, expanded)
      invariant Expanded(g, lc, seen, expanded)
      decreases Nodes(g) - seen, |cands|
    {
      var c := PeekMin(cands);
      Popped(g, dq, ep, ef, lc, cands, best, seen, expanded, c);
      if |best| >= ef {
        var worst := PeekMax(best);
        if c.0 > worst.0 {
          ResultsExpanded(g, dq, ep, ef, lc, cands, best, seen, expanded);
          results, visited := best, seen;
          out := Drain(best);
          BeamOptimal(g, dq, ep, ef, lc, best, seen, out);
          return;
        }
      }
      ghost var before := seen;
      cands, best, seen := Expand(g, dq, ep, ef, lc, c.1, cands - {c}, best, seen, expanded);
      expanded := expanded + {c.1};
      if before < seen { MoreVisited(g, dq, ep, ef, lc, cands, best, seen, expanded, before); }
    }
    ResultsExpanded(g, dq, ep, ef, lc, cands, best, seen, expanded);
    results, visited := best, seen;
    out := Drain(best);
    BeamOptimal(g, dq, ep, ef, lc, best, seen, out);
  }

  lemma SelfRanked(dq: nat -> int, cap: nat, results: set<Pair>, x: nat)
    requires (dq(x), x) in results
    ensures Ranked(dq, cap, results, x)
  {
  }

  /** Walk to a local minimum of the layer: no neighbour of the result is nearer, nor is the start. */
  method GreedyClosest(g: Graph, dq: nat -> int, start: nat, lc: nat) returns (cur: nat)
    requires Linked(g) && InLayer(g, start, lc)
    ensures InLayer(g, cur, lc) && Reachable(g, lc, start, cur) && dq(cur) <= dq(start)
    ensures forall y | y in Adj(g, cur, lc) :: dq(cur) <= dq(y)
  {
    hide Reachable;
    cur := start;
    var best := dq(cur);
    ReachSelf(g, lc, start);
    while true
      invariant InLayer(g, cur, lc) && Reachable(g, lc, start, cur) && best == dq(cur) <= dq(start)
      decreases Nearer(g, dq, best)
    {
      var moved := false;
      var from, nbs := cur, Adj(g, cur, lc);
      ghost var was := best;
      assert GoodList(g, from, lc, nbs);
      for i := 0 to |nbs|
        invariant InLayer(g, cur, lc) && Reachable(g, lc, start, cur) && best == dq(cur)
        invariant forall j | 0 <= j < i :: best <= dq(nbs[j])
        invariant if moved then best < was else cur == from && best == was
      {
        var d := dq(nbs[i]);
        if d < best {
          ReachNext(g, lc, start, from, nbs[i]);
          best, cur, moved := d, nbs[i], true;
        }
      }
      if !moved {
        return;
      }
      assert cur in Nearer(g, dq, was) && cur !in Nearer(g, dq, best);
    }
  }

  /** The nodes strictly nearer than a distance: what the walk has left to move to. */
  ghost function Nearer(g: Graph, dq: nat -> int, d: int): set<nat> {
    set x | x in Nodes(g) && dq(x) < d
  }

  /** A local minimum of the layer that can be reached from another node of it. */
  ghost predicate LocalMinimum(g: Graph, dq: nat -> int, lc: nat, start: nat, x: nat)
    requires Linked(g)
  {
    InLayer(g, x, lc) && Reachable(g, lc, start, x) && forall y | y in Adj(g, x, lc) :: dq(x) <= dq(y)
  }

  /** Where a descent stops in layer lc, from where it stopped in the layer above, or from the entry at the top. */
  ghost predicate StopsAt(g: Graph, dq: nat -> int, from: nat, top: int, stops: map<int, nat>, lc: int)
    requires Linked(g)
  {
    0 <= lc && lc in stops && (lc < top ==> lc + 1 in stops) &&
    LocalMinimum(g, dq, lc, if lc < top then stops[lc + 1] else from, stops[lc])
  }

  /** A descent from `from` in layer top through every layer above the last one ends in ep. */
  ghost predicate Descended(g: Graph, dq: nat -> int, from: nat, top: int, last: int, stops: map<int, nat>, ep: nat)
    requires Linked(g)
  {
    && (forall lc | last < lc <= top :: StopsAt(g, dq, from, top, stops, lc))
    && if last < top then last + 1 in stops && ep == stops[last + 1] else ep == from
  }

  lemma OneLower(g: Graph, dq: nat -> int, from: nat, top: int, lc: int, stops: map<int, nat>, ep: nat, x: nat)
    requires Linked(g) && Descended(g, dq, from, top, lc, stops, ep) && 0 <= lc <= top
    requires LocalMinimum(g, dq, lc, ep, x)
    ensures Descended(g, dq, from, top, lc - 1, stops[lc := x], x)
  {
    hide LocalMinimum, Linked;
    var stops' := stops[lc := x];
    forall k | lc - 1 < k <= top
      ensures StopsAt(g, dq, from, top, stops', k)
    {
      if k > lc { assert StopsAt(g, dq, from, top, stops, k); }
    }
  }

  lemma NotYetDown(g: Graph, dq: nat -> int, from: nat, top: int, last: int)
    requires Linked(g)
    ensures Descended(g, dq, from, top, if top > last then top else last, map[], from)
  {
  }

  // --- neighbour selection ---

  /** First pass: a candidate nearer to the query than to every neighbour already selected is selected,
      up to m; the others are set aside in order. */
  function Pass(cands: seq<Pair>, dn: (nat, nat) -> int, m: nat): (seq<nat>, seq<nat>) {
    if cands == [] then ([], []) else
    var (selected, pruned) := Pass(cands[..|cands| - 1], dn, m);
    var (d, c) := cands[|cands| - 1];
    if |selected| < m && (forall i | 0 <= i < |selected| :: d < dn(selected[i], c)) then (selected + [c], pruned)
    else (selected, pruned + [c])
  }

  /** Second pass: refill from the pruned ones in candidate order. */
  function Refilled(selected: seq<nat>, pruned: seq<nat>, m: nat): seq<nat> {
    if |selected| >= m then selected
    else if |pruned| <= m - |selected| then selected + pruned
    else selected + pruned[..m - |selected|]
  }

  function Select(cands: seq<Pair>, dn: (nat, nat) -> int, m: nat): seq<nat> {
    var (selected, pruned) := Pass(cands, dn, m);
    Refilled(selected, pruned, m)
  }

  method SelectHeuristic(cands: seq<Pair>, dn: (nat, nat) -> int, m: nat) returns (out: seq<nat>)
    ensures out == Select(cands, dn, m)
  {
    var selected: seq<nat>, pruned: seq<nat> := [], [];
    assert cands[..0] == [];
    for i := 0 to |cands|
      invariant (selected, pruned) == Pass(cands[..i], dn, m)
    {
      var (d, c) := cands[i];
      assert cands[..i + 1][..i] == cands[..i];
      if |selected| >= m {
        pruned := pruned + [c];
        continue;
      }
      var closer := true;
      for j := 0 to |selected|
        invariant closer <==> forall k | 0 <= k < j :: d < dn(selected[k], c)
      {
        if !(d < dn(selected[j], c)) {
          closer := false;
        }
      }
      if closer {
        selected := selected + [c];
      } else {
        pruned := pruned + [c];
      }
    }
    assert cands[..|cands|] == cands;
    out := Refill(selected, pruned, m);
  }

  method Refill(selected: seq<nat>, pruned: seq<nat>, m: nat) returns (out: seq<nat>)
    ensures out == Refilled(selected, pruned, m)
  {
    out := selected;
    for i := 0 to |pruned|
      invariant out == selected + pruned[..i] && (i > 0 ==> |out| <= m)
    {
      if |out| >= m {
        return;
      }
      assert pruned[..i + 1] == pruned[..i] + [pruned[i]];
      out := out + [pruned[i]];
    }
    assert pruned[..|pruned|] == pruned;
    assert selected + [] == selected;
  }

  function NodesOf(cands: seq<Pair>): (ns: seq<nat>)
    ensures |ns| == |cands|
  {
    seq(|cands|, i requires 0 <= i < |cands| => cands[i].1)
  }

  lemma {:induction false} PassParts(cands: seq<Pair>, dn: (nat, nat) -> int, m: nat)
    ensures var (s, p) := Pass(cands, dn, m);
      && |s| <= m && |s| + |p| == |cands|
      && multiset(s) + multiset(p) == multiset(NodesOf(cands))
      && (cands != [] && m > 0 ==> s != [] && s[0] == cands[0].1)
    decreases |cands|
  {
    if cands != [] {
      var k := |cands| - 1;
      var (s, p) := Pass(cands[..k], dn, m);
      var c := cands[k].1;
      PassParts(cands[..k], dn, m);
      assert NodesOf(cands) == NodesOf(cands[..k]) + [c];
      assert multiset(s + [c]) == multiset(s) + multiset{c} && multiset(p + [c]) == multiset(p) + multiset{c};
      assert |cands| > 1 ==> cands[..k][0] == cands[0];
    }
  }

  /** What the first pass selects is spread out; what it prunes is covered by a selected node, or came
      after the selection was full. */
  ghost predicate Spread(s: seq<nat>, dn: (nat, nat) -> int, dq: nat -> int) {
    forall i, j | 0 <= i < j < |s| :: dq(s[j]) < dn(s[i], s[j])
  }

  ghost predicate CoveredBy(x: nat, s: seq<nat>, dn: (nat, nat) -> int, dq: nat -> int) {
    exists i :: 0 <= i < |s| && dn(s[i], x) <= dq(x)
  }

  lemma {:induction false} PassSpreads(cands: seq<Pair>, dn: (nat, nat) -> int, dq: nat -> int, m: nat)
    requires forall i | 0 <= i < |cands| :: cands[i].0 == dq(cands[i].1)
    ensures Spread(Pass(cands, dn, m).0, dn, dq)
    decreases |cands|
  {
    if cands != [] { PassSpreads(cands[..|cands| - 1], dn, dq, m); }
  }

  lemma {:induction false} PassCovers(cands: seq<Pair>, dn: (nat, nat) -> int, dq: nat -> int, m: nat)
    requires forall i | 0 <= i < |cands| :: cands[i].0 == dq(cands[i].1)
    ensures var (s, p) := Pass(cands, dn, m);
      |s| < m ==> forall j | 0 <= j < |p| :: CoveredBy(p[j], s, dn, dq)
    decreases |cands|
  {
    if cands != [] {
      var (s, p) := Pass(cands[..|cands| - 1], dn, m);
      var (s', p') := Pass(cands, dn, m);
      PassCovers(cands[..|cands| - 1], dn, dq, m);
      if |s'| < m {
        forall j | 0 <= j < |p'|
          ensures CoveredBy(p'[j], s', dn, dq)
        {
          if j < |p| {
            assert CoveredBy(p[j], s, dn, dq);
            var i :| 0 <= i < |s| && dn(s[i], p[j]) <= dq(p[j]);
            assert s'[i] == s[i];
          }
        }
      }
    }
  }

  lemma DistinctMultiset(s: seq<nat>)
    ensures Distinct(s) <==> forall x :: multiset(s)[x] <= 1
  {
    Sorting.CountedOnce(s);
  }

  lemma RefillParts(s: seq<nat>, p: seq<nat>, m: nat) returns (rest: seq<nat>)
    requires |s| <= m
    ensures multiset(Refilled(s, p, m)) + multiset(rest) == multiset(s) + multiset(p)
    ensures |Refilled(s, p, m)| == if m < |s| + |p| then m else |s| + |p|
  {
    rest := if |p| <= m - |s| then [] else p[m - |s|..];
    assert s + p == Refilled(s, p, m) + rest;
    assert multiset(Refilled(s, p, m) + rest) == multiset(s + p) == multiset(s) + multiset(p);
  }

  /** Selection returns exactly min(m, number of candidates) of the candidates, each once. */
  lemma SelectLaw(cands: seq<Pair>, dn: (nat, nat) -> int, m: nat)
    requires Distinct(NodesOf(cands))
    ensures var out := Select(cands, dn, m);
      && |out| == (if m < |cands| then m else |cands|)
      && Distinct(out)
      && (forall x | x in out :: x in NodesOf(cands))
  {
    hide Pass, Refilled, Distinct;
    var (s, p) := Pass(cands, dn, m);
    var out := Refilled(s, p, m);
    PassParts(cands, dn, m);
    DistinctMultiset(NodesOf(cands));
    DistinctMultiset(out);
    var rest := RefillParts(s, p, m);
    forall x
      ensures multiset(out)[x] <= 1
      ensures x in out ==> x in NodesOf(cands)
    {
      assert multiset(out)[x] <= (multiset(out) + multiset(rest))[x] == multiset(NodesOf(cands))[x];
      assert x in out <==> x in multiset(out);
      assert x in NodesOf(cands) <==> x in multiset(NodesOf(cands));
    }
  }

  // --- what a selection keeps, said of the distances alone ---

  /** A selected node hides x: it is no farther from the owner than x is, and x no farther from it than from the
      owner. */
  ghost predicate Hidden(x: nat, s: seq<nat>, dn: (nat, nat) -> int, dq: nat -> int) {
    exists i :: 0 <= i < |s| && dq(s[i]) <= dq(x) && dn(s[i], x) <= dq(x)
  }

  ghost predicate NoFarther(s: seq<nat>, x: nat, dq: nat -> int) {
    forall i | 0 <= i < |s| :: dq(s[i]) <= dq(x)
  }

  ghost predicate Rising(s: seq<nat>, dq: nat -> int) {
    forall i, j | 0 <= i < j < |s| :: dq(s[i]) <= dq(s[j])
  }

  /** The first k are selected, nearest first and each nearer to the owner than to those before it; whatever else
      there was is hidden by one of them, or no nearer than all of them when they fill the list. The rest is
      refilled, nearest first, and nothing left out is nearer. */
  ghost predicate PickedBy(l: seq<nat>, dq: nat -> int, dn: (nat, nat) -> int, m: nat, out: seq<nat>, k: nat)
    requires k <= |out|
  {
    && Rising(out[..k], dq) && Spread(out[..k], dn, dq)
    && (forall x | x in l && x !in out[..k] ::
          Hidden(x, out[..k], dn, dq) || (k == m && NoFarther(out[..k], x, dq)))
    && Rising(out[k..], dq)
    && (forall x | x in l && x !in out :: NoFarther(out[k..], x, dq))
  }

  /** What a selection of m from the list keeps. */
  ghost predicate Picked(l: seq<nat>, dq: nat -> int, dn: (nat, nat) -> int, m: nat, out: seq<nat>) {
    && |out| == (if m < |l| then m else |l|) && Distinct(out) && (forall x | x in out :: x in l)
    && exists k :: 0 <= k <= |out| && PickedBy(l, dq, dn, m, out, k)
  }

  /** The nearest of the list is kept, and comes first. */
  lemma NearestIsKept(l: seq<nat>, dq: nat -> int, dn: (nat, nat) -> int, m: nat, out: seq<nat>)
    requires Picked(l, dq, dn, m, out) && l != [] && m > 0
    ensures out != [] && forall x | x in l :: dq(out[0]) <= dq(x)
  {
    var k :| 0 <= k <= |out| && PickedBy(l, dq, dn, m, out, k);
    var s := out[..k];
    forall x | x in l
      ensures s != [] && dq(s[0]) <= dq(x)
    {
      if x in s {
        var i :| 0 <= i < |s| && s[i] == x;
      } else if Hidden(x, s, dn, dq) {
        var i :| 0 <= i < |s| && dq(s[i]) <= dq(x);
      }
    }
    assert l[0] in l;
  }

  /** A member left out is hidden by a kept one, unless all that is kept is no farther. */
  lemma LeftOutIsHidden(l: seq<nat>, dq: nat -> int, dn: (nat, nat) -> int, m: nat, out: seq<nat>, x: nat)
    requires Picked(l, dq, dn, m, out) && x in l && x !in out
    ensures |out| == m && (Hidden(x, out, dn, dq) || NoFarther(out, x, dq))
  {
    var k :| 0 <= k <= |out| && PickedBy(l, dq, dn, m, out, k);
    if |l| <= m { AllKept(l, out, x); }
    assert forall i | 0 <= i < k :: out[..k][i] == out[i];
    if Hidden(x, out[..k], dn, dq) {
      var i :| 0 <= i < k && dq(out[..k][i]) <= dq(x) && dn(out[..k][i], x) <= dq(x);
      assert dq(out[i]) <= dq(x);
    }
  }

  /** As many distinct members as a list has are all of them. */
  lemma AllKept(l: seq<nat>, out: seq<nat>, x: nat)
    requires |out| == |l| && Distinct(out) && (forall y | y in out :: y in l) && x in l
    ensures x in out
  {
    DistinctMultiset(out);
    var rest := multiset(l) - multiset(out);
    forall y
      ensures multiset(out)[y] <= multiset(l)[y]
    {
      assert y in out <==> y in multiset(out);
      assert y in l <==> y in multiset(l);
    }
    assert multiset(l) == multiset(out) + rest;
    assert |rest| == |l| - |out| by { assert |multiset(l)| == |l| && |multiset(out)| == |out|; }
    assert x in multiset(l) && x !in rest;
  }

  ghost predicate Measured(cands: seq<Pair>, dq: nat -> int) {
    && (forall i | 0 <= i < |cands| :: cands[i].0 == dq(cands[i].1))
    && (forall i, j | 0 <= i < j < |cands| :: cands[i].0 <= cands[j].0)
  }

  lemma RisingAppend(s: seq<nat>, x: nat, dq: nat -> int)
    requires Rising(s, dq) && NoFarther(s, x, dq)
    ensures Rising(s + [x], dq)
  {
  }

  /** Both passes go through the candidates in order. */
  lemma {:induction false} PassRises(cands: seq<Pair>, dn: (nat, nat) -> int, dq: nat -> int, m: nat)
    requires Measured(cands, dq)
    ensures var (s, p) := Pass(cands, dn, m);
      && Rising(s, dq) && Rising(p, dq)
      && (cands != [] ==> NoFarther(s + p, cands[|cands| - 1].1, dq))
    decreases |cands|
  {
    if cands != [] {
      var k := |cands| - 1;
      var (s, p) := Pass(cands[..k], dn, m);
      var c := cands[k].1;
      PassRises(cands[..k], dn, dq, m);
      assert NoFarther(s + p, c, dq);
      assert NoFarther(s, c, dq) && NoFarther(p, c, dq) by {
        assert forall i | 0 <= i < |s| :: (s + p)[i] == s[i];
        assert forall i | 0 <= i < |p| :: (s + p)[|s| + i] == p[i];
      }
      RisingAppend(s, c, dq);
      RisingAppend(p, c, dq);
    }
  }

  /** What is pruned is hidden by a selected node, or came when the selection was full. */
  ghost predicate Pruned(x: nat, s: seq<nat>, dn: (nat, nat) -> int, dq: nat -> int, m: nat) {
    Hidden(x, s, dn, dq) || (|s| == m && NoFarther(s, x, dq))
  }

  lemma {:induction false} PassPrunes(cands: seq<Pair>, dn: (nat, nat) -> int, dq: nat -> int, m: nat)
    requires Measured(cands, dq)
    ensures var (s, p) := Pass(cands, dn, m); forall x | x in p :: Pruned(x, s, dn, dq, m)
    decreases |cands|
  {
    if cands != [] {
      var k := |cands| - 1;
      var (s, p) := Pass(cands[..k], dn, m);
      var (s', p') := Pass(cands, dn, m);
      var (d, c) := cands[k];
      PassPrunes(cands[..k], dn, dq, m);
      PassParts(cands[..k], dn, m);
      assert NoFarther(s, c, dq) by {
        PassRises(cands, dn, dq, m);
        assert forall i | 0 <= i < |s| :: (s' + p')[i] == s[i];
      }
      forall x | x in p'
        ensures Pruned(x, s', dn, dq, m)
      {
        if x in p { PrunedStays(x, s, s', dn, dq, m); }
      }
    }
  }

  lemma PrunedStays(x: nat, s: seq<nat>, t: seq<nat>, dn: (nat, nat) -> int, dq: nat -> int, m: nat)
    requires Pruned(x, s, dn, dq, m) && s <= t && |t| <= m
    ensures Pruned(x, t, dn, dq, m)
  {
    if Hidden(x, s, dn, dq) {
      var i :| 0 <= i < |s| && dq(s[i]) <= dq(x) && dn(s[i], x) <= dq(x);
      assert t[i] == s[i];
    }
  }

  /** A selection from candidates in order of distance keeps what it should. */
  lemma SelectPicks(cands: seq<Pair>, dn: (nat, nat) -> int, dq: nat -> int, m: nat)
    requires Measured(cands, dq) && Distinct(NodesOf(cands))
    ensures Picked(NodesOf(cands), dq, dn, m, Select(cands, dn, m))
  {
    hide Pass, Distinct, Measured, PickedBy, Rising, Spread, Pruned;
    var (s, p) := Pass(cands, dn, m);
    SelectLaw(cands, dn, m);
    PassParts(cands, dn, m);
    PassRises(cands, dn, dq, m);
    MeasuredAt(cands, dq);
    PassSpreads(cands, dn, dq, m);
    PassPrunes(cands, dn, dq, m);
    RefillPicks(NodesOf(cands), dq, dn, m, s, p);
  }

  lemma MeasuredAt(cands: seq<Pair>, dq: nat -> int)
    requires Measured(cands, dq)
    ensures forall i | 0 <= i < |cands| :: cands[i].0 == dq(cands[i].1)
  {
  }

  lemma RefillPicks(l: seq<nat>, dq: nat -> int, dn: (nat, nat) -> int, m: nat, s: seq<nat>, p: seq<nat>)
    requires multiset(s) + multiset(p) == multiset(l) && |s| <= m
    requires Rising(s, dq) && Rising(p, dq) && Spread(s, dn, dq)
    requires forall x | x in p :: Pruned(x, s, dn, dq, m)
    ensures |s| <= |Refilled(s, p, m)| && PickedBy(l, dq, dn, m, Refilled(s, p, m), |s|)
  {
    hide Hidden, Spread;
    var n := if |p| <= m - |s| then |p| else m - |s|;
    var out := Refilled(s, p, m);
    assert out == s + p[..n];
    assert out[..|s|] == s && out[|s|..] == p[..n];
    assert forall i | 0 <= i < n :: p[..n][i] == p[i] && p[i] in out;
    forall x | x in l
      ensures x in s || x in p
    {
      assert x in multiset(l);
    }
    forall x | x in l && x !in out
      ensures NoFarther(p[..n], x, dq)
    {
      assert x !in s;
      var j :| 0 <= j < |p| && p[j] == x;
    }
  }

  // --- insertion ---

  ghost predicate WithinDegree(g: Graph, m: nat, m0: nat)
    requires Shaped(g)
  {
    forall x, lc | InLayer(g, x, lc) :: |Adj(g, x, lc)| <= if lc == 0 then m0 else m
  }

  /** The invariant of a graph under construction. */
  ghost predicate GraphInv(g: Graph, m: nat, m0: nat) {
    && Linked(g) && WithinDegree(g, m, m0)
    && (g.levels == [] <==> g.entry.None?)
    && (g.levels == [] ==> g.maxLevel == -1)
    && (g.entry.Some? ==> g.entry.value < |g.levels| && g.levels[g.entry.value] == g.maxLevel)
    && (forall x | 0 <= x < |g.levels| :: g.levels[x] <= g.maxLevel)
    && (|g.levels| >= 2 ==> forall x | 0 <= x < |g.levels| :: Adj(g, x, 0) != [])
  }

  /** The node being inserted is in no list of this layer yet. */
  ghost predicate Absent(g: Graph, node: nat, lc: nat)
    requires Shaped(g)
  {
    forall x | InLayer(g, x, lc) :: node !in Adj(g, x, lc)
  }

  function SetList(g: Graph, x: nat, lc: nat, l: seq<nat>): Graph
    requires Shaped(g) && InLayer(g, x, lc)
  {
    g.(links := g.links[x := g.links[x][lc := l]])
  }

  lemma SetListLaw(g: Graph, x: nat, lc: nat, l: seq<nat>, m: nat, m0: nat)
    requires Linked(g) && WithinDegree(g, m, m0) && InLayer(g, x, lc)
    requires GoodList(g, x, lc, l) && |l| <= if lc == 0 then m0 else m
    ensures var h := SetList(g, x, lc, l);
      && Linked(h) && WithinDegree(h, m, m0) && Adj(h, x, lc) == l
      && forall y, k | InLayer(g, y, k) && (y != x || k != lc) :: Adj(h, y, k) == Adj(g, y, k)
  {
    var h := SetList(g, x, lc, l);
    forall y, k | InLayer(h, y, k)
      ensures GoodList(h, y, k, Adj(h, y, k))
      ensures |Adj(h, y, k)| <= if k == 0 then m0 else m
    {
      assert InLayer(g, y, k);
      assert GoodList(g, y, k, Adj(g, y, k));
    }
  }

  predicate Nearest(a: Pair, b: Pair) { a.0 <= b.0 }

  lemma {:induction false} InsertNodes(s: seq<Pair>, x: Pair)
    ensures multiset(NodesOf(Sorting.Insert(s, x, Nearest))) == multiset(NodesOf(s)) + multiset{x.1}
  {
    if s == [] {
      assert NodesOf([x]) == [x.1];
    } else {
      var k := |s| - 1;
      assert NodesOf(s) == NodesOf(s[..k]) + [s[k].1];
      if Nearest(s[k], x) {
        assert NodesOf(s + [x]) == NodesOf(s) + [x.1];
      } else {
        InsertNodes(s[..k], x);
        var t := Sorting.Insert(s[..k], x, Nearest);
        assert NodesOf(t + [s[k]]) == NodesOf(t) + [s[k].1];
      }
    }
  }

  lemma {:induction false} SortNodes(s: seq<Pair>)
    ensures multiset(NodesOf(Sorting.Sort(s, Nearest))) == multiset(NodesOf(s))
  {
    if s != [] {
      var k := |s| - 1;
      SortNodes(s[..k]);
      InsertNodes(Sorting.Sort(s[..k], Nearest), s[k]);
      assert NodesOf(s) == NodesOf(s[..k]) + [s[k].1];
    }
  }

  /** The members of a list with their distance from its owner, nearest first. */
  function ByDistance(list: seq<nat>, dn: (nat, nat) -> int, owner: nat): seq<Pair> {
    Sorting.Sort(seq(|list|, i requires 0 <= i < |list| => (dn(owner, list[i]), list[i])), Nearest)
  }

  /** A list with one more member, re-selected when that is one too many. */
  function BackLinked(list: seq<nat>, node: nat, dn: (nat, nat) -> int, owner: nat, cap: nat): seq<nat> {
    var longer := list + [node];
    if |longer| > cap then Select(ByDistance(longer, dn, owner), dn, cap) else longer
  }

  /** Distances from a node. */
  function From(dn: (nat, nat) -> int, node: nat): nat -> int { (y: nat) => dn(node, y) }

  /** The list of `owner` with a link back to `node`: longer by it, or picked anew when that is one too many. */
  ghost predicate Relinked(list: seq<nat>, node: nat, dn: (nat, nat) -> int, owner: nat, cap: nat, out: seq<nat>) {
    if |list| < cap then out == list + [node] else Picked(list + [node], From(dn, owner), dn, cap, out)
  }

  /** Re-selecting an overfull list keeps exactly cap of its members. */
  lemma ReselectLaw(list: seq<nat>, dn: (nat, nat) -> int, owner: nat, cap: nat)
    requires Distinct(list) && cap < |list|
    ensures var out := Select(ByDistance(list, dn, owner), dn, cap);
      Distinct(out) && |out| == cap && forall x | x in out :: x in list
  {
    hide Select;
    var cands := seq(|list|, i requires 0 <= i < |list| => (dn(owner, list[i]), list[i]));
    assert NodesOf(cands) == list;
    var sorted := ByDistance(list, dn, owner);
    SortNodes(cands);
    Sorting.SortPermutes(cands, Nearest);
    DistinctMultiset(list);
    DistinctMultiset(NodesOf(sorted));
    SelectLaw(sorted, dn, cap);
    forall x | x in Select(sorted, dn, cap)
      ensures x in list
    {
      assert x in multiset(NodesOf(sorted));
    }
  }

  lemma SortedMeasured(l: seq<nat>, dn: (nat, nat) -> int, owner: nat)
    requires Distinct(l)
    ensures var sorted := ByDistance(l, dn, owner);
      Measured(sorted, From(dn, owner)) && Distinct(NodesOf(sorted)) && multiset(NodesOf(sorted)) == multiset(l)
  {
    var cands := seq(|l|, i requires 0 <= i < |l| => (dn(owner, l[i]), l[i]));
    var sorted := ByDistance(l, dn, owner);
    assert NodesOf(cands) == l;
    SortNodes(cands);
    DistinctMultiset(l);
    DistinctMultiset(NodesOf(sorted));
    Sorting.SortPermutes(cands, Nearest);
    Sorting.SortSorts(cands, Nearest);
    forall i | 0 <= i < |sorted|
      ensures sorted[i].0 == dn(owner, sorted[i].1)
    {
      assert sorted[i] in cands;
    }
    assert forall i, j | 0 <= i < j < |sorted| :: Nearest(sorted[i], sorted[j]);
  }

  /** Only what is in a list matters to what a selection keeps of it. */
  lemma PickedFrom(a: seq<nat>, b: seq<nat>, dq: nat -> int, dn: (nat, nat) -> int, m: nat, out: seq<nat>)
    requires Picked(a, dq, dn, m, out) && multiset(a) == multiset(b)
    ensures Picked(b, dq, dn, m, out)
  {
    hide Hidden, Spread, Rising, NoFarther, Distinct;
    assert |multiset(a)| == |a| && |multiset(b)| == |b|;
    forall x
      ensures x in a <==> x in b
    {
      assert x in a <==> x in multiset(a);
      assert x in b <==> x in multiset(b);
    }
    var k :| 0 <= k <= |out| && PickedBy(a, dq, dn, m, out, k);
    assert PickedBy(b, dq, dn, m, out, k);
  }

  /** What a back link leaves of a neighbour's list. */
  lemma BackLinkKeeps(list: seq<nat>, node: nat, dn: (nat, nat) -> int, owner: nat, cap: nat)
    requires Distinct(list) && node !in list
    ensures Relinked(list, node, dn, owner, cap, BackLinked(list, node, dn, owner, cap))
  {
    hide Select, Picked, ByDistance, Measured;
    var longer := list + [node];
    assert Distinct(longer);
    SortedMeasured(longer, dn, owner);
    var sorted := ByDistance(longer, dn, owner);
    SelectPicks(sorted, dn, From(dn, owner), cap);
    PickedFrom(NodesOf(sorted), longer, From(dn, owner), dn, cap, Select(sorted, dn, cap));
  }

  /** A node that no list of the layer mentions is not reached from another one. */
  lemma AbsentUnreached(g: Graph, node: nat, lc: nat, ep: nat, x: nat)
    requires Linked(g) && Absent(g, node, lc) && ep != node && Reachable(g, lc, ep, x)
    ensures x != node
  {
    var p :| Path(g, lc, p) && p[0] == ep && p[|p| - 1] == x;
    if |p| > 1 { assert p[|p| - 2 + 1] in Adj(g, p[|p| - 2], lc); }
  }

  lemma BeamNeighbours(g: Graph, dq: nat -> int, dn: (nat, nat) -> int, node: nat, ep: nat, ef: nat, lc: nat, m: nat,
                       out: seq<Pair>, results: set<Pair>, visited: set<nat>)
    requires Linked(g) && Absent(g, node, lc) && ep != node && m >= 1
    requires Beam(g, dq, ep, ef, lc, results, visited)
    requires Ascending(out) && |out| == |results| && forall p :: p in out <==> p in results
    ensures var nbs := Select(out, dn, m);
      nbs != [] && |nbs| <= m && GoodList(g, node, lc, nbs)
    ensures out != [] && InLayer(g, out[0].1, lc) && out[0].1 != node
  {
    hide Select, Linked, Reachable, Absent;
    forall i | 0 <= i < |out|
      ensures InLayer(g, out[i].1, lc) && out[i].1 != node && out[i].0 == dq(out[i].1)
    {
      assert out[i] in results;
      AbsentUnreached(g, node, lc, ep, out[i].1);
    }
    var ns := NodesOf(out);
    assert forall i, j | 0 <= i < j < |out| :: out[i] != out[j];
    assert Distinct(ns);
    SelectLaw(out, dn, m);
  }

  datatype Config = Config(m: nat, m0: nat, efConstruction: nat, dist: (nat, nat) -> int) {
    function Cap(lc: nat): nat { if lc == 0 then m0 else m }
  }

  /** The wiring of a new node into one layer: its own list, a back link in the list of each neighbour, which is
      picked anew when it overflows, and nothing else. */
  ghost predicate Wired(g: Graph, h: Graph, node: nat, lc: nat, nbs: seq<nat>, cfg: Config)
    requires Shaped(g) && Shaped(h) && g.levels == h.levels && InLayer(g, node, lc)
  {
    && Adj(h, node, lc) == nbs
    && (forall y | y in nbs :: InLayer(g, y, lc) && y != node
          && Adj(h, y, lc) == BackLinked(Adj(g, y, lc), node, cfg.dist, y, cfg.Cap(lc))
          && Relinked(Adj(g, y, lc), node, cfg.dist, y, cfg.Cap(lc), Adj(h, y, lc)))
    && (forall y | InLayer(g, y, lc) && y != node && y !in nbs :: Adj(h, y, lc) == Adj(g, y, lc))
  }

  ghost predicate OtherLayersKept(g: Graph, h: Graph, lc: nat)
    requires Shaped(g) && Shaped(h) && g.levels == h.levels
  {
    forall y, k | InLayer(g, y, k) && k != lc :: Adj(h, y, k) == Adj(g, y, k)
  }

  /** Back links are set for the first i neighbours; nothing else has changed. */
  ghost predicate Linking(g: Graph, h: Graph, node: nat, lc: nat, nbs: seq<nat>, i: nat, cfg: Config)
    requires Linked(g) && Linked(h)
  {
    && h == g.(links := h.links)
    && InLayer(g, node, lc) && Adj(h, node, lc) == nbs && Distinct(nbs)
    && (forall j | 0 <= j < |nbs| :: InLayer(g, nbs[j], lc) && nbs[j] != node && node !in Adj(g, nbs[j], lc))
    && OtherLayersKept(g, h, lc)
    && (forall j | 0 <= j < |nbs| :: Adj(h, nbs[j], lc) ==
          if j < i then BackLinked(Adj(g, nbs[j], lc), node, cfg.dist, nbs[j], cfg.Cap(lc)) else Adj(g, nbs[j], lc))
    && (forall y | InLayer(g, y, lc) && y != node && y !in nbs :: Adj(h, y, lc) == Adj(g, y, lc))
  }

  lemma LinkingNext(g: Graph, h: Graph, node: nat, lc: nat, nbs: seq<nat>, i: nat, cfg: Config)
    requires Linked(g) && Linked(h) && Linking(g, h, node, lc, nbs, i, cfg) && i < |nbs|
    ensures InLayer(h, node, lc) && InLayer(h, nbs[i], lc) && nbs[i] != node
    ensures Adj(h, nbs[i], lc) == Adj(g, nbs[i], lc) && node !in Adj(h, nbs[i], lc)
  {
    hide GoodLists, BackLinked;
  }

  lemma LinkingStep(g: Graph, h: Graph, t: Graph, node: nat, lc: nat, nbs: seq<nat>, i: nat, cfg: Config)
    requires Linked(g) && Linked(h) && Linked(t) && Linking(g, h, node, lc, nbs, i, cfg) && i < |nbs|
    requires t == h.(links := t.links)
    requires Adj(t, nbs[i], lc) == BackLinked(Adj(g, nbs[i], lc), node, cfg.dist, nbs[i], cfg.Cap(lc))
    requires forall y, k | InLayer(h, y, k) && (y != nbs[i] || k != lc) :: Adj(t, y, k) == Adj(h, y, k)
    ensures Linking(g, t, node, lc, nbs, i + 1, cfg)
  {
    hide GoodLists, Adj, BackLinked;
    assert forall y, k | InLayer(g, y, k) :: InLayer(h, y, k);
  }

  /** All neighbours done, counted from before the node's own list was set. */
  lemma LinkedIn(g: Graph, h: Graph, t: Graph, node: nat, lc: nat, nbs: seq<nat>, cfg: Config)
    requires Linked(g) && Linked(h) && Linked(t) && InLayer(g, node, lc) && h == SetList(g, node, lc, nbs)
    requires forall y, k | InLayer(g, y, k) && (y != node || k != lc) :: Adj(h, y, k) == Adj(g, y, k)
    requires Linking(h, t, node, lc, nbs, |nbs|, cfg)
    ensures t == g.(links := t.links) && Wired(g, t, node, lc, nbs, cfg) && OtherLayersKept(g, t, lc)
  {
    hide GoodLists, Adj, BackLinked, Relinked;
    SetListRest(g, node, lc, nbs);
    assert forall y, k | InLayer(g, y, k) :: InLayer(h, y, k);
    forall y | y in nbs
      ensures InLayer(g, y, lc) && y != node
      ensures Adj(t, y, lc) == BackLinked(Adj(g, y, lc), node, cfg.dist, y, cfg.Cap(lc))
      ensures Relinked(Adj(g, y, lc), node, cfg.dist, y, cfg.Cap(lc), Adj(t, y, lc))
    {
      var j :| 0 <= j < |nbs| && nbs[j] == y;
      ListIsGood(g, y, lc);
      BackLinkKeeps(Adj(g, y, lc), node, cfg.dist, y, cfg.Cap(lc));
    }
  }

  /** One layer of an insertion, against the graph it started from: a beam search from ep, a selection
      from what it found, and the wiring of that selection. */
  ghost predicate LayerDone(g: Graph, h: Graph, node: nat, lc: nat, ep: nat, found: seq<Pair>, cfg: Config)
    requires Linked(g) && Linked(h) && g.levels == h.levels
  {
    && InLayer(g, node, lc) && InLayer(g, ep, lc) && found != []
    && Optimal(g, From(cfg.dist, node), ep, cfg.efConstruction, lc, found)
    && Select(found, cfg.dist, cfg.m) != []
    && Picked(NodesOf(found), From(cfg.dist, node), cfg.dist, cfg.m, Select(found, cfg.dist, cfg.m))
    && Wired(g, h, node, lc, Select(found, cfg.dist, cfg.m), cfg)
  }

  /** Layers k to top are done, each started from the nearest node the layer above found; no other layer changed. */
  ghost predicate DoneDownTo(g: Graph, h: Graph, node: nat, k: nat, top: nat, eps: map<nat, nat>,
                             found: map<nat, seq<Pair>>, cfg: Config) {
    && Linked(g) && Linked(h) && h == g.(links := h.links)
    && (forall j: nat | k <= j <= top :: j in eps && j in found && LayerDone(g, h, node, j, eps[j], found[j], cfg))
    && (forall j: nat | k <= j < top :: Follows(eps, found, j))
    && KeptOutside(g, h, k, top)
  }

  /** The search at layer j starts from the nearest node found one layer up. */
  predicate Follows(eps: map<nat, nat>, found: map<nat, seq<Pair>>, j: nat) {
    j in eps && j + 1 in found && found[j + 1] != [] && eps[j] == found[j + 1][0].1
  }

  ghost predicate KeptOutside(g: Graph, h: Graph, k: nat, top: nat)
    requires Shaped(g) && Shaped(h) && g.levels == h.levels
  {
    forall y: nat, j: nat | InLayer(g, y, j) && !(k <= j <= top) :: Adj(h, y, j) == Adj(g, y, j)
  }

  ghost predicate SameLayer(g: Graph, h: Graph, lc: nat)
    requires Shaped(g) && Shaped(h) && g.levels == h.levels
  {
    forall y | InLayer(g, y, lc) :: Adj(h, y, lc) == Adj(g, y, lc)
  }

  lemma SameReach(g: Graph, h: Graph, lc: nat, a: nat, b: nat)
    requires Linked(g) && Linked(h) && g.levels == h.levels && SameLayer(g, h, lc)
    ensures Reachable(g, lc, a, b) <==> Reachable(h, lc, a, b)
  {
    hide GoodLists, Adj;
    if Reachable(g, lc, a, b) {
      var p :| Path(g, lc, p) && p[0] == a && p[|p| - 1] == b;
      assert Path(h, lc, p);
    }
    if Reachable(h, lc, a, b) {
      var p :| Path(h, lc, p) && p[0] == a && p[|p| - 1] == b;
      assert Path(g, lc, p);
    }
  }

  /** A search sees one layer only. */
  lemma SearchSeesLayer(g: Graph, h: Graph, dq: nat -> int, ep: nat, ef: nat, lc: nat, out: seq<Pair>)
    requires Linked(g) && Linked(h) && g.levels == h.levels && SameLayer(g, h, lc)
    requires Optimal(h, dq, ep, ef, lc, out)
    ensures Optimal(g, dq, ep, ef, lc, out)
  {
    hide GoodLists, Adj, Reachable, Ascending;
    forall x: nat
      ensures Reachable(g, lc, ep, x) <==> Reachable(h, lc, ep, x)
    {
      SameReach(g, h, lc, ep, x);
    }
  }

  /** The nearest-first list of a search is what a selection is made from. */
  lemma FoundMeasured(g: Graph, dq: nat -> int, ep: nat, ef: nat, lc: nat, out: seq<Pair>)
    requires Linked(g) && Optimal(g, dq, ep, ef, lc, out)
    ensures Measured(out, dq) && Distinct(NodesOf(out))
  {
    hide Reachable, Linked;
    assert forall i | 0 <= i < |out| :: out[i] in out;
    assert forall i, j | 0 <= i < j < |out| :: Le(out[i], out[j]) && out[i] != out[j];
  }

  lemma WiredFrom(g: Graph, h: Graph, t: Graph, node: nat, lc: nat, nbs: seq<nat>, cfg: Config)
    requires Shaped(g) && Shaped(h) && Shaped(t) && g.levels == h.levels == t.levels && InLayer(g, node, lc)
    requires SameLayer(g, h, lc) && Wired(h, t, node, lc, nbs, cfg)
    ensures Wired(g, t, node, lc, nbs, cfg)
  {
    hide Adj, BackLinked, Relinked;
  }

  lemma DoneStays(g: Graph, h: Graph, t: Graph, node: nat, lc: nat, ep: nat, found: seq<Pair>, cfg: Config)
    requires Linked(g) && Linked(h) && Linked(t) && g.levels == h.levels == t.levels
    requires SameLayer(h, t, lc) && LayerDone(g, h, node, lc, ep, found, cfg)
    ensures LayerDone(g, t, node, lc, ep, found, cfg)
  {
    hide Adj, BackLinked, Optimal, Select, GoodLists, Relinked, Picked;
  }

  lemma ThisLayerDone(g: Graph, h: Graph, t: Graph, node: nat, k: nat, ep: nat, out: seq<Pair>, cfg: Config)
    requires Linked(g) && Linked(h) && Linked(t) && g.levels == h.levels == t.levels && SameLayer(g, h, k)
    requires InLayer(g, node, k) && InLayer(g, ep, k) && out != [] && Select(out, cfg.dist, cfg.m) != []
    requires Optimal(h, From(cfg.dist, node), ep, cfg.efConstruction, k, out)
    requires Wired(h, t, node, k, Select(out, cfg.dist, cfg.m), cfg)
    ensures LayerDone(g, t, node, k, ep, out, cfg)
  {
    hide Adj, BackLinked, Optimal, Select, GoodLists, Wired, From, SameLayer, Picked, Measured, Distinct;
    FoundMeasured(h, From(cfg.dist, node), ep, cfg.efConstruction, k, out);
    SelectPicks(out, cfg.dist, From(cfg.dist, node), cfg.m);
    SearchSeesLayer(g, h, From(cfg.dist, node), ep, cfg.efConstruction, k, out);
    WiredFrom(g, h, t, node, k, Select(out, cfg.dist, cfg.m), cfg);
  }

  /** One more layer down. */
  lemma OneLayerDone(g: Graph, h: Graph, t: Graph, node: nat, k: nat, top: nat, eps: map<nat, nat>,
                     found: map<nat, seq<Pair>>, ep: nat, out: seq<Pair>, cfg: Config)
    requires DoneDownTo(g, h, node, k + 1, top, eps, found, cfg) && k <= top
    requires Linked(t) && t == h.(links := t.links) && InLayer(g, node, k) && InLayer(g, ep, k)
    requires k < top ==> k + 1 in found && found[k + 1] != [] && ep == found[k + 1][0].1
    requires out != [] && Select(out, cfg.dist, cfg.m) != []
    requires Optimal(h, From(cfg.dist, node), ep, cfg.efConstruction, k, out)
    requires Wired(h, t, node, k, Select(out, cfg.dist, cfg.m), cfg) && OtherLayersKept(h, t, k)
    ensures DoneDownTo(g, t, node, k, top, eps[k := ep], found[k := out], cfg)
  {
    hide Adj, BackLinked, Optimal, Select, GoodLists, Wired, From, LayerDone, KeptOutside, OtherLayersKept,
         SameLayer, Shaped, Picked;
    KeptLayers(g, h, t, k, top);
    ThisLayerDone(g, h, t, node, k, ep, out, cfg);
    forall j: nat | k + 1 <= j <= top
      ensures LayerDone(g, t, node, j, eps[j], found[j], cfg)
    {
      DoneStays(g, h, t, node, j, eps[j], found[j], cfg);
    }
    var eps', found' := eps[k := ep], found[k := out];
    forall j: nat | k <= j < top
      ensures Follows(eps', found', j)
    {
      if j > k { assert Follows(eps, found, j); }
    }
  }

  /** In every layer it enters, the bottom one included, the new node gets m neighbours, or all that were found. */
  lemma NewNodeDegree(g: Graph, h: Graph, node: nat, k: nat, top: nat, eps: map<nat, nat>,
                      found: map<nat, seq<Pair>>, cfg: Config, j: nat)
    requires DoneDownTo(g, h, node, k, top, eps, found, cfg) && k <= j <= top
    ensures InLayer(h, node, j) && j in found
    ensures |Adj(h, node, j)| == if cfg.m < |found[j]| then cfg.m else |found[j]|
  {
    hide Select, Optimal, From, KeptOutside, Follows, Linked, Relinked, BackLinked;
    assert LayerDone(g, h, node, j, eps[j], found[j], cfg);
  }

  lemma KeptLayers(g: Graph, h: Graph, t: Graph, k: nat, top: nat)
    requires Shaped(g) && Shaped(h) && Shaped(t) && g.levels == h.levels == t.levels
    requires KeptOutside(g, h, k + 1, top) && OtherLayersKept(h, t, k) && k <= top
    ensures SameLayer(g, h, k) && KeptOutside(g, t, k, top)
    ensures forall j: nat | j != k :: SameLayer(h, t, j)
  {
    hide Adj;
  }

  /** The node is still in no list of the layers to come. */
  lemma StillAbsent(g: Graph, h: Graph, node: nat, k: nat, top: nat, eps: map<nat, nat>,
                    found: map<nat, seq<Pair>>, cfg: Config)
    requires DoneDownTo(g, h, node, k + 1, top, eps, found, cfg) && Absent(g, node, k)
    ensures Absent(h, node, k)
  {
    hide Adj, LayerDone, GoodLists;
    assert forall x | InLayer(h, x, k) :: InLayer(g, x, k);
  }

  lemma NothingDone(g: Graph, node: nat, top: nat, cfg: Config)
    requires Linked(g)
    ensures DoneDownTo(g, g, node, top + 1, top, map[], map[], cfg)
  {
    hide Adj, LayerDone, GoodLists;
  }

  /** Wiring takes no list away, and leaves the node and its neighbours with one. */
  lemma WiredNonempty(g: Graph, h: Graph, node: nat, lc: nat, nbs: seq<nat>, cfg: Config)
    requires Linked(g) && Linked(h) && g.levels == h.levels && InLayer(g, node, lc) && 1 <= cfg.m <= cfg.m0
    requires Wired(g, h, node, lc, nbs, cfg) && nbs != [] && Absent(g, node, lc)
    ensures forall y | InLayer(g, y, lc) && Adj(g, y, lc) != [] && y != node :: Adj(h, y, lc) != []
    ensures Adj(h, node, lc) != []
    ensures forall y | y in Adj(h, node, lc) :: InLayer(g, y, lc) && y != node && Adj(h, y, lc) != []
  {
    hide Adj, Select, ByDistance, Relinked;
    forall y | y in nbs
      ensures Adj(h, y, lc) != []
    {
      ListIsGood(g, y, lc);
      var longer := Adj(g, y, lc) + [node];
      if |longer| > cfg.Cap(lc) { ReselectLaw(longer, cfg.dist, y, cfg.Cap(lc)); }
    }
  }

  class HnswIndex {
    const m: nat
    const m0: nat
    const efConstruction: nat
    const dist: (nat, nat) -> int
    var levels: seq<nat>
    var links: seq<seq<seq<nat>>>
    var entry: Option<nat>
    var maxLevel: int

    constructor (m: nat, m0: nat, efConstruction: nat, dist: (nat, nat) -> int)
      requires 1 <= m <= m0
      ensures this.m == m && this.m0 == m0 && this.efConstruction == efConstruction && this.dist == dist
      ensures levels == [] && Valid()
    {
      this.m, this.m0, this.efConstruction, this.dist := m, m0, efConstruction, dist;
      levels, links, entry, maxLevel := [], [], None, -1;
    }

    ghost predicate Valid()
      reads this
    {
      1 <= m <= m0 && GraphInv(State(), m, m0)
    }

    function State(): Graph
      reads this
    {
      Graph.Graph(levels, links, entry, maxLevel)
    }

    function Cfg(): Config { Config(m, m0, efConstruction, dist) }

    /** Add node to nb's list, re-selecting the list when it overflows. */
    method Backlink(node: nat, nb: nat, lc: nat)
      requires 1 <= m <= m0 && Linked(State()) && WithinDegree(State(), m, m0)
      requires InLayer(State(), node, lc) && InLayer(State(), nb, lc) && nb != node && node !in Adj(State(), nb, lc)
      modifies this`links
      ensures var l := BackLinked(Adj(old(State()), nb, lc), node, dist, nb, Cfg().Cap(lc));
        && GoodList(old(State()), nb, lc, l) && |l| <= Cfg().Cap(lc)
        && Relinked(Adj(old(State()), nb, lc), node, dist, nb, Cfg().Cap(lc), l)
        && State() == SetList(old(State()), nb, lc, l)
    {
      hide Select, ByDistance, Relinked;
      ghost var g := State();
      assert GoodList(g, nb, lc, Adj(g, nb, lc));
      BackLinkKeeps(Adj(g, nb, lc), node, dist, nb, Cfg().Cap(lc));
      var cap := if lc == 0 then m0 else m;
      var list := links[nb][lc] + [node];
      assert GoodList(g, nb, lc, list);
      if |list| > cap {
        ReselectLaw(list, dist, nb, cap);
        list := SelectHeuristic(ByDistance(list, dist, nb), dist, cap);
      }
      links := links[nb := links[nb][lc := list]];
      assert State() == SetList(g, nb, lc, list);
    }

    /** Back links from the chosen neighbours. */
    method LinkBack(node: nat, lc: nat, nbs: seq<nat>)
      requires 1 <= m <= m0 && Linked(State()) && WithinDegree(State(), m, m0)
      requires Linking(State(), State(), node, lc, nbs, 0, Cfg())
      modifies this`links
      ensures Linked(State()) && WithinDegree(State(), m, m0)
      ensures Linking(old(State()), State(), node, lc, nbs, |nbs|, Cfg())
    {
      hide GoodLists, WithinDegree, SetList, Adj, Linking, BackLinked, Relinked;
      ghost var g := State();
      for i := 0 to |nbs|
        invariant Linked(State()) && WithinDegree(State(), m, m0) && Linking(g, State(), node, lc, nbs, i, Cfg())
      {
        ghost var h := State();
        LinkingNext(g, h, node, lc, nbs, i, Cfg());
        Backlink(node, nbs[i], lc);
        ghost var l := BackLinked(Adj(h, nbs[i], lc), node, dist, nbs[i], Cfg().Cap(lc));
        SetListLaw(h, nbs[i], lc, l, m, m0);
        SetListRest(h, nbs[i], lc, l);
        LinkingStep(g, h, State(), node, lc, nbs, i, Cfg());
      }
    }

    /** Link the new node in one layer, both ways, to a selection from what the beam finds;
        the nearest node found carries down. */
    method ConnectLayer(node: nat, lc: nat, ep: nat) returns (next: nat, ghost found: seq<Pair>)
      requires 1 <= m <= m0 && Linked(State()) && WithinDegree(State(), m, m0)
      requires InLayer(State(), node, lc) && InLayer(State(), ep, lc) && ep != node && Absent(State(), node, lc)
      modifies this`links
      ensures Linked(State()) && WithinDegree(State(), m, m0) && State() == old(State()).(links := links)
      ensures Optimal(old(State()), From(dist, node), ep, efConstruction, lc, found)
      ensures var nbs := Select(found, dist, m);
        nbs != [] && Wired(old(State()), State(), node, lc, nbs, Cfg()) && OtherLayersKept(old(State()), State(), lc)
      ensures found != [] && next == found[0].1 && InLayer(State(), next, lc) && next != node
    {
      hide GoodLists, WithinDegree, Absent, Select, Beam, Ascending, SetList, Optimal, BackLinked, From;
      var g := State();
      var dq := From(dist, node);
      var out, results, visited := SearchLayer(g, dq, ep, efConstruction, lc);
      found := out;
      BeamNeighbours(g, dq, dist, node, ep, efConstruction, lc, m, out, results, visited);
      var nbs := SelectHeuristic(out, dist, m);
      links := links[node := links[node][lc := nbs]];
      assert State() == SetList(g, node, lc, nbs) by { SetListIs(g, node, lc, nbs); }
      SetListLaw(g, node, lc, nbs, m, m0);
      AbsentAt(g, node, lc);
      assert forall j | 0 <= j < |nbs| :: nbs[j] in nbs;
      SetListRest(g, node, lc, nbs);
      ghost var h := State();
      LinkBack(node, lc, nbs);
      next := out[0].1;
      LinkedIn(g, h, State(), node, lc, nbs, Cfg());
    }

    /** Greedy descent from the entry through the layers above `level`. */
    method Descend(dq: nat -> int, level: nat) returns (ep: nat, top: nat, ghost stops: map<int, nat>)
      requires Linked(State()) && entry.Some? && maxLevel >= 0 && InLayer(State(), entry.value, maxLevel)
      ensures top == (if level < maxLevel then level else maxLevel)
      ensures InLayer(State(), ep, top) && dq(ep) <= dq(entry.value)
      ensures ep == entry.value || levels[ep] > level
      ensures Descended(State(), dq, entry.value, maxLevel, level, stops, ep)
    {
      hide Descended, Linked;
      ep := entry.value;
      stops := map[];
      var lc := maxLevel;
      NotYetDown(State(), dq, ep, lc, level);
      while lc > level
        invariant 0 <= lc <= maxLevel && (lc >= level || lc == maxLevel)
        invariant InLayer(State(), ep, lc) && dq(ep) <= dq(entry.value)
        invariant ep == entry.value || levels[ep] > level
        invariant Descended(State(), dq, entry.value, maxLevel, if lc > level then lc else level, stops, ep)
      {
        ghost var above := ep;
        ep := GreedyClosest(State(), dq, ep, lc);
        OneLower(State(), dq, entry.value, maxLevel, lc, stops, above, ep);
        stops := stops[lc := ep];
        lc := lc - 1;
      }
      top := lc;
    }

    /** Connect the new node layer by layer, from `top` down; each layer starts where the one above was nearest. */
    method ConnectDown(node: nat, start: nat, top: nat)
      returns (ghost eps: map<nat, nat>, ghost found: map<nat, seq<Pair>>)
      requires 1 <= m <= m0 && Linked(State()) && WithinDegree(State(), m, m0)
      requires InLayer(State(), node, top) && InLayer(State(), start, top) && start != node
      requires forall k: nat :: Absent(State(), node, k)
      modifies this`links
      ensures Linked(State()) && WithinDegree(State(), m, m0) && State() == old(State()).(links := links)
      ensures DoneDownTo(old(State()), State(), node, 0, top, eps, found, Cfg())
      ensures top in eps && eps[top] == start
    {
      hide GoodLists, Absent, WithinDegree, DoneDownTo, From, Wired, Optimal, Select, OtherLayersKept, Adj;
      eps, found := map[], map[];
      ghost var g := State();
      var ep := start;
      NothingDone(g, node, top, Cfg());
      for k := top + 1 downto 0
        invariant Linked(State()) && WithinDegree(State(), m, m0) && State() == g.(links := links)
        invariant k > 0 ==> InLayer(g, ep, k - 1) && ep != node
        invariant DoneDownTo(g, State(), node, k, top, eps, found, Cfg())
        invariant if k > top then ep == start
                  else top in eps && eps[top] == start && k in found && found[k] != [] && ep == found[k][0].1
      {
        ghost var h := State();
        StillAbsent(g, h, node, k, top, eps, found, Cfg());
        ghost var out;
        ghost var from := ep;
        ep, out := ConnectLayer(node, k, ep);
        OneLayerDone(g, h, State(), node, k, top, eps, found, from, out, Cfg());
        eps, found := eps[k := from], found[k := out];
      }
    }

    /** Insert the next node with the given level: from the entry down to its own top layer greedily, then
        layer by layer a beam search and the wiring of a selection from what it finds. */
    method InsertNode(level: nat)
      returns (ghost stops: map<int, nat>, ghost eps: map<nat, nat>, ghost found: map<nat, seq<Pair>>)
      requires Valid()
      modifies this
      ensures Valid() && levels == old(levels) + [level]
      ensures maxLevel == (if level > old(maxLevel) then level else old(maxLevel))
      ensures entry == if level > old(maxLevel) then Some(|old(levels)|) else old(entry)
      ensures old(levels) == [] ==> links == WithNode(old(State()), level).links
      ensures old(levels) != [] ==>
        var g, top := WithNode(old(State()), level), if level < old(maxLevel) then level else old(maxLevel);
        && DoneDownTo(g, g.(links := links), |old(levels)|, 0, top, eps, found, Cfg())
        && top in eps && dist(|old(levels)|, eps[top]) <= dist(|old(levels)|, old(entry).value)
        && Descended(g, From(dist, |old(levels)|), old(entry).value, old(maxLevel), level, stops, eps[top])
    {
      hide GoodLists, Absent, WithinDegree, DoneDownTo, From, Adj, Descended;
      stops, eps, found := map[], map[], map[];
      var node := |levels|;
      ghost var before := State();
      levels := levels + [level];
      links := links + [seq(level + 1, i => [])];
      ghost var g := State();
      assert g == WithNode(before, level);
      FreshNode(before, level, m, m0);
      if entry.None? {
        entry, maxLevel := Some(node), level;
        FirstNode(before, level, m, m0);
        return;
      }
      var ep, top;
      ep, top, stops := Descend(From(dist, node), level);
      eps, found := ConnectDown(node, ep, top);
      ghost var h := State();
      if level > maxLevel {
        maxLevel, entry := level, Some(node);
      }
      InsertedValid(before, h, State(), level, top, eps, found, Cfg());
      FromIs(dist, node, ep);
      FromIs(dist, node, before.entry.value);
    }

    /** The graph part of a query: descend greedily to layer 1, then search layer 0 with a beam. */
    method SearchGraph(dq: nat -> int, ef: nat) returns (out: seq<Pair>, ghost stops: map<int, nat>, ghost ep: nat)
      requires Valid() && levels != []
      ensures Descended(State(), dq, entry.value, maxLevel, 0, stops, ep)
      ensures InLayer(State(), ep, 0) && dq(ep) <= dq(entry.value) && Optimal(State(), dq, ep, ef, 0, out)
    {
      hide GoodLists, WithinDegree, Beam, Ascending, Optimal, Descended;
      var at := entry.value;
      stops := map[];
      NotYetDown(State(), dq, at, maxLevel, maxLevel);
      for lc := (maxLevel + 1) as nat downto 1
        invariant InLayer(State(), at, lc - 1) && dq(at) <= dq(entry.value)
        invariant Descended(State(), dq, entry.value, maxLevel, lc - 1, stops, at)
      {
        ghost var above := at;
        at := GreedyClosest(State(), dq, at, lc);
        OneLower(State(), dq, entry.value, maxLevel, lc, stops, above, at);
        stops := stops[lc as int := at];
      }
      ep := at;
      ghost var results, visited;
      out, results, visited := SearchLayer(State(), dq, at, ef, 0);
    }
  }

  lemma ListIsGood(g: Graph, x: nat, lc: nat)
    requires Linked(g) && InLayer(g, x, lc)
    ensures GoodList(g, x, lc, Adj(g, x, lc))
  {
  }

  lemma FromIs(dn: (nat, nat) -> int, node: nat, y: nat)
    ensures From(dn, node)(y) == dn(node, y)
  {
  }

  /** A graph with one more node that nothing links to yet. */
  function WithNode(g: Graph, level: nat): Graph {
    g.(levels := g.levels + [level], links := g.links + [seq(level + 1, i => [])])
  }

  lemma FreshNode(g: Graph, level: nat, m: nat, m0: nat)
    requires GraphInv(g, m, m0)
    ensures var h, node := WithNode(g, level), |g.levels|;
      && Linked(h) && WithinDegree(h, m, m0)
      && (forall k: nat :: Absent(h, node, k))
      && (forall y, k | InLayer(g, y, k) :: InLayer(h, y, k) && Adj(h, y, k) == Adj(g, y, k))
  {
    var h, node := WithNode(g, level), |g.levels|;
    forall y: nat, k: nat | InLayer(h, y, k)
      ensures GoodList(h, y, k, Adj(h, y, k)) && node !in Adj(h, y, k)
      ensures |Adj(h, y, k)| <= if k == 0 then m0 else m
    {
      if y < node {
        assert InLayer(g, y, k) && GoodList(g, y, k, Adj(g, y, k));
      }
    }
  }

  lemma FirstNode(g: Graph, level: nat, m: nat, m0: nat)
    requires GraphInv(g, m, m0) && g.levels == []
    requires Linked(WithNode(g, level)) && WithinDegree(WithNode(g, level), m, m0)
    ensures GraphInv(WithNode(g, level).(entry := Some(0), maxLevel := level), m, m0)
  {
    var h := WithNode(g, level).(entry := Some(0), maxLevel := level);
    EntryOnly(WithNode(g, level), h, m, m0);
  }

  /** The entry point and the top level do not matter to the lists. */
  lemma EntryOnly(g: Graph, h: Graph, m: nat, m0: nat)
    requires Linked(g) && WithinDegree(g, m, m0) && h.levels == g.levels && h.links == g.links
    ensures Linked(h) && WithinDegree(h, m, m0)
    ensures forall x, k | InLayer(g, x, k) :: Adj(h, x, k) == Adj(g, x, k)
  {
    forall x, k | InLayer(h, x, k)
      ensures GoodList(h, x, k, Adj(h, x, k)) && |Adj(h, x, k)| <= if k == 0 then m0 else m
    {
      assert GoodList(g, x, k, Adj(g, x, k)) && Adj(h, x, k) == Adj(g, x, k);
    }
  }

  lemma InsertedValid(before: Graph, h: Graph, after: Graph, level: nat, top: nat, eps: map<nat, nat>,
                      found: map<nat, seq<Pair>>, cfg: Config)
    requires 1 <= cfg.m <= cfg.m0 && GraphInv(before, cfg.m, cfg.m0) && before.levels != []
    requires WithinDegree(WithNode(before, level), cfg.m, cfg.m0) && Shaped(h) && WithinDegree(h, cfg.m, cfg.m0)
    requires DoneDownTo(WithNode(before, level), h, |before.levels|, 0, top, eps, found, cfg)
    requires Absent(WithNode(before, level), |before.levels|, 0)
    requires after == if level > h.maxLevel then h.(maxLevel := level, entry := Some(|before.levels|)) else h
    ensures GraphInv(after, cfg.m, cfg.m0)
  {
    hide Select, Optimal, BackLinked, ByDistance, Wired, Picked;
    var g, node := WithNode(before, level), |before.levels|;
    EntryOnly(h, after, cfg.m, cfg.m0);
    assert LayerDone(g, h, node, 0, eps[0], found[0], cfg);
    WiredNonempty(g, h, node, 0, Select(found[0], cfg.dist, cfg.m), cfg);
    forall x | 0 <= x < |after.levels|
      ensures Adj(after, x, 0) != []
    {
      assert InLayer(h, x, 0) && Adj(after, x, 0) == Adj(h, x, 0);
      if x < node && node == 1 {
        assert Adj(h, node, 0)[0] in Adj(h, node, 0);
      }
      if x < node && node >= 2 { assert InLayer(before, x, 0) && Adj(g, x, 0) == Adj(before, x, 0); }
    }
  }

  lemma SetListIs(g: Graph, x: nat, lc: nat, l: seq<nat>)
    requires Shaped(g) && InLayer(g, x, lc)
    ensures SetList(g, x, lc, l) == Graph(g.levels, g.links[x := g.links[x][lc := l]], g.entry, g.maxLevel)
  {
  }

  lemma SetListRest(g: Graph, x: nat, lc: nat, l: seq<nat>)
    requires Shaped(g) && InLayer(g, x, lc)
    ensures SetList(g, x, lc, l) == g.(links := SetList(g, x, lc, l).links)
  {
  }

  lemma AbsentAt(g: Graph, node: nat, lc: nat)
    requires Shaped(g) && Absent(g, node, lc)
    ensures forall x | InLayer(g, x, lc) :: node !in Adj(g, x, lc)
  {
  }
}