/** Exact top-k search, and the merge of per-tier pools that must equal it. Scores are an abstract
    total order (integers); a vector that cannot be scored has none. */
module Search {
  import opened Wrappers
  import opened Records
  import opened Wal
  import opened Sorting
  import opened Views

  datatype Hit = Hit(id: ExternalId, score: int, sn: nat)

  /** The score of a vector under the metric and the query at hand. */
  type Scorer = seq<u32> -> Option<int>

  /** Whether the query is acceptable for vectors of a dimension; 0 stands for no vectors. */
  type Check = nat -> bool

  predicate Better(a: Hit, b: Hit) { a.score >= b.score }

  function Scored(es: seq<Numbered>, sc: Scorer): seq<Hit> {
    if es == [] then [] else
    var front, e := Scored(es[..|es| - 1], sc), es[|es| - 1];
    match sc(e.1.vector)
    case Some(score) => front + [Hit(IdOf(e), score, e.0)]
    case None => front
  }

  function Elems<T>(s: seq<T>): set<T> { set x | x in s }

  /** Everything in a tier that can be scored, as a set. */
  function Hits(es: seq<Numbered>, sc: Scorer): set<Hit> { Elems(Scored(es, sc)) }

  function Exact(es: seq<Numbered>, sc: Scorer, k: nat): seq<Hit> {
    Take(Sort(Scored(es, sc), Better), k)
  }

  function StoredDim(es: seq<Numbered>): nat { if es == [] then 0 else |es[0].1.vector| }

  /** `out` is k best of the pool, best first. */
  ghost predicate TopK(out: seq<Hit>, pool: set<Hit>, k: nat) {
    && SortedBy(out, Better)
    && (forall i, j | 0 <= i < j < |out| :: out[i] != out[j])
    && (forall h | h in out :: h in pool)
    && |out| == (if k < |pool| then k else |pool|)
    && (forall h, o | h in pool && h !in out && o in out :: Better(o, h))
  }

  predicate UniqueIds(es: seq<Numbered>) {
    forall i, j | 0 <= i < j < |es| :: IdOf(es[i]) != IdOf(es[j])
  }

  predicate UniqueHits(hs: seq<Hit>) {
    forall i, j | 0 <= i < j < |hs| :: hs[i].id != hs[j].id
  }

  // --- the flat scan ---

  method ExactSearch(vectors: seq<Numbered>, check: Check, sc: Scorer, k: nat) returns (r: Result<seq<Hit>, Error>)
    ensures r == if check(StoredDim(vectors)) then Ok(Exact(vectors, sc, k)) else Err(Schema)
  {
    if !check(StoredDim(vectors)) {
      return Err(Schema);
    }
    if k == 0 {
      return Ok([]);
    }
    var hits: seq<Hit> := [];
    assert vectors[..0] == [];
    for i := 0 to |vectors|
      invariant hits == Scored(vectors[..i], sc)
    {
      assert vectors[..i + 1][..i] == vectors[..i];
      match sc(vectors[i].1.vector) {
        case Some(score) => hits := hits + [Hit(IdOf(vectors[i]), score, vectors[i].0)];
        case None =>
      }
    }
    assert vectors[..|vectors|] == vectors;
    return Ok(Take(Sort(hits, Better), k));
  }

  // --- counting ---

  /** A sequence has at most as many values as places, and as many exactly when none repeats. */
  lemma {:induction false} ElemsCount<T>(s: seq<T>)
    ensures |Elems(s)| <= |s|
    ensures |Elems(s)| == |s| <==> forall i, j | 0 <= i < j < |s| :: s[i] != s[j]
  {
    if s != [] {
      var k := |s| - 1;
      var front := s[..k];
      ElemsCount(front);
      assert s == front + [s[k]];
      assert Elems(s) == Elems(front) + {s[k]};
      if s[k] in front {
        var i :| 0 <= i < k && front[i] == s[k];
        assert s[i] == s[k];
        assert Elems(s) == Elems(front);
      }
    }
  }

  lemma SubsetCount<T>(a: set<T>, b: set<T>)
    requires a <= b
    ensures |a| <= |b|
    ensures |a| == |b| ==> a == b
  {
    assert b == a + (b - a);
  }

  /** Sorting and truncating a list without repetition takes its k best. */
  lemma SortedTopK(hs: seq<Hit>, k: nat)
    requires forall i, j | 0 <= i < j < |hs| :: hs[i] != hs[j]
    ensures TopK(Take(Sort(hs, Better), k), Elems(hs), k)
  {
    hide Sort;
    var s := Sort(hs, Better);
    SortPermutes(hs, Better);
    assert TotalPreorder(Better);
    SortSorts(hs, Better);
    assert Elems(s) == Elems(hs);
    ElemsCount(hs);
    ElemsCount(s);
    var out := Take(s, k);
    forall h, o | h in Elems(hs) && h !in out && o in out
      ensures Better(o, h)
    {
      assert h in s;
      var i :| 0 <= i < |s| && s[i] == h;
      var j :| 0 <= j < |out| && out[j] == o;
      assert i >= |out| && s[j] == o;
    }
  }

  lemma {:induction false} ScoredFrom(es: seq<Numbered>, sc: Scorer, h: Hit)
    ensures h in Scored(es, sc) <==>
      exists i | 0 <= i < |es| :: sc(es[i].1.vector).Some? && h == Hit(IdOf(es[i]), sc(es[i].1.vector).value, es[i].0)
    decreases |es|
  {
    if es != [] {
      var k := |es| - 1;
      ScoredFrom(es[..k], sc, h);
      assert forall i | 0 <= i < k :: es[..k][i] == es[i];
    }
  }

  lemma {:induction false} ScoredUnique(es: seq<Numbered>, sc: Scorer)
    requires UniqueIds(es)
    ensures UniqueHits(Scored(es, sc))
    decreases |es|
  {
    if es != [] {
      var k := |es| - 1;
      ScoredUnique(es[..k], sc);
      forall h | h in Scored(es[..k], sc)
        ensures h.id != IdOf(es[k])
      {
        ScoredFrom(es[..k], sc, h);
      }
    }
  }

  /** The flat scan is right: k best of what can be scored. */
  lemma ExactIsTopK(es: seq<Numbered>, sc: Scorer, k: nat)
    requires UniqueIds(es)
    ensures TopK(Exact(es, sc, k), Hits(es, sc), k)
  {
    hide Scored, Sort, TopK;
    ScoredUnique(es, sc);
    SortedTopK(Scored(es, sc), k);
  }

  /** What k best means in scores: higher ones first, nothing left out while there is room, and nothing left out
      with a higher score than anything returned. */
  lemma TopKByScore(out: seq<Hit>, pool: set<Hit>, k: nat)
    requires TopK(out, pool, k)
    ensures forall i, j | 0 <= i < j < |out| :: out[i].score >= out[j].score && out[i] != out[j]
    ensures forall h | h in pool :: h in out || (|out| == k && forall o | o in out :: o.score >= h.score)
  {
    ElemsCount(out);
    if |out| < k { SubsetCount(Elems(out), pool); }
    forall h, o | h in pool && h !in out && o in out
      ensures o.score >= h.score
    {
      assert Better(o, h);
    }
    assert forall i, j | 0 <= i < j < |out| :: Better(out[i], out[j]);
    if h :| h in pool && h !in out { assert |out| == k by { assert h !in Elems(out); } }
  }

  /** Any two answers agree on every score. */
  lemma SameScores(a: seq<Hit>, b: seq<Hit>, pool: set<Hit>, k: nat, i: nat)
    requires TopK(a, pool, k) && TopK(b, pool, k) && i < |a|
    ensures |a| == |b| && a[i].score == b[i].score
  {
    NotBelow(a, b, pool, k, i);
    NotBelow(b, a, pool, k, i);
  }

  lemma NotBelow(a: seq<Hit>, b: seq<Hit>, pool: set<Hit>, k: nat, i: nat)
    requires TopK(a, pool, k) && TopK(b, pool, k) && i < |a|
    ensures Better(a[i], b[i])
  {
    ElemsCount(b[..i + 1]);
    ElemsCount(a[..i]);
    if Elems(b[..i + 1]) <= Elems(a[..i]) { SubsetCount(Elems(b[..i + 1]), Elems(a[..i])); }
    assert forall l | 0 <= l < i :: a[l] in a[..i];
    var h :| h in b[..i + 1] && h !in a[..i];
    var j :| 0 <= j <= i && b[j] == h;
    assert h in pool && Better(h, b[i]);
    assert Better(a[i], h) by {
      if h in a {
        var l :| 0 <= l < |a| && a[l] == h;
      }
    }
  }

  // --- merging pools ---

  function AtLeast(hs: set<Hit>, h: Hit): set<Hit> { set p | p in hs && Better(p, h) }

  /** A pool that may leave a hit out only when it has k others at least as good. */
  ghost predicate Covers(part: set<Hit>, whole: set<Hit>, k: nat) {
    part <= whole && forall h | h in whole && h !in part :: |AtLeast(part, h)| >= k
  }

  /** k best of a covering pool are k best of the whole. */
  lemma CoverSuffices(out: seq<Hit>, part: set<Hit>, whole: set<Hit>, k: nat)
    requires Covers(part, whole, k) && TopK(out, part, k)
    ensures TopK(out, whole, k)
  {
    SubsetCount(part, whole);
    forall h | h in whole && h !in part
      ensures |part| >= k && forall o | o in out :: Better(o, h)
    {
      var ahead := AtLeast(part, h);
      SubsetCount(ahead, part);
      forall o | o in out
        ensures Better(o, h)
      {
        if !Better(o, h) {
          assert forall p | p in ahead :: p in Elems(out);
          SubsetCount(ahead + {o}, Elems(out));
          ElemsCount(out);
        }
      }
    }
    if part != whole {
      var h :| h in whole && h !in part;
      assert |part| >= k;
    }
  }

  lemma TopKCovers(out: seq<Hit>, whole: set<Hit>, k: nat)
    requires TopK(out, whole, k)
    ensures Covers(Elems(out), whole, k)
  {
    ElemsCount(out);
    forall h | h in whole && h !in out
      ensures |AtLeast(Elems(out), h)| >= k
    {
      SubsetCount(Elems(out), whole);
      assert AtLeast(Elems(out), h) == Elems(out);
    }
  }

  lemma CoversUnion(p: set<Hit>, q: set<Hit>, a: set<Hit>, b: set<Hit>, k: nat)
    requires Covers(p, a, k) && Covers(q, b, k)
    ensures Covers(p + q, a + b, k)
  {
    forall h | h in a + b && h !in p + q
      ensures |AtLeast(p + q, h)| >= k
    {
      SubsetCount(if h in a then AtLeast(p, h) else AtLeast(q, h), AtLeast(p + q, h));
    }
  }

  // --- the store's search ---

  /** The pools of the sealed segments, one after the other. */
  function Pools(segs: seq<seq<Numbered>>, sc: Scorer, pool: nat): seq<Hit> {
    if segs == [] then [] else Pools(segs[..|segs| - 1], sc, pool) + Exact(segs[|segs| - 1], sc, pool)
  }

  /** The better hit per id; the earlier one stays on a tie. */
  function BestHits(hs: seq<Hit>): map<ExternalId, Hit> {
    if hs == [] then map[] else
    var m, h := BestHits(hs[..|hs| - 1]), hs[|hs| - 1];
    if h.id in m && m[h.id].score >= h.score then m else m[h.id := h]
  }

  /** The values of a hash map come in any order, each key once. */
  ghost predicate ValuesOf<T>(vs: seq<T>, m: map<ExternalId, T>, id: T -> ExternalId) {
    && (forall i, j | 0 <= i < j < |vs| :: id(vs[i]) != id(vs[j]))
    && (forall i | 0 <= i < |vs| :: id(vs[i]) in m && m[id(vs[i])] == vs[i])
    && (forall k | k in m :: m[k] in vs)
  }

  function HitId(h: Hit): ExternalId { h.id }

  /** What a search may return: `recent` is L0's live part and `merged` the surviving hits, in hash map order. */
  ghost predicate Answers(out: seq<Hit>, recent: seq<Numbered>, merged: seq<Hit>,
                          segs: seq<seq<Numbered>>, l0: View, sc: Scorer, k: nat, pool: nat) {
    && ValuesOf(recent, LiveOnly(l0), IdOf)
    && ValuesOf(merged, BestHits(Pools(segs, sc, pool) + Exact(recent, sc, pool)), HitId)
    && out == Take(Sort(merged, Better), k)
  }

  method Listed<T>(m: map<ExternalId, T>, id: T -> ExternalId) returns (vs: seq<T>)
    requires forall k | k in m :: id(m[k]) == k
    ensures ValuesOf(vs, m, id)
  {
    var todo := m.Keys;
    vs := [];
    while todo != {}
      invariant todo <= m.Keys
      invariant forall i, j | 0 <= i < j < |vs| :: id(vs[i]) != id(vs[j])
      invariant forall i | 0 <= i < |vs| :: id(vs[i]) in m && id(vs[i]) !in todo && m[id(vs[i])] == vs[i]
      invariant forall k | k in m && k !in todo :: m[k] in vs
    {
      var k :| k in todo;
      vs := vs + [m[k]];
      todo := todo - {k};
    }
  }

  method MergeHits(all: seq<Hit>) returns (best: map<ExternalId, Hit>)
    ensures best == BestHits(all)
  {
    best := map[];
    assert all[..0] == [];
    for i := 0 to |all|
      invariant best == BestHits(all[..i])
    {
      var h := all[i];
      assert all[..i + 1][..i] == all[..i];
      if !(h.id in best && best[h.id].score >= h.score) {
        best := best[h.id := h];
      }
    }
    assert all[..|all|] == all;
  }

  lemma {:induction false} BestHitsFiled(hs: seq<Hit>)
    ensures forall id | id in BestHits(hs) :: BestHits(hs)[id].id == id && BestHits(hs)[id] in hs
    decreases |hs|
  {
    if hs != [] { BestHitsFiled(hs[..|hs| - 1]); }
  }

  /** Every tier contributes a pool, the best hit per id survives, the k best are returned. */
  method SearchTiers(segs: seq<seq<Numbered>>, l0: View, check: Check, sc: Scorer, k: nat, pool: nat)
    returns (r: Result<seq<Hit>, Error>, ghost recent: seq<Numbered>, ghost merged: seq<Hit>)
    requires Filed(l0)
    ensures pool < k ==> r == Err(Schema)
    ensures r.Ok? ==> |r.value| <= k
    ensures r.Ok? ==> Answers(r.value, recent, merged, segs, l0, sc, k, pool)
    ensures r.Err? <==> pool < k || (exists i | 0 <= i < |segs| :: !check(StoredDim(segs[i])))
                                 || (recent != [] && !check(StoredDim(recent)))
  {
    hide Exact, Sort, StoredDim, BestHits;
    recent, merged := [], [];
    if pool < k {
      return Err(Schema), recent, merged;
    }
    var all: seq<Hit> := [];
    assert segs[..0] == [];
    for i := 0 to |segs|
      invariant all == Pools(segs[..i], sc, pool)
      invariant forall j | 0 <= j < i :: check(StoredDim(segs[j]))
    {
      assert segs[..i + 1][..i] == segs[..i];
      var hits :- ExactSearch(segs[i], check, sc, pool);
      all := all + hits;
    }
    assert segs[..|segs|] == segs;
    var live := Listed(LiveOnly(l0), IdOf);
    recent := live;
    ghost var sealed := all;
    if live != [] {
      var hits :- ExactSearch(live, check, sc, pool);
      all := all + hits;
    }
    assert all == sealed + Exact(live, sc, pool) by { ExactNothing(sc, pool); }
    var best := MergeHits(all);
    BestHitsFiled(all);
    var hits := Listed(best, HitId);
    merged := hits;
    return Ok(Take(Sort(hits, Better), k)), recent, merged;
  }

  lemma ExactNothing(sc: Scorer, k: nat)
    ensures Exact([], sc, k) == []
  {
  }
}
