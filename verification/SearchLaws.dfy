/** When the store's search equals the flat scan of the merged view, and when it does not. */
module SearchLaws {
  import opened Wrappers
  import opened Records
  import opened Wal
  import opened WalLaws
  import opened Sorting
  import opened Views
  import opened StoreModel
  import opened StoreLaws
  import opened Search

  /** What every reachable store keeps: sealed entries are live, one per id, and older than anything in L0. */
  ghost predicate Tiered(m: Mem) {
    var sealed := Flat(m.segments);
    && UniqueIds(sealed) && Filed(m.l0)
    && (forall i | 0 <= i < |sealed| :: sealed[i].1.lifecycle.Live?)
    && (forall i, id | 0 <= i < |sealed| && id in m.l0 :: sealed[i].0 < m.l0[id].0)
  }

  function Ids(es: seq<Numbered>): set<ExternalId> { set e | e in es :: IdOf(e) }

  lemma ListedIdsDiffer(es: seq<Numbered>, v: View)
    requires Lists(es, v)
    ensures UniqueIds(es)
  {
    forall i, j | 0 <= i < j < |es|
      ensures IdOf(es[i]) != IdOf(es[j])
    {
      assert es[i].0 < es[j].0;
      assert v[IdOf(es[i])] == es[i] && v[IdOf(es[j])] == es[j];
    }
  }

  lemma InvTiered(s: Store)
    requires Inv(s)
    ensures Tiered(s.mem)
  {
    hide Flat, Latest, Upto, After, RecordsOf, Covered, LastBarrier, DiskInv, SchemaOk, Agrees, NextSeq, SegLiveOf;
    var m, rs := s.mem, RecordsOf(s.disk.log);
    var sealed, low, high := Flat(m.segments), Upto(rs, m.checkpointSeq), After(rs, m.checkpointSeq);
    ListedIdsDiffer(sealed, ViewOf(low));
    SplitBounds(rs, m.checkpointSeq);
    forall i | 0 <= i < |sealed|
      ensures sealed[i].1.lifecycle.Live? && sealed[i].0 <= m.checkpointSeq
    {
      LatestFrom(low, IdOf(sealed[i]));
    }
    forall id | id in m.l0
      ensures IdOf(m.l0[id]) == id && m.l0[id].0 > m.checkpointSeq
    {
      LatestFrom(high, id);
    }
  }

  // --- hits of entries ---

  lemma HitsSame(a: seq<Numbered>, b: seq<Numbered>, sc: Scorer)
    requires forall e | e in a :: e in b
    ensures Hits(a, sc) <= Hits(b, sc)
  {
    hide Scored;
    forall h | h in Hits(a, sc)
      ensures h in Hits(b, sc)
    {
      ScoredFrom(a, sc, h);
      ScoredFrom(b, sc, h);
      var i :| 0 <= i < |a| && sc(a[i].1.vector).Some? && h == Hit(IdOf(a[i]), sc(a[i].1.vector).value, a[i].0);
      assert a[i] in b;
    }
  }

  lemma HitsUnion(a: seq<Numbered>, b: seq<Numbered>, sc: Scorer)
    ensures Hits(a + b, sc) == Hits(a, sc) + Hits(b, sc)
  {
    hide Scored;
    HitsSame(a, a + b, sc);
    HitsSame(b, a + b, sc);
    forall h | h in Hits(a + b, sc)
      ensures h in Hits(a, sc) + Hits(b, sc)
    {
      ScoredFrom(a + b, sc, h);
      ScoredFrom(a, sc, h);
      ScoredFrom(b, sc, h);
      var i :| 0 <= i < |a + b| && sc((a + b)[i].1.vector).Some? &&
        h == Hit(IdOf((a + b)[i]), sc((a + b)[i].1.vector).value, (a + b)[i].0);
      assert if i < |a| then a[i] == (a + b)[i] else b[i - |a|] == (a + b)[i];
    }
  }

  /** With one entry per id there is one hit per id. */
  lemma HitsConsistent(es: seq<Numbered>, sc: Scorer, g: Hit, h: Hit)
    requires UniqueIds(es) && g in Hits(es, sc) && h in Hits(es, sc) && g.id == h.id
    ensures g == h
  {
    hide Scored;
    ScoredUnique(es, sc);
  }

  lemma {:induction false} PoolsCover(segs: seq<seq<Numbered>>, sc: Scorer, pool: nat)
    requires UniqueIds(Flat(segs))
    ensures Covers(Elems(Pools(segs, sc, pool)), Hits(Flat(segs), sc), pool)
    decreases |segs|
  {
    hide Exact, Scored, TopK;
    if segs != [] {
      var front, last := segs[..|segs| - 1], segs[|segs| - 1];
      assert Flat(segs) == Flat(front) + last;
      UniqueParts(Flat(front), last);
      PoolsCover(front, sc, pool);
      ExactIsTopK(last, sc, pool);
      TopKCovers(Exact(last, sc, pool), Hits(last, sc), pool);
      HitsUnion(Flat(front), last, sc);
      CoversUnion(Elems(Pools(front, sc, pool)), Elems(Exact(last, sc, pool)), Hits(Flat(front), sc),
                  Hits(last, sc), pool);
      assert Elems(Pools(segs, sc, pool)) == Elems(Pools(front, sc, pool)) + Elems(Exact(last, sc, pool));
    } else {
      NoHits(sc);
    }
  }

  lemma NoHits(sc: Scorer)
    ensures Hits([], sc) == {}
  {
  }

  lemma UniqueParts(a: seq<Numbered>, b: seq<Numbered>)
    requires UniqueIds(a + b)
    ensures UniqueIds(a) && UniqueIds(b)
  {
    forall i, j | 0 <= i < j < |a|
      ensures IdOf(a[i]) != IdOf(a[j])
    {
      assert (a + b)[i] == a[i] && (a + b)[j] == a[j];
    }
    forall i, j | 0 <= i < j < |b|
      ensures IdOf(b[i]) != IdOf(b[j])
    {
      assert (a + b)[|a| + i] == b[i] && (a + b)[|a| + j] == b[j];
    }
  }

  // --- the merge keeps every hit when ids are distinct ---

  lemma {:induction false} BestHitsAll(hs: seq<Hit>)
    requires forall g, h | g in hs && h in hs && g.id == h.id :: g == h
    ensures forall h | h in hs :: h.id in BestHits(hs) && BestHits(hs)[h.id] == h
    decreases |hs|
  {
    if hs != [] {
      var front, last := hs[..|hs| - 1], hs[|hs| - 1];
      assert hs == front + [last];
      BestHitsAll(front);
      BestHitsFiled(front);
    }
  }

  // --- the merged view, entry by entry ---

  lemma {:induction false} BestUnique(es: seq<Numbered>)
    requires UniqueIds(es)
    ensures forall i | 0 <= i < |es| :: IdOf(es[i]) in Best(es) && Best(es)[IdOf(es[i])] == es[i]
    ensures forall id | id in Best(es) :: Best(es)[id] in es && IdOf(Best(es)[id]) == id
    decreases |es|
  {
    if es != [] {
      var front := es[..|es| - 1];
      BestUnique(front);
      assert es == front + [es[|es| - 1]];
    }
  }

  // --- pools with room, and the values of maps ---

  /** The values of a map can always be listed. */
  lemma {:induction false} Arrange<T>(m: map<ExternalId, T>, id: T -> ExternalId) returns (vs: seq<T>)
    requires forall k | k in m :: id(m[k]) == k
    ensures ValuesOf(vs, m, id)
    decreases |m|
  {
    if m == map[] {
      vs := [];
    } else {
      var k :| k in m;
      var rest := m - {k};
      assert m.Keys == rest.Keys + {k};
      vs := Arrange(rest, id);
      vs := vs + [m[k]];
    }
  }

  lemma {:induction false} BestHitsKept(a: seq<Hit>, b: seq<Hit>, h: Hit)
    requires h.id in BestHits(a) && BestHits(a)[h.id] == h
    requires forall g | g in b && g.id == h.id :: g.score <= h.score
    ensures h.id in BestHits(a + b) && BestHits(a + b)[h.id] == h
    decreases |b|
  {
    if b == [] {
      assert a + b == a;
    } else {
      var front := b[..|b| - 1];
      assert (a + b)[..|a + b| - 1] == a + front;
      BestHitsKept(a, front, h);
    }
  }

  /** Every vector is as good as any other. */
  function Level(): Scorer { v => Some(0) }

  lemma ScoredCount(es: seq<Numbered>, sc: Scorer)
    ensures |Scored(es, sc)| <= |es| && |Hits(es, sc)| <= |es|
  {
    if es != [] { ScoredCount(es[..|es| - 1], sc); }
    ElemsCount(Scored(es, sc));
  }

  /** A pool with room for everything leaves nothing out. */
  lemma RoomyPool(part: set<Hit>, whole: set<Hit>, pool: nat)
    requires Covers(part, whole, pool) && |whole| <= pool
    ensures part == whole
  {
    if part != whole {
      var h :| h in whole && h !in part;
      SubsetCount(AtLeast(part, h), part);
      SubsetCount(part + {h}, whole);
    }
  }

  lemma ExactFrom(es: seq<Numbered>, sc: Scorer, k: nat)
    ensures Elems(Exact(es, sc, k)) <= Hits(es, sc) && |Exact(es, sc, k)| <= |es|
  {
    hide Sort, Scored;
    SortPermutes(Scored(es, sc), Better);
    ScoredCount(es, sc);
  }

  lemma {:induction false} PoolsFrom(segs: seq<seq<Numbered>>, sc: Scorer, pool: nat)
    ensures |Pools(segs, sc, pool)| <= |Flat(segs)|
    decreases |segs|
  {
    hide Exact;
    if segs != [] {
      PoolsFrom(segs[..|segs| - 1], sc, pool);
      ExactFrom(segs[|segs| - 1], sc, pool);
    }
  }

  lemma {:induction false} BestHitsCount(hs: seq<Hit>)
    ensures |BestHits(hs)| <= |hs|
    ensures forall h | h in hs :: h.id in BestHits(hs) && BestHits(hs)[h.id].score >= h.score
    decreases |hs|
  {
    if hs != [] {
      var front, last := hs[..|hs| - 1], hs[|hs| - 1];
      assert hs == front + [last];
      BestHitsCount(front);
      if last.id !in BestHits(front) {
        assert BestHits(front)[last.id := last].Keys == BestHits(front).Keys + {last.id};
      }
      assert |BestHits(hs)| == |BestHits(hs).Keys| && |BestHits(front)| == |BestHits(front).Keys|;
    }
  }

  // --- score sequences by counting ---

  /** The same scores, place by place. */
  ghost predicate SameScoreSeq(a: seq<Hit>, b: seq<Hit>) {
    |a| == |b| && forall i | 0 <= i < |a| :: a[i].score == b[i].score
  }

  /** The ids with a hit of at least some score. */
  function Strong(hs: seq<Hit>, x: int): set<ExternalId> { set h | h in hs && h.score >= x :: h.id }

  function IdSeq(hs: seq<Hit>): (ids: seq<ExternalId>)
    ensures |ids| == |hs|
  {
    seq(|hs|, i requires 0 <= i < |hs| => hs[i].id)
  }

  /** In a list sorted best first, place i reaches a score exactly when more than i ids do. */
  lemma PlaceByCount(a: seq<Hit>, i: nat, x: int)
    requires SortedBy(a, Better) && UniqueHits(a)
    ensures |Strong(a, x)| > i <==> i < |a| && a[i].score >= x
  {
    if i < |a| && a[i].score >= x {
      var ids := IdSeq(a[..i + 1]);
      ElemsCount(ids);
      forall id | id in ids
        ensures id in Strong(a, x)
      {
        var j :| 0 <= j <= i && ids[j] == id;
        assert a[j] in a && (j < i ==> Better(a[j], a[i]));
      }
      SubsetCount(Elems(ids), Strong(a, x));
    } else {
      var n := if i < |a| then i else |a|;
      var ids := IdSeq(a[..n]);
      ElemsCount(ids);
      forall id | id in Strong(a, x)
        ensures id in ids
      {
        var h :| h in a && h.score >= x && h.id == id;
        var j :| 0 <= j < |a| && a[j] == h;
        assert j < n;
        assert ids[j] == id;
      }
      SubsetCount(Strong(a, x), Elems(ids));
    }
  }

  /** As many ids at every score, up to k. */
  ghost predicate SameCounts(a: seq<Hit>, b: seq<Hit>, k: nat) {
    forall x :: |Strong(a, x)| == |Strong(b, x)| || (|Strong(a, x)| >= k && |Strong(b, x)| >= k)
  }

  lemma SortedHits(hs: seq<Hit>)
    requires UniqueHits(hs)
    ensures var s := Sort(hs, Better);
      SortedBy(s, Better) && UniqueHits(s) && |s| == |hs| && forall x :: Strong(s, x) == Strong(hs, x)
  {
    hide Sort;
    var s := Sort(hs, Better);
    SortPermutes(hs, Better);
    assert TotalPreorder(Better);
    SortSorts(hs, Better);
    DistinctPermutes(hs, s, HitId);
    forall i, j | 0 <= i < j < |s|
      ensures s[i].id != s[j].id
    {
      assert HitId(s[i]) != HitId(s[j]);
    }
  }

  /** The k best of two lists have the same scores exactly when the lists have as many ids at every score, up to k. */
  lemma ScoresByCount(a: seq<Hit>, b: seq<Hit>, k: nat)
    requires UniqueHits(a) && UniqueHits(b)
    ensures SameScoreSeq(Take(Sort(a, Better), k), Take(Sort(b, Better), k)) <==> SameCounts(a, b, k)
  {
    hide Sort, Strong;
    var s, t := Sort(a, Better), Sort(b, Better);
    SortedHits(a);
    SortedHits(b);
    if SameCounts(a, b, k) {
      CountsGiveScores(s, t, k);
      CountsGiveScores(t, s, k);
    }
    if SameScoreSeq(Take(s, k), Take(t, k)) {
      forall x
        ensures |Strong(a, x)| == |Strong(b, x)| || (|Strong(a, x)| >= k && |Strong(b, x)| >= k)
      {
        ScoresGiveCounts(s, t, k, x);
        ScoresGiveCounts(t, s, k, x);
      }
    }
  }

  lemma CountsGiveScores(s: seq<Hit>, t: seq<Hit>, k: nat)
    requires SortedBy(s, Better) && UniqueHits(s) && SortedBy(t, Better) && UniqueHits(t)
    requires SameCounts(s, t, k)
    ensures |Take(s, k)| <= |Take(t, k)|
    ensures forall i | 0 <= i < |Take(s, k)| :: s[i].score <= t[i].score
  {
    hide Strong;
    forall i: nat | i < |Take(s, k)|
      ensures i < |t| && s[i].score <= t[i].score
    {
      PlaceByCount(s, i, s[i].score);
      PlaceByCount(t, i, s[i].score);
    }
    if Take(s, k) != [] {
      var last := s[|Take(s, k)| - 1];
      assert |Take(s, k)| - 1 < |t|;
    }
  }

  lemma ScoresGiveCounts(s: seq<Hit>, t: seq<Hit>, k: nat, x: int)
    requires SortedBy(s, Better) && UniqueHits(s) && SortedBy(t, Better) && UniqueHits(t)
    requires SameScoreSeq(Take(s, k), Take(t, k))
    ensures |Strong(t, x)| < k ==> |Strong(s, x)| <= |Strong(t, x)|
  {
    hide Strong;
    var i := |Strong(t, x)|;
    PlaceByCount(s, i, x);
    PlaceByCount(t, i, x);
    if i < k && i < |s| {
      assert i < |Take(s, k)| == |Take(t, k)|;
      assert Take(t, k)[i] == t[i] && Take(s, k)[i] == s[i];
    }
  }

  // --- ids in both tiers ---

  /** L0 makes up for every sealed version it has replaced: by a live one that scores at least as well. */
  predicate Outranks(m: Mem, sc: Scorer) {
    forall e | e in Flat(m.segments) && IdOf(e) in m.l0 && sc(e.1.vector).Some? :: Outranked(m, sc, e)
  }

  predicate Outranked(m: Mem, sc: Scorer, e: Numbered)
    requires IdOf(e) in m.l0 && sc(e.1.vector).Some?
  {
    var r := m.l0[IdOf(e)].1;
    r.lifecycle.Live? && sc(r.vector).Some? && sc(r.vector).value >= sc(e.1.vector).value
  }

  /** What the pools come from, tier by tier, and what the merge makes of them. */
  ghost predicate Sources(m: Mem, recent: seq<Numbered>, pools: seq<Hit>, top: seq<Hit>, merged: seq<Hit>,
                          sc: Scorer, pool: nat) {
    && UniqueIds(Flat(m.segments)) && UniqueIds(recent)
    && Covers(Elems(pools), Hits(Flat(m.segments), sc), pool)
    && Covers(Elems(top), Hits(recent, sc), pool)
    && UniqueHits(merged)
    && (forall h | h in merged :: h in pools + top)
    && (forall h | h in pools + top :: exists g :: g in merged && g.id == h.id && g.score >= h.score)
  }

  lemma AnswerSources(m: Mem, recent: seq<Numbered>, merged: seq<Hit>, sc: Scorer, pool: nat)
    requires Tiered(m) && ValuesOf(recent, LiveOnly(m.l0), IdOf)
    requires ValuesOf(merged, BestHits(Pools(m.segments, sc, pool) + Exact(recent, sc, pool)), HitId)
    ensures Sources(m, recent, Pools(m.segments, sc, pool), Exact(recent, sc, pool), merged, sc, pool)
  {
    hide Flat, Exact, Scored, TopK, LiveOnly, BestHits, Pools, Covers;
    var pools, top := Pools(m.segments, sc, pool), Exact(recent, sc, pool);
    PoolsCover(m.segments, sc, pool);
    ExactIsTopK(recent, sc, pool);
    TopKCovers(top, Hits(recent, sc), pool);
    BestHitsFiled(pools + top);
    BestHitsCount(pools + top);
    forall i, j | 0 <= i < j < |merged|
      ensures merged[i].id != merged[j].id
    {
      assert HitId(merged[i]) != HitId(merged[j]);
    }
    forall h | h in merged
      ensures h in pools + top
    {
      var i :| 0 <= i < |merged| && merged[i] == h;
      assert HitId(merged[i]) in BestHits(pools + top);
    }
  }

  lemma EntryHit(es: seq<Numbered>, sc: Scorer, e: Numbered)
    requires e in es && sc(e.1.vector).Some?
    ensures Hit(IdOf(e), sc(e.1.vector).value, e.0) in Scored(es, sc)
  {
    ScoredFrom(es, sc, Hit(IdOf(e), sc(e.1.vector).value, e.0));
    var i :| 0 <= i < |es| && es[i] == e;
  }

  lemma HitEntry(es: seq<Numbered>, sc: Scorer, h: Hit) returns (e: Numbered)
    requires h in Scored(es, sc)
    ensures e in es && sc(e.1.vector).Some? && h == Hit(IdOf(e), sc(e.1.vector).value, e.0)
  {
    ScoredFrom(es, sc, h);
    var i :| 0 <= i < |es| && sc(es[i].1.vector).Some? && h == Hit(IdOf(es[i]), sc(es[i].1.vector).value, es[i].0);
    e := es[i];
  }

  /** An entry of either tier that the merged view shows. */
  lemma ShownFrom(m: Mem, recent: seq<Numbered>, e: Numbered)
    requires Tiered(m) && ValuesOf(recent, LiveOnly(m.l0), IdOf)
    ensures e in recent ==> IdOf(e) in Merged(m) && Merged(m)[IdOf(e)] == e && m.l0[IdOf(e)] == e
    ensures IdOf(e) in m.l0 && m.l0[IdOf(e)].1.lifecycle.Live? ==>
      m.l0[IdOf(e)] in recent && IdOf(e) in Merged(m) && Merged(m)[IdOf(e)] == m.l0[IdOf(e)]
    ensures IdOf(e) in m.l0 && !m.l0[IdOf(e)].1.lifecycle.Live? ==> IdOf(e) !in Merged(m)
    ensures e in Flat(m.segments) && IdOf(e) !in m.l0 ==> IdOf(e) in Merged(m) && Merged(m)[IdOf(e)] == e
    ensures IdOf(e) in Merged(m) && Merged(m)[IdOf(e)] == e ==> e in Flat(m.segments) + recent
  {
    hide Flat, Best;
    BestUnique(Flat(m.segments));
    if e in recent { var i :| 0 <= i < |recent| && recent[i] == e; }
    if IdOf(e) in LiveOnly(m.l0) { assert LiveOnly(m.l0)[IdOf(e)] in recent; }
  }

  /** Whatever the merge holds at some score, the scan of the merged view holds too, if L0 outranks. */
  lemma MergedWithin(m: Mem, recent: seq<Numbered>, merged: seq<Hit>, es: seq<Numbered>, sc: Scorer, pool: nat,
                     pools: seq<Hit>, top: seq<Hit>, x: int)
    requires Tiered(m) && ValuesOf(recent, LiveOnly(m.l0), IdOf) && Lists(es, Merged(m)) && Outranks(m, sc)
    requires Sources(m, recent, pools, top, merged, sc, pool)
    ensures Strong(merged, x) <= Strong(Scored(es, sc), x)
  {
    hide Flat, Scored, Merged, LiveOnly, ValuesOf;
    forall id | id in Strong(merged, x)
      ensures id in Strong(Scored(es, sc), x)
    {
      var h :| h in merged && h.score >= x && h.id == id;
      var tier := if h in pools then Flat(m.segments) else recent;
      assert h in Hits(tier, sc) by { assert h in Elems(pools) || h in Elems(top); }
      var e := HitEntry(tier, sc, h);
      ShownFrom(m, recent, e);
      var f := if IdOf(e) in m.l0 then m.l0[IdOf(e)] else e;
      ShownFrom(m, recent, f);
      assert f in es;
      EntryHit(es, sc, f);
    }
  }

  /** The scan holds nothing at any score that the merge does not hold, but where the merge has enough anyway. */
  lemma ScanWithin(m: Mem, recent: seq<Numbered>, merged: seq<Hit>, es: seq<Numbered>, sc: Scorer, pool: nat,
                   pools: seq<Hit>, top: seq<Hit>, x: int)
    requires Tiered(m) && ValuesOf(recent, LiveOnly(m.l0), IdOf) && Lists(es, Merged(m))
    requires Sources(m, recent, pools, top, merged, sc, pool)
    ensures Strong(Scored(es, sc), x) <= Strong(merged, x) || |Strong(merged, x)| >= pool
  {
    hide Flat, Scored, Merged, LiveOnly, ValuesOf;
    if !(Strong(Scored(es, sc), x) <= Strong(merged, x)) {
      var id :| id in Strong(Scored(es, sc), x) && id !in Strong(merged, x);
      var h :| h in Scored(es, sc) && h.score >= x && h.id == id;
      var e := HitEntry(es, sc, h);
      ShownFrom(m, recent, e);
      var i :| 0 <= i < |es| && es[i] == e;
      var tier, part := if e in recent then recent else Flat(m.segments), if e in recent then top else pools;
      EntryHit(tier, sc, e);
      assert h in Hits(tier, sc);
      assert h in part ==> h in pools + top;
      CoveredIds(tier, sc, part, merged, pool, h, x);
    }
  }

  /** A tier that leaves a hit out contributes a pool of ids that score at least as well. */
  lemma CoveredIds(tier: seq<Numbered>, sc: Scorer, part: seq<Hit>, merged: seq<Hit>, pool: nat, h: Hit, x: int)
    requires UniqueIds(tier) && Covers(Elems(part), Hits(tier, sc), pool)
    requires forall h | h in part :: exists g :: g in merged && g.id == h.id && g.score >= h.score
    requires h in Hits(tier, sc) && h !in part && h.score >= x
    ensures |Strong(merged, x)| >= pool
  {
    hide Scored;
    var ahead := AtLeast(Elems(part), h);
    var ids := set g | g in ahead :: g.id;
    forall g, g' | g in ahead && g' in ahead && g.id == g'.id
      ensures g == g'
    {
      HitsConsistent(tier, sc, g, g');
    }
    IdCount(ahead);
    SubsetCount(ids, Strong(merged, x));
  }

  lemma {:induction false} IdCount(hs: set<Hit>)
    requires forall g, h | g in hs && h in hs && g.id == h.id :: g == h
    ensures |(set g | g in hs :: g.id)| == |hs|
    decreases |hs|
  {
    var ids := set g | g in hs :: g.id;
    if hs != {} {
      var h :| h in hs;
      IdCount(hs - {h});
      assert ids == (set g | g in hs - {h} :: g.id) + {h.id};
    }
  }

  /** Where L0 outranks what it has replaced, the search has the score sequence of the scan, in any pool. */
  lemma ScoresAgree(m: Mem, out: seq<Hit>, recent: seq<Numbered>, merged: seq<Hit>, es: seq<Numbered>,
                    sc: Scorer, k: nat, pool: nat)
    requires Tiered(m) && Outranks(m, sc) && k <= pool
    requires Answers(out, recent, merged, m.segments, m.l0, sc, k, pool) && Lists(es, Merged(m))
    ensures SameScoreSeq(out, Exact(es, sc, k))
  {
    hide Flat, Scored, Merged, LiveOnly, BestHits, Pools, Sort, Strong, Outranks, Sources, ValuesOf, Lists,
         Tiered, SameScoreSeq;
    AnswerSources(m, recent, merged, sc, pool);
    MergedUnique(m, recent, merged, es, sc, pool);
    forall x
      ensures |Strong(merged, x)| == |Strong(Scored(es, sc), x)|
        || (|Strong(merged, x)| >= k && |Strong(Scored(es, sc), x)| >= k)
    {
      MergedWithin(m, recent, merged, es, sc, pool, Pools(m.segments, sc, pool), Exact(recent, sc, pool), x);
      ScanWithin(m, recent, merged, es, sc, pool, Pools(m.segments, sc, pool), Exact(recent, sc, pool), x);
      SubsetCount(Strong(merged, x), Strong(Scored(es, sc), x));
      if Strong(Scored(es, sc), x) <= Strong(merged, x) { assert Strong(Scored(es, sc), x) == Strong(merged, x); }
    }
    ScoresByCount(merged, Scored(es, sc), k);
  }

  lemma MergedUnique(m: Mem, recent: seq<Numbered>, merged: seq<Hit>, es: seq<Numbered>, sc: Scorer, pool: nat)
    requires Sources(m, recent, Pools(m.segments, sc, pool), Exact(recent, sc, pool), merged, sc, pool)
    requires Lists(es, Merged(m))
    ensures UniqueHits(merged) && UniqueHits(Scored(es, sc))
  {
    hide Scored, Merged, Covers;
    ListedIdsDiffer(es, Merged(m));
    ScoredUnique(es, sc);
  }

  lemma MergedCount(m: Mem, recent: seq<Numbered>, merged: seq<Hit>, sc: Scorer, pool: nat)
    requires ValuesOf(merged, BestHits(Pools(m.segments, sc, pool) + Exact(recent, sc, pool)), HitId)
    ensures |merged| <= |Flat(m.segments)| + |recent|
  {
    hide Flat, Exact, Pools, BestHits;
    var all := Pools(m.segments, sc, pool) + Exact(recent, sc, pool);
    PoolsFrom(m.segments, sc, pool);
    ExactFrom(recent, sc, pool);
    BestHitsCount(all);
    ElemsCount(IdSeq(merged));
    assert forall i | 0 <= i < |merged| :: IdSeq(merged)[i] == HitId(merged[i]);
    SubsetCount(Elems(IdSeq(merged)), BestHits(all).Keys);
  }

  /** A sealed version that outscores its replacement is in the way when there is room for everything. */
  lemma ScoresDiffer(m: Mem, out: seq<Hit>, recent: seq<Numbered>, merged: seq<Hit>, es: seq<Numbered>,
                     sc: Scorer, n: nat)
    requires Tiered(m) && !Outranks(m, sc) && |Flat(m.segments)| + |recent| <= n
    requires Answers(out, recent, merged, m.segments, m.l0, sc, n, n) && Lists(es, Merged(m))
    ensures !SameScoreSeq(out, Exact(es, sc, n))
  {
    hide Flat, Scored, Merged, LiveOnly, BestHits, Pools, Sort, Strong, Sources, ValuesOf, Lists, Tiered,
         SameScoreSeq, Outranked;
    AnswerSources(m, recent, merged, sc, n);
    MergedUnique(m, recent, merged, es, sc, n);
    var e :| e in Flat(m.segments) && IdOf(e) in m.l0 && sc(e.1.vector).Some? && !Outranked(m, sc, e);
    var x := sc(e.1.vector).value;
    MergedCount(m, recent, merged, sc, n);
    StrongCount(merged, x);
    StaleCounts(m, recent, merged, es, sc, n, e);
    ScoresByCount(merged, Scored(es, sc), n);
  }

  lemma StrongCount(hs: seq<Hit>, x: int)
    ensures |Strong(hs, x)| <= |hs|
  {
    ElemsCount(IdSeq(hs));
    forall id | id in Strong(hs, x)
      ensures id in IdSeq(hs)
    {
      var h :| h in hs && h.id == id;
      var i :| 0 <= i < |hs| && hs[i] == h;
      assert IdSeq(hs)[i] == id;
    }
    SubsetCount(Strong(hs, x), Elems(IdSeq(hs)));
  }

  lemma RoomyMerge(m: Mem, recent: seq<Numbered>, merged: seq<Hit>, sc: Scorer, n: nat,
                   pools: seq<Hit>, top: seq<Hit>, e: Numbered)
    requires Sources(m, recent, pools, top, merged, sc, n) && |Flat(m.segments)| <= n
    requires e in Flat(m.segments) && sc(e.1.vector).Some?
    ensures Hit(IdOf(e), sc(e.1.vector).value, e.0) in pools
    ensures IdOf(e) in Strong(merged, sc(e.1.vector).value)
  {
    hide Flat, Scored, Covers;
    var h := Hit(IdOf(e), sc(e.1.vector).value, e.0);
    ScoredCount(Flat(m.segments), sc);
    RoomyPool(Elems(pools), Hits(Flat(m.segments), sc), n);
    EntryHit(Flat(m.segments), sc, e);
    assert h in Hits(Flat(m.segments), sc);
    assert h in Elems(pools);
    assert h in pools + top;
  }

  lemma RoomySources(m: Mem, recent: seq<Numbered>, merged: seq<Hit>, sc: Scorer, n: nat,
                     pools: seq<Hit>, top: seq<Hit>)
    requires Sources(m, recent, pools, top, merged, sc, n) && |Flat(m.segments)| <= n && |recent| <= n
    ensures Sources(m, recent, pools, top, merged, sc, n + 1)
  {
    hide Flat, Scored;
    ScoredCount(Flat(m.segments), sc);
    ScoredCount(recent, sc);
    RoomyPool(Elems(pools), Hits(Flat(m.segments), sc), n);
    RoomyPool(Elems(top), Hits(recent, sc), n);
  }

  lemma StaleCounts(m: Mem, recent: seq<Numbered>, merged: seq<Hit>, es: seq<Numbered>, sc: Scorer, n: nat, e: Numbered)
    requires Tiered(m) && ValuesOf(recent, LiveOnly(m.l0), IdOf) && Lists(es, Merged(m))
    requires Sources(m, recent, Pools(m.segments, sc, n), Exact(recent, sc, n), merged, sc, n)
    requires |Flat(m.segments)| + |recent| <= n
    requires e in Flat(m.segments) && IdOf(e) in m.l0 && sc(e.1.vector).Some? && !Outranked(m, sc, e)
    requires |Strong(merged, sc(e.1.vector).value)| <= |Flat(m.segments)| + |recent|
    ensures |Strong(merged, sc(e.1.vector).value)| > |Strong(Scored(es, sc), sc(e.1.vector).value)|
  {
    hide Flat, Scored, Merged, LiveOnly, ValuesOf, Sources, Pools, Exact, Tiered;
    var x, id := sc(e.1.vector).value, IdOf(e);
    var strong, scan := Strong(merged, x), Strong(Scored(es, sc), x);
    RoomyMerge(m, recent, merged, sc, n, Pools(m.segments, sc, n), Exact(recent, sc, n), e);
    RoomySources(m, recent, merged, sc, n, Pools(m.segments, sc, n), Exact(recent, sc, n));
    ScanWithin(m, recent, merged, es, sc, n + 1, Pools(m.segments, sc, n), Exact(recent, sc, n), x);
    if id in scan {
      var h :| h in Scored(es, sc) && h.score >= x && h.id == id;
      var f := HitEntry(es, sc, h);
      ShownFrom(m, recent, f);
    }
    SubsetCount(scan + {id}, strong);
  }

  /** With room for every entry, the search has the score sequence of the scan if and only if L0 outranks
      every sealed version it has replaced or removed. */
  lemma ScoresAgreeIff(m: Mem, out: seq<Hit>, recent: seq<Numbered>, merged: seq<Hit>, es: seq<Numbered>,
                       sc: Scorer, n: nat)
    requires Tiered(m) && |Flat(m.segments)| + |recent| <= n
    requires Answers(out, recent, merged, m.segments, m.l0, sc, n, n) && Lists(es, Merged(m))
    ensures SameScoreSeq(out, Exact(es, sc, n)) <==> Outranks(m, sc)
  {
    if Outranks(m, sc) {
      ScoresAgree(m, out, recent, merged, es, sc, n, n);
    } else {
      ScoresDiffer(m, out, recent, merged, es, sc, n);
    }
  }

  // --- valid answers ---

  /** L0 makes up for every sealed version it has replaced by a live one that scores strictly better. */
  predicate Outdone(m: Mem, sc: Scorer) {
    forall e | e in Flat(m.segments) && IdOf(e) in m.l0 && sc(e.1.vector).Some? :: Beaten(m, sc, e)
  }

  predicate Beaten(m: Mem, sc: Scorer, e: Numbered)
    requires IdOf(e) in m.l0 && sc(e.1.vector).Some?
  {
    var r := m.l0[IdOf(e)].1;
    r.lifecycle.Live? && sc(r.vector).Some? && sc(r.vector).value > sc(e.1.vector).value
  }

  lemma OutdoneOutranks(m: Mem, sc: Scorer)
    requires Outdone(m, sc)
    ensures Outranks(m, sc)
  {
    hide Flat;
    forall e | e in Flat(m.segments) && IdOf(e) in m.l0 && sc(e.1.vector).Some?
      ensures Outranked(m, sc, e)
    {
      assert Beaten(m, sc, e);
    }
  }

  /** Members of the pool with the score sequence of a k best of it are themselves a k best of it. */
  lemma SameScoresTopK(out: seq<Hit>, best: seq<Hit>, pool: set<Hit>, k: nat)
    requires TopK(best, pool, k) && SameScoreSeq(out, best) && SortedBy(out, Better) && UniqueHits(out)
    requires forall h | h in out :: h in pool
    requires forall g, h | g in pool && h in pool && g.id == h.id :: g == h
    ensures TopK(out, pool, k)
  {
    hide Strong;
    assert forall i, j | 0 <= i < j < |best| :: best[i] in best && best[j] in best;
    assert UniqueHits(best);
    forall h, o | h in pool && h !in out && o in out
      ensures Better(o, h)
    {
      if o.score < h.score {
        AboveIsTaken(out, best, pool, k, h, o);
        assert false;
      }
    }
  }

  /** A member of the pool that scores above a place of the list is in the list. */
  lemma AboveIsTaken(out: seq<Hit>, best: seq<Hit>, pool: set<Hit>, k: nat, h: Hit, o: Hit)
    requires TopK(best, pool, k) && SameScoreSeq(out, best)
    requires SortedBy(out, Better) && UniqueHits(out) && UniqueHits(best)
    requires forall h | h in out :: h in pool
    requires forall g, h | g in pool && h in pool && g.id == h.id :: g == h
    requires h in pool && o in out && o.score < h.score
    ensures h in out
  {
    var i :| 0 <= i < |out| && out[i] == o;
    assert best[i] in best && best[i].score == o.score;
    var x, n := h.score, |out|;
    assert Take(out, n) == out && Take(best, n) == best;
    ScoresGiveCounts(out, best, n, x);
    ScoresGiveCounts(best, out, n, x);
    PlaceByCount(out, n, x);
    PlaceByCount(best, n, x);
    assert forall g | g in pool && g.score >= x :: g in best by {
      assert forall g | g in pool && g !in best :: Better(best[i], g);
    }
    assert Strong(out, x) <= Strong(best, x);
    SubsetCount(Strong(out, x), Strong(best, x));
    assert h.id in Strong(best, x);
  }

  /** When the replacement of a sealed version scores strictly better, the merge drops the sealed version,
      or has a whole pool of ids that score as well as the replacement. */
  lemma BeatenIsBehind(m: Mem, recent: seq<Numbered>, merged: seq<Hit>, sc: Scorer, pool: nat,
                       pools: seq<Hit>, top: seq<Hit>, e: Numbered)
    requires Tiered(m) && ValuesOf(recent, LiveOnly(m.l0), IdOf) && Sources(m, recent, pools, top, merged, sc, pool)
    requires IdOf(e) in m.l0 && sc(e.1.vector).Some? && Beaten(m, sc, e)
    requires Hit(IdOf(e), sc(e.1.vector).value, e.0) in merged
    ensures |Strong(merged, sc(m.l0[IdOf(e)].1.vector).value)| >= pool
  {
    hide Flat, Scored, Merged, LiveOnly, ValuesOf, Covers, Strong;
    var f := m.l0[IdOf(e)];
    var g, h := Hit(IdOf(e), sc(e.1.vector).value, e.0), Hit(IdOf(f), sc(f.1.vector).value, f.0);
    ShownFrom(m, recent, f);
    ShownFrom(m, recent, e);
    EntryHit(recent, sc, f);
    forall q | q in merged && q.id == h.id
      ensures q == g
    {
      OneHitPerId(merged, q, g);
    }
    assert h in top ==> h in pools + top;
    assert h !in top;
    CoveredIds(recent, sc, top, merged, pool, h, h.score);
  }

  lemma OneHitPerId(hs: seq<Hit>, g: Hit, h: Hit)
    requires UniqueHits(hs) && g in hs && h in hs && g.id == h.id
    ensures g == h
  {
  }

  /** Where every replacement scores strictly better, an answer holds hits of the merged view only. */
  lemma AnswerWithin(m: Mem, out: seq<Hit>, recent: seq<Numbered>, merged: seq<Hit>, es: seq<Numbered>,
                     sc: Scorer, k: nat, pool: nat, g: Hit)
    requires Tiered(m) && Outdone(m, sc) && k <= pool && Lists(es, Merged(m)) && g in out
    requires Answers(out, recent, merged, m.segments, m.l0, sc, k, pool)
    ensures g in Hits(es, sc)
  {
    hide Flat, Scored, Merged, LiveOnly, BestHits, Pools, Exact, Sort, ValuesOf, Strong, Covers;
    var pools, top := Pools(m.segments, sc, pool), Exact(recent, sc, pool);
    AnswerSources(m, recent, merged, sc, pool);
    SortPermutes(merged, Better);
    var tier := if g in pools then Flat(m.segments) else recent;
    assert g in Elems(pools) || g in Elems(top);
    assert g in Hits(tier, sc) by { TiersWithin(m, recent, merged, sc, pool, pools, top); }
    var e := HitEntry(tier, sc, g);
    ShownFrom(m, recent, e);
    if e in Flat(m.segments) && IdOf(e) in m.l0 && m.l0[IdOf(e)] != e {
      assert Beaten(m, sc, e);
      BeatenIsBehind(m, recent, merged, sc, pool, pools, top, e);
      var y := sc(m.l0[IdOf(e)].1.vector).value;
      SortedHits(merged);
      var i :| 0 <= i < |out| && out[i] == g;
      PlaceByCount(Sort(merged, Better), i, y);
      assert false;
    }
    EntryHit(es, sc, e);
  }

  lemma TiersWithin(m: Mem, recent: seq<Numbered>, merged: seq<Hit>, sc: Scorer, pool: nat,
                    pools: seq<Hit>, top: seq<Hit>)
    requires Sources(m, recent, pools, top, merged, sc, pool)
    ensures Elems(pools) <= Hits(Flat(m.segments), sc) && Elems(top) <= Hits(recent, sc)
  {
    hide Flat, Scored;
  }

  /** Segmented search is the flat scan of the merged view, whatever the pools, when every sealed version that L0
      has replaced is strictly outscored by its replacement, as when no id is in both tiers. */
  lemma SearchIsOracle(m: Mem, out: seq<Hit>, recent: seq<Numbered>, merged: seq<Hit>, es: seq<Numbered>,
                       sc: Scorer, k: nat, pool: nat)
    requires Tiered(m) && Outdone(m, sc) && k <= pool
    requires Answers(out, recent, merged, m.segments, m.l0, sc, k, pool) && Lists(es, Merged(m))
    ensures TopK(out, Hits(es, sc), k)
    ensures SameScoreSeq(out, Exact(es, sc, k))
  {
    hide Flat, Scored, Merged, LiveOnly, BestHits, Pools, Exact, Sort, Sources, ValuesOf, Lists, Strong, TopK,
         SameScoreSeq, Outdone, Outranks, Tiered;
    OutdoneOutranks(m, sc);
    ScoresAgree(m, out, recent, merged, es, sc, k, pool);
    AnswerSources(m, recent, merged, sc, pool);
    SortedAnswer(m, out, recent, merged, sc, k, pool);
    forall g | g in out
      ensures g in Hits(es, sc)
    {
      AnswerWithin(m, out, recent, merged, es, sc, k, pool, g);
    }
    ListedIdsDiffer(es, Merged(m));
    ExactIsTopK(es, sc, k);
    forall g: Hit, h: Hit | g in Hits(es, sc) && h in Hits(es, sc) && g.id == h.id
      ensures g == h
    {
      HitsConsistent(es, sc, g, h);
    }
    SameScoresTopK(out, Exact(es, sc, k), Hits(es, sc), k);
  }

  lemma SortedAnswer(m: Mem, out: seq<Hit>, recent: seq<Numbered>, merged: seq<Hit>, sc: Scorer, k: nat, pool: nat)
    requires Answers(out, recent, merged, m.segments, m.l0, sc, k, pool)
    requires Sources(m, recent, Pools(m.segments, sc, pool), Exact(recent, sc, pool), merged, sc, pool)
    ensures SortedBy(out, Better) && UniqueHits(out)
  {
    hide Flat, Scored, LiveOnly, BestHits, Pools, Exact, Sort, ValuesOf, Covers;
    SortedHits(merged);
  }

  /** A sealed version that its replacement does not strictly outscore is in every answer with room for every
      entry, though the scan of the merged view does not know it. */
  lemma SearchGoesStale(m: Mem, e: Numbered, es: seq<Numbered>, out: seq<Hit>, recent: seq<Numbered>,
                        merged: seq<Hit>, sc: Scorer, n: nat)
    requires Tiered(m) && e in Flat(m.segments) && IdOf(e) in m.l0 && sc(e.1.vector).Some? && !Beaten(m, sc, e)
    requires Lists(es, Merged(m)) && |Flat(m.segments)| + |recent| <= n
    requires Answers(out, recent, merged, m.segments, m.l0, sc, n, n)
    ensures var h := Hit(IdOf(e), sc(e.1.vector).value, e.0); h in out && h !in Hits(es, sc)
  {
    hide Flat, Best, Scored, BestHits, Pools, Sort, Exact, Merged, LiveOnly, Sources;
    var h := Hit(IdOf(e), sc(e.1.vector).value, e.0);
    var pools, top := Pools(m.segments, sc, n), Exact(recent, sc, n);
    AnswerSources(m, recent, merged, sc, n);
    RoomyMerge(m, recent, merged, sc, n, pools, top, e);
    SealedKept(m, pools, top, recent, merged, sc, n, e);
    MergedCount(m, recent, merged, sc, n);
    SortPermutes(merged, Better);
    assert BestHits(pools + top)[h.id] in merged;
    if h in Hits(es, sc) {
      var f := HitEntry(es, sc, h);
      StaleIsNotMerged(m, e, f);
    }
  }

  lemma SealedKept(m: Mem, pools: seq<Hit>, top: seq<Hit>, recent: seq<Numbered>, merged: seq<Hit>, sc: Scorer,
                   n: nat, e: Numbered)
    requires Tiered(m) && ValuesOf(recent, LiveOnly(m.l0), IdOf) && Sources(m, recent, pools, top, merged, sc, n)
    requires IdOf(e) in m.l0 && sc(e.1.vector).Some? && !Beaten(m, sc, e)
    requires Hit(IdOf(e), sc(e.1.vector).value, e.0) in pools
    ensures var h := Hit(IdOf(e), sc(e.1.vector).value, e.0);
      h.id in BestHits(pools + top) && BestHits(pools + top)[h.id] == h
  {
    hide Flat, Scored, BestHits, LiveOnly, ValuesOf, Merged;
    var h := Hit(IdOf(e), sc(e.1.vector).value, e.0);
    TiersWithin(m, recent, merged, sc, n, pools, top);
    forall g, g' | g in pools && g' in pools && g.id == g'.id
      ensures g == g'
    {
      assert g in Elems(pools) && g' in Elems(pools);
      HitsConsistent(Flat(m.segments), sc, g, g');
    }
    BestHitsAll(pools);
    forall g | g in top && g.id == h.id
      ensures g.score <= h.score
    {
      assert g in Elems(top);
      var f := HitEntry(recent, sc, g);
      ShownFrom(m, recent, f);
    }
    BestHitsKept(pools, top, h);
  }

  /** With room for every entry, the answer is a k best of the merged view if and only if every scorable sealed
      version that L0 has replaced or removed is strictly outscored by a live replacement. */
  lemma SearchIsOracleIff(m: Mem, out: seq<Hit>, recent: seq<Numbered>, merged: seq<Hit>, es: seq<Numbered>,
                          sc: Scorer, n: nat)
    requires Tiered(m) && |Flat(m.segments)| + |recent| <= n
    requires Answers(out, recent, merged, m.segments, m.l0, sc, n, n) && Lists(es, Merged(m))
    ensures TopK(out, Hits(es, sc), n) <==> Outdone(m, sc)
  {
    hide Flat, Scored, Merged, BestHits, Pools, Exact, Sort, Lists, Answers, Tiered;
    if Outdone(m, sc) {
      SearchIsOracle(m, out, recent, merged, es, sc, n, n);
    } else {
      var e :| e in Flat(m.segments) && IdOf(e) in m.l0 && sc(e.1.vector).Some? && !Beaten(m, sc, e);
      SearchGoesStale(m, e, es, out, recent, merged, sc, n);
    }
  }

  /** A query that scores every vector alike, as a zero query does under the dot product, is enough: any id in
      both tiers makes the answer wrong. */
  lemma LevelQueryGoesStale(m: Mem, e: Numbered, es: seq<Numbered>, out: seq<Hit>, recent: seq<Numbered>,
                            merged: seq<Hit>, n: nat)
    requires Tiered(m) && e in Flat(m.segments) && IdOf(e) in m.l0
    requires Lists(es, Merged(m)) && |Flat(m.segments)| + |recent| <= n
    requires Answers(out, recent, merged, m.segments, m.l0, Level(), n, n)
    ensures !TopK(out, Hits(es, Level()), n)
  {
    hide Flat, Scored, Merged, BestHits, Pools, Exact, Sort, Lists, Answers, Tiered, TopK;
    SearchIsOracleIff(m, out, recent, merged, es, Level(), n);
    assert !Beaten(m, Level(), e);
  }

  /** The merged view has the newer of the two versions, or nothing. */
  lemma StaleIsNotMerged(m: Mem, e: Numbered, f: Numbered)
    requires Tiered(m) && e in Flat(m.segments) && IdOf(e) in m.l0 && IdOf(f) == IdOf(e)
    requires IdOf(f) in Merged(m) && Merged(m)[IdOf(f)] == f
    ensures f.0 > e.0
  {
    hide Flat, Best;
    BestUnique(Flat(m.segments));
  }
}
