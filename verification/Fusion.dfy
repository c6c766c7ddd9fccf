/** Reciprocal rank fusion in exact arithmetic. */
module Fusion {
  import opened Wrappers
  import opened Bytes
  import opened Records
  import opened Sorting

  datatype Hit = Hit(id: ExternalId, score: real, sn: nat)

  function HitId(h: Hit): ExternalId { h.id }

  type Ids = seq<ExternalId>

  // --- the order of ids: integers before strings, strings bytewise ---

  predicate BytesLe(a: seq<byte>, b: seq<byte>) {
    a == [] || (b != [] && (a[0] < b[0] || (a[0] == b[0] && BytesLe(a[1..], b[1..]))))
  }

  predicate IdLe(a: ExternalId, b: ExternalId) {
    match (a, b)
    case (Int(x), Int(y)) => x <= y
    case (Int(_), Str(_)) => true
    case (Str(_), Int(_)) => false
    case (Str(s), Str(t)) => BytesLe(s, t)
  }

  lemma {:induction false} BytesTotal(a: seq<byte>, b: seq<byte>)
    ensures BytesLe(a, b) || BytesLe(b, a)
    ensures BytesLe(a, b) && BytesLe(b, a) ==> a == b
  {
    if a != [] && b != [] && a[0] == b[0] {
      BytesTotal(a[1..], b[1..]);
      assert a == [a[0]] + a[1..] && b == [b[0]] + b[1..];
    }
  }

  lemma {:induction false} BytesTransitive(a: seq<byte>, b: seq<byte>, c: seq<byte>)
    requires BytesLe(a, b) && BytesLe(b, c)
    ensures BytesLe(a, c)
  {
    if a != [] && b != [] && c != [] && a[0] == b[0] == c[0] { BytesTransitive(a[1..], b[1..], c[1..]); }
  }

  lemma IdTotal(a: ExternalId, b: ExternalId)
    ensures IdLe(a, b) || IdLe(b, a)
    ensures IdLe(a, b) && IdLe(b, a) ==> a == b
  {
    hide BytesLe;
    if a.Str? && b.Str? { BytesTotal(a.s, b.s); }
  }

  lemma IdTransitive(a: ExternalId, b: ExternalId, c: ExternalId)
    requires IdLe(a, b) && IdLe(b, c)
    ensures IdLe(a, c)
  {
    hide BytesLe;
    if a.Str? && b.Str? && c.Str? { BytesTransitive(a.s, b.s, c.s); }
  }

  /** The strings differ first at i, and there the first one is lower. */
  predicate FirstDifference(s: seq<byte>, t: seq<byte>, i: nat) {
    i < |s| && i < |t| && s[i] < t[i] && forall j | 0 <= j < i :: s[j] == t[j]
  }

  lemma {:induction false} BytesOrder(s: seq<byte>, t: seq<byte>)
    ensures BytesLe(s, t) <==> s <= t || exists i: nat :: FirstDifference(s, t, i)
  {
    if s != [] && t != [] {
      BytesOrder(s[1..], t[1..]);
      if s[0] < t[0] { assert FirstDifference(s, t, 0); }
      if s[0] == t[0] { SameFirst(s, t); }
    }
  }

  lemma SameFirst(s: seq<byte>, t: seq<byte>)
    requires s != [] && t != [] && s[0] == t[0]
    ensures s[1..] <= t[1..] <==> s <= t
    ensures (exists i: nat :: FirstDifference(s[1..], t[1..], i)) <==> exists i: nat :: FirstDifference(s, t, i)
  {
    assert s == [s[0]] + s[1..] && t == [t[0]] + t[1..];
    if i: nat :| FirstDifference(s[1..], t[1..], i) { assert FirstDifference(s, t, i + 1); }
    if i: nat :| FirstDifference(s, t, i) { assert FirstDifference(s[1..], t[1..], i - 1); }
  }

  /** Integers in their order, then strings in theirs. */
  lemma IdOrder(a: ExternalId, b: ExternalId)
    ensures IdLe(a, b) <==>
      || (a.Int? && b.Int? && a.v <= b.v)
      || (a.Int? && b.Str?)
      || (a.Str? && b.Str? && (a.s <= b.s || exists k: nat :: FirstDifference(a.s, b.s, k)))
  {
    hide BytesLe;
    if a.Str? && b.Str? { BytesOrder(a.s, b.s); }
  }

  /** Higher score first, smaller id first among equals. */
  predicate Precedes(a: Hit, b: Hit) { a.score > b.score || (a.score == b.score && IdLe(a.id, b.id)) }

  lemma PrecedesTotal()
    ensures TotalPreorder(Precedes)
  {
    hide IdLe;
    forall a: Hit, b: Hit
      ensures Precedes(a, b) || Precedes(b, a)
    {
      IdTotal(a.id, b.id);
    }
    forall a: Hit, b: Hit, c: Hit | Precedes(a, b) && Precedes(b, c)
      ensures Precedes(a, c)
    {
      if IdLe(a.id, b.id) && IdLe(b.id, c.id) { IdTransitive(a.id, b.id, c.id); }
    }
  }

  // --- what fusion computes ---

  function Gain(c: nat, rank: nat): (g: real)
    ensures g > 0.0
  {
    1.0 / (c as real + rank as real + 1.0)
  }

  /** What one ranked list gives an id: the gain of every rank it stands at. */
  function PathScore(path: Ids, id: ExternalId, c: nat): real {
    if path == [] then 0.0 else
    PathScore(path[..|path| - 1], id, c) + if path[|path| - 1] == id then Gain(c, |path| - 1) else 0.0
  }

  function FusedScore(paths: seq<Ids>, id: ExternalId, c: nat): real {
    if paths == [] then 0.0 else
    FusedScore(paths[..|paths| - 1], id, c) + PathScore(paths[|paths| - 1], id, c)
  }

  function Members(paths: seq<Ids>): set<ExternalId> {
    set i, j | 0 <= i < |paths| && 0 <= j < |paths[i]| :: paths[i][j]
  }

  function Names(path: seq<Hit>): Ids { seq(|path|, i requires 0 <= i < |path| => path[i].id) }

  function AllNames(paths: seq<seq<Hit>>): seq<Ids> {
    seq(|paths|, i requires 0 <= i < |paths| => Names(paths[i]))
  }

  /** The k best of all ids in the lists by fused score, ties by id. */
  ghost predicate Fuses(out: seq<Hit>, paths: seq<Ids>, k: nat, c: nat) {
    && SortedBy(out, Precedes)
    && (forall i, j | 0 <= i < j < |out| :: out[i].id != out[j].id)
    && (forall i | 0 <= i < |out| :: out[i].id in Members(paths) && out[i].score == FusedScore(paths, out[i].id, c))
    && |out| == (if k < |Members(paths)| then k else |Members(paths)|)
    && (forall id, o | id in Members(paths) && o in out && (forall p | p in out :: p.id != id) ::
          Precedes(o, Hit(id, FusedScore(paths, id, c), 0)))
  }

  /** The sequence number an id has where it first occurs. */
  function FirstIn(path: seq<Hit>, id: ExternalId): Option<nat> {
    if path == [] then None else
    var first, last := FirstIn(path[..|path| - 1], id), path[|path| - 1];
    if first.None? && last.id == id then Some(last.sn) else first
  }

  function FirstSn(paths: seq<seq<Hit>>, id: ExternalId): Option<nat> {
    if paths == [] then None else
    var first := FirstSn(paths[..|paths| - 1], id);
    if first.None? then FirstIn(paths[|paths| - 1], id) else first
  }

  function Held<V>(m: map<ExternalId, V>, id: ExternalId): Option<V> {
    if id in m then Some(m[id]) else None
  }

  function ValueOr<V>(o: Option<V>, v: V): V { if o.Some? then o.value else v }

  function HitIds(hits: seq<Hit>): set<ExternalId> { set h | h in hits :: h.id }

  lemma HitIdsAppend(hits: seq<Hit>, h: Hit)
    ensures HitIds(hits + [h]) == HitIds(hits) + {h.id}
  {
    forall g | g in hits
      ensures g.id in HitIds(hits + [h])
    {
      assert g in hits + [h];
    }
    assert h in hits + [h];
  }

  // --- the method ---

  method RrfFuse(paths: seq<seq<Hit>>, k: nat, c: nat) returns (out: seq<Hit>)
    ensures Fuses(out, AllNames(paths), k, c)
    ensures forall i | 0 <= i < |out| :: FirstSn(paths, out[i].id) == Some(out[i].sn)
  {
    hide Sort, Fuses, FusedScore, FirstSn, Members;
    if k == 0 {
      FusesNone(AllNames(paths), c);
      return [];
    }
    var fused := Accumulate(paths, c);
    var seqs := FirstSeqs(paths);
    var hits: seq<Hit> := [];
    var todo := fused.Keys;
    while todo != {}
      invariant todo <= fused.Keys
      invariant forall i, j | 0 <= i < j < |hits| :: hits[i].id != hits[j].id
      invariant HitIds(hits) == fused.Keys - todo
      invariant forall h | h in hits :: h.id in fused && h.score == fused[h.id]
      invariant forall h | h in hits :: h.sn == ValueOr(Held(seqs, h.id), 0)
    {
      var id :| id in todo;
      assert forall h | h in hits :: h.id in HitIds(hits);
      HitIdsAppend(hits, Hit(id, fused[id], ValueOr(Held(seqs, id), 0)));
      hits := hits + [Hit(id, fused[id], ValueOr(Held(seqs, id), 0))];
      todo := todo - {id};
    }
    out := Take(Sort(hits, Precedes), k);
    FusesSorted(hits, AllNames(paths), k, c);
    SortPermutes(hits, Precedes);
    forall i | 0 <= i < |out|
      ensures FirstSn(paths, out[i].id) == Some(out[i].sn)
    {
      assert out[i] in Sort(hits, Precedes);
      assert out[i].id in HitIds(hits);
      MemberFirst(paths, out[i].id);
    }
  }

  /** The fused score of every id that occurs. */
  method Accumulate(paths: seq<seq<Hit>>, c: nat) returns (fused: map<ExternalId, real>)
    ensures fused.Keys == Members(AllNames(paths))
    ensures forall id | id in fused :: fused[id] == FusedScore(AllNames(paths), id, c)
  {
    hide FusedScore, PathScore, Gain, Members;
    fused := map[];
    ghost var names := AllNames(paths);
    NothingFused(c);
    assert names[..0] == [];
    for i := 0 to |paths|
      invariant fused.Keys == Members(names[..i])
      invariant forall id :: ValueOr(Held(fused, id), 0.0) == FusedScore(names[..i], id, c)
    {
      var path := paths[i];
      assert names[i] == Names(path) && names[i][..0] == [];
      for j := 0 to |path|
        invariant fused.Keys == Members(names[..i]) + Members([names[i][..j]])
        invariant forall id ::
          ValueOr(Held(fused, id), 0.0) == FusedScore(names[..i], id, c) + PathScore(names[i][..j], id, c)
      {
        var id := path[j].id;
        assert names[i][j] == id;
        PathGrows(names[i], j, c);
        fused := fused[id := (if id in fused then fused[id] else 0.0) + Gain(c, j)];
      }
      assert names[i][..|path|] == names[i];
      FusedGrows(names, i, c);
    }
    assert names[..|paths|] == names;
  }

  method FirstSeqs(paths: seq<seq<Hit>>) returns (seqs: map<ExternalId, nat>)
    ensures forall id :: Held(seqs, id) == FirstSn(paths, id)
  {
    seqs := map[];
    assert paths[..0] == [];
    for i := 0 to |paths|
      invariant forall id :: Held(seqs, id) == FirstSn(paths[..i], id)
    {
      var path := paths[i];
      assert path[..0] == [];
      for j := 0 to |path|
        invariant forall id ::
          Held(seqs, id) == if FirstSn(paths[..i], id).Some? then FirstSn(paths[..i], id) else FirstIn(path[..j], id)
      {
        assert path[..j + 1][..j] == path[..j];
        if path[j].id !in seqs {
          seqs := seqs[path[j].id := path[j].sn];
        }
      }
      assert path[..|path|] == path && paths[..i + 1][..i] == paths[..i];
    }
    assert paths[..|paths|] == paths;
  }

  lemma NothingFused(c: nat)
    ensures Members([]) == {} && Members([[]]) == {}
    ensures forall id :: FusedScore([], id, c) == 0.0 && PathScore([], id, c) == 0.0
  {
  }

  lemma PathGrows(path: Ids, j: nat, c: nat)
    requires j < |path|
    ensures Members([path[..j + 1]]) == Members([path[..j]]) + {path[j]}
    ensures forall id ::
      PathScore(path[..j + 1], id, c) == PathScore(path[..j], id, c) + if path[j] == id then Gain(c, j) else 0.0
  {
    hide Gain;
    assert path[..j + 1][..j] == path[..j];
    forall id
      ensures id in Members([path[..j + 1]]) <==> id in Members([path[..j]]) + {path[j]}
    {
      MembersOne(path[..j + 1], id);
      MembersOne(path[..j], id);
      assert path[..j + 1] == path[..j] + [path[j]];
    }
  }

  lemma MembersOne(path: Ids, id: ExternalId)
    ensures id in Members([path]) <==> id in path
  {
    if id in path {
      var j :| 0 <= j < |path| && path[j] == id;
      assert [path][0][j] == id;
    }
  }

  lemma FusedGrows(paths: seq<Ids>, i: nat, c: nat)
    requires i < |paths|
    ensures Members(paths[..i + 1]) == Members(paths[..i]) + Members([paths[i]])
    ensures forall id :: FusedScore(paths[..i + 1], id, c) == FusedScore(paths[..i], id, c) + PathScore(paths[i], id, c)
  {
    hide PathScore;
    assert paths[..i + 1][..i] == paths[..i];
    MembersSplit(paths, i);
  }

  lemma MembersSplit(paths: seq<Ids>, i: nat)
    requires i < |paths|
    ensures Members(paths[..i + 1]) == Members(paths[..i]) + Members([paths[i]])
  {
    forall id
      ensures id in Members(paths[..i + 1]) <==> id in Members(paths[..i]) + Members([paths[i]])
    {
      MembersOne(paths[i], id);
      if id in Members(paths[..i + 1]) {
        var p, j :| 0 <= p < i + 1 && 0 <= j < |paths[..i + 1][p]| && paths[..i + 1][p][j] == id;
        if p < i { assert paths[..i][p][j] == id; } else { assert paths[i][j] == id; }
      }
      if id in Members(paths[..i]) {
        var p, j :| 0 <= p < i && 0 <= j < |paths[..i][p]| && paths[..i][p][j] == id;
        assert paths[..i + 1][p][j] == id;
      }
      if id in paths[i] {
        var j :| 0 <= j < |paths[i]| && paths[i][j] == id;
        assert paths[..i + 1][i][j] == id;
      }
    }
  }

  lemma {:induction false} MemberFirstIn(path: seq<Hit>, id: ExternalId)
    requires id in Names(path)
    ensures FirstIn(path, id).Some?
  {
    var n := |path| - 1;
    if id != path[n].id {
      var j :| 0 <= j < |path| && Names(path)[j] == id;
      assert Names(path[..n])[j] == id;
      MemberFirstIn(path[..n], id);
    }
  }

  lemma {:induction false} MemberFirst(paths: seq<seq<Hit>>, id: ExternalId)
    requires id in Members(AllNames(paths))
    ensures FirstSn(paths, id).Some?
  {
    hide FirstIn;
    var names, n := AllNames(paths), |paths| - 1;
    MembersSplit(names, n);
    assert names[..n + 1] == names && names[..n] == AllNames(paths[..n]);
    if id in Members(names[..n]) {
      MemberFirst(paths[..n], id);
    } else {
      MembersOne(names[n], id);
      MemberFirstIn(paths[n], id);
    }
  }

  lemma {:induction false} FirstInAt(path: seq<Hit>, id: ExternalId, r: nat)
    requires r < |path| && path[r].id == id && forall j | 0 <= j < r :: path[j].id != id
    ensures FirstIn(path, id) == Some(path[r].sn)
    decreases |path|
  {
    var k := |path| - 1;
    if r < k { FirstInAt(path[..k], id, r); } else { NotIn(path[..k], id); }
  }

  lemma {:induction false} NotIn(path: seq<Hit>, id: ExternalId)
    requires forall j | 0 <= j < |path| :: path[j].id != id
    ensures FirstIn(path, id) == None
    decreases |path|
  {
    if path != [] { NotIn(path[..|path| - 1], id); }
  }

  lemma {:induction false} NotInAny(paths: seq<seq<Hit>>, id: ExternalId)
    requires forall i, j | 0 <= i < |paths| && 0 <= j < |paths[i]| :: paths[i][j].id != id
    ensures FirstSn(paths, id) == None
    decreases |paths|
  {
    if paths != [] {
      NotInAny(paths[..|paths| - 1], id);
      NotIn(paths[|paths| - 1], id);
    }
  }

  /** The number an id keeps is the one it has where it stands first, in the first list that holds it. */
  lemma {:induction false} FirstOccurrence(paths: seq<seq<Hit>>, id: ExternalId, i: nat, r: nat)
    requires i < |paths| && r < |paths[i]| && paths[i][r].id == id
    requires forall j | 0 <= j < r :: paths[i][j].id != id
    requires forall h, j | 0 <= h < i && 0 <= j < |paths[h]| :: paths[h][j].id != id
    ensures FirstSn(paths, id) == Some(paths[i][r].sn)
    decreases |paths|
  {
    hide FirstIn;
    var k := |paths| - 1;
    if i < k {
      FirstOccurrence(paths[..k], id, i, r);
    } else {
      NotInAny(paths[..k], id);
      FirstInAt(paths[k], id, r);
    }
  }

  lemma FusesNone(paths: seq<Ids>, c: nat)
    ensures Fuses([], paths, 0, c)
  {
    hide Members, FusedScore, Precedes;
  }

  /** One hit per id, sorted and cut, is the fusion. */
  lemma FusesSorted(hits: seq<Hit>, paths: seq<Ids>, k: nat, c: nat)
    requires forall i, j | 0 <= i < j < |hits| :: hits[i].id != hits[j].id
    requires forall h | h in hits :: h.score == FusedScore(paths, h.id, c)
    requires HitIds(hits) == Members(paths)
    ensures Fuses(Take(Sort(hits, Precedes), k), paths, k, c)
  {
    hide Sort, Members, FusedScore, Precedes;
    var s := Sort(hits, Precedes);
    SortPermutes(hits, Precedes);
    PrecedesTotal();
    SortSorts(hits, Precedes);
    DistinctPermutes(hits, s, HitId);
    assert forall i, j | 0 <= i < j < |s| :: HitId(s[i]) != HitId(s[j]);
    IdCount(hits);
    var out := Take(s, k);
    forall i | 0 <= i < |out|
      ensures out[i].id in Members(paths) && out[i].score == FusedScore(paths, out[i].id, c)
    {
      assert s[i] in hits && s[i].id in HitIds(hits);
    }
    forall id, o | id in Members(paths) && o in out && forall p | p in out :: p.id != id
      ensures Precedes(o, Hit(id, FusedScore(paths, id, c), 0))
    {
      var h :| h in hits && h.id == id;
      LeftOut(s, k, o, h);
      SnIgnored(o, h, 0);
    }
  }

  lemma LeftOut(s: seq<Hit>, k: nat, o: Hit, h: Hit)
    requires SortedBy(s, Precedes) && o in Take(s, k) && h in s && h !in Take(s, k)
    ensures Precedes(o, h)
  {
    hide Precedes;
    var out := Take(s, k);
    assert forall j | 0 <= j < |out| :: s[j] in out;
    var j :| 0 <= j < |s| && s[j] == h;
    var l :| 0 <= l < |out| && out[l] == o;
    assert s[l] == o;
  }

  lemma SnIgnored(a: Hit, b: Hit, n: nat)
    ensures Precedes(a, b) <==> Precedes(a, Hit(b.id, b.score, n))
  {
  }

  /** What a fused ranking is in scores: higher ones first, among equal ones the lower id, and nothing left out
      that should come before anything returned. */
  lemma RankedByScore(out: seq<Hit>, paths: seq<Ids>, k: nat, c: nat)
    requires Fuses(out, paths, k, c)
    ensures forall i, j | 0 <= i < j < |out| ::
      out[i].score > out[j].score || (out[i].score == out[j].score && IdLe(out[i].id, out[j].id))
    ensures forall id, o | id in Members(paths) && o in out && (forall p | p in out :: p.id != id) ::
      o.score > FusedScore(paths, id, c) || (o.score == FusedScore(paths, id, c) && IdLe(o.id, id))
  {
    hide Members, FusedScore, IdLe;
    assert forall i, j | 0 <= i < j < |out| :: Precedes(out[i], out[j]);
    forall id, o | id in Members(paths) && o in out && (forall p | p in out :: p.id != id)
      ensures o.score > FusedScore(paths, id, c) || (o.score == FusedScore(paths, id, c) && IdLe(o.id, id))
    {
      assert Precedes(o, Hit(id, FusedScore(paths, id, c), 0));
    }
  }

  lemma {:induction false} IdCount(hits: seq<Hit>)
    requires forall i, j | 0 <= i < j < |hits| :: hits[i].id != hits[j].id
    ensures |HitIds(hits)| == |hits|
  {
    hide HitIds;
    if hits == [] {
      NoIds();
    } else {
      var k := |hits| - 1;
      IdCount(hits[..k]);
      HitIdsAppend(hits[..k], hits[k]);
      assert hits == hits[..k] + [hits[k]];
      NewId(hits[..k], hits[k]);
    }
  }

  lemma NoIds()
    ensures HitIds([]) == {}
  {
  }

  lemma NewId(front: seq<Hit>, h: Hit)
    requires forall i | 0 <= i < |front| :: front[i].id != h.id
    ensures h.id !in HitIds(front)
  {
  }

  // --- laws ---

  /** The answer is determined: two fusions of lists with the same ids and scores agree place by place. */
  lemma {:induction false} FusionUnique(a: seq<Hit>, b: seq<Hit>, p: seq<Ids>, q: seq<Ids>, k: nat, c: nat, n: nat)
    requires Fuses(a, p, k, c) && Fuses(b, q, k, c) && n <= |a|
    requires Members(p) == Members(q) && forall id :: FusedScore(p, id, c) == FusedScore(q, id, c)
    ensures |a| == |b|
    ensures forall i | 0 <= i < n :: a[i].id == b[i].id && a[i].score == b[i].score
    decreases n
  {
    hide Members, FusedScore, Precedes;
    if n > 0 {
      FusionUnique(a, b, p, q, k, c, n - 1);
      NextNotAfter(a, b, p, q, k, c, n - 1);
      NextNotAfter(b, a, q, p, k, c, n - 1);
      SamePlace(a[n - 1], b[n - 1]);
    }
  }

  lemma SamePlace(a: Hit, b: Hit)
    requires Precedes(a, b) && Precedes(b, a)
    ensures a.id == b.id
  {
    hide IdLe;
    IdTotal(a.id, b.id);
  }

  lemma NextNotAfter(a: seq<Hit>, b: seq<Hit>, p: seq<Ids>, q: seq<Ids>, k: nat, c: nat, n: nat)
    requires Fuses(a, p, k, c) && Fuses(b, q, k, c) && n < |a| == |b|
    requires Members(p) == Members(q) && forall id :: FusedScore(p, id, c) == FusedScore(q, id, c)
    requires forall i | 0 <= i < n :: a[i].id == b[i].id
    ensures Precedes(a[n], b[n])
  {
    hide Members, FusedScore, Precedes;
    var h := b[n];
    SnIgnored(a[n], h, 0);
    assert forall i | 0 <= i < n :: a[i].id == b[i].id != h.id;
    if exists g :: g in a && g.id == h.id {
      var j :| 0 <= j < |a| && a[j].id == h.id;
      if j == n { Reflexive(a[n], h); } else { assert Precedes(a[n], a[j]); SameRank(a[n], a[j], h); }
    } else {
      assert a[n] in a;
    }
  }

  lemma Reflexive(a: Hit, b: Hit)
    requires a.id == b.id && a.score == b.score
    ensures Precedes(a, b)
  {
    hide IdLe;
    IdTotal(a.id, b.id);
  }

  lemma SameRank(o: Hit, a: Hit, b: Hit)
    requires Precedes(o, a) && a.id == b.id && a.score == b.score
    ensures Precedes(o, b)
  {
  }

  /** The scores and the set of ids do not depend on the order of the lists. */
  lemma {:induction false} ScoreUnordered(p: seq<Ids>, q: seq<Ids>, id: ExternalId, c: nat)
    requires multiset(p) == multiset(q)
    ensures FusedScore(p, id, c) == FusedScore(q, id, c)
    decreases |p|
  {
    hide PathScore;
    assert |p| == |multiset(p)| == |multiset(q)| == |q|;
    if p != [] {
      var k, last := |p| - 1, p[|p| - 1];
      assert last in multiset(p);
      assert last in q;
      var j :| 0 <= j < |q| && q[j] == last;
      var rest := q[..j] + q[j + 1..];
      RemoveSame(p, q, j);
      assert q == q[..j] + [last] + q[j + 1..];
      ScoreUnordered(p[..k], rest, id, c);
      ScoreConcat(q[..j], q[j + 1..], id, c);
      ScoreConcat(q[..j] + [last], q[j + 1..], id, c);
      assert (q[..j] + [last])[..j] == q[..j];
    }
  }

  lemma RemoveSame(p: seq<Ids>, q: seq<Ids>, j: nat)
    requires p != [] && j < |q| && q[j] == p[|p| - 1] && multiset(p) == multiset(q)
    ensures multiset(p[..|p| - 1]) == multiset(q[..j] + q[j + 1..])
  {
    var k := |p| - 1;
    assert p == p[..k] + [p[k]];
    assert q == q[..j] + [q[j]] + q[j + 1..];
    assert multiset(p) == multiset(p[..k]) + multiset{p[k]};
    assert multiset(q) == multiset(q[..j] + q[j + 1..]) + multiset{q[j]};
    Cancel(multiset(p[..k]), multiset(q[..j] + q[j + 1..]), p[k]);
  }

  lemma Cancel(a: multiset<Ids>, b: multiset<Ids>, x: Ids)
    requires a + multiset{x} == b + multiset{x}
    ensures a == b
  {
    forall y
      ensures a[y] == b[y]
    {
      assert (a + multiset{x})[y] == (b + multiset{x})[y];
    }
  }

  lemma {:induction false} ScoreConcat(p: seq<Ids>, q: seq<Ids>, id: ExternalId, c: nat)
    ensures FusedScore(p + q, id, c) == FusedScore(p, id, c) + FusedScore(q, id, c)
    decreases |q|
  {
    hide PathScore;
    if q == [] {
      assert p + q == p;
    } else {
      assert (p + q)[..|p + q| - 1] == p + q[..|q| - 1];
      ScoreConcat(p, q[..|q| - 1], id, c);
    }
  }

  lemma MembersUnordered(p: seq<Ids>, q: seq<Ids>)
    requires multiset(p) == multiset(q)
    ensures Members(p) <= Members(q)
  {
    forall id | id in Members(p)
      ensures id in Members(q)
    {
      var i, j :| 0 <= i < |p| && 0 <= j < |p[i]| && p[i][j] == id;
      assert p[i] in multiset(p);
      assert p[i] in q;
      var l :| 0 <= l < |q| && q[l] == p[i];
      assert q[l][j] == id;
    }
  }

  /** Fusion is by rank alone: neither the order of the paths nor any input score changes the ranking. */
  lemma FusionIsByRank(paths: seq<seq<Hit>>, others: seq<seq<Hit>>, a: seq<Hit>, b: seq<Hit>, k: nat, c: nat)
    requires multiset(AllNames(paths)) == multiset(AllNames(others))
    requires Fuses(a, AllNames(paths), k, c) && Fuses(b, AllNames(others), k, c)
    ensures |a| == |b| && forall i | 0 <= i < |a| :: a[i].id == b[i].id && a[i].score == b[i].score
  {
    hide Fuses, FusedScore, Members;
    var p, q := AllNames(paths), AllNames(others);
    MembersUnordered(p, q);
    MembersUnordered(q, p);
    forall id
      ensures FusedScore(p, id, c) == FusedScore(q, id, c)
    {
      ScoreUnordered(p, q, id, c);
    }
    FusionUnique(a, b, p, q, k, c, |a|);
  }

  /** In every list that holds y, x stands at y's place or before it. */
  ghost predicate Dominates(paths: seq<Ids>, x: ExternalId, y: ExternalId) {
    forall i, r | 0 <= i < |paths| && 0 <= r < |paths[i]| && paths[i][r] == y ::
      exists s | 0 <= s <= r :: paths[i][s] == x
  }

  predicate AtMostOnce(path: Ids, y: ExternalId) {
    forall r, s | 0 <= r < s < |path| :: !(path[r] == y && path[s] == y)
  }

  lemma {:induction false} PathScoreAtLeast(path: Ids, x: ExternalId, c: nat)
    ensures PathScore(path, x, c) >= 0.0
    ensures forall s | 0 <= s < |path| && path[s] == x :: PathScore(path, x, c) >= Gain(c, s)
  {
    hide Gain;
    if path != [] { PathScoreAtLeast(path[..|path| - 1], x, c); }
  }

  lemma {:induction false} PathScoreOnce(path: Ids, y: ExternalId, c: nat)
    requires AtMostOnce(path, y)
    ensures y !in path ==> PathScore(path, y, c) == 0.0
    ensures forall r | 0 <= r < |path| && path[r] == y :: PathScore(path, y, c) == Gain(c, r)
  {
    hide Gain;
    if path != [] {
      var k := |path| - 1;
      PathScoreOnce(path[..k], y, c);
      assert path == path[..k] + [path[k]];
      assert forall r | 0 <= r < k :: path[..k][r] == path[r];
    }
  }

  lemma {:induction false} NoRankNoScore(paths: seq<Ids>, id: ExternalId, c: nat)
    requires forall i | 0 <= i < |paths| :: id !in paths[i]
    ensures FusedScore(paths, id, c) == 0.0
    decreases |paths|
  {
    hide PathScore;
    if paths != [] {
      NoRankNoScore(paths[..|paths| - 1], id, c);
      PathScoreOnce(paths[|paths| - 1], id, c);
    }
  }

  lemma OnlyHere(before: seq<Ids>, path: Ids, after: seq<Ids>, id: ExternalId, c: nat)
    requires forall j | 0 <= j < |before| :: id !in before[j]
    requires forall j | 0 <= j < |after| :: id !in after[j]
    ensures FusedScore(before + ([path] + after), id, c) == PathScore(path, id, c)
  {
    hide PathScore;
    ScoreConcat(before, [path] + after, id, c);
    ScoreConcat([path], after, id, c);
    NoRankNoScore(before, id, c);
    NoRankNoScore(after, id, c);
    assert [path][..0] == [];
  }

  /** An id that stands in one list only, at rank r counted from zero, scores 1 / (c + r + 1). */
  lemma OneRankScores(paths: seq<Ids>, id: ExternalId, i: nat, r: nat, c: nat)
    requires i < |paths| && r < |paths[i]| && paths[i][r] == id && AtMostOnce(paths[i], id)
    requires forall j | 0 <= j < |paths| && j != i :: id !in paths[j]
    ensures FusedScore(paths, id, c) * (c + r + 1) as real == 1.0
  {
    hide PathScore, FusedScore;
    assert paths == paths[..i] + ([paths[i]] + paths[i + 1..]);
    OnlyHere(paths[..i], paths[i], paths[i + 1..], id, c);
    PathScoreOnce(paths[i], id, c);
  }

  lemma GainFalls(c: nat, r: nat, s: nat)
    requires s <= r
    ensures Gain(c, s) >= Gain(c, r)
  {
    var a, b := c as real + s as real + 1.0, c as real + r as real + 1.0;
    var g, h := Gain(c, s), Gain(c, r);
    assert g < h ==> (g - h) * a < 0.0;
    assert (g - h) * a == g * a - h * a;
    assert g * a == 1.0 && h * b == 1.0;
    assert h * a <= h * b;
  }

  lemma {:induction false} DominantScore(paths: seq<Ids>, x: ExternalId, y: ExternalId, c: nat)
    requires Dominates(paths, x, y) && forall i | 0 <= i < |paths| :: AtMostOnce(paths[i], y)
    ensures FusedScore(paths, x, c) >= FusedScore(paths, y, c)
  {
    hide PathScore, Gain, AtMostOnce;
    if paths != [] {
      var k := |paths| - 1;
      var path := paths[k];
      assert Dominates(paths[..k], x, y) by {
        assert forall i | 0 <= i < k :: paths[..k][i] == paths[i];
      }
      DominantScore(paths[..k], x, y, c);
      PathScoreAtLeast(path, x, c);
      PathScoreOnce(path, y, c);
      if y in path {
        var r :| 0 <= r < |path| && path[r] == y;
        var s :| 0 <= s <= r && path[s] == x;
        GainFalls(c, r, s);
      }
    }
  }

  /** An id ranked no worse than another everywhere comes no later, but for the tie-break on ids. */
  lemma DominantComesFirst(out: seq<Hit>, paths: seq<Ids>, k: nat, c: nat, x: ExternalId, y: ExternalId, j: nat)
    requires Fuses(out, paths, k, c) && Dominates(paths, x, y) && x in Members(paths)
    requires forall i | 0 <= i < |paths| :: AtMostOnce(paths[i], y)
    requires j < |out| && out[j].id == y && x != y
    ensures (exists i | 0 <= i < j :: out[i].id == x)
         || (FusedScore(paths, x, c) == FusedScore(paths, y, c) && IdLe(y, x))
  {
    hide Members, FusedScore, Dominates, AtMostOnce, IdLe;
    DominantScore(paths, x, y, c);
    var o := out[j];
    if i :| 0 <= i < |out| && out[i].id == x {
      if i > j { assert Precedes(o, out[i]); }
    } else {
      assert o in out;
      assert Precedes(o, Hit(x, FusedScore(paths, x, c), 0));
    }
  }
}
