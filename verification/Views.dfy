/** The specification the store is held to: last write per id wins, and only live records are seen. */
module Views {
  import opened Records
  import opened Wal
  import opened Segments

  type View = map<ExternalId, Numbered>

  function IdOf(e: Numbered): ExternalId { e.1.externalId }

  function Latest(rs: seq<Numbered>): View {
    if rs == [] then map[] else Latest(rs[..|rs| - 1])[IdOf(rs[|rs| - 1]) := rs[|rs| - 1]]
  }

  function LiveOnly(v: View): View {
    map id | id in v && v[id].1.lifecycle.Live? :: v[id]
  }

  /** The live view of a record log. */
  function ViewOf(rs: seq<Numbered>): View { LiveOnly(Latest(rs)) }

  function Upto(rs: seq<Numbered>, c: nat): seq<Numbered> {
    if rs == [] then [] else
    Upto(rs[..|rs| - 1], c) + (if rs[|rs| - 1].0 <= c then [rs[|rs| - 1]] else [])
  }

  function After(rs: seq<Numbered>, c: nat): seq<Numbered> {
    if rs == [] then [] else
    After(rs[..|rs| - 1], c) + (if rs[|rs| - 1].0 > c then [rs[|rs| - 1]] else [])
  }

  /** `es` lists the view, each entry once, in increasing order of sequence numbers. */
  ghost predicate Lists(es: seq<Numbered>, v: View) {
    && Ascending(es)
    && (forall i | 0 <= i < |es| :: IdOf(es[i]) in v && v[IdOf(es[i])] == es[i])
    && (forall id | id in v :: v[id] in es)
  }

  /** Every entry of a view is filed under its own id. */
  predicate Filed(v: View) {
    forall id | id in v :: IdOf(v[id]) == id
  }

  lemma LatestAppend(rs: seq<Numbered>, e: Numbered)
    ensures Latest(rs + [e]) == Latest(rs)[IdOf(e) := e]
  {
    assert (rs + [e])[..|rs|] == rs;
  }

  lemma {:induction false} LatestConcat(a: seq<Numbered>, b: seq<Numbered>)
    ensures Latest(a + b) == Latest(a) + Latest(b)
    decreases |b|
  {
    if b == [] {
      assert a + b == a;
    } else {
      var k := |b| - 1;
      LatestConcat(a, b[..k]);
      assert a + b == (a + b[..k]) + [b[k]];
      LatestAppend(a + b[..k], b[k]);
    }
  }

  lemma {:induction false} LatestFrom(rs: seq<Numbered>, id: ExternalId)
    ensures id in Latest(rs) ==> Latest(rs)[id] in rs && IdOf(Latest(rs)[id]) == id
    decreases |rs|
  {
    if rs != [] { LatestFrom(rs[..|rs| - 1], id); }
  }

  /** The record at i is the last one of its id. */
  predicate LastOfId(rs: seq<Numbered>, i: nat) {
    i < |rs| && forall j | i < j < |rs| :: IdOf(rs[j]) != IdOf(rs[i])
  }

  lemma {:induction false} LatestAt(rs: seq<Numbered>, i: nat)
    requires LastOfId(rs, i)
    ensures IdOf(rs[i]) in Latest(rs) && Latest(rs)[IdOf(rs[i])] == rs[i]
    decreases |rs|
  {
    var k := |rs| - 1;
    if i < k {
      assert LastOfId(rs[..k], i);
      LatestAt(rs[..k], i);
    }
  }

  lemma {:induction false} LatestIs(rs: seq<Numbered>, id: ExternalId) returns (i: nat)
    requires id in Latest(rs)
    ensures LastOfId(rs, i) && IdOf(rs[i]) == id
    decreases |rs|
  {
    var k := |rs| - 1;
    if IdOf(rs[k]) == id { i := k; } else { i := LatestIs(rs[..k], id); }
  }

  /** The view of a log shows a record under its id if and only if it is the last of that id and live. */
  lemma ViewMeaning(rs: seq<Numbered>, e: Numbered)
    ensures (IdOf(e) in ViewOf(rs) && ViewOf(rs)[IdOf(e)] == e)
      <==> exists i: nat :: LastOfId(rs, i) && rs[i] == e && e.1.lifecycle.Live?
    ensures forall id | id in ViewOf(rs) :: IdOf(ViewOf(rs)[id]) == id
  {
    hide Latest;
    if IdOf(e) in ViewOf(rs) && ViewOf(rs)[IdOf(e)] == e {
      var i := LatestIs(rs, IdOf(e));
      LatestAt(rs, i);
      assert LastOfId(rs, i) && rs[i] == e;
    }
    if i: nat :| LastOfId(rs, i) && rs[i] == e && e.1.lifecycle.Live? { LatestAt(rs, i); }
    forall id | id in ViewOf(rs)
      ensures IdOf(ViewOf(rs)[id]) == id
    {
      LatestFrom(rs, id);
    }
  }

  lemma {:induction false} LatestHas(rs: seq<Numbered>, i: nat)
    requires i < |rs|
    ensures IdOf(rs[i]) in Latest(rs)
    ensures Ascending(rs) ==> rs[i].0 <= Latest(rs)[IdOf(rs[i])].0
    decreases |rs|
  {
    var k := |rs| - 1;
    if i < k { LatestHas(rs[..k], i); }
  }

  lemma SplitAppend(rs: seq<Numbered>, e: Numbered, c: nat)
    ensures Upto(rs + [e], c) == Upto(rs, c) + (if e.0 <= c then [e] else [])
    ensures After(rs + [e], c) == After(rs, c) + (if e.0 > c then [e] else [])
  {
    assert (rs + [e])[..|rs|] == rs;
  }

  lemma {:induction false} SplitBounds(rs: seq<Numbered>, c: nat)
    ensures forall i | 0 <= i < |After(rs, c)| :: c < After(rs, c)[i].0
    ensures forall i | 0 <= i < |Upto(rs, c)| :: Upto(rs, c)[i].0 <= c
    decreases |rs|
  {
    hide Upto, After;
    if rs == [] {
      SplitNothing(c);
    } else {
      var k := |rs| - 1;
      SplitBounds(rs[..k], c);
      assert rs == rs[..k] + [rs[k]];
      SplitAppend(rs[..k], rs[k], c);
    }
  }

  /** Cutting an ascending log at a sequence number. */
  lemma {:induction false} SplitAt(rs: seq<Numbered>, c: nat)
    requires Ascending(rs)
    ensures rs == Upto(rs, c) + After(rs, c)
    ensures forall i | 0 <= i < |After(rs, c)| :: c < After(rs, c)[i].0
    ensures forall i | 0 <= i < |Upto(rs, c)| :: Upto(rs, c)[i].0 <= c
    decreases |rs|
  {
    hide Upto, After;
    if rs == [] {
      SplitNothing(c);
    } else {
      var k := |rs| - 1;
      var front := rs[..k];
      SplitAt(front, c);
      SplitAppend(front, rs[k], c);
      assert rs == front + [rs[k]];
      if rs[k].0 <= c { NoneAfter(Upto(front, c), After(front, c), rs[k], c); }
      SplitBounds(rs, c);
    }
  }

  lemma NoneAfter(low: seq<Numbered>, high: seq<Numbered>, e: Numbered, c: nat)
    requires Ascending(low + high + [e]) && e.0 <= c
    requires forall i | 0 <= i < |high| :: c < high[i].0
    ensures high == []
  {
    if high != [] { EndsOf(low, high, e); }
  }

  lemma EndsOf(low: seq<Numbered>, high: seq<Numbered>, e: Numbered)
    requires high != []
    ensures var rs := low + high + [e];
      rs[|low|] == high[0] && rs[|low| + |high|] == e
  {
  }

  lemma SplitNothing(c: nat)
    ensures Upto([], c) == [] && After([], c) == []
  {
  }

  /** Records above c do not count towards what is at or below it. */
  lemma {:induction false} UptoMore(rs: seq<Numbered>, more: seq<Numbered>, c: nat)
    requires forall i | 0 <= i < |more| :: c < more[i].0
    ensures Upto(rs + more, c) == Upto(rs, c)
    ensures After(rs + more, c) == After(rs, c) + more
    decreases |more|
  {
    hide Upto, After;
    if more == [] {
      assert rs + more == rs && After(rs, c) + more == After(rs, c);
    } else {
      var k := |more| - 1;
      UptoMore(rs, more[..k], c);
      SplitAppend(rs + more[..k], more[k], c);
      assert more == more[..k] + [more[k]];
      assert rs + more == rs + more[..k] + [more[k]];
    }
  }

  lemma {:induction false} UptoAll(rs: seq<Numbered>, c: nat)
    requires forall i | 0 <= i < |rs| :: rs[i].0 <= c
    ensures Upto(rs, c) == rs && After(rs, c) == []
    decreases |rs|
  {
    if rs != [] {
      UptoAll(rs[..|rs| - 1], c);
      assert rs == rs[..|rs| - 1] + [rs[|rs| - 1]];
    }
  }

  /** A list of a view has that view as its latest state. */
  lemma ListsLatest(es: seq<Numbered>, v: View)
    requires Lists(es, v) && Filed(v)
    ensures Latest(es) == v
  {
    forall id | id in v
      ensures id in Latest(es)
    {
      var i :| 0 <= i < |es| && es[i] == v[id];
      LatestHas(es, i);
    }
    forall id | id in Latest(es)
      ensures id in v && Latest(es)[id] == v[id]
    {
      LatestFrom(es, id);
    }
  }

  /** Two lists of one view are the same list. */
  lemma {:induction false} ListsUnique(a: seq<Numbered>, b: seq<Numbered>, v: View)
    requires Lists(a, v) && Lists(b, v) && Filed(v)
    ensures a == b
  {
    SameSet(a, b, v);
    SameSet(b, a, v);
    AscendingUnique(a, b);
  }

  lemma SameSet(a: seq<Numbered>, b: seq<Numbered>, v: View)
    requires Lists(a, v) && Lists(b, v)
    ensures Within(a, b)
  {
  }

  ghost predicate Within(a: seq<Numbered>, b: seq<Numbered>) {
    forall i | 0 <= i < |a| :: a[i] in b
  }

  lemma LastsAgree(a: seq<Numbered>, b: seq<Numbered>)
    requires Ascending(a) && Ascending(b) && Within(a, b) && Within(b, a) && a != [] && b != []
    ensures a[|a| - 1] == b[|b| - 1]
  {
    var i :| 0 <= i < |b| && b[i] == a[|a| - 1];
    var j :| 0 <= j < |a| && a[j] == b[|b| - 1];
  }

  lemma FrontsWithin(a: seq<Numbered>, b: seq<Numbered>)
    requires Ascending(a) && Within(a, b) && a != [] && b != [] && a[|a| - 1] == b[|b| - 1]
    ensures Within(a[..|a| - 1], b[..|b| - 1])
  {
    forall k | 0 <= k < |a| - 1
      ensures a[k] in b[..|b| - 1]
    {
      var i :| 0 <= i < |b| && b[i] == a[k];
      assert a[k].0 < a[|a| - 1].0;
      assert b[..|b| - 1][i] == a[k];
    }
  }

  lemma {:induction false} AscendingUnique(a: seq<Numbered>, b: seq<Numbered>)
    requires Ascending(a) && Ascending(b) && Within(a, b) && Within(b, a)
    ensures a == b
    decreases |a|
  {
    assert a != [] ==> a[0] in b;
    assert b != [] ==> b[0] in a;
    if a != [] {
      LastsAgree(a, b);
      FrontsWithin(a, b);
      FrontsWithin(b, a);
      AscendingUnique(a[..|a| - 1], b[..|b| - 1]);
      assert a == a[..|a| - 1] + [a[|a| - 1]] && b == b[..|b| - 1] + [b[|b| - 1]];
    }
  }

  lemma LatestFiled(rs: seq<Numbered>)
    ensures Filed(Latest(rs))
    ensures Ascending(rs) ==> DistinctSeqs(Latest(rs))
  {
    forall id | id in Latest(rs)
      ensures IdOf(Latest(rs)[id]) == id && Latest(rs)[id] in rs
    {
      LatestFrom(rs, id);
    }
  }

  /** No two ids share a sequence number. */
  ghost predicate DistinctSeqs(v: View) {
    forall a, b | a in v && b in v && v[a].0 == v[b].0 :: a == b
  }
}
