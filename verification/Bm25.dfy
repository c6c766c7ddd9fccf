/** The inverted index against naive counting, and BM25 ranking in exact arithmetic. */
module Bm25 {
  import opened Bytes
  import opened Sorting

  type Token = seq<byte>

  datatype Posting = Posting(doc: nat, tf: nat)

  datatype Postings = Postings(lists: map<Token, seq<Posting>>, lengths: seq<nat>) {
    function List(term: Token): seq<Posting> { if term in lists then lists[term] else [] }
  }

  // --- naive counting ---

  function Count(toks: seq<Token>, t: Token): nat {
    if toks == [] then 0 else Count(toks[..|toks| - 1], t) + (if toks[|toks| - 1] == t then 1 else 0)
  }

  /** The documents holding a token, each with how often. */
  function PostingsOf(docs: seq<seq<Token>>, t: Token): seq<Posting> {
    if docs == [] then [] else
    var k := |docs| - 1;
    PostingsOf(docs[..k], t) + (if Count(docs[k], t) > 0 then [Posting(k, Count(docs[k], t))] else [])
  }

  /** An index agrees with counting. */
  ghost predicate Indexes(p: Postings, docs: seq<seq<Token>>) {
    && (forall t :: t in p.lists <==> PostingsOf(docs, t) != [])
    && (forall t | t in p.lists :: p.lists[t] == PostingsOf(docs, t))
    && |p.lengths| == |docs| && (forall i | 0 <= i < |docs| :: p.lengths[i] == |docs[i]|)
  }

  lemma {:induction false} CountIsMultiplicity(toks: seq<Token>, t: Token)
    ensures Count(toks, t) == multiset(toks)[t]
    decreases |toks|
  {
    if toks != [] {
      var k := |toks| - 1;
      CountIsMultiplicity(toks[..k], t);
      assert toks == toks[..k] + [toks[k]];
    }
  }

  ghost predicate Counted(tfs: map<Token, nat>, toks: seq<Token>) {
    && (forall t :: t in tfs <==> Count(toks, t) > 0)
    && (forall t | t in tfs :: tfs[t] == Count(toks, t))
  }

  predicate LeDoc(a: Posting, b: Posting) { a.doc <= b.doc }

  // --- building ---

  method CountTokens(toks: seq<Token>) returns (tfs: map<Token, nat>)
    ensures Counted(tfs, toks)
  {
    tfs := map[];
    assert toks[..0] == [];
    for j := 0 to |toks|
      invariant Counted(tfs, toks[..j])
    {
      var t := toks[j];
      assert toks[..j + 1][..j] == toks[..j];
      tfs := tfs[t := (if t in tfs then tfs[t] else 0) + 1];
    }
    assert toks[..|toks|] == toks;
  }

  method BuildFromTokens(docs: seq<seq<Token>>) returns (p: Postings)
    ensures Indexes(p, docs)
  {
    hide Count, PostingsOf;
    var lists: map<Token, seq<Posting>> := map[];
    var lengths: seq<nat> := [];
    NoPostings();
    assert docs[..0] == [];
    for doc := 0 to |docs|
      invariant Indexes(Postings(lists, lengths), docs[..doc])
    {
      ghost var before := Postings(lists, lengths);
      lengths := lengths + [|docs[doc]|];
      var tfs := CountTokens(docs[doc]);
      var todo := tfs.Keys;
      while todo != {}
        invariant todo <= tfs.Keys
        invariant forall t :: t in lists <==> t in before.lists || t in tfs.Keys - todo
        invariant forall t | t in lists ::
          lists[t] == before.List(t) + (if t in tfs.Keys - todo then [Posting(doc, tfs[t])] else [])
      {
        var t :| t in todo;
        lists := lists[t := (if t in lists then lists[t] else []) + [Posting(doc, tfs[t])]];
        todo := todo - {t};
      }
      Advance(before, Postings(lists, lengths), docs, doc, tfs);
    }
    assert docs[..|docs|] == docs;
    lists := SortLists(lists);
    SortedAlready(docs, lists);
    p := Postings(lists, lengths);
  }

  method SortLists(lists: map<Token, seq<Posting>>) returns (sorted: map<Token, seq<Posting>>)
    ensures sorted.Keys == lists.Keys && forall t | t in lists :: sorted[t] == Sort(lists[t], LeDoc)
  {
    hide Sort;
    sorted := lists;
    var todo := lists.Keys;
    while todo != {}
      invariant todo <= lists.Keys && sorted.Keys == lists.Keys
      invariant forall t | t in lists :: sorted[t] == if t in todo then lists[t] else Sort(lists[t], LeDoc)
    {
      var t :| t in todo;
      sorted := sorted[t := Sort(sorted[t], LeDoc)];
      todo := todo - {t};
    }
  }

  lemma NoPostings()
    ensures forall t :: PostingsOf([], t) == []
  {
  }

  /** One more document adds one posting to the list of each of its tokens. */
  lemma Advance(before: Postings, after: Postings, docs: seq<seq<Token>>, doc: nat, tfs: map<Token, nat>)
    requires doc < |docs| && Indexes(before, docs[..doc]) && Counted(tfs, docs[doc])
    requires after.lengths == before.lengths + [|docs[doc]|]
    requires forall t :: t in after.lists <==> t in before.lists || t in tfs
    requires forall t | t in after.lists ::
      after.lists[t] == before.List(t) + if t in tfs then [Posting(doc, tfs[t])] else []
    ensures Indexes(after, docs[..doc + 1])
  {
    hide Count;
    assert docs[..doc + 1][..doc] == docs[..doc];
    forall t
      ensures PostingsOf(docs[..doc + 1], t) == before.List(t) + if t in tfs then [Posting(doc, tfs[t])] else []
    {
      assert docs[..doc + 1][doc] == docs[doc];
    }
  }

  /** The lists are built in document order, so the final sort leaves them alone. */
  lemma SortedAlready(docs: seq<seq<Token>>, lists: map<Token, seq<Posting>>)
    ensures forall t :: Sort(PostingsOf(docs, t), LeDoc) == PostingsOf(docs, t)
  {
    hide Sort, PostingsOf;
    forall t: Token
      ensures Sort(PostingsOf(docs, t), LeDoc) == PostingsOf(docs, t)
    {
      PostingsExact(docs, t);
      SortFixed(PostingsOf(docs, t), LeDoc);
    }
  }

  lemma {:induction false} SortFixed<T(!new)>(s: seq<T>, le: (T, T) -> bool)
    requires SortedBy(s, le)
    ensures Sort(s, le) == s
  {
    if s != [] {
      var k := |s| - 1;
      SortFixed(s[..k], le);
      assert s == s[..k] + [s[k]];
    }
  }

  // --- what the lists say ---

  /** Strictly ascending by document, exactly the documents that hold the token, each with its count. */
  lemma {:induction false} PostingsExact(docs: seq<seq<Token>>, t: Token)
    ensures var ps := PostingsOf(docs, t);
      && (forall i, j | 0 <= i < j < |ps| :: ps[i].doc < ps[j].doc)
      && (forall i | 0 <= i < |ps| :: ps[i].doc < |docs| && ps[i].tf == Count(docs[ps[i].doc], t) > 0)
      && (forall d | 0 <= d < |docs| && Count(docs[d], t) > 0 :: Posting(d, Count(docs[d], t)) in ps)
      && |ps| <= |docs|
    decreases |docs|
  {
    hide Count;
    if docs != [] {
      var k := |docs| - 1;
      PostingsExact(docs[..k], t);
      var front := PostingsOf(docs[..k], t);
      var last := if Count(docs[k], t) > 0 then [Posting(k, Count(docs[k], t))] else [];
      assert PostingsOf(docs, t) == front + last;
      assert forall d | 0 <= d < k :: docs[..k][d] == docs[d];
    }
  }

  function SumCounts(toks: seq<Token>, terms: seq<Token>): nat {
    if terms == [] then 0 else SumCounts(toks, terms[..|terms| - 1]) + Count(toks, terms[|terms| - 1])
  }

  function SumTf(ps: seq<Posting>): nat {
    if ps == [] then 0 else SumTf(ps[..|ps| - 1]) + ps[|ps| - 1].tf
  }

  function SumAllTf(docs: seq<seq<Token>>, terms: seq<Token>): nat {
    if terms == [] then 0 else SumAllTf(docs, terms[..|terms| - 1]) + SumTf(PostingsOf(docs, terms[|terms| - 1]))
  }

  function SumLengths(docs: seq<seq<Token>>): nat {
    if docs == [] then 0 else SumLengths(docs[..|docs| - 1]) + |docs[|docs| - 1]|
  }

  predicate Distinct(terms: seq<Token>) { forall i, j | 0 <= i < j < |terms| :: terms[i] != terms[j] }

  lemma {:induction false} NothingCounted(terms: seq<Token>)
    ensures SumCounts([], terms) == 0 && SumAllTf([], terms) == 0
    decreases |terms|
  {
    if terms != [] { NothingCounted(terms[..|terms| - 1]); }
  }

  /** One more token is counted once, under its own name. */
  lemma {:induction false} OneMore(toks: seq<Token>, x: Token, terms: seq<Token>)
    requires Distinct(terms)
    ensures SumCounts(toks + [x], terms) == SumCounts(toks, terms) + if x in terms then 1 else 0
    decreases |terms|
  {
    assert (toks + [x])[..|toks|] == toks;
    if terms != [] {
      var k := |terms| - 1;
      assert terms == terms[..k] + [terms[k]];
      OneMore(toks, x, terms[..k]);
    }
  }

  lemma {:induction false} CountsAddUp(toks: seq<Token>, terms: seq<Token>)
    requires Distinct(terms) && forall x | x in toks :: x in terms
    ensures SumCounts(toks, terms) == |toks|
    decreases |toks|
  {
    if toks == [] {
      NothingCounted(terms);
    } else {
      var k := |toks| - 1;
      CountsAddUp(toks[..k], terms);
      assert toks == toks[..k] + [toks[k]];
      OneMore(toks[..k], toks[k], terms);
    }
  }

  lemma {:induction false} OneMoreDoc(docs: seq<seq<Token>>, terms: seq<Token>)
    requires docs != []
    ensures var k := |docs| - 1;
      SumAllTf(docs, terms) == SumAllTf(docs[..k], terms) + SumCounts(docs[k], terms)
    decreases |terms|
  {
    hide Count, PostingsOf, SumTf;
    if terms != [] {
      OneMoreDoc(docs, terms[..|terms| - 1]);
      OneMorePosting(docs, terms[|terms| - 1]);
    }
  }

  lemma OneMorePosting(docs: seq<seq<Token>>, t: Token)
    requires docs != []
    ensures var k := |docs| - 1;
      SumTf(PostingsOf(docs, t)) == SumTf(PostingsOf(docs[..k], t)) + Count(docs[k], t)
  {
    hide Count, SumTf;
    var k := |docs| - 1;
    var front := PostingsOf(docs[..k], t);
    if Count(docs[k], t) > 0 {
      SumTfAppend(front, Posting(k, Count(docs[k], t)));
    } else {
      assert PostingsOf(docs, t) == front;
    }
  }

  lemma SumTfAppend(ps: seq<Posting>, p: Posting)
    ensures SumTf(ps + [p]) == SumTf(ps) + p.tf
  {
    assert (ps + [p])[..|ps|] == ps;
  }

  /** No token is lost or counted twice: all frequencies together are all document lengths together. */
  lemma {:induction false} FrequenciesAddUp(docs: seq<seq<Token>>, terms: seq<Token>)
    requires Distinct(terms) && forall d, x | 0 <= d < |docs| && x in docs[d] :: x in terms
    ensures SumAllTf(docs, terms) == SumLengths(docs)
    decreases |docs|
  {
    if docs == [] {
      NothingCounted(terms);
    } else {
      var k := |docs| - 1;
      assert forall d | 0 <= d < k :: docs[..k][d] == docs[d];
      FrequenciesAddUp(docs[..k], terms);
      OneMoreDoc(docs, terms);
      CountsAddUp(docs[k], terms);
    }
  }
}
