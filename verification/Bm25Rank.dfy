/** BM25 scores in exact arithmetic over an index, and which documents a query returns. */
module Bm25Rank {
  import opened Bm25
  import opened Sorting

  const K1: real := 1.2
  const B: real := 0.75

  /** The natural logarithm is a parameter; of it only this is used. */
  ghost predicate PositiveAboveOne(ln: real -> real) { forall x: real | x > 1.0 :: ln(x) > 0.0 }

  function Total(lengths: seq<nat>): nat {
    if lengths == [] then 0 else Total(lengths[..|lengths| - 1]) + lengths[|lengths| - 1]
  }

  /** Average document length, at least one. */
  function AvgLength(p: Postings): (r: real)
    ensures r >= 1.0
  {
    if |p.lengths| == 0 then 1.0 else
    var mean := Total(p.lengths) as real / |p.lengths| as real;
    if mean > 1.0 then mean else 1.0
  }

  function TfAt(ps: seq<Posting>, doc: nat): nat {
    if ps == [] then 0
    else if ps[|ps| - 1].doc == doc then ps[|ps| - 1].tf
    else TfAt(ps[..|ps| - 1], doc)
  }

  function Idf(docs: nat, df: nat, ln: real -> real): real {
    ln(1.0 + (docs as real - df as real + 0.5) / (df as real + 0.5))
  }

  /** Term frequency damped by document length. */
  function Damped(tf: real, length: real, average: real): real
    requires tf > 0.0 && length >= 0.0 && average >= 1.0
  {
    var share := length / average;
    assert share >= 0.0 by { QuotientSign(length, average); }
    assert B * share >= 0.0;
    tf * (K1 + 1.0) / (tf + K1 * (1.0 - B + B * share))
  }

  function ScoreTerm(p: Postings, term: Token, doc: nat, ln: real -> real): real {
    var ps := p.List(term);
    var tf := TfAt(ps, doc);
    if |ps| == 0 || doc >= |p.lengths| || tf == 0 then 0.0
    else Idf(|p.lengths|, |ps|, ln) * Damped(tf as real, p.lengths[doc] as real, AvgLength(p))
  }

  function ScoreDoc(p: Postings, query: seq<Token>, doc: nat, ln: real -> real): real {
    if query == [] then 0.0
    else ScoreDoc(p, query[..|query| - 1], doc, ln) + ScoreTerm(p, query[|query| - 1], doc, ln)
  }

  lemma QuotientSign(a: real, b: real)
    requires b > 0.0
    ensures a > 0.0 ==> a / b > 0.0
    ensures a >= 0.0 ==> a / b >= 0.0
  {
    var q := a / b;
    assert q * b == a;
    if q < 0.0 { assert q * b < 0.0; }
  }

  lemma ProductPositive(a: real, b: real)
    requires a > 0.0 && b > 0.0
    ensures a * b > 0.0
  {
  }

  lemma DampedPositive(tf: real, length: real, average: real)
    requires tf > 0.0 && length >= 0.0 && average >= 1.0
    ensures Damped(tf, length, average) > 0.0
  {
    var share := length / average;
    QuotientSign(length, average);
    assert B * share >= 0.0;
    QuotientSign(tf * (K1 + 1.0), tf + K1 * (1.0 - B + B * share));
  }

  lemma IdfPositive(docs: nat, df: nat, ln: real -> real)
    requires df <= docs && PositiveAboveOne(ln)
    ensures Idf(docs, df, ln) > 0.0
  {
    QuotientSign(docs as real - df as real + 0.5, df as real + 0.5);
  }

  lemma {:induction false} TfFound(ps: seq<Posting>, doc: nat)
    requires forall i, j | 0 <= i < j < |ps| :: ps[i].doc < ps[j].doc
    ensures forall i | 0 <= i < |ps| && ps[i].doc == doc :: TfAt(ps, doc) == ps[i].tf
    ensures (forall i | 0 <= i < |ps| :: ps[i].doc != doc) ==> TfAt(ps, doc) == 0
    decreases |ps|
  {
    if ps != [] { TfFound(ps[..|ps| - 1], doc); }
  }

  /** A term scores for a document exactly when the document holds it, however common it is. */
  lemma ScoreTermSign(p: Postings, docs: seq<seq<Token>>, term: Token, doc: nat, ln: real -> real)
    requires Indexes(p, docs) && PositiveAboveOne(ln)
    ensures if doc < |docs| && Count(docs[doc], term) > 0
            then ScoreTerm(p, term, doc, ln) > 0.0 else ScoreTerm(p, term, doc, ln) == 0.0
  {
    hide Count, PostingsOf, TfAt, Idf, Damped, AvgLength, PositiveAboveOne;
    var ps := PostingsOf(docs, term);
    assert p.List(term) == ps;
    PostingsExact(docs, term);
    TfFound(ps, doc);
    var tf := TfAt(ps, doc);
    if doc < |docs| && Count(docs[doc], term) > 0 {
      assert Posting(doc, Count(docs[doc], term)) in ps;
      assert tf > 0 && |ps| > 0;
      IdfPositive(|docs|, |ps|, ln);
      DampedPositive(tf as real, p.lengths[doc] as real, AvgLength(p));
      ProductPositive(Idf(|docs|, |ps|, ln), Damped(tf as real, p.lengths[doc] as real, AvgLength(p)));
    }
  }

  /** A query scores as its tokens do one by one, a repeated token each time. */
  lemma {:induction false} QueriesAdd(p: Postings, a: seq<Token>, b: seq<Token>, doc: nat, ln: real -> real)
    ensures ScoreDoc(p, a + b, doc, ln) == ScoreDoc(p, a, doc, ln) + ScoreDoc(p, b, doc, ln)
    ensures |b| == 1 ==> ScoreDoc(p, a + b, doc, ln) == ScoreDoc(p, a, doc, ln) + ScoreTerm(p, b[0], doc, ln)
    decreases |b|
  {
    hide ScoreTerm;
    if b == [] {
      assert a + b == a;
    } else {
      var front, t := b[..|b| - 1], b[|b| - 1];
      QueriesAdd(p, a, front, doc, ln);
      assert (a + b)[..|a + b| - 1] == a + front;
      if |b| == 1 { assert a + front == a; }
    }
  }

  predicate Holds(toks: seq<Token>, query: seq<Token>) {
    exists i | 0 <= i < |query| :: Count(toks, query[i]) > 0
  }

  lemma {:induction false} ScoreDocSign(p: Postings, docs: seq<seq<Token>>, query: seq<Token>, doc: nat,
                                       ln: real -> real)
    requires Indexes(p, docs) && PositiveAboveOne(ln)
    ensures if doc < |docs| && Holds(docs[doc], query)
            then ScoreDoc(p, query, doc, ln) > 0.0 else ScoreDoc(p, query, doc, ln) == 0.0
    decreases |query|
  {
    hide Count, ScoreTerm, Indexes, PositiveAboveOne;
    if query != [] {
      var front, t := query[..|query| - 1], query[|query| - 1];
      ScoreDocSign(p, docs, front, doc, ln);
      ScoreTermSign(p, docs, t, doc, ln);
      assert query == front + [t];
      if doc < |docs| {
        assert forall i | 0 <= i < |front| :: front[i] == query[i];
      }
    }
  }

  // --- how the score weighs its parts ---

  function Holders(docs: seq<seq<Token>>, t: Token): set<nat> {
    set d | 0 <= d < |docs| && Count(docs[d], t) > 0
  }

  lemma {:induction false} HoldersListed(docs: seq<seq<Token>>, t: Token)
    ensures |PostingsOf(docs, t)| == |Holders(docs, t)|
    decreases |docs|
  {
    hide Count;
    if docs != [] {
      var k := |docs| - 1;
      HoldersListed(docs[..k], t);
      assert Holders(docs, t) == Holders(docs[..k], t) + if Count(docs[k], t) > 0 then {k} else {};
    }
  }

  lemma {:induction false} TotalIsSum(p: Postings, docs: seq<seq<Token>>)
    requires Indexes(p, docs)
    ensures Total(p.lengths) == SumLengths(docs)
  {
    hide Indexes;
    assert |p.lengths| == |docs| && forall i | 0 <= i < |docs| :: p.lengths[i] == |docs[i]| by { LengthsOf(p, docs); }
    SumOfLengths(p.lengths, docs);
  }

  lemma LengthsOf(p: Postings, docs: seq<seq<Token>>)
    requires Indexes(p, docs)
    ensures |p.lengths| == |docs| && forall i | 0 <= i < |docs| :: p.lengths[i] == |docs[i]|
  {
  }

  lemma {:induction false} SumOfLengths(lengths: seq<nat>, docs: seq<seq<Token>>)
    requires |lengths| == |docs| && forall i | 0 <= i < |docs| :: lengths[i] == |docs[i]|
    ensures Total(lengths) == SumLengths(docs)
    decreases |docs|
  {
    if docs != [] { SumOfLengths(lengths[..|docs| - 1], docs[..|docs| - 1]); }
  }

  /** The score of a term a document holds, from the documents themselves. */
  lemma TermScore(p: Postings, docs: seq<seq<Token>>, term: Token, doc: nat, ln: real -> real)
    requires Indexes(p, docs) && doc < |docs| && Count(docs[doc], term) > 0
    ensures |Holders(docs, term)| > 0
    ensures ScoreTerm(p, term, doc, ln)
         == Idf(|docs|, |Holders(docs, term)|, ln)
            * Damped(Count(docs[doc], term) as real, |docs[doc]| as real, AvgLength(p))
  {
    hide Count, PostingsOf, TfAt, Idf, Damped, AvgLength;
    var ps := PostingsOf(docs, term);
    assert p.List(term) == ps;
    PostingsExact(docs, term);
    TfFound(ps, doc);
    HoldersListed(docs, term);
    assert Posting(doc, Count(docs[doc], term)) in ps;
  }

  /** What the damping divides by: the frequency, and the length relative to the average. */
  function Weight(tf: real, length: real, average: real): (w: real)
    requires tf > 0.0 && length >= 0.0 && average >= 1.0
    ensures w > tf
  {
    QuotientSign(length, average);
    tf + 0.3 + 0.9 * (length / average)
  }

  lemma DampedTimesWeight(tf: real, length: real, average: real)
    requires tf > 0.0 && length >= 0.0 && average >= 1.0
    ensures Damped(tf, length, average) * Weight(tf, length, average) == 2.2 * tf
  {
    var share := length / average;
    assert K1 * (1.0 - B + B * share) == 0.3 + 0.9 * share;
    var w := Weight(tf, length, average);
    assert tf * (K1 + 1.0) / w * w == tf * (K1 + 1.0);
  }

  lemma CancelFactor(x: real, y: real, c: real)
    requires c != 0.0 && x * c == y * c
    ensures x == y
  {
    assert (x - y) * c == 0.0;
  }

  lemma QuotientOrder(a: real, b: real, c: real)
    requires c > 0.0 && a < b
    ensures a / c < b / c
  {
    QuotientSign(b - a, c);
    var x, y, d := a / c, b / c, (b - a) / c;
    assert x * c == a && y * c == b && d * c == b - a;
    CancelFactor(y, x + d, c);
  }

  lemma ProductOrder(a: real, b: real, c: real)
    requires c >= 0.0 && a <= b
    ensures a * c <= b * c
    ensures c > 0.0 && a < b ==> a * c < b * c
  {
    assert (b - a) * c >= 0.0;
    if c > 0.0 && a < b { ProductPositive(b - a, c); }
  }

  /** A larger divisor leaves less. */
  lemma LessByWeight(x: real, v: real, d: real, w: real, n: real)
    requires n > 0.0 && d > 0.0 && w > d && x * d == n && v * w == n
    ensures x > v > 0.0
  {
    if v <= 0.0 { ProductOrder(v, 0.0, w); }
    if x <= v { ProductOrder(x, v, d); ProductOrder(d, w, v); }
  }

  lemma ShorterDamps(tf: real, short: real, long: real, average: real)
    requires tf > 0.0 && 0.0 <= short < long && average >= 1.0
    ensures Damped(tf, short, average) > Damped(tf, long, average)
  {
    hide Damped;
    QuotientOrder(short, long, average);
    DampedTimesWeight(tf, short, average);
    DampedTimesWeight(tf, long, average);
    LessByWeight(Damped(tf, short, average), Damped(tf, long, average),
                 Weight(tf, short, average), Weight(tf, long, average), 2.2 * tf);
  }

  /** x = 2.2 a / (a + r) grows with a. */
  lemma MoreIsMore(x: real, y: real, a: real, b: real, r: real)
    requires 0.0 < a < b && r > 0.0 && x * (a + r) == 2.2 * a && y * (b + r) == 2.2 * b
    ensures x < y < 2.2
  {
    assert (2.2 - y) * (b + r) == 2.2 * r;
    assert (2.2 - x) * (a + r) == 2.2 * r;
    LessByWeight(2.2 - x, 2.2 - y, a + r, b + r, 2.2 * r);
  }

  lemma FrequencyDamps(few: real, many: real, length: real, average: real)
    requires 0.0 < few < many && length >= 0.0 && average >= 1.0
    ensures Damped(few, length, average) < Damped(many, length, average) < 2.2
  {
    hide Damped;
    QuotientSign(length, average);
    DampedTimesWeight(few, length, average);
    DampedTimesWeight(many, length, average);
    MoreIsMore(Damped(few, length, average), Damped(many, length, average), few, many,
               0.3 + 0.9 * (length / average));
  }

  /** Of two documents that hold a term equally often, the shorter one scores higher. */
  lemma ShorterScoresHigher(p: Postings, docs: seq<seq<Token>>, term: Token, a: nat, b: nat, ln: real -> real)
    requires Indexes(p, docs) && PositiveAboveOne(ln) && a < |docs| && b < |docs|
    requires Count(docs[a], term) == Count(docs[b], term) > 0 && |docs[a]| < |docs[b]|
    ensures ScoreTerm(p, term, a, ln) > ScoreTerm(p, term, b, ln) > 0.0
  {
    hide Count, Idf, Damped, AvgLength, PositiveAboveOne, Indexes, ScoreTerm, Holders;
    var tf, average := Count(docs[a], term) as real, AvgLength(p);
    TermScore(p, docs, term, a, ln);
    TermScore(p, docs, term, b, ln);
    ScoreTermSign(p, docs, term, b, ln);
    WithinDocs(docs, term);
    IdfPositive(|docs|, |Holders(docs, term)|, ln);
    ShorterDamps(tf, |docs[a]| as real, |docs[b]| as real, average);
    ProductOrder(Damped(tf, |docs[b]| as real, average), Damped(tf, |docs[a]| as real, average),
                 Idf(|docs|, |Holders(docs, term)|, ln));
  }

  lemma WithinDocs(docs: seq<seq<Token>>, term: Token)
    ensures |Holders(docs, term)| <= |docs|
  {
    HoldersListed(docs, term);
    PostingsExact(docs, term);
  }

  /** Of two documents of one length, the one that holds the term more often scores higher. */
  lemma OftenerScoresHigher(p: Postings, docs: seq<seq<Token>>, term: Token, a: nat, b: nat, ln: real -> real)
    requires Indexes(p, docs) && PositiveAboveOne(ln) && a < |docs| && b < |docs|
    requires 0 < Count(docs[a], term) < Count(docs[b], term) && |docs[a]| == |docs[b]|
    ensures ScoreTerm(p, term, a, ln) < ScoreTerm(p, term, b, ln)
  {
    hide Count, Idf, Damped, AvgLength, PositiveAboveOne, Indexes, ScoreTerm, Holders;
    var few, many, length := Count(docs[a], term) as real, Count(docs[b], term) as real, |docs[a]| as real;
    TermScore(p, docs, term, a, ln);
    TermScore(p, docs, term, b, ln);
    WithinDocs(docs, term);
    IdfPositive(|docs|, |Holders(docs, term)|, ln);
    FrequencyDamps(few, many, length, AvgLength(p));
    ProductOrder(Damped(few, length, AvgLength(p)), Damped(many, length, AvgLength(p)),
                 Idf(|docs|, |Holders(docs, term)|, ln));
  }

  /** However often a document holds a term, its score stays below K1 + 1 times the term's rarity. */
  lemma ScoreSaturates(p: Postings, docs: seq<seq<Token>>, term: Token, doc: nat, ln: real -> real)
    requires Indexes(p, docs) && PositiveAboveOne(ln) && doc < |docs| && Count(docs[doc], term) > 0
    ensures var n, df := |docs| as real, |Holders(docs, term)| as real;
      ScoreTerm(p, term, doc, ln) < 2.2 * ln(1.0 + (n - df + 0.5) / (df + 0.5))
  {
    hide Count, Damped, AvgLength, PositiveAboveOne, Indexes, ScoreTerm, Holders;
    var tf, length := Count(docs[doc], term) as real, |docs[doc]| as real;
    var n, df := |docs| as real, |Holders(docs, term)| as real;
    var rarity := ln(1.0 + (n - df + 0.5) / (df + 0.5));
    TermScore(p, docs, term, doc, ln);
    WithinDocs(docs, term);
    IdfPositive(|docs|, |Holders(docs, term)|, ln);
    assert rarity == Idf(|docs|, |Holders(docs, term)|, ln);
    FrequencyDamps(tf, tf + 1.0, length, AvgLength(p));
    BelowProduct(ScoreTerm(p, term, doc, ln), Damped(tf, length, AvgLength(p)), 2.2, rarity);
  }

  lemma BelowProduct(x: real, a: real, b: real, c: real)
    requires x == c * a && a < b && c > 0.0
    ensures x < b * c
  {
    ProductPositive(b - a, c);
    assert (b - a) * c == b * c - c * a;
  }

  /** The average of a list of documents, at least one token. */
  function MeanLength(docs: seq<seq<Token>>): (r: real)
    ensures r >= 1.0
  {
    if SumLengths(docs) <= |docs| then 1.0
    else
      assert SumLengths(docs) > |docs| > 0 by { NoDocs(docs); }
      MeanAboveOne(SumLengths(docs), |docs|);
      SumLengths(docs) as real / |docs| as real
  }

  lemma NoDocs(docs: seq<seq<Token>>)
    ensures docs == [] ==> SumLengths(docs) == 0
  {
  }

  lemma MeanAboveOne(total: nat, n: nat)
    requires total > n > 0
    ensures total as real / n as real > 1.0
  {
    QuotientOrder(n as real, total as real, n as real);
    SameQuotient(n as real);
  }

  lemma MeanIsAverage(p: Postings, docs: seq<seq<Token>>)
    requires Indexes(p, docs)
    ensures AvgLength(p) == MeanLength(docs)
  {
    hide Indexes, SumLengths, Total;
    LengthsOf(p, docs);
    TotalIsSum(p, docs);
    NoDocs(docs);
    if docs != [] {
      var total := SumLengths(docs);
      if total <= |docs| { MeanAtMostOne(total, |docs|); } else { MeanAboveOne(total, |docs|); }
    }
  }

  /** The score of a term, from the documents alone: k1 = 1.2 and b = 0.75. */
  lemma ScoreFormula(p: Postings, docs: seq<seq<Token>>, term: Token, doc: nat, ln: real -> real)
    requires Indexes(p, docs) && doc < |docs| && Count(docs[doc], term) > 0
    ensures var n, df, tf := |docs| as real, |Holders(docs, term)| as real, Count(docs[doc], term) as real;
      ScoreTerm(p, term, doc, ln) * (tf + 0.3 + 0.9 * (|docs[doc]| as real / MeanLength(docs)))
        == ln(1.0 + (n - df + 0.5) / (df + 0.5)) * 2.2 * tf
  {
    hide Count, Damped, PositiveAboveOne, Indexes, ScoreTerm, Holders, AvgLength, MeanLength;
    var tf, length := Count(docs[doc], term) as real, |docs[doc]| as real;
    var rarity := Idf(|docs|, |Holders(docs, term)|, ln);
    TermScore(p, docs, term, doc, ln);
    MeanIsAverage(p, docs);
    DampedTimesWeight(tf, length, AvgLength(p));
    Regroup(rarity, Damped(tf, length, AvgLength(p)), tf, Weight(tf, length, AvgLength(p)));
  }

  /** A document of average length, which counts as at least one token, is not damped for its length. */
  lemma AverageScore(p: Postings, docs: seq<seq<Token>>, term: Token, doc: nat, ln: real -> real)
    requires Indexes(p, docs) && doc < |docs| && Count(docs[doc], term) > 0
    requires |docs[doc]| as real == MeanLength(docs)
    ensures var n, df, tf := |docs| as real, |Holders(docs, term)| as real, Count(docs[doc], term) as real;
      ScoreTerm(p, term, doc, ln) * (tf + 1.2) == ln(1.0 + (n - df + 0.5) / (df + 0.5)) * 2.2 * tf
  {
    hide Count, Indexes, ScoreTerm, Holders, MeanLength;
    ScoreFormula(p, docs, term, doc, ln);
    SameQuotient(MeanLength(docs));
  }

  lemma Regroup(rarity: real, damped: real, tf: real, w: real)
    requires damped * w == 2.2 * tf
    ensures rarity * damped * w == rarity * 2.2 * tf
  {
    assert rarity * damped * w == rarity * (damped * w);
  }

  lemma SameQuotient(x: real)
    requires x > 0.0
    ensures x / x == 1.0
  {
  }

  lemma MeanAtMostOne(total: nat, n: nat)
    requires total <= n && n > 0
    ensures total as real / n as real <= 1.0
  {
    var x, mean := n as real, total as real / n as real;
    assert mean * x == total as real;
    if mean > 1.0 { ProductOrder(1.0, mean, x); }
  }

  ghost predicate Increasing(ln: real -> real) {
    forall x: real, y: real | 1.0 <= x < y :: ln(x) < ln(y)
  }

  /** With a logarithm that increases, the rarer of two terms a document holds equally often weighs more. */
  lemma RarerWeighsMore(p: Postings, docs: seq<seq<Token>>, rare: Token, common: Token, doc: nat, ln: real -> real)
    requires Indexes(p, docs) && Increasing(ln) && doc < |docs|
    requires Count(docs[doc], rare) == Count(docs[doc], common) > 0
    requires |Holders(docs, rare)| < |Holders(docs, common)|
    ensures ScoreTerm(p, rare, doc, ln) > ScoreTerm(p, common, doc, ln)
  {
    hide Count, Idf, Damped, AvgLength, Indexes, ScoreTerm, Holders, Increasing;
    var tf, length := Count(docs[doc], rare) as real, |docs[doc]| as real;
    TermScore(p, docs, rare, doc, ln);
    TermScore(p, docs, common, doc, ln);
    WithinDocs(docs, common);
    RarerIdf(|docs|, |Holders(docs, rare)|, |Holders(docs, common)|, ln);
    DampedPositive(tf, length, AvgLength(p));
    ProductOrder(Idf(|docs|, |Holders(docs, common)|, ln), Idf(|docs|, |Holders(docs, rare)|, ln),
                 Damped(tf, length, AvgLength(p)));
  }

  lemma RarerIdf(n: nat, rare: nat, common: nat, ln: real -> real)
    requires rare < common <= n && Increasing(ln)
    ensures Idf(n, rare, ln) > Idf(n, common, ln)
  {
    var c, r := common as real + 0.5, rare as real + 0.5;
    var x, y := (n as real - common as real + 0.5) / c, (n as real - rare as real + 0.5) / r;
    assert x * c == n as real + 1.0 - c && y * r == n as real + 1.0 - r;
    QuotientSign(n as real - common as real + 0.5, c);
    LessByWeight(1.0 + y, 1.0 + x, r, c, n as real + 1.0);
  }

  // --- ranking ---

  datatype Ranked = Ranked(doc: nat, score: real)

  predicate HigherFirst(a: Ranked, b: Ranked) { a.score >= b.score }

  /** Higher scores first, earlier documents first among equals. */
  predicate Before(a: Ranked, b: Ranked) { a.score > b.score || (a.score == b.score && a.doc < b.doc) }

  /** Live documents among the first n with a positive score, in document order. */
  function Positives(p: Postings, query: seq<Token>, alive: nat -> bool, ln: real -> real, n: nat): seq<Ranked> {
    if n == 0 then [] else
    var front, score := Positives(p, query, alive, ln, n - 1), ScoreDoc(p, query, n - 1, ln);
    if alive(n - 1) && score > 0.0 then front + [Ranked(n - 1, score)] else front
  }

  method TopK(p: Postings, query: seq<Token>, k: nat, alive: nat -> bool, ln: real -> real) returns (out: seq<Ranked>)
    ensures out == Take(Sort(Positives(p, query, alive, ln, |p.lengths|), HigherFirst), k)
  {
    hide Sort, ScoreDoc;
    var scored: seq<Ranked> := [];
    for d := 0 to |p.lengths|
      invariant scored == Positives(p, query, alive, ln, d)
    {
      if alive(d) {
        var score := ScoreDoc(p, query, d, ln);
        if score > 0.0 {
          scored := scored + [Ranked(d, score)];
        }
      }
    }
    out := Take(Sort(scored, HigherFirst), k);
  }

  lemma {:induction false} PositivesExact(p: Postings, query: seq<Token>, alive: nat -> bool, ln: real -> real, n: nat)
    ensures var s := Positives(p, query, alive, ln, n);
      && (forall i, j | 0 <= i < j < |s| :: s[i].doc < s[j].doc)
      && (forall r :: r in s <==>
            r.doc < n && alive(r.doc) && r.score == ScoreDoc(p, query, r.doc, ln) && r.score > 0.0)
  {
    hide ScoreDoc;
    if n > 0 { PositivesExact(p, query, alive, ln, n - 1); }
  }

  lemma {:induction false} InsertBehind(s: seq<Ranked>, x: Ranked)
    requires SortedBy(s, Before) && forall r | r in s :: r.doc < x.doc
    ensures SortedBy(Insert(s, x, HigherFirst), Before)
  {
    if s != [] {
      var k := |s| - 1;
      var front, last := s[..k], s[k];
      assert forall r | r in front :: Before(r, last);
      assert s == front + [last];
      if HigherFirst(last, x) {
        AppendSorted(s, x, Before);
      } else {
        InsertBehind(front, x);
        InsertPermutes(front, x, HigherFirst);
        var placed := Insert(front, x, HigherFirst);
        forall r | r in placed
          ensures Before(r, last)
        {
          assert r in multiset(placed);
          assert r == x || r in front;
        }
        AppendSorted(placed, last, Before);
      }
    } else {
      AppendSorted([], x, Before);
    }
  }

  /** Sorting in document order by score alone leaves ties in document order. */
  lemma {:induction false} SortIsStable(s: seq<Ranked>)
    requires forall i, j | 0 <= i < j < |s| :: s[i].doc < s[j].doc
    ensures SortedBy(Sort(s, HigherFirst), Before)
  {
    if s != [] {
      var k := |s| - 1;
      SortIsStable(s[..k]);
      SortPermutes(s[..k], HigherFirst);
      InsertBehind(Sort(s[..k], HigherFirst), s[k]);
    }
  }

  /** What a query answers: live documents holding one of its tokens, best first, ties by document,
      and nothing better is left out. */
  lemma TopKMeaning(p: Postings, docs: seq<seq<Token>>, query: seq<Token>, k: nat, alive: nat -> bool,
                    ln: real -> real, out: seq<Ranked>)
    requires Indexes(p, docs) && PositiveAboveOne(ln)
    requires out == Take(Sort(Positives(p, query, alive, ln, |p.lengths|), HigherFirst), k)
    ensures SortedBy(out, Before) && |out| <= k
    ensures forall i, j | 0 <= i < j < |out| ::
      out[i].score > out[j].score || (out[i].score == out[j].score && out[i].doc < out[j].doc)
    ensures forall r | r in out ::
      r.doc < |docs| && alive(r.doc) && Holds(docs[r.doc], query) && r.score == ScoreDoc(p, query, r.doc, ln)
    ensures forall d | 0 <= d < |docs| && alive(d) && Holds(docs[d], query) ::
      var score := ScoreDoc(p, query, d, ln);
      Ranked(d, score) in out
      || (|out| == k && forall o | o in out :: o.score > score || (o.score == score && o.doc < d))
  {
    hide Sort, ScoreDoc, Holds, Positives, PositiveAboveOne;
    var s := Positives(p, query, alive, ln, |p.lengths|);
    var all := Sort(s, HigherFirst);
    PositivesExact(p, query, alive, ln, |p.lengths|);
    SortIsStable(s);
    SortPermutes(s, HigherFirst);
    forall d: nat
      ensures d < |docs| ==> (ScoreDoc(p, query, d, ln) > 0.0 <==> Holds(docs[d], query))
    {
      ScoreDocSign(p, docs, query, d, ln);
    }
    forall d | 0 <= d < |docs| && alive(d) && Holds(docs[d], query)
      ensures var r := Ranked(d, ScoreDoc(p, query, d, ln));
        r in out || (|out| == k && forall o | o in out :: Before(o, r))
    {
      var r := Ranked(d, ScoreDoc(p, query, d, ln));
      assert r in all;
      var i :| 0 <= i < |all| && all[i] == r;
      if i < |out| { assert out[i] == r; }
    }
    assert forall i, j | 0 <= i < j < |out| :: Before(out[i], out[j]);
  }
}
