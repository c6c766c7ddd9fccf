/** A printer with as few parentheses as the grammar allows, and the proof that the parser undoes it. */
module FilterPrint {
  import opened Wrappers
  import opened Bytes
  import opened Records
  import opened FilterParse
  import Utf8

  const SPACE: byte := 32
  const SP_AND: seq<byte> := [SPACE] + KW_AND + [SPACE]
  const SP_OR: seq<byte> := [SPACE] + KW_OR + [SPACE]

  // --- what can be printed ---

  predicate IsName(f: seq<byte>) {
    f != [] && IsLetter(f[0]) && forall i | 0 <= i < |f| :: IsIdent(f[i])
  }

  predicate SaysNot(f: seq<byte>) { |f| == 3 && StartsWith(f, KW_NOT) }

  predicate PlainValue(v: MetaValue) { v.IntValue? || v.BoolValue? || v.StrValue? }

  predicate PlainLeaf(p: Predicate) {
    IsName(p.field) &&
    match p
    case Eq(_, v) => PlainValue(v)
    case Neq(_, v) => PlainValue(v)
    case In(_, vs) => vs != [] && forall i | 0 <= i < |vs| :: PlainValue(vs[i])
    case Range(_, lo, hi) => (lo == FloatNum(NEG_INF) && hi.IntNum?) || (lo.IntNum? && hi == FloatNum(POS_INF))
    case Present(_) => true
    case NotPresent(_) => true
  }

  predicate Plain(n: BoolNode) {
    match n
    case Leaf(p) => PlainLeaf(p)
    case And(l, r) => Plain(l) && Plain(r)
    case Or(l, r) => Plain(l) && Plain(r)
    case Not(m) => Plain(m)
  }

  /** Some leaf tests a field whose name is the keyword NOT in some case. */
  predicate NamesNot(n: BoolNode) {
    match n
    case Leaf(p) => SaysNot(p.field)
    case And(l, r) => NamesNot(l) || NamesNot(r)
    case Or(l, r) => NamesNot(l) || NamesNot(r)
    case Not(m) => NamesNot(m)
  }

  // --- the printer ---

  function Digits(n: nat): (s: seq<byte>)
    ensures s != [] && forall i | 0 <= i < |s| :: IsDigit(s[i])
  {
    if n < 10 then [48 + n] else Digits(n / 10) + [48 + n % 10]
  }

  function Magnitude(i: int): nat { if i < 0 then -i else i }

  function Escape(t: seq<byte>): seq<byte> {
    if t == [] then []
    else (if t[0] == QUOTE || t[0] == BACKSLASH then [BACKSLASH, t[0]] else [t[0]]) + Escape(t[1..])
  }

  function PrintInt(i: i64): seq<byte> { (if i < 0 then [MINUS] else []) + Digits(Magnitude(i)) }

  function PrintValue(v: MetaValue): seq<byte>
    requires PlainValue(v)
  {
    match v
    case IntValue(i) => PrintInt(i)
    case BoolValue(b) => if b then KW_TRUE else KW_FALSE
    case StrValue(t) => [QUOTE] + Escape(t) + [QUOTE]
  }

  function PrintList(vs: seq<MetaValue>): seq<byte>
    requires vs != [] && forall i | 0 <= i < |vs| :: PlainValue(vs[i])
  {
    if |vs| == 1 then PrintValue(vs[0]) + [CLOSE]
    else PrintValue(vs[0]) + [COMMA, SPACE] + PrintList(vs[1..])
  }

  /** What a leaf prints after the name of its field. */
  function PrintTest(p: Predicate): seq<byte>
    requires PlainLeaf(p)
  {
    match p
    case Eq(_, v) => [SPACE, EQUALS, SPACE] + PrintValue(v)
    case Neq(_, v) => [SPACE, BANG, EQUALS, SPACE] + PrintValue(v)
    case Range(_, lo, hi) =>
      if hi.IntNum? then [SPACE, LESS, EQUALS, SPACE] + PrintInt(hi.i)
      else [SPACE, GREATER, EQUALS, SPACE] + PrintInt(lo.i)
    case In(_, vs) => [SPACE] + KW_IN + [SPACE, OPEN] + PrintList(vs)
    case Present(_) => [SPACE] + KW_IS + [SPACE] + KW_NOT + [SPACE] + KW_NULL
    case NotPresent(_) => [SPACE] + KW_IS + [SPACE] + KW_NULL
  }

  datatype Level = OrLevel | AndLevel | NotLevel

  /** A node printed where the grammar expects an or, an and, or a not expression:
      parentheses only around a node that binds less tightly than its place. */
  function Print(n: BoolNode, at: Level): seq<byte>
    requires Plain(n)
    decreases n, at
  {
    match n
    case Leaf(p) => p.field + PrintTest(p)
    case Not(m) => KW_NOT + [SPACE] + Print(m, NotLevel)
    case And(l, r) =>
      var s := Print(l, AndLevel) + SP_AND + Print(r, NotLevel);
      if at.NotLevel? then [OPEN] + s + [CLOSE] else s
    case Or(l, r) =>
      var s := Print(l, OrLevel) + SP_OR + Print(r, AndLevel);
      if at.OrLevel? then s else [OPEN] + s + [CLOSE]
  }

  // --- reading words back, whatever follows ---

  /** What can stand after a complete word: nothing, or a byte that ends it. */
  predicate Ends(s: seq<byte>) { s == [] || s[0] == SPACE || s[0] == CLOSE || s[0] == COMMA }

  lemma SkipOne(s: seq<byte>)
    ensures AfterWs([SPACE] + s) == AfterWs(s)
  {
    assert ([SPACE] + s)[1..] == s;
  }

  lemma NoBlank(s: seq<byte>)
    requires s == [] || !IsWs(s[0])
    ensures AfterWs(s) == s
  {
  }

  lemma {:induction false} SkipTwice(s: seq<byte>)
    ensures AfterWs(AfterWs(s)) == AfterWs(s)
    decreases |s|
  {
    if s != [] && IsWs(s[0]) { SkipTwice(s[1..]); }
  }

  /** A keyword is taken when the word ends after it. */
  lemma WordTaken(kw: seq<byte>, s: seq<byte>)
    requires Ends(s)
    ensures AfterKeyword(kw + s, kw) == Some(s)
  {
    assert (kw + s)[|kw|..] == s;
  }

  /** A name is taken for a keyword only when it is that keyword in some case. */
  lemma NameIsKeyword(f: seq<byte>, s: seq<byte>, kw: seq<byte>)
    requires IsName(f) && Ends(s)
    requires forall i | 0 <= i < |kw| :: IsLetter(kw[i])
    ensures AfterKeyword(f + s, kw) == if |f| == |kw| && StartsWith(f, kw) then Some(s) else None
  {
    var t := f + s;
    if |f| < |kw| {
      if |t| >= |kw| {
        assert t[|f|] == s[0];
        assert Lower(t[|f|]) != Lower(kw[|f|]);
      }
    } else {
      assert forall i | 0 <= i < |kw| :: t[i] == f[i];
      if |f| == |kw| { assert t[|kw|..] == s; } else { assert IsIdent(t[|kw|]); }
    }
  }

  lemma {:induction false} IdentRun(f: seq<byte>, s: seq<byte>)
    requires Ends(s) && forall i | 0 <= i < |f| :: IsIdent(f[i])
    ensures IdentLen(f + s) == |f|
  {
    if f == [] {
      assert f + s == s;
    } else {
      assert (f + s)[1..] == f[1..] + s;
      IdentRun(f[1..], s);
    }
  }

  lemma NameBack(f: seq<byte>, s: seq<byte>)
    requires IsName(f) && Ends(s)
    ensures ReadIdent(f + s) == Some((f, s))
  {
    IdentRun(f, s);
    assert (f + s)[..|f|] == f && (f + s)[|f|..] == s;
  }

  // --- reading literals back ---

  lemma {:induction false} DigitRun(d: seq<byte>, s: seq<byte>)
    requires Ends(s) && forall i | 0 <= i < |d| :: IsDigit(d[i])
    ensures NumberRun(d + s, false) == (|d|, d != [], false)
  {
    if d == [] {
      assert d + s == s;
    } else {
      assert (d + s)[1..] == d[1..] + s;
      DigitRun(d[1..], s);
    }
  }

  lemma {:induction false} DigitsBack(n: nat)
    ensures Decimal(Digits(n)) == n
  {
    if n < 10 {
      assert Digits(n)[..0] == [];
    } else {
      DigitsBack(n / 10);
      assert Digits(n)[..|Digits(n)| - 1] == Digits(n / 10);
    }
  }

  lemma NumeralBack(i: i64, s: seq<byte>, fl: FloatReader)
    requires Ends(s)
    ensures ReadIntOrFloat(PrintInt(i) + s, fl) == Some((IntValue(i), s))
  {
    hide Digits, NumberRun, ReadIntOrFloat, ParseI64;
    var d := Digits(Magnitude(i));
    var t := PrintInt(i);
    var body := d + s;
    DigitRun(d, s);
    ParseBack(i, d);
    Parts(t, s);
    assert if i < 0 then (t + s)[1..] == body else t + s == body;
    IntOrFloatReadFrom(t + s, body, t, s, fl);
  }

  lemma BoundBack(i: i64, s: seq<byte>, fl: FloatReader)
    requires Ends(s)
    ensures ReadNumber([SPACE] + PrintInt(i) + s, fl) == Some((IntNum(i), s))
  {
    hide Digits, NumberRun, ReadNumber, ParseI64, AfterWs;
    var d := Digits(Magnitude(i));
    var t := PrintInt(i);
    var body := d + s;
    SkipOne(t + s);
    NoBlank(t + s);
    assert [SPACE] + t + s == [SPACE] + (t + s);
    DigitRun(d, s);
    ParseBack(i, d);
    Parts(t, s);
    assert if i < 0 then (t + s)[1..] == body else t + s == body;
    NumberReadFrom([SPACE] + t + s, t + s, body, t, s, fl);
  }

  lemma Parts(t: seq<byte>, s: seq<byte>)
    ensures (t + s)[..|t|] == t && (t + s)[|t|..] == s
  {
  }

  lemma ParseBack(i: i64, d: seq<byte>)
    requires d == Digits(Magnitude(i))
    ensures ParseI64((if i < 0 then [MINUS] else []) + d) == Some(i)
  {
    hide Digits, Decimal;
    DigitsBack(Magnitude(i));
    assert ([MINUS] + d)[1..] == d;
    assert [] + d == d;
  }

  lemma IntBack(i: i64, s: seq<byte>, fl: FloatReader)
    requires Ends(s)
    ensures ReadLiteral(PrintValue(IntValue(i)) + s, fl) == Some((IntValue(i), s))
  {
    hide Digits, ReadIntOrFloat, AfterKeyword, ReadString;
    NumeralBack(i, s, fl);
    assert PrintValue(IntValue(i)) == PrintInt(i);
    NoBlank(PrintInt(i) + s);
  }

  lemma {:induction false} QuotedBack(t: seq<byte>, s: seq<byte>)
    ensures ReadQuoted(Escape(t) + [QUOTE] + s, QUOTE) == Some((t, s))
  {
    var all := Escape(t) + [QUOTE] + s;
    if t == [] {
      assert all[1..] == s;
    } else {
      var rest := Escape(t[1..]) + [QUOTE] + s;
      QuotedBack(t[1..], s);
      assert [t[0]] + t[1..] == t;
      if t[0] == QUOTE || t[0] == BACKSLASH {
        assert all == [BACKSLASH, t[0]] + rest;
        assert all[2..] == rest;
      } else {
        assert all == [t[0]] + rest;
        assert all[1..] == rest;
      }
    }
  }

  /** A doubled quote is not an escape: the string ends at the first of the two. */
  lemma DoubledQuoteEnds(t: seq<byte>, s: seq<byte>)
    ensures ReadQuoted(Escape(t) + [QUOTE, QUOTE] + s, QUOTE) == Some((t, [QUOTE] + s))
  {
    hide Escape, ReadQuoted;
    QuotedBack(t, [QUOTE] + s);
    assert Escape(t) + [QUOTE, QUOTE] + s == Escape(t) + [QUOTE] + ([QUOTE] + s);
  }

  lemma TextBack(t: text, s: seq<byte>, fl: FloatReader)
    ensures ReadLiteral(PrintValue(StrValue(t)) + s, fl) == Some((StrValue(t), s))
  {
    hide Escape, ReadQuoted, Utf8.Valid, AfterKeyword;
    var all := PrintValue(StrValue(t)) + s;
    QuotedBack(t, s);
    assert all[1..] == Escape(t) + [QUOTE] + s;
    assert AfterWs(all) == all;
  }

  lemma WordMissed(s: seq<byte>, kw: seq<byte>)
    requires kw != [] && (s == [] || Lower(s[0]) != Lower(kw[0]))
    ensures AfterKeyword(s, kw) == None
  {
  }

  lemma BoolBack(b: bool, s: seq<byte>, fl: FloatReader)
    requires Ends(s)
    ensures ReadLiteral(PrintValue(BoolValue(b)) + s, fl) == Some((BoolValue(b), s))
  {
    hide AfterKeyword, ReadString, ReadIntOrFloat;
    var kw := if b then KW_TRUE else KW_FALSE;
    WordTaken(kw, s);
    if !b { WordMissed(kw + s, KW_TRUE); }
    assert AfterWs(kw + s) == kw + s;
  }

  lemma ValueBack(v: MetaValue, s: seq<byte>, fl: FloatReader)
    requires PlainValue(v) && Ends(s)
    ensures ReadLiteral(PrintValue(v) + s, fl) == Some((v, s))
  {
    hide Digits, Escape, ReadLiteral, PrintValue;
    match v
    case IntValue(i) => IntBack(i, s, fl);
    case StrValue(t) => TextBack(t, s, fl);
    case BoolValue(b) => BoolBack(b, s, fl);
  }

  /** Blanks in front of a literal do not matter. */
  lemma LiteralAfterWs(s: seq<byte>, fl: FloatReader)
    ensures ReadLiteral(AfterWs(s), fl) == ReadLiteral(s, fl)
    ensures ReadLiteral([SPACE] + s, fl) == ReadLiteral(s, fl)
  {
    hide AfterWs, ReadString, ReadIntOrFloat, AfterKeyword;
    SkipOne(s);
    SkipTwice(s);
  }

  lemma SpacedValueBack(v: MetaValue, s: seq<byte>, fl: FloatReader)
    requires PlainValue(v) && Ends(s)
    ensures ReadLiteral([SPACE] + PrintValue(v) + s, fl) == Some((v, s))
  {
    hide ReadLiteral, PrintValue, AfterWs;
    assert [SPACE] + PrintValue(v) + s == [SPACE] + (PrintValue(v) + s);
    LiteralAfterWs(PrintValue(v) + s, fl);
    ValueBack(v, s, fl);
  }

  lemma ListAfterWs(s: seq<byte>, fl: FloatReader)
    ensures ReadList([SPACE] + s, fl) == ReadList(s, fl)
  {
    hide ReadLiteral, AfterWs, AfterChar;
    SkipOne(s);
  }

  lemma {:induction false} ListBack(vs: seq<MetaValue>, s: seq<byte>, fl: FloatReader)
    requires vs != [] && forall i | 0 <= i < |vs| :: PlainValue(vs[i])
    ensures ReadList(PrintList(vs) + s, fl) == Some((vs, s))
  {
    hide ReadLiteral, PrintValue, PlainValue;
    var all := PrintList(vs) + s;
    var v := vs[0];
    if |vs| == 1 {
      var tail := [CLOSE] + s;
      assert all == PrintValue(v) + tail;
      ValueBack(v, tail, fl);
      LiteralAfterWs(all, fl);
      assert AfterWs(tail) == tail && tail[1..] == s;
      assert vs == [v];
    } else {
      var rest := PrintList(vs[1..]) + s;
      var tail := [COMMA] + ([SPACE] + rest);
      assert all == PrintValue(v) + tail;
      ValueBack(v, tail, fl);
      LiteralAfterWs(all, fl);
      assert AfterWs(tail) == tail && tail[1..] == [SPACE] + rest;
      ListAfterWs(rest, fl);
      ListBack(vs[1..], s, fl);
      assert vs == [v] + vs[1..];
    }
  }

  // --- reading leaves back ---

  /** After a name, one blank and a byte that is neither blank nor letter I, an operator is read. */
  lemma OperatorReached(f: seq<byte>, s: seq<byte>, fl: FloatReader)
    requires IsName(f) && s != [] && !IsWs(s[0]) && Lower(s[0]) != 105
    ensures ReadComparison(f + ([SPACE] + s), fl) == ReadOperator(f, s, fl)
  {
    hide AfterKeyword, ReadIdent, ReadOperator, ReadList, ReadNull;
    NameBack(f, [SPACE] + s);
    SkipOne(s);
    WordMissed(s, KW_IS);
    WordMissed(s, KW_IN);
  }

  lemma OperatorsRead(f: seq<byte>, s: seq<byte>, fl: FloatReader)
    ensures ReadOperator(f, [EQUALS] + s, fl) ==
      var r := ReadLiteral(s, fl);
      if r.None? then None else Some((Eq(f, r.value.0), r.value.1))
    ensures ReadOperator(f, [BANG, EQUALS] + s, fl) ==
      var r := ReadLiteral(s, fl);
      if r.None? then None else Some((Neq(f, r.value.0), r.value.1))
  {
    hide ReadLiteral, ReadNumber, NextUp, NextDown;
    assert ([EQUALS] + s)[1..] == s;
    assert ([BANG, EQUALS] + s)[1..] == [EQUALS] + s;
  }

  lemma OperatorBack(p: Predicate, s: seq<byte>, fl: FloatReader)
    requires PlainLeaf(p) && Ends(s) && (p.Eq? || p.Neq?)
    ensures ReadComparison(p.field + PrintTest(p) + s, fl) == Some((p, s))
  {
    hide ReadComparison, ReadLiteral, ReadOperator, PrintValue, IsName, AfterWs, PlainValue;
    var f, v := p.field, p.value;
    var op: seq<byte> := if p.Eq? then [EQUALS] else [BANG, EQUALS];
    var value := [SPACE] + PrintValue(v) + s;
    assert p.field + PrintTest(p) + s == f + ([SPACE] + (op + value));
    OperatorReached(f, op + value, fl);
    SpacedValueBack(v, s, fl);
    OperatorsRead(f, value, fl);
  }

  lemma BoundsRead(f: seq<byte>, s: seq<byte>, fl: FloatReader)
    ensures ReadOperator(f, [LESS, EQUALS] + s, fl) ==
      var r := ReadNumber(s, fl);
      if r.None? then None else Some((Range(f, FloatNum(NEG_INF), r.value.0), r.value.1))
    ensures ReadOperator(f, [GREATER, EQUALS] + s, fl) ==
      var r := ReadNumber(s, fl);
      if r.None? then None else Some((Range(f, r.value.0, FloatNum(POS_INF)), r.value.1))
  {
    hide ReadLiteral, ReadNumber, NextUp, NextDown;
    assert ([LESS, EQUALS] + s)[1..] == [EQUALS] + s;
    assert ([GREATER, EQUALS] + s)[1..] == [EQUALS] + s;
    assert ([EQUALS] + s)[1..] == s;
  }

  lemma RangeBack(p: Predicate, s: seq<byte>, fl: FloatReader)
    requires PlainLeaf(p) && Ends(s) && p.Range?
    ensures ReadComparison(p.field + PrintTest(p) + s, fl) == Some((p, s))
  {
    hide ReadComparison, ReadNumber, ReadOperator, PrintInt, IsName, AfterWs;
    var f := p.field;
    var op: seq<byte> := if p.hi.IntNum? then [LESS, EQUALS] else [GREATER, EQUALS];
    var i := if p.hi.IntNum? then p.hi.i else p.lo.i;
    var value := [SPACE] + PrintInt(i) + s;
    assert p.field + PrintTest(p) + s == f + ([SPACE] + (op + value));
    OperatorReached(f, op + value, fl);
    BoundBack(i, s, fl);
    BoundsRead(f, value, fl);
  }

  lemma StrictBoundsRead(f: seq<byte>, s: seq<byte>, fl: FloatReader)
    requires s != [] && s[0] == SPACE
    ensures ReadOperator(f, [LESS] + s, fl) ==
      var r := ReadNumber(s, fl);
      if r.None? then None else Some((Range(f, FloatNum(NEG_INF), NextDown(r.value.0)), r.value.1))
    ensures ReadOperator(f, [GREATER] + s, fl) ==
      var r := ReadNumber(s, fl);
      if r.None? then None else Some((Range(f, NextUp(r.value.0), FloatNum(POS_INF)), r.value.1))
  {
    hide ReadLiteral, ReadNumber, NextUp, NextDown;
    assert ([LESS] + s)[1..] == s && ([GREATER] + s)[1..] == s;
  }

  /** A strict integer bound reads as the range that starts, or ends, one step on, and so says the same as the
      inclusive bound there; past the extreme integers it reads as the range of the infinity alone. */
  lemma StrictIsNext(f: seq<byte>, i: i64, s: seq<byte>, fl: FloatReader)
    requires IsName(f) && Ends(s)
    ensures
      var above := ReadComparison(f + [SPACE, GREATER, SPACE] + PrintInt(i) + s, fl);
      && above == Some((Range(f, NextUp(IntNum(i)), FloatNum(POS_INF)), s))
      && (i < 0x7FFF_FFFF_FFFF_FFFF ==>
          above == ReadComparison(f + [SPACE, GREATER, EQUALS, SPACE] + PrintInt(i + 1) + s, fl))
    ensures
      var below := ReadComparison(f + [SPACE, LESS, SPACE] + PrintInt(i) + s, fl);
      && below == Some((Range(f, FloatNum(NEG_INF), NextDown(IntNum(i))), s))
      && (i > -0x8000_0000_0000_0000 ==>
          below == ReadComparison(f + [SPACE, LESS, EQUALS, SPACE] + PrintInt(i - 1) + s, fl))
  {
    hide ReadComparison, ReadNumber, ReadOperator, PrintInt, IsName, AfterWs;
    var exact := [SPACE] + PrintInt(i) + s;
    BoundBack(i, s, fl);
    StrictBoundsRead(f, exact, fl);
    StrictReached(f, GREATER, exact, fl);
    StrictReached(f, LESS, exact, fl);
    assert f + [SPACE, GREATER, SPACE] + PrintInt(i) + s == f + ([SPACE] + ([GREATER] + exact));
    assert f + [SPACE, LESS, SPACE] + PrintInt(i) + s == f + ([SPACE] + ([LESS] + exact));
    if i < 0x7FFF_FFFF_FFFF_FFFF { InclusiveRead(f, GREATER, i + 1, s, fl); }
    if i > -0x8000_0000_0000_0000 { InclusiveRead(f, LESS, i - 1, s, fl); }
  }

  lemma InclusiveRead(f: seq<byte>, op: byte, i: i64, s: seq<byte>, fl: FloatReader)
    requires IsName(f) && Ends(s) && (op == LESS || op == GREATER)
    ensures ReadComparison(f + [SPACE, op, EQUALS, SPACE] + PrintInt(i) + s, fl) ==
      Some((if op == LESS then Range(f, FloatNum(NEG_INF), IntNum(i)) else Range(f, IntNum(i), FloatNum(POS_INF)), s))
  {
    hide ReadComparison, ReadNumber, ReadOperator, PrintInt, IsName, AfterWs;
    var value := [SPACE] + PrintInt(i) + s;
    BoundBack(i, s, fl);
    BoundsRead(f, value, fl);
    OperatorReached(f, [op, EQUALS] + value, fl);
    assert f + [SPACE, op, EQUALS, SPACE] + PrintInt(i) + s == f + ([SPACE] + ([op, EQUALS] + value));
  }

  lemma StrictReached(f: seq<byte>, op: byte, s: seq<byte>, fl: FloatReader)
    requires IsName(f) && (op == LESS || op == GREATER)
    ensures ReadComparison(f + ([SPACE] + ([op] + s)), fl) == ReadOperator(f, [op] + s, fl)
  {
    hide ReadComparison, ReadOperator, IsName;
    OperatorReached(f, [op] + s, fl);
  }

  lemma InBack(p: Predicate, s: seq<byte>, fl: FloatReader)
    requires PlainLeaf(p) && p.In?
    ensures ReadComparison(p.field + PrintTest(p) + s, fl) == Some((p, s))
  {
    hide ReadIdent, ReadList, PrintList, ReadOperator, IsName, PlainValue;
    var f, vs := p.field, p.values;
    var values := PrintList(vs) + s;
    var list := [SPACE] + ([OPEN] + values);
    var rest := KW_IN + list;
    assert p.field + PrintTest(p) + s == f + ([SPACE] + rest);
    NameBack(f, [SPACE] + rest);
    SkipOne(rest);
    assert AfterWs(rest) == rest;
    assert AfterKeyword(rest, KW_IS) == None by { assert Lower(rest[1]) != Lower(KW_IS[1]); }
    WordTaken(KW_IN, list);
    SkipOne([OPEN] + values);
    assert AfterWs([OPEN] + values) == [OPEN] + values;
    assert ([OPEN] + values)[1..] == values;
    ListBack(vs, s, fl);
  }

  lemma NullBack(p: Predicate, s: seq<byte>, fl: FloatReader)
    requires PlainLeaf(p) && Ends(s) && (p.Present? || p.NotPresent?)
    ensures ReadComparison(p.field + PrintTest(p) + s, fl) == Some((p, s))
  {
    hide ReadIdent, ReadList, ReadOperator, IsName, AfterKeyword;
    var f := p.field;
    var nul := KW_NULL + s;
    var negated := KW_NOT + ([SPACE] + nul);
    var test := if p.Present? then negated else nul;
    var rest := KW_IS + ([SPACE] + test);
    assert p.field + PrintTest(p) + s == f + ([SPACE] + rest);
    NameBack(f, [SPACE] + rest);
    SkipOne(rest);
    assert AfterWs(rest) == rest;
    WordTaken(KW_IS, [SPACE] + test);
    SkipOne(test);
    assert AfterWs(test) == test;
    WordTaken(KW_NULL, s);
    SkipOne(nul);
    assert AfterWs(nul) == nul;
    if p.Present? {
      WordTaken(KW_NOT, [SPACE] + nul);
    } else {
      assert AfterKeyword(nul, KW_NOT) == None by { NullIsNotNot(s); }
    }
  }

  lemma NullIsNotNot(s: seq<byte>)
    ensures AfterKeyword(KW_NULL + s, KW_NOT) == None
  {
    assert Lower((KW_NULL + s)[1]) != Lower(KW_NOT[1]);
  }

  lemma LeafBack(p: Predicate, s: seq<byte>, fl: FloatReader)
    requires PlainLeaf(p) && Ends(s)
    ensures ReadComparison(p.field + PrintTest(p) + s, fl) == Some((p, s))
  {
    hide ReadComparison, PrintTest;
    match p
    case Eq(_, _) => OperatorBack(p, s, fl);
    case Neq(_, _) => OperatorBack(p, s, fl);
    case In(_, _) => InBack(p, s, fl);
    case Range(_, _, _) => RangeBack(p, s, fl);
    case Present(_) => NullBack(p, s, fl);
    case NotPresent(_) => NullBack(p, s, fl);
  }

  // --- reading trees back ---

  lemma NotAfterWs(s: seq<byte>, fl: FloatReader)
    ensures ReadNot([SPACE] + s, fl) == ReadNot(s, fl)
    ensures ReadNot(AfterWs(s), fl) == ReadNot(s, fl)
  {
    hide AfterWs, AfterKeyword, ReadPrimary;
    SkipOne(s);
    SkipTwice(s);
  }

  lemma AndAfterWs(s: seq<byte>, fl: FloatReader)
    ensures ReadAnd([SPACE] + s, fl) == ReadAnd(s, fl)
    ensures ReadAnd(AfterWs(s), fl) == ReadAnd(s, fl)
  {
    hide AfterWs, ReadNot, AndLoop;
    NotAfterWs(s, fl);
  }

  lemma OrLoopAfterWs(n: BoolNode, s: seq<byte>, fl: FloatReader)
    ensures OrLoop(n, AfterWs(s), fl) == OrLoop(n, s, fl)
  {
    hide AfterWs, AfterKeyword, ReadAnd;
    SkipTwice(s);
  }

  /** What a leaf prints after its field is not itself the start of an expression. */
  lemma TestAloneFails(p: Predicate, s: seq<byte>, fl: FloatReader)
    requires PlainLeaf(p)
    ensures ReadNot(PrintTest(p) + s, fl) == None
  {
    if p.In? || p.Present? || p.NotPresent? { WordTestAlone(p, s, fl); } else { SignTestAlone(p, s, fl); }
  }

  lemma WordTestAlone(p: Predicate, s: seq<byte>, fl: FloatReader)
    requires PlainLeaf(p) && (p.In? || p.Present? || p.NotPresent?)
    ensures ReadNot(PrintTest(p) + s, fl) == None
  {
    hide ReadNot, PrintList, IsName, PlainValue;
    var word := if p.In? then KW_IN else KW_IS;
    var u := (if p.In? then [OPEN] + PrintList(p.values)
              else if p.Present? then KW_NOT + [SPACE] + KW_NULL else KW_NULL) + s;
    var t := word + ([SPACE] + u);
    assert PrintTest(p) + s == [SPACE] + t;
    NotAfterWs(t, fl);
    WordAlone(word, u, fl);
  }

  lemma SignTestAlone(p: Predicate, s: seq<byte>, fl: FloatReader)
    requires PlainLeaf(p) && (p.Eq? || p.Neq? || p.Range?)
    ensures ReadNot(PrintTest(p) + s, fl) == None
  {
    hide ReadNot, PrintValue, PrintInt, IsName, PlainValue;
    var all := PrintTest(p) + s;
    var t := all[1..];
    assert all == [SPACE] + t;
    NotAfterWs(t, fl);
    SignAlone(t, fl);
  }

  lemma WordAlone(word: seq<byte>, u: seq<byte>, fl: FloatReader)
    requires (word == KW_IN || word == KW_IS) && u != [] && (u[0] == OPEN || u[0] == KW_NOT[0])
    ensures ReadNot(word + ([SPACE] + u), fl) == None
  {
    hide AfterKeyword, ReadIdent, ReadNull, ReadList, IsName;
    var t := word + ([SPACE] + u);
    NoBlank(t);
    WordMissed(t, KW_NOT);
    WordsAreNames();
    NameBack(word, [SPACE] + u);
    SkipOne(u);
    NoBlank(u);
    WordMissed(u, KW_IS);
    WordMissed(u, KW_IN);
  }

  lemma SignAlone(t: seq<byte>, fl: FloatReader)
    requires t != [] && (t[0] == EQUALS || t[0] == BANG || t[0] == LESS || t[0] == GREATER)
    ensures ReadNot(t, fl) == None
  {
    hide AfterKeyword, ReadIdent;
    NoBlank(t);
    WordMissed(t, KW_NOT);
    NoIdent(t);
  }

  lemma WordsAreNames()
    ensures IsName(KW_IN) && IsName(KW_IS)
  {
  }

  lemma NoIdent(s: seq<byte>)
    requires s != [] && !IsLetter(s[0]) && !IsWs(s[0])
    ensures ReadIdent(s) == None
  {
  }

  lemma LeafNotBack(p: Predicate, s: seq<byte>, fl: FloatReader)
    requires PlainLeaf(p) && Ends(s)
    ensures ReadNot(p.field + PrintTest(p) + s, fl) == if SaysNot(p.field) then None else Some((Leaf(p), s))
  {
    hide AfterKeyword, ReadComparison, PrintTest, StartsWith;
    var test := PrintTest(p) + s;
    var all := p.field + test;
    assert all == p.field + PrintTest(p) + s;
    assert Ends(test) by { TestEndsName(p, s); }
    assert AfterWs(all) == all;
    NameIsKeyword(p.field, test, KW_NOT);
    if SaysNot(p.field) {
      TestAloneFails(p, s, fl);
    } else {
      LeafBack(p, s, fl);
    }
  }

  lemma TestEndsName(p: Predicate, s: seq<byte>)
    requires PlainLeaf(p)
    ensures Ends(PrintTest(p) + s)
  {
    hide PrintValue, PrintInt, PrintList, PlainValue;
  }

  /** An OR word is not an AND word. */
  lemma OrIsNotAnd(s: seq<byte>)
    ensures AfterKeyword(AfterWs(SP_OR + s), KW_AND) == None
  {
    var t := KW_OR + ([SPACE] + s);
    assert SP_OR + s == [SPACE] + t;
    SkipOne(t);
    assert AfterWs(t) == t;
  }

  lemma AndGoesOn(left: BoolNode, s: seq<byte>, fl: FloatReader)
    ensures AndLoop(left, SP_AND + s, fl) ==
      var r := ReadNot(s, fl);
      if r.None? then None else AndLoop(And(left, r.value.0), r.value.1, fl)
  {
    hide AfterKeyword, ReadNot;
    var t := KW_AND + ([SPACE] + s);
    assert SP_AND + s == [SPACE] + t;
    SkipOne(t);
    assert AfterWs(t) == t;
    WordTaken(KW_AND, [SPACE] + s);
    NotAfterWs(s, fl);
  }

  lemma OrGoesOn(left: BoolNode, s: seq<byte>, fl: FloatReader)
    ensures OrLoop(left, SP_OR + s, fl) ==
      var r := ReadAnd(s, fl);
      if r.None? then None else OrLoop(Or(left, r.value.0), r.value.1, fl)
  {
    hide AfterKeyword, ReadAnd;
    var t := KW_OR + ([SPACE] + s);
    assert SP_OR + s == [SPACE] + t;
    SkipOne(t);
    assert AfterWs(t) == t;
    WordTaken(KW_OR, [SPACE] + s);
    AndAfterWs(s, fl);
  }

  /** Which of the three readers hands a node to which: the measure of the mutual induction below. */
  function Rank(n: BoolNode, at: Level): nat {
    match n
    case Leaf(_) => if at.NotLevel? then 0 else if at.AndLevel? then 1 else 2
    case Not(_) => if at.NotLevel? then 0 else if at.AndLevel? then 1 else 2
    case And(_, _) => if at.AndLevel? then 0 else if at.OrLevel? then 1 else 2
    case Or(_, _) => if at.OrLevel? then 0 else if at.NotLevel? then 1 else 2
  }

  lemma {:induction false} NotBack(n: BoolNode, s: seq<byte>, fl: FloatReader)
    requires Plain(n) && Ends(s)
    ensures ReadNot(Print(n, NotLevel) + s, fl) == if NamesNot(n) then None else Some((n, s))
    decreases n, Rank(n, NotLevel)
  {
    hide AfterKeyword, ReadComparison, PrintTest, AfterWs, ReadOr, OrLoop, Ends, PlainLeaf, SaysNot;
    match n
    case Leaf(p) => LeafNotBack(p, s, fl);
    case Not(m) =>
      var rest := Print(m, NotLevel) + s;
      assert Print(n, NotLevel) + s == KW_NOT + ([SPACE] + rest);
      NotBack(m, s, fl);
      NotAfterWs(rest, fl);
      assert Ends([SPACE] + rest) by { SpaceEnds(rest); }
      WordTaken(KW_NOT, [SPACE] + rest);
      NoBlank(KW_NOT + ([SPACE] + rest));
    case And(l, r) => GroupBack(n, s, fl);
    case Or(l, r) => GroupBack(n, s, fl);
  }

  /** A parenthesised node comes back whole. */
  lemma {:induction false} GroupBack(n: BoolNode, s: seq<byte>, fl: FloatReader)
    requires Plain(n) && (n.And? || n.Or?)
    ensures ReadNot(Print(n, NotLevel) + s, fl) == if NamesNot(n) then None else Some((n, s))
    decreases n, Rank(n, NotLevel), 0
  {
    hide ReadComparison, AfterWs, ReadOr, OrLoop, Ends, Plain, NamesNot, AfterKeyword, AfterChar, Print;
    var close := [CLOSE] + s;
    var inner := Print(n, OrLevel) + close;
    var all := [OPEN] + inner;
    GroupPrint(n);
    assert Print(n, NotLevel) + s == all;
    ClosedGroup(n, s, fl);
    OrBack(n, close, fl);
    NoBlank(all);
    WordMissed(all, KW_NOT);
    assert AfterChar(all, OPEN) == Some(inner) by { CharTaken(OPEN, inner); }
    assert AfterChar(close, CLOSE) == Some(s) by { CharTaken(CLOSE, s); }
  }

  lemma GroupPrint(n: BoolNode)
    requires Plain(n) && (n.And? || n.Or?)
    ensures Print(n, NotLevel) == [OPEN] + Print(n, OrLevel) + [CLOSE]
  {
    hide Plain;
  }

  lemma CharTaken(c: byte, s: seq<byte>)
    ensures AfterChar([c] + s, c) == Some(s)
  {
    assert ([c] + s)[1..] == s;
  }

  lemma SpaceEnds(s: seq<byte>)
    ensures Ends([SPACE] + s)
  {
  }

  /** A closing parenthesis ends both loops. */
  lemma ClosedGroup(n: BoolNode, s: seq<byte>, fl: FloatReader)
    ensures Ends([CLOSE] + s) && AfterWs([CLOSE] + s) == [CLOSE] + s
    ensures AfterKeyword(AfterWs([CLOSE] + s), KW_AND) == None
    ensures OrLoop(n, [CLOSE] + s, fl) == Some((n, [CLOSE] + s))
  {
    hide AfterKeyword;
    var close := [CLOSE] + s;
    assert close[0] == CLOSE;
    NoBlank(close);
    WordMissed(close, KW_AND);
    WordMissed(close, KW_OR);
  }

  lemma {:induction false} AndBack(n: BoolNode, s: seq<byte>, fl: FloatReader)
    requires Plain(n) && Ends(s)
    ensures ReadAnd(Print(n, AndLevel) + s, fl) == if NamesNot(n) then None else AndLoop(n, s, fl)
    decreases n, Rank(n, AndLevel)
  {
    hide AfterKeyword, ReadNot, AndLoop, Ends, PrintTest, PlainLeaf, SaysNot;
    match n
    case And(l, r) =>
      var right := Print(r, NotLevel) + s;
      var rest := SP_AND + right;
      assert Print(n, AndLevel) + s == Print(l, AndLevel) + rest;
      assert Ends(rest) by { SpaceEnds(KW_AND + [SPACE] + right); assert rest == [SPACE] + (KW_AND + [SPACE] + right); }
      AndBack(l, rest, fl);
      AndGoesOn(l, right, fl);
      NotBack(r, s, fl);
    case Leaf(_) => NotBack(n, s, fl);
    case Not(_) => NotBack(n, s, fl);
    case Or(_, _) => NotBack(n, s, fl);
  }

  lemma {:induction false} OrBack(n: BoolNode, s: seq<byte>, fl: FloatReader)
    requires Plain(n) && Ends(s) && AfterKeyword(AfterWs(s), KW_AND) == None
    ensures ReadOr(Print(n, OrLevel) + s, fl) == if NamesNot(n) then None else OrLoop(n, s, fl)
    decreases n, Rank(n, OrLevel)
  {
    hide AfterKeyword, AfterWs, ReadAnd, OrLoop, Ends, PrintTest, PlainLeaf, SaysNot;
    match n
    case Or(l, r) =>
      var right := Print(r, AndLevel) + s;
      var rest := SP_OR + right;
      assert Print(n, OrLevel) + s == Print(l, OrLevel) + rest;
      assert Ends(rest) by { SpaceEnds(KW_OR + [SPACE] + right); assert rest == [SPACE] + (KW_OR + [SPACE] + right); }
      OrIsNotAnd(right);
      OrBack(l, rest, fl);
      OrGoesOn(l, right, fl);
      AndBack(r, s, fl);
      OrLoopAfterWs(n, s, fl);
    case And(_, _) => AndBack(n, s, fl); OrLoopAfterWs(n, s, fl);
    case Leaf(_) => AndBack(n, s, fl); OrLoopAfterWs(n, s, fl);
    case Not(_) => AndBack(n, s, fl); OrLoopAfterWs(n, s, fl);
  }

  // --- the theorem ---

  lemma {:induction false} PrintStarts(n: BoolNode, at: Level)
    requires Plain(n)
    ensures Print(n, at) != [] && !IsWs(Print(n, at)[0])
    decreases n, at
  {
    hide PrintTest;
    match n
    case Leaf(_) =>
    case Not(_) =>
    case And(l, _) => PrintStarts(l, AndLevel);
    case Or(l, _) => PrintStarts(l, OrLevel);
  }

  /** Parsing the print gives the tree back exactly when no field is named NOT; otherwise it is an error. */
  lemma ParsePrint(n: BoolNode, fl: FloatReader)
    requires Plain(n)
    ensures ParseWhere(Print(n, OrLevel), fl) == if NamesNot(n) then Err(Schema) else Ok(Some(n))
  {
    hide ReadOr, OrLoop, Print, NamesNot, Plain;
    var all := Print(n, OrLevel);
    PrintStarts(n, OrLevel);
    NoBlank(all);
    assert all + [] == all;
    NothingLeft(n, fl);
    OrBack(n, [], fl);
  }

  lemma NothingLeft(n: BoolNode, fl: FloatReader)
    ensures Ends([]) && AfterWs([]) == [] && AfterKeyword(AfterWs([]), KW_AND) == None
    ensures OrLoop(n, [], fl) == Some((n, []))
  {
  }
}
