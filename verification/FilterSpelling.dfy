/** How words, literals and comparisons of a where-string may be spelled, and that the parser reads exactly these:
    whatever is so spelled reads back, and whatever reads was so spelled. */
module FilterSpelling {
  import opened Wrappers
  import opened Bytes
  import opened Records
  import opened FilterParse
  import opened FilterPrint

  // --- blanks and words ---

  predicate Blank(g: seq<byte>) { forall i | 0 <= i < |g| :: IsWs(g[i]) }

  /** A keyword in any case. */
  predicate Word(w: seq<byte>, kw: seq<byte>) { |w| == |kw| && StartsWith(w, kw) }

  /** What may follow a word. */
  predicate WordEnds(s: seq<byte>) { s == [] || !IsIdent(s[0]) }

  lemma {:induction false} GapSkipped(g: seq<byte>, s: seq<byte>)
    requires Blank(g)
    ensures AfterWs(g + s) == AfterWs(s)
    decreases |g|
  {
    if g == [] {
      assert g + s == s;
    } else {
      assert (g + s)[1..] == g[1..] + s;
      GapSkipped(g[1..], s);
    }
  }

  lemma {:induction false} GapFound(s: seq<byte>) returns (g: seq<byte>)
    ensures Blank(g) && s == g + AfterWs(s)
    ensures AfterWs(s) == [] || !IsWs(AfterWs(s)[0])
    decreases |s|
  {
    if s != [] && IsWs(s[0]) {
      var h := GapFound(s[1..]);
      g := [s[0]] + h;
      BlankMore(s[0], h);
      assert s == [s[0]] + s[1..] && s == [s[0]] + (h + AfterWs(s[1..]));
    } else {
      g := [];
    }
  }

  lemma BlankMore(b: byte, g: seq<byte>)
    requires IsWs(b) && Blank(g)
    ensures Blank([b] + g)
  {
  }

  lemma WordRead(w: seq<byte>, kw: seq<byte>, s: seq<byte>)
    requires Word(w, kw) && WordEnds(s)
    ensures AfterKeyword(w + s, kw) == Some(s)
  {
    assert (w + s)[|kw|..] == s;
  }

  lemma WordFound(s: seq<byte>, kw: seq<byte>) returns (w: seq<byte>)
    requires AfterKeyword(s, kw).Some?
    ensures var rest := AfterKeyword(s, kw).value; s == w + rest && Word(w, kw) && WordEnds(rest)
  {
    w := s[..|kw|];
  }

  /** The bytes of a text of ASCII characters. */
  function Ascii(s: string): seq<byte>
    requires forall i | 0 <= i < |s| :: s[i] as int < 128
  {
    seq(|s|, i requires 0 <= i < |s| => s[i] as int)
  }

  lemma KeywordsSpelled()
    ensures KW_OR == Ascii("OR") && KW_AND == Ascii("AND") && KW_NOT == Ascii("NOT")
    ensures KW_IS == Ascii("IS") && KW_IN == Ascii("IN") && KW_NULL == Ascii("NULL")
    ensures KW_TRUE == Ascii("true") && KW_FALSE == Ascii("false")
    ensures [EQUALS, BANG, LESS, GREATER] == Ascii("=!<>") && [OPEN, CLOSE, COMMA] == Ascii("(),")
    ensures [MINUS, PLUS, DOT] == Ascii("-+.") && [QUOTE, DQUOTE, BACKSLASH] == Ascii("'\"\\")
  {
  }

  lemma CharactersSpelled(b: byte)
    ensures IsWs(b) <==> b == ' ' as int || b == '\t' as int || b == '\n' as int || b == '\r' as int
    ensures IsDigit(b) <==> '0' as int <= b <= '9' as int
    ensures IsLetter(b) <==> 'a' as int <= b <= 'z' as int || 'A' as int <= b <= 'Z' as int || b == '_' as int
    ensures Lower(b) == if 'A' as int <= b <= 'Z' as int then b - 'A' as int + 'a' as int else b
  {
  }

  // --- numerals ---

  predicate AllDigits(d: seq<byte>) { forall i | 0 <= i < |d| :: IsDigit(d[i]) }

  /** A sign or none, digits, and perhaps a dot with digits behind it. */
  datatype Numeral = Numeral(sign: seq<byte>, whole: seq<byte>, fraction: Option<seq<byte>>)

  function NumeralBody(n: Numeral): seq<byte> {
    n.whole + if n.fraction.Some? then [DOT] + n.fraction.value else []
  }

  function NumeralText(n: Numeral): seq<byte> { n.sign + NumeralBody(n) }

  /** At least one digit in all. */
  predicate IsNumeral(n: Numeral) {
    && AllDigits(n.whole)
    && (n.whole == [] ==> n.fraction.Some? && n.fraction.value != [])
    && (n.fraction.Some? ==> AllDigits(n.fraction.value))
  }

  predicate NumeralEnds(n: Numeral, s: seq<byte>) {
    s == [] || (!IsDigit(s[0]) && (n.fraction.None? ==> s[0] != DOT))
  }

  /** The integer a numeral without a dot denotes. */
  function WholeValue(n: Numeral): int {
    if n.sign == [MINUS] then -(Decimal(n.whole) as int) else Decimal(n.whole)
  }

  function Pow10(n: nat): nat { if n == 0 then 1 else 10 * Pow10(n - 1) }

  /** Digits weighted by their place. */
  function Positional(d: seq<byte>): int {
    if d == [] then 0 else (d[0] - 48) * Pow10(|d| - 1) + Positional(d[1..])
  }

  lemma {:induction false} PositionalAppend(d: seq<byte>, b: byte)
    ensures Positional(d + [b]) == 10 * Positional(d) + (b - 48)
    decreases |d|
  {
    if d == [] {
      assert ([] + [b])[1..] == [];
    } else {
      assert (d + [b])[1..] == d[1..] + [b];
      PositionalAppend(d[1..], b);
      assert Pow10(|d|) == 10 * Pow10(|d| - 1);
      assert (d[0] - 48) * (10 * Pow10(|d| - 1)) == 10 * ((d[0] - 48) * Pow10(|d| - 1));
    }
  }

  /** A digit string is read as the decimal number it writes, leading zeros included. */
  lemma {:induction false} DecimalIsPositional(d: seq<byte>)
    requires AllDigits(d)
    ensures Decimal(d) == Positional(d)
    decreases |d|
  {
    if d != [] {
      var front, last := d[..|d| - 1], d[|d| - 1];
      DecimalIsPositional(front);
      assert d == front + [last];
      PositionalAppend(front, last);
    }
  }

  predicate FitsI64(i: int) { -0x8000_0000_0000_0000 <= i < 0x8000_0000_0000_0000 }

  lemma {:induction false} FractionRun(d: seq<byte>, s: seq<byte>)
    requires AllDigits(d) && (s == [] || !IsDigit(s[0]))
    ensures NumberRun(d + s, true) == (|d|, d != [], false)
    decreases |d|
  {
    if d == [] {
      assert d + s == s;
    } else {
      assert (d + s)[1..] == d[1..] + s;
      FractionRun(d[1..], s);
    }
  }

  lemma {:induction false} WholeRun(d: seq<byte>, s: seq<byte>)
    requires AllDigits(d) && (s == [] || (!IsDigit(s[0]) && s[0] != DOT))
    ensures NumberRun(d + s, false) == (|d|, d != [], false)
    decreases |d|
  {
    if d == [] {
      assert d + s == s;
    } else {
      assert (d + s)[1..] == d[1..] + s;
      WholeRun(d[1..], s);
    }
  }

  lemma {:induction false} DottedRun(d: seq<byte>, f: seq<byte>, s: seq<byte>)
    requires AllDigits(d) && AllDigits(f) && (s == [] || !IsDigit(s[0]))
    ensures NumberRun(d + ([DOT] + f) + s, false) == (|d| + 1 + |f|, d != [] || f != [], true)
    decreases |d|
  {
    var all := d + ([DOT] + f) + s;
    if d == [] {
      assert all[1..] == f + s;
      FractionRun(f, s);
    } else {
      assert all[1..] == d[1..] + ([DOT] + f) + s;
      DottedRun(d[1..], f, s);
    }
  }

  lemma NumeralRun(n: Numeral, s: seq<byte>)
    requires IsNumeral(n) && NumeralEnds(n, s)
    ensures NumberRun(NumeralBody(n) + s, false) == (|NumeralBody(n)|, true, n.fraction.Some?)
  {
    hide NumberRun;
    if n.fraction.Some? {
      DottedRun(n.whole, n.fraction.value, s);
    } else {
      WholeRun(n.whole, s);
      assert NumeralBody(n) == n.whole;
    }
  }

  lemma {:induction false} FractionFound(s: seq<byte>) returns (f: seq<byte>)
    ensures AllDigits(f) && f <= s && NumberRun(s, true) == (|f|, f != [], false)
    ensures s[|f|..] == [] || !IsDigit(s[|f|..][0])
    decreases |s|
  {
    if s != [] && IsDigit(s[0]) {
      var t := FractionFound(s[1..]);
      f := [s[0]] + t;
      assert s[1..][|t|..] == s[|f|..];
    } else {
      f := [];
    }
  }

  /** The longest numeral at the front, as far as it goes. */
  predicate Leading(n: Numeral, s: seq<byte>) {
    var (k, digit, dot) := NumberRun(s, false);
    && NumeralBody(n) == s[..k] && dot == n.fraction.Some?
    && AllDigits(n.whole) && (n.fraction.Some? ==> AllDigits(n.fraction.value))
    && (digit <==> IsNumeral(n)) && NumeralEnds(n, s[k..])
  }

  lemma {:induction false} NumeralFound(s: seq<byte>) returns (n: Numeral)
    ensures n.sign == [] && Leading(n, s)
    decreases |s|
  {
    hide Leading;
    if s != [] && IsDigit(s[0]) {
      var rest := NumeralFound(s[1..]);
      n := Numeral([], [s[0]] + rest.whole, rest.fraction);
      DigitLeads(rest, s);
    } else {
      var f := [];
      if s != [] { f := FractionFound(s[1..]); }
      n := Numeral([], [], if s != [] && s[0] == DOT then Some(f) else None);
      FractionLeads(f, s);
    }
  }

  lemma DigitLeads(n: Numeral, s: seq<byte>)
    requires s != [] && IsDigit(s[0]) && Leading(n, s[1..])
    ensures Leading(Numeral([], [s[0]] + n.whole, n.fraction), s)
  {
    var m := Numeral([], [s[0]] + n.whole, n.fraction);
    var (k, _, _) := NumberRun(s[1..], false);
    assert NumeralBody(m) == [s[0]] + NumeralBody(n);
    assert s[1..][..k] == s[1..k + 1] && s[1..][k..] == s[k + 1..];
  }

  lemma FractionLeads(f: seq<byte>, s: seq<byte>)
    requires s == [] || (!IsDigit(s[0]) && AllDigits(f) && f <= s[1..]
      && NumberRun(s[1..], true) == (|f|, f != [], false) && (s[1..][|f|..] == [] || !IsDigit(s[1..][|f|..][0])))
    ensures Leading(Numeral([], [], if s != [] && s[0] == DOT then Some(f) else None), s)
  {
    if s != [] && s[0] == DOT {
      assert s[1..][|f|..] == s[|f| + 1..];
      assert [DOT] + f == s[..|f| + 1];
    }
  }

  /** The longest numeral behind a sign. */
  lemma SignedFound(sign: seq<byte>, body: seq<byte>) returns (n: Numeral)
    requires NumberRun(body, false).1
    ensures var (k, _, dot) := NumberRun(body, false);
      && n.sign == sign && IsNumeral(n) && NumeralEnds(n, body[k..]) && n.fraction.Some? == dot
      && NumeralText(n) == sign + body[..k]
  {
    hide NumberRun, AllDigits;
    var bare := NumeralFound(body);
    n := bare.(sign := sign);
    assert NumeralBody(n) == NumeralBody(bare);
  }

  predicate IsSign(t: seq<byte>) { t == [] || t == [MINUS] || t == [PLUS] }

  /** What a bound means: with a dot a double, else an integer, or a double again when it does not fit 64 bits. */
  predicate BoundSays(n: Numeral, b: Num, fl: FloatReader) {
    && IsSign(n.sign) && IsNumeral(n)
    && if n.fraction.Some? then b == FloatNum(fl(NumeralText(n))) && !IsNan(b.bits)
       else if FitsI64(WholeValue(n)) then b == IntNum(WholeValue(n))
       else b == FloatNum(fl(NumeralText(n)))
  }

  lemma SignRead(n: Numeral)
    requires IsSign(n.sign) && IsNumeral(n) && n.fraction.None?
    ensures ParseI64(NumeralText(n)) == if FitsI64(WholeValue(n)) then Some(WholeValue(n)) else None
  {
    hide Decimal;
    var t := NumeralText(n);
    assert NumeralBody(n) == n.whole;
    if n.sign == [] { assert t == n.whole && IsDigit(t[0]); } else { assert t[1..] == n.whole; }
  }

  /** The text of a numeral is not taken for anything else. */
  lemma NumeralStarts(n: Numeral, s: seq<byte>)
    requires IsSign(n.sign) && IsNumeral(n)
    ensures var t := NumeralText(n) + s;
      && t != [] && (t[0] == MINUS || t[0] == PLUS || t[0] == DOT || IsDigit(t[0]))
      && (n.sign == [] ==> t == NumeralBody(n) + s && (t[0] == DOT || IsDigit(t[0])))
      && (n.sign != [] ==> t[0] == n.sign[0] && t[1..] == NumeralBody(n) + s)
  {
    var t := NumeralText(n) + s;
    assert NumeralBody(n) != [];
    if n.sign != [] { assert t == n.sign + (NumeralBody(n) + s); }
  }

  lemma BoundRead(gap: seq<byte>, n: Numeral, b: Num, s: seq<byte>, fl: FloatReader)
    requires Blank(gap) && BoundSays(n, b, fl) && NumeralEnds(n, s)
    ensures ReadNumber(gap + NumeralText(n) + s, fl) == Some((b, s))
  {
    hide NumberRun, ReadNumber, ParseI64, AfterWs, NumeralBody, NumeralEnds, IsNumeral, WholeValue;
    var t := NumeralText(n);
    var all := gap + t + s;
    assert all == gap + (t + s);
    GapSkipped(gap, t + s);
    NumeralStarts(n, s);
    NoBlank(t + s);
    NumeralRun(n, s);
    Parts(t, s);
    if n.fraction.None? { SignRead(n); }
    NumberReadFrom(all, t + s, NumeralBody(n) + s, t, s, fl);
  }

  lemma BoundFound(s0: seq<byte>, fl: FloatReader) returns (gap: seq<byte>, n: Numeral)
    requires ReadNumber(s0, fl).Some?
    ensures var (b, rest) := ReadNumber(s0, fl).value;
      Blank(gap) && s0 == gap + NumeralText(n) + rest && BoundSays(n, b, fl) && NumeralEnds(n, rest)
  {
    hide NumberRun, ParseI64, AfterWs, NumeralEnds, IsNumeral, WholeValue, NumeralText, ReadNumber;
    gap := GapFound(s0);
    var s := AfterWs(s0);
    var sign := if s != [] && (s[0] == MINUS || s[0] == PLUS) then [s[0]] else [];
    var body := s[|sign|..];
    var k := NumberRun(body, false).0;
    var t, rest := s[..|sign| + k], body[k..];
    NumeralIsFront(s, sign, k);
    NumberReadFrom(s0, s, body, t, rest, fl);
    n := SignedFound(sign, body);
    if n.fraction.None? { SignRead(n); }
    assert s0 == gap + t + rest;
  }

  lemma NumeralIsFront(s: seq<byte>, sign: seq<byte>, k: nat)
    requires sign <= s && k <= |s| - |sign|
    ensures var body := s[|sign|..];
      && s[..|sign| + k] == sign + body[..k] && body[k..] == s[|sign| + k..] && s == s[..|sign| + k] + body[k..]
  {
  }

  // --- literals ---

  datatype Char = Raw(b: byte) | Escaped(b: byte)

  predicate IsChar(c: Char, quote: byte) {
    match c
    case Raw(b) => b != quote && b != BACKSLASH
    case Escaped(b) => b == BACKSLASH || b == QUOTE || b == DQUOTE
  }

  predicate AllChars(cs: seq<Char>, quote: byte) { forall i | 0 <= i < |cs| :: IsChar(cs[i], quote) }

  function CharText(c: Char): seq<byte> { if c.Raw? then [c.b] else [BACKSLASH, c.b] }

  function CharsText(cs: seq<Char>): seq<byte> { if cs == [] then [] else CharText(cs[0]) + CharsText(cs[1..]) }

  function Content(cs: seq<Char>): seq<byte> { if cs == [] then [] else [cs[0].b] + Content(cs[1..]) }

  /** How a literal is spelled: a string between either quotes, a numeral, or a truth value in any case. */
  datatype Form = Quoted(quote: byte, chars: seq<Char>) | Number(n: Numeral) | Truth(word: seq<byte>)

  function FormText(f: Form): seq<byte> {
    match f
    case Quoted(quote, chars) => [quote] + CharsText(chars) + [quote]
    case Number(n) => NumeralText(n)
    case Truth(word) => word
  }

  /** The form denotes the value. */
  predicate FormSays(f: Form, v: MetaValue, fl: FloatReader) {
    match f
    case Quoted(quote, chars) =>
      (quote == QUOTE || quote == DQUOTE) && AllChars(chars, quote) && v.StrValue? && v.s == Content(chars)
    case Number(n) =>
      && (n.sign == [MINUS] || (n.sign == [] && n.whole != [])) && IsNumeral(n)
      && if n.fraction.Some? then v == FloatValue(fl(NumeralText(n))) && !IsNan(v.bits)
         else v.IntValue? && v.i == WholeValue(n)
    case Truth(word) => v.BoolValue? && Word(word, if v.b then KW_TRUE else KW_FALSE)
  }

  predicate FormEnds(f: Form, s: seq<byte>) {
    match f
    case Quoted(_, _) => true
    case Number(n) => NumeralEnds(n, s)
    case Truth(_) => WordEnds(s)
  }

  lemma {:induction false} CharsRead(cs: seq<Char>, quote: byte, s: seq<byte>)
    requires AllChars(cs, quote) && quote != BACKSLASH
    ensures ReadQuoted(CharsText(cs) + [quote] + s, quote) == Some((Content(cs), s))
    decreases |cs|
  {
    var all := CharsText(cs) + [quote] + s;
    if cs == [] {
      assert all[1..] == s;
    } else {
      var rest := CharsText(cs[1..]) + [quote] + s;
      CharsRead(cs[1..], quote, s);
      assert all == CharText(cs[0]) + rest;
      if cs[0].Raw? { assert all[1..] == rest; } else { assert all[2..] == rest; }
    }
  }

  lemma {:induction false} CharsFound(s: seq<byte>, quote: byte) returns (cs: seq<Char>)
    requires ReadQuoted(s, quote).Some? && quote != BACKSLASH
    ensures var (t, rest) := ReadQuoted(s, quote).value;
      AllChars(cs, quote) && s == CharsText(cs) + [quote] + rest && t == Content(cs)
    decreases |s|
  {
    if s[0] == quote {
      cs := [];
      assert s == [quote] + s[1..];
    } else if s[0] == BACKSLASH {
      var more := CharsFound(s[2..], quote);
      cs := [Escaped(s[1])] + more;
      assert s == [s[0], s[1]] + s[2..];
    } else {
      var more := CharsFound(s[1..], quote);
      cs := [Raw(s[0])] + more;
      assert s == [s[0]] + s[1..];
    }
  }

  lemma FormRead(f: Form, v: MetaValue, s: seq<byte>, fl: FloatReader)
    requires FormSays(f, v, fl) && FormEnds(f, s)
    ensures ReadLiteral(FormText(f) + s, fl) == Some((v, s))
  {
    hide ReadIntOrFloat, ReadQuoted, NumberRun, NumeralText, IsNumeral, NumeralEnds, Content, CharsText, AfterKeyword,
         WholeValue, ReadString, Word;
    var all := FormText(f) + s;
    match f
    case Quoted(quote, chars) => StringRead(quote, chars, v.s, s); NoBlank(all);
    case Number(n) => NumberFormRead(n, v, s, fl); NumeralStarts(n, s); NoBlank(all);
    case Truth(word) => TruthRead(word, v.b, s);
  }

  lemma StringRead(quote: byte, chars: seq<Char>, t: text, s: seq<byte>)
    requires (quote == QUOTE || quote == DQUOTE) && AllChars(chars, quote) && t == Content(chars)
    ensures var all := [quote] + CharsText(chars) + [quote] + s;
      all[0] == quote && ReadString(all) == Some((t, s))
  {
    hide ReadQuoted, Content, CharsText, AllChars;
    var all := [quote] + CharsText(chars) + [quote] + s;
    CharsRead(chars, quote, s);
    assert all[1..] == CharsText(chars) + [quote] + s;
  }

  lemma TruthRead(word: seq<byte>, b: bool, s: seq<byte>)
    requires Word(word, if b then KW_TRUE else KW_FALSE) && WordEnds(s)
    ensures var all := word + s;
      && AfterWs(all) == all && all[0] != QUOTE && all[0] != DQUOTE && all[0] != MINUS && !IsDigit(all[0])
      && AfterKeyword(all, KW_TRUE) == (if b then Some(s) else None)
      && (!b ==> AfterKeyword(all, KW_FALSE) == Some(s))
  {
    var kw := if b then KW_TRUE else KW_FALSE;
    WordRead(word, kw, s);
    assert Lower(word[0]) == Lower(kw[0]);
    assert (word + s)[0] == word[0];
    if !b { WordMissed(word + s, KW_TRUE); }
  }

  lemma NumberFormRead(n: Numeral, v: MetaValue, s: seq<byte>, fl: FloatReader)
    requires FormSays(Number(n), v, fl) && NumeralEnds(n, s)
    ensures ReadIntOrFloat(NumeralText(n) + s, fl) == Some((v, s))
    ensures NumeralText(n)[0] == MINUS || IsDigit(NumeralText(n)[0])
  {
    hide NumberRun, ReadIntOrFloat, ParseI64, NumeralBody, NumeralEnds, WholeValue;
    var t := NumeralText(n);
    NumeralStarts(n, s);
    NumeralRun(n, s);
    Parts(t, s);
    if n.fraction.None? { SignRead(n); }
    if n.sign == [] { DigitFirst(n); }
    IntOrFloatReadFrom(t + s, NumeralBody(n) + s, t, s, fl);
  }

  lemma DigitFirst(n: Numeral)
    requires n.sign == [] && n.whole != [] && IsNumeral(n)
    ensures NumeralText(n) != [] && IsDigit(NumeralText(n)[0])
  {
    assert NumeralText(n)[0] == n.whole[0];
  }

  lemma LiteralRead(gap: seq<byte>, f: Form, v: MetaValue, s: seq<byte>, fl: FloatReader)
    requires Blank(gap) && FormSays(f, v, fl) && FormEnds(f, s)
    ensures ReadLiteral(gap + FormText(f) + s, fl) == Some((v, s))
  {
    hide ReadLiteral, AfterWs, FormSays, FormEnds, FormText;
    var t := FormText(f) + s;
    assert gap + FormText(f) + s == gap + t;
    GapSkipped(gap, t);
    FormRead(f, v, s, fl);
    LiteralAfterWs(t, fl);
    LiteralAfterWs(gap + t, fl);
  }

  lemma LiteralFound(s0: seq<byte>, fl: FloatReader) returns (gap: seq<byte>, f: Form)
    requires ReadLiteral(s0, fl).Some?
    ensures var (v, rest) := ReadLiteral(s0, fl).value;
      Blank(gap) && s0 == gap + FormText(f) + rest && FormSays(f, v, fl) && FormEnds(f, rest)
  {
    hide ReadIntOrFloat, ReadQuoted, AfterKeyword, ReadString, AfterWs, FormSays, FormEnds, FormText;
    gap := GapFound(s0);
    var s := AfterWs(s0);
    var (v, rest) := ReadLiteral(s0, fl).value;
    if s != [] && (s[0] == QUOTE || s[0] == DQUOTE) {
      f := StringFound(s, fl);
    } else if s != [] && (s[0] == MINUS || IsDigit(s[0])) {
      f := NumberFound(s, fl);
    } else if AfterKeyword(s, KW_TRUE).Some? {
      f := TruthFound(s, true, fl);
    } else {
      f := TruthFound(s, false, fl);
    }
    assert s0 == gap + FormText(f) + rest;
  }

  lemma StringFound(s: seq<byte>, fl: FloatReader) returns (f: Form)
    requires ReadString(s).Some?
    ensures var (t, rest) := ReadString(s).value;
      s == FormText(f) + rest && FormSays(f, StrValue(t), fl) && FormEnds(f, rest)
  {
    hide ReadQuoted, CharsText, Content, AllChars;
    var chars := CharsFound(s[1..], s[0]);
    f := Quoted(s[0], chars);
    assert s == [s[0]] + s[1..];
  }

  lemma TruthFound(s: seq<byte>, b: bool, fl: FloatReader) returns (f: Form)
    requires AfterKeyword(s, if b then KW_TRUE else KW_FALSE).Some?
    ensures var rest := AfterKeyword(s, if b then KW_TRUE else KW_FALSE).value;
      s == FormText(f) + rest && FormSays(f, BoolValue(b), fl) && FormEnds(f, rest)
  {
    hide AfterKeyword, Word, WordEnds;
    var w := WordFound(s, if b then KW_TRUE else KW_FALSE);
    f := Truth(w);
  }

  lemma NumberFound(s: seq<byte>, fl: FloatReader) returns (f: Form)
    requires ReadIntOrFloat(s, fl).Some? && s != [] && (s[0] == MINUS || IsDigit(s[0]))
    ensures var (v, rest) := ReadIntOrFloat(s, fl).value;
      s == FormText(f) + rest && FormSays(f, v, fl) && FormEnds(f, rest)
  {
    hide NumberRun, ParseI64, NumeralEnds, IsNumeral, WholeValue, NumeralText, ReadIntOrFloat;
    var sign := if s[0] == MINUS then [s[0]] else [];
    var body := s[|sign|..];
    var k := NumberRun(body, false).0;
    var t, rest := s[..|sign| + k], body[k..];
    NumeralIsFront(s, sign, k);
    IntOrFloatReadFrom(s, body, t, rest, fl);
    var n := SignedFound(sign, body);
    f := Number(n);
    if sign == [] { WholeFirst(s, n, rest); }
    if n.fraction.None? { SignRead(n); }
  }

  lemma WholeFirst(s: seq<byte>, n: Numeral, rest: seq<byte>)
    requires s != [] && IsDigit(s[0]) && s == NumeralText(n) + rest && n.sign == [] && IsNumeral(n)
    ensures n.whole != []
  {
    assert NumeralText(n) == NumeralBody(n) && s[0] == NumeralBody(n)[0];
  }

  // --- lists ---

  /** One value of a list, with the blanks around it. */
  datatype Item = Item(before: seq<byte>, f: Form, v: MetaValue, after: seq<byte>)

  function ItemText(i: Item): seq<byte> { i.before + FormText(i.f) + i.after }

  function ListText(items: seq<Item>): seq<byte> {
    if items == [] then []
    else ItemText(items[0]) + if |items| == 1 then [CLOSE] else [COMMA] + ListText(items[1..])
  }

  function Values(items: seq<Item>): seq<MetaValue> {
    if items == [] then [] else [items[0].v] + Values(items[1..])
  }

  predicate ItemSays(i: Item, fl: FloatReader) { Blank(i.before) && Blank(i.after) && FormSays(i.f, i.v, fl) }

  predicate ItemsSay(items: seq<Item>, fl: FloatReader) { forall k | 0 <= k < |items| :: ItemSays(items[k], fl) }

  /** Blanks, a comma and a parenthesis end every literal. */
  lemma SeparatorEnds(f: Form, gap: seq<byte>, s: seq<byte>)
    requires Blank(gap) && s != [] && (s[0] == COMMA || s[0] == CLOSE)
    ensures FormEnds(f, gap + s)
  {
    assert (gap + s)[0] == if gap == [] then s[0] else gap[0];
  }

  lemma ItemRead(i: Item, s: seq<byte>, fl: FloatReader)
    requires ItemSays(i, fl) && s != [] && (s[0] == COMMA || s[0] == CLOSE)
    ensures ReadLiteral(AfterWs(ItemText(i) + s), fl) == Some((i.v, i.after + s)) && AfterWs(i.after + s) == s
  {
    hide ReadLiteral, AfterWs, FormSays, FormEnds, FormText;
    SeparatorEnds(i.f, i.after, s);
    LiteralRead(i.before, i.f, i.v, i.after + s, fl);
    assert ItemText(i) + s == i.before + FormText(i.f) + (i.after + s);
    LiteralAfterWs(ItemText(i) + s, fl);
    GapSkipped(i.after, s);
    NoBlank(s);
  }

  lemma {:induction false} ListRead(items: seq<Item>, s: seq<byte>, fl: FloatReader)
    requires items != [] && ItemsSay(items, fl)
    ensures ReadList(ListText(items) + s, fl) == Some((Values(items), s))
    decreases |items|
  {
    hide ReadLiteral, AfterWs, ItemSays, ItemText;
    var more := if |items| == 1 then [CLOSE] + s else [COMMA] + (ListText(items[1..]) + s);
    assert ListText(items) + s == ItemText(items[0]) + more;
    ItemRead(items[0], more, fl);
    if |items| == 1 {
      assert more[1..] == s && Values(items) == [items[0].v];
    } else {
      ListRead(items[1..], s, fl);
      assert more[1..] == ListText(items[1..]) + s;
    }
  }

  lemma ItemFound(s: seq<byte>, fl: FloatReader) returns (i: Item)
    requires ReadLiteral(AfterWs(s), fl).Some?
    ensures var (v, rest) := ReadLiteral(AfterWs(s), fl).value;
      ItemSays(i, fl) && i.v == v && s == ItemText(i) + AfterWs(rest)
  {
    hide ReadLiteral, AfterWs, FormSays, FormEnds, FormText;
    var (v, rest) := ReadLiteral(AfterWs(s), fl).value;
    LiteralAfterWs(s, fl);
    var before, f := LiteralFound(s, fl);
    var after := GapFound(rest);
    i := Item(before, f, v, after);
    assert s == before + FormText(f) + (after + AfterWs(rest));
  }

  lemma {:induction false} ListFound(s: seq<byte>, fl: FloatReader) returns (items: seq<Item>)
    requires ReadList(s, fl).Some?
    ensures var (vs, rest) := ReadList(s, fl).value;
      items != [] && ItemsSay(items, fl) && s == ListText(items) + rest && Values(items) == vs
    decreases |s|
  {
    hide ReadLiteral, AfterWs, ItemSays, ItemText;
    var i := ItemFound(s, fl);
    var (v, s1) := ReadLiteral(AfterWs(s), fl).value;
    var s2 := AfterWs(s1);
    if AfterChar(s2, COMMA).Some? {
      var more := ListFound(s2[1..], fl);
      items := [i] + more;
      assert items[1..] == more;
      assert s2 == [COMMA] + s2[1..];
    } else {
      items := [i];
      assert Values(items[1..]) == [];
      assert s2 == [CLOSE] + s2[1..];
    }
  }

  // --- comparisons ---

  /** What may stand behind the name of a field, from the blanks before it on. */
  datatype Test =
    | Compares(gap: seq<byte>, op: seq<byte>, at: seq<byte>, f: Form, v: MetaValue)
    | Bounds(gap: seq<byte>, op: seq<byte>, at: seq<byte>, n: Numeral, b: Num)
    | IsNull(gap: seq<byte>, word: seq<byte>, mid: seq<byte>, end: seq<byte>)
    | IsNotNull(gap: seq<byte>, word: seq<byte>, mid: seq<byte>, negation: seq<byte>, at: seq<byte>, end: seq<byte>)
    | Among(gap: seq<byte>, word: seq<byte>, mid: seq<byte>, items: seq<Item>)

  const NOT_EQUALS: seq<byte> := [BANG, EQUALS]
  const LESS_GREATER: seq<byte> := [LESS, GREATER]
  const AT_MOST: seq<byte> := [LESS, EQUALS]
  const AT_LEAST: seq<byte> := [GREATER, EQUALS]

  predicate IsComparing(op: seq<byte>) { op == [EQUALS] || op == NOT_EQUALS || op == LESS_GREATER }

  predicate IsBounding(op: seq<byte>) { op == [LESS] || op == AT_MOST || op == [GREATER] || op == AT_LEAST }

  /** The text behind the blanks. */
  function TestCore(t: Test): seq<byte> {
    match t
    case Compares(_, op, at, f, _) => op + (at + FormText(f))
    case Bounds(_, op, at, n, _) => op + (at + NumeralText(n))
    case IsNull(_, word, mid, end) => word + (mid + end)
    case IsNotNull(_, word, mid, negation, at, end) => word + (mid + (negation + (at + end)))
    case Among(_, word, mid, items) => word + (mid + ([OPEN] + ListText(items)))
  }

  predicate TestSays(t: Test, fl: FloatReader) {
    Blank(t.gap) &&
    match t
    case Compares(_, op, at, f, v) =>
      IsComparing(op) && Blank(at) && FormSays(f, v, fl)
    case Bounds(_, op, at, n, b) =>
      IsBounding(op) && Blank(at) && BoundSays(n, b, fl)
    case IsNull(_, word, mid, end) => Word(word, KW_IS) && mid != [] && Blank(mid) && Word(end, KW_NULL)
    case IsNotNull(_, word, mid, negation, at, end) =>
      && Word(word, KW_IS) && mid != [] && Blank(mid) && Word(negation, KW_NOT) && at != [] && Blank(at)
      && Word(end, KW_NULL)
    case Among(_, word, mid, items) => Word(word, KW_IN) && Blank(mid) && items != [] && ItemsSay(items, fl)
  }

  predicate TestEnds(t: Test, s: seq<byte>) {
    match t
    case Compares(_, _, _, f, _) => FormEnds(f, s)
    case Bounds(_, _, _, n, _) => NumeralEnds(n, s)
    case IsNull(_, _, _, _) => WordEnds(s)
    case IsNotNull(_, _, _, _, _, _) => WordEnds(s)
    case Among(_, _, _, _) => true
  }

  /** What a field tested so must satisfy. */
  function Asked(t: Test, field: seq<byte>): Predicate {
    match t
    case Compares(_, op, _, _, v) => if op == [EQUALS] then Eq(field, v) else Neq(field, v)
    case Bounds(_, op, _, _, b) =>
      if op == AT_MOST then Range(field, FloatNum(NEG_INF), b)
      else if op == AT_LEAST then Range(field, b, FloatNum(POS_INF))
      else if op == [LESS] then Range(field, FloatNum(NEG_INF), NextDown(b))
      else Range(field, NextUp(b), FloatNum(POS_INF))
    case IsNull(_, _, _, _) => NotPresent(field)
    case IsNotNull(_, _, _, _, _, _) => Present(field)
    case Among(_, _, _, items) => In(field, Values(items))
  }

  lemma {:induction false} IdentRead(f: seq<byte>, s: seq<byte>)
    requires WordEnds(s) && forall i | 0 <= i < |f| :: IsIdent(f[i])
    ensures IdentLen(f + s) == |f|
    decreases |f|
  {
    if f == [] {
      assert f + s == s;
    } else {
      assert (f + s)[1..] == f[1..] + s;
      IdentRead(f[1..], s);
    }
  }

  lemma NameRead(gap: seq<byte>, f: seq<byte>, s: seq<byte>)
    requires Blank(gap) && IsName(f) && WordEnds(s)
    ensures ReadIdent(gap + f + s) == Some((f, s))
  {
    hide AfterWs, IdentLen;
    IdentRead(f, s);
    assert gap + f + s == gap + (f + s);
    GapSkipped(gap, f + s);
    NoBlank(f + s);
    Parts(f, s);
  }

  lemma {:induction false} IdentFound(s: seq<byte>)
    ensures forall i | 0 <= i < IdentLen(s) :: IsIdent(s[i])
    ensures WordEnds(s[IdentLen(s)..])
    decreases |s|
  {
    if s != [] && IsIdent(s[0]) {
      IdentFound(s[1..]);
      assert s[1..][IdentLen(s[1..])..] == s[IdentLen(s)..];
    }
  }

  lemma NameFound(s0: seq<byte>) returns (gap: seq<byte>)
    requires ReadIdent(s0).Some?
    ensures var (f, rest) := ReadIdent(s0).value;
      Blank(gap) && s0 == gap + f + rest && IsName(f) && WordEnds(rest)
  {
    hide AfterWs;
    gap := GapFound(s0);
    var s := AfterWs(s0);
    IdentFound(s);
    assert s == s[..IdentLen(s)] + s[IdentLen(s)..];
  }

  /** What stands behind a name and blanks: its first word or sign decides. */
  function ReadTest(field: seq<byte>, s: seq<byte>, fl: FloatReader): Read<Predicate> {
    if AfterKeyword(s, KW_IS).Some? then ReadNull(field, AfterKeyword(s, KW_IS).value)
    else if AfterKeyword(s, KW_IN).Some? then ReadAmong(field, AfterKeyword(s, KW_IN).value, fl)
    else ReadOperator(field, s, fl)
  }

  lemma ComparisonFrom(s0: seq<byte>, field: seq<byte>, s1: seq<byte>, s: seq<byte>, fl: FloatReader)
    requires ReadIdent(s0) == Some((field, s1)) && AfterWs(s1) == s
    ensures ReadComparison(s0, fl) == ReadTest(field, s, fl)
  {
    hide ReadIdent, AfterKeyword, ReadList, ReadNull, ReadOperator;
  }

  function ReadAmong(field: seq<byte>, s: seq<byte>, fl: FloatReader): Read<Predicate> {
    var s1 :- AfterChar(AfterWs(s), OPEN);
    var (vs, rest) :- ReadList(s1, fl);
    Some((In(field, vs), rest))
  }

  lemma LiteralOperators(field: seq<byte>, s: seq<byte>, v: MetaValue, rest: seq<byte>, fl: FloatReader)
    requires ReadLiteral(s, fl) == Some((v, rest))
    ensures ReadOperator(field, [EQUALS] + s, fl) == Some((Eq(field, v), rest))
    ensures ReadOperator(field, NOT_EQUALS + s, fl) == Some((Neq(field, v), rest))
    ensures ReadOperator(field, LESS_GREATER + s, fl) == Some((Neq(field, v), rest))
  {
    hide ReadLiteral, ReadNumber, NextUp, NextDown;
    assert ([EQUALS] + s)[1..] == s;
    assert (NOT_EQUALS + s)[1..] == [EQUALS] + s && (LESS_GREATER + s)[1..] == [GREATER] + s;
    assert ([GREATER] + s)[1..] == s;
  }

  lemma InclusiveOperators(field: seq<byte>, s: seq<byte>, b: Num, rest: seq<byte>, fl: FloatReader)
    requires ReadNumber(s, fl) == Some((b, rest))
    ensures ReadOperator(field, AT_MOST + s, fl) == Some((Range(field, FloatNum(NEG_INF), b), rest))
    ensures ReadOperator(field, AT_LEAST + s, fl) == Some((Range(field, b, FloatNum(POS_INF)), rest))
  {
    hide ReadLiteral, ReadNumber, NextUp, NextDown;
    assert ([EQUALS] + s)[1..] == s;
    assert (AT_MOST + s)[1..] == [EQUALS] + s && (AT_LEAST + s)[1..] == [EQUALS] + s;
  }

  lemma StrictOperators(field: seq<byte>, s: seq<byte>, b: Num, rest: seq<byte>, fl: FloatReader)
    requires ReadNumber(s, fl) == Some((b, rest)) && s != [] && s[0] != EQUALS && s[0] != GREATER
    ensures ReadOperator(field, [LESS] + s, fl) == Some((Range(field, FloatNum(NEG_INF), NextDown(b)), rest))
    ensures ReadOperator(field, [GREATER] + s, fl) == Some((Range(field, NextUp(b), FloatNum(POS_INF)), rest))
  {
    hide ReadLiteral, ReadNumber, NextUp, NextDown;
    assert ([LESS] + s)[1..] == s && ([GREATER] + s)[1..] == s;
  }

  lemma SignIsNoWord(op: seq<byte>, s: seq<byte>)
    requires op != [] && (op[0] == EQUALS || op[0] == BANG || op[0] == LESS || op[0] == GREATER)
    ensures AfterKeyword(op + s, KW_IS) == None && AfterKeyword(op + s, KW_IN) == None && AfterWs(op + s) == op + s
    ensures WordEnds(op + s)
  {
    assert (op + s)[0] == op[0];
    NoBlank(op + s);
    WordMissed(op + s, KW_IS);
    WordMissed(op + s, KW_IN);
  }

  lemma OperatorTestRead(t: Test, field: seq<byte>, s: seq<byte>, fl: FloatReader)
    requires TestSays(t, fl) && TestEnds(t, s) && (t.Compares? || t.Bounds?)
    ensures ReadOperator(field, TestCore(t) + s, fl) == Some((Asked(t, field), s))
  {
    hide ReadOperator, ReadLiteral, ReadNumber, FormSays, FormEnds, FormText, NumeralText, NumeralEnds, BoundSays,
         NextUp, NextDown;
    var value := t.at + (if t.Compares? then FormText(t.f) else NumeralText(t.n)) + s;
    assert TestCore(t) + s == t.op + value;
    if t.Compares? {
      LiteralRead(t.at, t.f, t.v, s, fl);
      LiteralOperators(field, value, t.v, s, fl);
    } else {
      BoundRead(t.at, t.n, t.b, s, fl);
      BoundStarts(t.at, t.n, t.b, s, fl);
      InclusiveOperators(field, value, t.b, s, fl);
      StrictOperators(field, value, t.b, s, fl);
    }
  }

  lemma BoundStarts(gap: seq<byte>, n: Numeral, b: Num, s: seq<byte>, fl: FloatReader)
    requires Blank(gap) && BoundSays(n, b, fl)
    ensures var t := gap + NumeralText(n) + s; t != [] && t[0] != EQUALS && t[0] != GREATER
  {
    hide NumeralText, NumeralBody, IsNumeral;
    NumeralStarts(n, s);
    assert gap + NumeralText(n) + s == gap + (NumeralText(n) + s);
    assert gap != [] ==> IsWs(gap[0]);
  }

  lemma GapEnds(gap: seq<byte>, s: seq<byte>)
    requires gap != [] && Blank(gap)
    ensures WordEnds(gap + s)
  {
    assert IsWs(gap[0]);
  }

  lemma WordStarts(w: seq<byte>, kw: seq<byte>, s: seq<byte>)
    requires Word(w, kw) && kw != [] && IsLetter(kw[0])
    ensures AfterWs(w + s) == w + s && !WordEnds(w + s)
  {
    assert Lower(w[0]) == Lower(kw[0]) && (w + s)[0] == w[0];
    NoBlank(w + s);
  }

  /** Two words that differ in a letter. */
  lemma OtherWord(w: seq<byte>, kw: seq<byte>, s: seq<byte>, other: seq<byte>, i: nat)
    requires Word(w, kw) && i < |kw| && i < |other| && Lower(kw[i]) != Lower(other[i])
    ensures AfterKeyword(w + s, other) == None
  {
    assert (w + s)[i] == w[i];
  }

  lemma NullTestRead(t: Test, field: seq<byte>, s: seq<byte>, fl: FloatReader)
    requires TestSays(t, fl) && TestEnds(t, s) && (t.IsNull? || t.IsNotNull?)
    ensures ReadNull(field, t.mid + (if t.IsNull? then t.end else t.negation + (t.at + t.end)) + s)
         == Some((Asked(t, field), s))
  {
    hide AfterKeyword, AfterWs, Word, WordEnds, Blank;
    if t.IsNull? {
      var inner := t.end + s;
      assert t.mid + t.end + s == t.mid + inner;
      GapSkipped(t.mid, inner);
      WordStarts(t.end, KW_NULL, s);
      OtherWord(t.end, KW_NULL, s, KW_NOT, 1);
      WordRead(t.end, KW_NULL, s);
    } else {
      var end := t.end + s;
      var inner := t.negation + (t.at + end);
      assert t.mid + (t.negation + (t.at + t.end)) + s == t.mid + inner;
      GapSkipped(t.mid, inner);
      WordStarts(t.negation, KW_NOT, t.at + end);
      GapEnds(t.at, end);
      WordRead(t.negation, KW_NOT, t.at + end);
      GapSkipped(t.at, end);
      WordStarts(t.end, KW_NULL, s);
      WordRead(t.end, KW_NULL, s);
    }
  }

  lemma AmongRead(t: Test, field: seq<byte>, s: seq<byte>, fl: FloatReader)
    requires TestSays(t, fl) && t.Among?
    ensures ReadAmong(field, t.mid + ([OPEN] + ListText(t.items)) + s, fl) == Some((Asked(t, field), s))
  {
    hide ReadList, ListText, ItemsSay, AfterWs, Values;
    var list := ListText(t.items) + s;
    assert t.mid + ([OPEN] + ListText(t.items)) + s == t.mid + ([OPEN] + list);
    GapSkipped(t.mid, [OPEN] + list);
    NoBlank([OPEN] + list);
    CharTaken(OPEN, list);
    ListRead(t.items, s, fl);
  }

  lemma ComparisonRead(gap: seq<byte>, field: seq<byte>, t: Test, s: seq<byte>, fl: FloatReader)
    requires Blank(gap) && IsName(field) && TestSays(t, fl) && TestEnds(t, s) && WordEnds(t.gap + TestCore(t) + s)
    ensures ReadComparison(gap + field + (t.gap + TestCore(t) + s), fl) == Some((Asked(t, field), s))
  {
    hide ReadIdent, ReadComparison, ReadOperator, ReadNull, ReadAmong, AfterKeyword, AfterWs, Word, WordEnds, Blank,
         IsName, TestEnds, Asked, BoundSays, FormSays, FormText, NumeralText, ItemsSay, ListText;
    var all := gap + field + (t.gap + TestCore(t) + s);
    var core := TestCore(t) + s;
    assert t.gap + TestCore(t) + s == t.gap + core;
    NameRead(gap, field, t.gap + core);
    GapSkipped(t.gap, core);
    if t.Compares? || t.Bounds? {
      var value := t.at + (if t.Compares? then FormText(t.f) else NumeralText(t.n)) + s;
      assert core == t.op + value;
      SignIsNoWord(t.op, value);
      OperatorTestRead(t, field, s, fl);
    } else {
      WordTestRead(t, field, s, fl);
    }
    ComparisonFrom(all, field, t.gap + core, core, fl);
  }

  lemma WordTestRead(t: Test, field: seq<byte>, s: seq<byte>, fl: FloatReader)
    requires TestSays(t, fl) && TestEnds(t, s) && !t.Compares? && !t.Bounds?
    ensures var core := TestCore(t) + s;
      && AfterWs(core) == core && (AfterKeyword(core, KW_IS).Some? <==> !t.Among?)
      && (t.Among? ==>
            && AfterKeyword(core, KW_IN).Some?
            && ReadAmong(field, AfterKeyword(core, KW_IN).value, fl) == Some((Asked(t, field), s)))
      && (!t.Among? ==> ReadNull(field, AfterKeyword(core, KW_IS).value) == Some((Asked(t, field), s)))
  {
    hide ReadNull, ReadAmong, AfterKeyword, AfterWs, Word, WordEnds, Blank, Asked, ItemsSay, ListText;
    if t.Among? {
      var rest := t.mid + ([OPEN] + ListText(t.items)) + s;
      assert TestCore(t) + s == t.word + rest;
      WordStarts(t.word, KW_IN, rest);
      OpenEnds(t.mid, ListText(t.items) + s);
      assert rest == t.mid + ([OPEN] + (ListText(t.items) + s));
      WordRead(t.word, KW_IN, rest);
      OtherWord(t.word, KW_IN, rest, KW_IS, 1);
      AmongRead(t, field, s, fl);
    } else {
      var tail := if t.IsNull? then t.end else t.negation + (t.at + t.end);
      var rest := t.mid + tail + s;
      assert TestCore(t) + s == t.word + rest;
      WordStarts(t.word, KW_IS, rest);
      assert WordEnds(rest) by { GapEnds(t.mid, tail + s); assert rest == t.mid + (tail + s); }
      WordRead(t.word, KW_IS, rest);
      NullTestRead(t, field, s, fl);
    }
  }

  lemma OpenEnds(gap: seq<byte>, s: seq<byte>)
    requires Blank(gap)
    ensures WordEnds(gap + ([OPEN] + s))
  {
    assert gap != [] ==> IsWs(gap[0]);
  }

  /** The operator at the front of a comparison that reads. */
  lemma OperatorFound(field: seq<byte>, s: seq<byte>, fl: FloatReader) returns (op: seq<byte>, value: seq<byte>)
    requires ReadOperator(field, s, fl).Some?
    ensures s == op + value
    ensures IsComparing(op) ==> ReadLiteral(value, fl).Some?
    ensures !IsComparing(op) ==> IsBounding(op) && ReadNumber(value, fl).Some?
  {
    hide ReadLiteral, ReadNumber, NextUp, NextDown;
    var two := |s| >= 2 && (s[1] == EQUALS || (s[0] == LESS && s[1] == GREATER)) && s[0] != EQUALS;
    if two {
      op, value := s[..2], s[2..];
      assert s[1..][1..] == value;
      assert op == [s[0], s[1]];
    } else {
      op, value := s[..1], s[1..];
    }
  }

  lemma OperatorTestFound(field: seq<byte>, s: seq<byte>, fl: FloatReader) returns (t: Test)
    requires ReadOperator(field, s, fl).Some?
    ensures var (p, rest) := ReadOperator(field, s, fl).value;
      && t.gap == [] && (t.Compares? || t.Bounds?) && TestSays(t, fl) && TestEnds(t, rest)
      && s == TestCore(t) + rest && Asked(t, field) == p
  {
    hide ReadOperator, ReadLiteral, ReadNumber, FormSays, FormEnds, FormText, NumeralText, NumeralEnds, BoundSays,
         NextUp, NextDown;
    var op, value := OperatorFound(field, s, fl);
    if IsComparing(op) {
      var (v, rest) := ReadLiteral(value, fl).value;
      var at, form := LiteralFound(value, fl);
      t := Compares([], op, at, form, v);
      LiteralOperators(field, value, v, rest, fl);
      assert s == op + (at + FormText(form)) + rest;
    } else {
      var (b, rest) := ReadNumber(value, fl).value;
      var at, n := BoundFound(value, fl);
      t := Bounds([], op, at, n, b);
      InclusiveOperators(field, value, b, rest, fl);
      BoundStarts(at, n, b, rest, fl);
      StrictOperators(field, value, b, rest, fl);
      assert s == op + (at + NumeralText(n)) + rest;
    }
  }

  /** A word not directly followed by another needs a blank between. */
  lemma GapNeeded(gap: seq<byte>, w: seq<byte>, kw: seq<byte>, s: seq<byte>)
    requires Word(w, kw) && kw != [] && IsLetter(kw[0]) && WordEnds(gap + (w + s))
    ensures gap != []
  {
    WordStarts(w, kw, s);
    assert gap == [] ==> gap + (w + s) == w + s;
  }

  lemma NullTestFound(field: seq<byte>, word: seq<byte>, s: seq<byte>, fl: FloatReader) returns (t: Test)
    requires Word(word, KW_IS) && WordEnds(s) && ReadNull(field, s).Some?
    ensures var (p, rest) := ReadNull(field, s).value;
      && t.gap == [] && (t.IsNull? || t.IsNotNull?) && TestSays(t, fl) && TestEnds(t, rest)
      && word + s == TestCore(t) + rest && Asked(t, field) == p
  {
    hide AfterKeyword, AfterWs, Word, WordEnds, Blank, TestSays, TestCore;
    var mid := GapFound(s);
    var s1 := AfterWs(s);
    if AfterKeyword(s1, KW_NOT).Some? {
      t := NotNullFound(field, word, mid, s1, fl);
    } else {
      NoBlank(s1);
      var end := WordFound(s1, KW_NULL);
      var rest := ReadNull(field, s).value.1;
      GapNeeded(mid, end, KW_NULL, rest);
      t := IsNull([], word, mid, end);
      NullTestSays(t, fl);
      assert word + s == TestCore(t) + rest by { NullCore(t, rest); }
    }
  }

  lemma NotNullFound(field: seq<byte>, word: seq<byte>, mid: seq<byte>, s1: seq<byte>, fl: FloatReader)
    returns (t: Test)
    requires Word(word, KW_IS) && Blank(mid) && WordEnds(mid + s1) && AfterKeyword(s1, KW_NOT).Some?
    requires AfterKeyword(AfterWs(AfterKeyword(s1, KW_NOT).value), KW_NULL).Some?
    ensures var rest := AfterKeyword(AfterWs(AfterKeyword(s1, KW_NOT).value), KW_NULL).value;
      && t.gap == [] && t.IsNotNull? && TestSays(t, fl) && TestEnds(t, rest)
      && word + (mid + s1) == TestCore(t) + rest
  {
    hide AfterKeyword, AfterWs, Word, WordEnds, Blank, TestSays, TestCore;
    var negation := WordFound(s1, KW_NOT);
    var s2 := AfterKeyword(s1, KW_NOT).value;
    var at := GapFound(s2);
    var end := WordFound(AfterWs(s2), KW_NULL);
    var rest := AfterKeyword(AfterWs(s2), KW_NULL).value;
    GapNeeded(mid, negation, KW_NOT, s2);
    GapNeeded(at, end, KW_NULL, rest);
    t := IsNotNull([], word, mid, negation, at, end);
    NullTestSays(t, fl);
    NullCore(t, rest);
  }

  lemma NullTestSays(t: Test, fl: FloatReader)
    requires t.gap == [] && (t.IsNull? || t.IsNotNull?)
    requires Word(t.word, KW_IS) && Blank(t.mid) && t.mid != [] && Word(t.end, KW_NULL)
    requires t.IsNotNull? ==> Word(t.negation, KW_NOT) && Blank(t.at) && t.at != []
    ensures TestSays(t, fl)
  {
  }

  lemma NullCore(t: Test, s: seq<byte>)
    requires t.IsNull? || t.IsNotNull?
    ensures TestCore(t) + s == if t.IsNull? then t.word + (t.mid + (t.end + s))
                               else t.word + (t.mid + (t.negation + (t.at + (t.end + s))))
  {
    if t.IsNull? {
      assert TestCore(t) + s == t.word + (t.mid + (t.end + s));
    } else {
      assert TestCore(t) + s == t.word + (t.mid + (t.negation + (t.at + (t.end + s))));
    }
  }

  lemma AmongFound(field: seq<byte>, word: seq<byte>, s: seq<byte>, fl: FloatReader) returns (t: Test)
    requires Word(word, KW_IN) && ReadAmong(field, s, fl).Some?
    ensures var (p, rest) := ReadAmong(field, s, fl).value;
      && t.gap == [] && t.Among? && TestSays(t, fl)
      && word + s == TestCore(t) + rest && Asked(t, field) == p
  {
    hide ReadList, AfterWs, Word, ItemsSay, ListText, Values;
    var mid := GapFound(s);
    var s1 := AfterWs(s);
    var (_, rest) := ReadAmong(field, s, fl).value;
    var items := ListFound(s1[1..], fl);
    assert s1 == [OPEN] + s1[1..];
    t := Among([], word, mid, items);
    assert word + s == word + (mid + ([OPEN] + ListText(items))) + rest;
  }

  lemma ComparisonFound(s0: seq<byte>, fl: FloatReader) returns (gap: seq<byte>, field: seq<byte>, t: Test)
    requires ReadComparison(s0, fl).Some?
    ensures var (p, rest) := ReadComparison(s0, fl).value;
      && Blank(gap) && IsName(field) && TestSays(t, fl) && TestEnds(t, rest) && WordEnds(t.gap + TestCore(t) + rest)
      && s0 == gap + field + (t.gap + TestCore(t) + rest) && Asked(t, field) == p
  {
    hide ReadIdent, ReadOperator, ReadNull, ReadAmong, AfterKeyword, AfterWs, Word, WordEnds, Blank, IsName, TestEnds,
         Asked, BoundSays, FormSays, FormText, NumeralText, ItemsSay, ListText, ReadComparison, ReadList, TestCore;
    assert ReadIdent(s0).Some? by { ComparisonNamed(s0, fl); }
    gap := NameFound(s0);
    field := ReadIdent(s0).value.0;
    var s1 := ReadIdent(s0).value.1;
    var before := GapFound(s1);
    var s := AfterWs(s1);
    ComparisonFrom(s0, field, s1, s, fl);
    hide ReadTest;
    var bare := TestFound(field, s, fl);
    var (p, rest) := ReadComparison(s0, fl).value;
    t := bare.(gap := before);
    GapFree(bare, before, field, rest, fl);
    assert s1 == before + TestCore(t) + rest;
  }

  lemma ComparisonNamed(s0: seq<byte>, fl: FloatReader)
    requires ReadComparison(s0, fl).Some?
    ensures ReadIdent(s0).Some?
  {
    hide ReadIdent, ReadOperator, ReadNull, ReadList, AfterKeyword, AfterWs;
  }

  lemma GapFree(t: Test, gap: seq<byte>, field: seq<byte>, s: seq<byte>, fl: FloatReader)
    requires TestSays(t, fl) && Blank(gap)
    ensures var u := t.(gap := gap);
      TestSays(u, fl) && TestCore(u) == TestCore(t) && Asked(u, field) == Asked(t, field)
      && (TestEnds(u, s) <==> TestEnds(t, s))
  {
    hide BoundSays, FormSays, FormText, NumeralText, ItemsSay, ListText, Word, FormEnds, NumeralEnds, Values;
  }

  lemma TestFound(field: seq<byte>, s: seq<byte>, fl: FloatReader) returns (t: Test)
    requires ReadTest(field, s, fl).Some?
    ensures var (p, rest) := ReadTest(field, s, fl).value;
      t.gap == [] && TestSays(t, fl) && TestEnds(t, rest) && s == TestCore(t) + rest && Asked(t, field) == p
  {
    hide ReadOperator, ReadNull, ReadAmong, AfterKeyword, Word, Asked, TestSays, TestCore;
    if AfterKeyword(s, KW_IS).Some? {
      var word := WordFound(s, KW_IS);
      t := NullTestFound(field, word, AfterKeyword(s, KW_IS).value, fl);
    } else if AfterKeyword(s, KW_IN).Some? {
      var word := WordFound(s, KW_IN);
      t := AmongFound(field, word, AfterKeyword(s, KW_IN).value, fl);
    } else {
      t := OperatorTestFound(field, s, fl);
    }
  }

  /** Both spellings of the inequality, whatever name and value: `<>` reads as `!=` does. */
  lemma LessGreaterIsNotEquals(field: seq<byte>, v: MetaValue, s: seq<byte>, fl: FloatReader)
    requires IsName(field) && PlainValue(v) && Ends(s)
    ensures ReadComparison(field + ([SPACE] + (LESS_GREATER + ([SPACE] + PrintValue(v) + s))), fl)
         == ReadComparison(field + ([SPACE] + (NOT_EQUALS + ([SPACE] + PrintValue(v) + s))), fl)
         == Some((Neq(field, v), s))
  {
    hide ReadComparison, ReadOperator, ReadLiteral, PrintValue, PlainValue, IsName;
    var value := [SPACE] + PrintValue(v) + s;
    SpacedValueBack(v, s, fl);
    LiteralOperators(field, value, v, s, fl);
    OperatorReached(field, LESS_GREATER + value, fl);
    OperatorReached(field, NOT_EQUALS + value, fl);
  }
}
