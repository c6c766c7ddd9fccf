/** Filter trees and the recursive-descent parser for where-strings. */
module FilterParse {
  import opened Wrappers
  import opened Bytes
  import opened Records
  import Utf8

  datatype Num = IntNum(i: i64) | FloatNum(bits: u64)

  datatype Predicate =
    | Eq(field: seq<byte>, value: MetaValue)
    | In(field: seq<byte>, values: seq<MetaValue>)
    | Range(field: seq<byte>, lo: Num, hi: Num)
    | Present(field: seq<byte>)
    | NotPresent(field: seq<byte>)
    | Neq(field: seq<byte>, value: MetaValue)

  datatype BoolNode =
    | Leaf(p: Predicate)
    | And(l: BoolNode, r: BoolNode)
    | Or(l: BoolNode, r: BoolNode)
    | Not(n: BoolNode)

  const POS_INF: u64 := 0x7FF0_0000_0000_0000
  const NEG_INF: u64 := 0xFFF0_0000_0000_0000
  const SIGN: u64 := 0x8000_0000_0000_0000

  predicate IsNan(b: u64) { b % SIGN > POS_INF }

  /** Where a double stands among the others: both zeros at 0. */
  function Order(b: u64): int { if b < SIGN then b else SIGN - b }

  /** The next double up or down, on bit patterns. */
  function FloatUp(b: u64): u64 {
    if IsNan(b) || b == POS_INF then b
    else if b == 0 || b == SIGN then 1
    else if b < SIGN then b + 1
    else b - 1
  }

  function FloatDown(b: u64): u64 {
    if IsNan(b) || b == NEG_INF then b
    else if b == 0 || b == SIGN then SIGN + 1
    else if b < SIGN then b - 1
    else b + 1
  }

  function NextUp(n: Num): Num {
    match n
    case IntNum(i) => if i < 0x7FFF_FFFF_FFFF_FFFF then IntNum(i + 1) else FloatNum(POS_INF)
    case FloatNum(b) => FloatNum(FloatUp(b))
  }

  function NextDown(n: Num): Num {
    match n
    case IntNum(i) => if i > -0x8000_0000_0000_0000 then IntNum(i - 1) else FloatNum(NEG_INF)
    case FloatNum(b) => FloatNum(FloatDown(b))
  }

  // --- characters and keywords ---

  predicate IsWs(b: byte) { b == 32 || b == 9 || b == 10 || b == 13 }

  predicate IsDigit(b: byte) { 48 <= b <= 57 }

  predicate IsLetter(b: byte) { 97 <= b <= 122 || 65 <= b <= 90 || b == 95 }

  predicate IsIdent(b: byte) { IsLetter(b) || IsDigit(b) }

  function Lower(b: byte): byte { if 65 <= b <= 90 then b + 32 else b }

  const KW_OR: seq<byte> := [79, 82]
  const KW_AND: seq<byte> := [65, 78, 68]
  const KW_NOT: seq<byte> := [78, 79, 84]
  const KW_IS: seq<byte> := [73, 83]
  const KW_IN: seq<byte> := [73, 78]
  const KW_NULL: seq<byte> := [78, 85, 76, 76]
  const KW_TRUE: seq<byte> := [116, 114, 117, 101]
  const KW_FALSE: seq<byte> := [102, 97, 108, 115, 101]

  const EQUALS: byte := 61
  const BANG: byte := 33
  const LESS: byte := 60
  const GREATER: byte := 62
  const OPEN: byte := 40
  const CLOSE: byte := 41
  const COMMA: byte := 44
  const MINUS: byte := 45
  const PLUS: byte := 43
  const DOT: byte := 46
  const QUOTE: byte := 39
  const DQUOTE: byte := 34
  const BACKSLASH: byte := 92

  /** Reading a value off the front of the input; what is left is always a suffix. */
  type Read<T> = Option<(T, seq<byte>)>

  function AfterWs(s: seq<byte>): (r: seq<byte>)
    ensures |r| <= |s|
    decreases |s|
  {
    if s != [] && IsWs(s[0]) then AfterWs(s[1..]) else s
  }

  predicate StartsWith(s: seq<byte>, kw: seq<byte>) {
    |s| >= |kw| && forall i | 0 <= i < |kw| :: Lower(s[i]) == Lower(kw[i])
  }

  /** A keyword in any case, not followed by another identifier byte. */
  function AfterKeyword(s: seq<byte>, kw: seq<byte>): (r: Option<seq<byte>>)
    ensures r.Some? ==> |r.value| + |kw| == |s|
  {
    if StartsWith(s, kw) && !(|s| > |kw| && IsIdent(s[|kw|])) then Some(s[|kw|..]) else None
  }

  function AfterChar(s: seq<byte>, c: byte): (r: Option<seq<byte>>)
    ensures r.Some? ==> s != [] && r.value == s[1..]
  {
    if s != [] && s[0] == c then Some(s[1..]) else None
  }

  // --- literals ---

  function IdentLen(s: seq<byte>): (n: nat)
    ensures n <= |s|
  {
    if s != [] && IsIdent(s[0]) then 1 + IdentLen(s[1..]) else 0
  }

  function ReadIdent(s0: seq<byte>): (r: Read<seq<byte>>)
    ensures r.Some? ==> |r.value.1| < |s0|
  {
    var s := AfterWs(s0);
    if s == [] || !IsLetter(s[0]) then None else Some((s[..IdentLen(s)], s[IdentLen(s)..]))
  }

  /** Length of a run of digits with at most one dot, and whether a digit and a dot are in it. */
  function NumberRun(s: seq<byte>, dot: bool): (r: (nat, bool, bool))
    ensures r.0 <= |s|
    decreases |s|
  {
    if s != [] && IsDigit(s[0]) then
      var (n, _, d) := NumberRun(s[1..], dot);
      (n + 1, true, d)
    else if s != [] && s[0] == DOT && !dot then
      var (n, g, _) := NumberRun(s[1..], true);
      (n + 1, g, true)
    else (0, false, false)
  }

  /** Value of a digit string. */
  function Decimal(s: seq<byte>): nat {
    if s == [] then 0 else Decimal(s[..|s| - 1]) * 10 + (if IsDigit(s[|s| - 1]) then s[|s| - 1] - 48 else 0)
  }

  /** An optionally signed digit string as i64, if it fits. */
  function ParseI64(t: seq<byte>): Option<i64> {
    var neg := t != [] && t[0] == MINUS;
    var digits := if t != [] && (t[0] == MINUS || t[0] == PLUS) then t[1..] else t;
    var magnitude: int := Decimal(digits);
    var v := if neg then -magnitude else magnitude;
    if -0x8000_0000_0000_0000 <= v < 0x8000_0000_0000_0000 then Some(v) else None
  }

  /** How decimal text becomes a double is not modelled: it is a parameter. */
  type FloatReader = seq<byte> -> u64

  /** A bound: with a dot a double, without one an i64, or a double when it does not fit. */
  function NumberOf(t: seq<byte>, dot: bool, fl: FloatReader): Option<Num> {
    if dot then (if IsNan(fl(t)) then None else Some(FloatNum(fl(t)))) else
    match ParseI64(t)
    case Some(i) => Some(IntNum(i))
    case None => Some(FloatNum(fl(t)))
  }

  function ReadNumber(s0: seq<byte>, fl: FloatReader): (r: Read<Num>)
    ensures r.Some? ==> |r.value.1| < |s0|
  {
    var s := AfterWs(s0);
    var k := if s != [] && (s[0] == MINUS || s[0] == PLUS) then 1 else 0;
    var (n, digit, dot) := NumberRun(s[k..], false);
    if !digit then None else
    var t, rest := s[..k + n], s[k + n..];
    DigitMeansLength(s[k..], false);
    var n :- NumberOf(t, dot, fl);
    Some((n, rest))
  }

  lemma DigitMeansLength(s: seq<byte>, dot: bool)
    ensures NumberRun(s, dot).1 ==> NumberRun(s, dot).0 > 0
  {
  }

  /** A bound read off its parts: what follows the blanks, its digits and dot, its text, and what is left. */
  lemma NumberReadFrom(s0: seq<byte>, s: seq<byte>, body: seq<byte>, numeral: seq<byte>, rest: seq<byte>,
                       fl: FloatReader)
    requires s == AfterWs(s0)
    requires body == if s != [] && (s[0] == MINUS || s[0] == PLUS) then s[1..] else s
    requires |numeral| == |s| - |body| + NumberRun(body, false).0
    requires numeral == s[..|numeral|] && rest == s[|numeral|..]
    ensures
      var (_, digit, dot) := NumberRun(body, false);
      var value := NumberOf(numeral, dot, fl);
      ReadNumber(s0, fl) == if !digit || value.None? then None else Some((value.value, rest))
  {
    hide NumberRun, AfterWs, NumberOf;
    assert s[0..] == s;
  }

  /** The rest of a string literal after its opening quote. */
  function ReadQuoted(s: seq<byte>, quote: byte): (r: Read<seq<byte>>)
    ensures r.Some? ==> |r.value.1| < |s|
    decreases |s|
  {
    if s == [] then None
    else if s[0] == quote then Some(([], s[1..]))
    else if s[0] == BACKSLASH then
      if |s| < 2 || !(s[1] == BACKSLASH || s[1] == QUOTE || s[1] == DQUOTE) then None else
      var (t, rest) :- ReadQuoted(s[2..], quote);
      Some(([s[1]] + t, rest))
    else
      var (t, rest) :- ReadQuoted(s[1..], quote);
      Some(([s[0]] + t, rest))
  }

  function ReadString(s: seq<byte>): (r: Read<text>)
    ensures r.Some? ==> |r.value.1| < |s|
  {
    if s == [] || (s[0] != QUOTE && s[0] != DQUOTE) then None else
    var (t, rest) :- ReadQuoted(s[1..], s[0]);
    if Utf8.Valid(t) then Some((t, rest)) else None
  }

  /** A numeric literal: with a dot a double, without one an i64 or an error. */
  function ValueOf(t: seq<byte>, dot: bool, fl: FloatReader): Option<MetaValue> {
    if dot then (if IsNan(fl(t)) then None else Some(FloatValue(fl(t)))) else
    var i :- ParseI64(t);
    Some(IntValue(i))
  }

  function ReadIntOrFloat(s: seq<byte>, fl: FloatReader): (r: Read<MetaValue>)
    ensures r.Some? ==> |r.value.1| < |s|
  {
    var k := if s != [] && s[0] == MINUS then 1 else 0;
    var (n, digit, dot) := NumberRun(s[k..], false);
    if !digit then None else
    var t, rest := s[..k + n], s[k + n..];
    DigitMeansLength(s[k..], false);
    var v :- ValueOf(t, dot, fl);
    Some((v, rest))
  }

  lemma IntOrFloatReadFrom(s: seq<byte>, body: seq<byte>, numeral: seq<byte>, rest: seq<byte>, fl: FloatReader)
    requires body == if s != [] && s[0] == MINUS then s[1..] else s
    requires |numeral| == |s| - |body| + NumberRun(body, false).0
    requires numeral == s[..|numeral|] && rest == s[|numeral|..]
    ensures
      var (_, digit, dot) := NumberRun(body, false);
      var value := ValueOf(numeral, dot, fl);
      ReadIntOrFloat(s, fl) == if !digit || value.None? then None else Some((value.value, rest))
  {
    hide NumberRun, ValueOf;
    assert s[0..] == s;
  }

  function ReadLiteral(s0: seq<byte>, fl: FloatReader): (r: Read<MetaValue>)
    ensures r.Some? ==> |r.value.1| < |s0|
  {
    var s := AfterWs(s0);
    if s != [] && (s[0] == QUOTE || s[0] == DQUOTE) then
      var (t, rest) :- ReadString(s);
      Some((StrValue(t), rest))
    else if s != [] && (s[0] == MINUS || IsDigit(s[0])) then ReadIntOrFloat(s, fl)
    else
      match AfterKeyword(s, KW_TRUE)
      case Some(rest) => Some((BoolValue(true), rest))
      case None =>
        match AfterKeyword(s, KW_FALSE)
        case Some(rest) => Some((BoolValue(false), rest))
        case None => None
  }

  /** The values of an IN list up to and including the closing parenthesis. */
  function ReadList(s: seq<byte>, fl: FloatReader): (r: Read<seq<MetaValue>>)
    ensures r.Some? ==> |r.value.1| < |s|
    decreases |s|
  {
    var (v, s1) :- ReadLiteral(AfterWs(s), fl);
    var s2 := AfterWs(s1);
    match AfterChar(s2, COMMA)
    case Some(s3) =>
      var (vs, rest) :- ReadList(s3, fl);
      Some(([v] + vs, rest))
    case None =>
      var rest :- AfterChar(s2, CLOSE);
      Some(([v], rest))
  }

  // --- the grammar ---

  function ReadNull(field: seq<byte>, s: seq<byte>): (r: Read<Predicate>)
    ensures r.Some? ==> |r.value.1| < |s|
  {
    var s1 := AfterWs(s);
    match AfterKeyword(s1, KW_NOT)
    case Some(s2) =>
      var rest :- AfterKeyword(AfterWs(s2), KW_NULL);
      Some((Present(field), rest))
    case None =>
      var rest :- AfterKeyword(AfterWs(s1), KW_NULL);
      Some((NotPresent(field), rest))
  }

  function ReadOperator(field: seq<byte>, s: seq<byte>, fl: FloatReader): (r: Read<Predicate>)
    ensures r.Some? ==> |r.value.1| < |s|
  {
    if s == [] then None
    else if s[0] == EQUALS then
      var (v, rest) :- ReadLiteral(s[1..], fl);
      Some((Eq(field, v), rest))
    else if s[0] == BANG then
      var s1 :- AfterChar(s[1..], EQUALS);
      var (v, rest) :- ReadLiteral(s1, fl);
      Some((Neq(field, v), rest))
    else if s[0] == LESS then
      (match AfterChar(s[1..], EQUALS)
       case Some(s1) =>
         var (hi, rest) :- ReadNumber(s1, fl);
         Some((Range(field, FloatNum(NEG_INF), hi), rest))
       case None =>
         match AfterChar(s[1..], GREATER)
         case Some(s1) =>
           var (v, rest) :- ReadLiteral(s1, fl);
           Some((Neq(field, v), rest))
         case None =>
           var (hi, rest) :- ReadNumber(s[1..], fl);
           Some((Range(field, FloatNum(NEG_INF), NextDown(hi)), rest)))
    else if s[0] == GREATER then
      (match AfterChar(s[1..], EQUALS)
       case Some(s1) =>
         var (lo, rest) :- ReadNumber(s1, fl);
         Some((Range(field, lo, FloatNum(POS_INF)), rest))
       case None =>
         var (lo, rest) :- ReadNumber(s[1..], fl);
         Some((Range(field, NextUp(lo), FloatNum(POS_INF)), rest)))
    else None
  }

  function ReadComparison(s: seq<byte>, fl: FloatReader): (r: Read<Predicate>)
    ensures r.Some? ==> |r.value.1| < |s|
  {
    var (field, s1) :- ReadIdent(s);
    var s2 := AfterWs(s1);
    match AfterKeyword(s2, KW_IS)
    case Some(s3) => ReadNull(field, s3)
    case None =>
      match AfterKeyword(s2, KW_IN)
      case Some(s3) =>
        var s4 :- AfterChar(AfterWs(s3), OPEN);
        var (vs, rest) :- ReadList(s4, fl);
        Some((In(field, vs), rest))
      case None => ReadOperator(field, s2, fl)
  }

  function ReadPrimary(s0: seq<byte>, fl: FloatReader): (r: Read<BoolNode>)
    ensures r.Some? ==> |r.value.1| < |s0|
    decreases |s0|, 0
  {
    var s := AfterWs(s0);
    match AfterChar(s, OPEN)
    case Some(s1) =>
      var (n, s2) :- ReadOr(s1, fl);
      var rest :- AfterChar(AfterWs(s2), CLOSE);
      Some((n, rest))
    case None =>
      var (p, rest) :- ReadComparison(s, fl);
      Some((Leaf(p), rest))
  }

  function ReadNot(s0: seq<byte>, fl: FloatReader): (r: Read<BoolNode>)
    ensures r.Some? ==> |r.value.1| < |s0|
    decreases |s0|, 1
  {
    var s := AfterWs(s0);
    match AfterKeyword(s, KW_NOT)
    case Some(s1) =>
      var (n, rest) :- ReadNot(s1, fl);
      Some((Not(n), rest))
    case None => ReadPrimary(s, fl)
  }

  function AndLoop(left: BoolNode, s: seq<byte>, fl: FloatReader): (r: Read<BoolNode>)
    ensures r.Some? ==> |r.value.1| <= |s|
    decreases |s|, 2
  {
    match AfterKeyword(AfterWs(s), KW_AND)
    case Some(s1) =>
      var (right, s2) :- ReadNot(s1, fl);
      AndLoop(And(left, right), s2, fl)
    case None => Some((left, AfterWs(s)))
  }

  function ReadAnd(s: seq<byte>, fl: FloatReader): (r: Read<BoolNode>)
    ensures r.Some? ==> |r.value.1| < |s|
    decreases |s|, 3
  {
    var (left, s1) :- ReadNot(s, fl);
    AndLoop(left, s1, fl)
  }

  function OrLoop(left: BoolNode, s: seq<byte>, fl: FloatReader): (r: Read<BoolNode>)
    ensures r.Some? ==> |r.value.1| <= |s|
    decreases |s|, 4
  {
    match AfterKeyword(AfterWs(s), KW_OR)
    case Some(s1) =>
      var (right, s2) :- ReadAnd(s1, fl);
      OrLoop(Or(left, right), s2, fl)
    case None => Some((left, AfterWs(s)))
  }

  function ReadOr(s: seq<byte>, fl: FloatReader): (r: Read<BoolNode>)
    ensures r.Some? ==> |r.value.1| < |s|
    decreases |s|, 5
  {
    var (left, s1) :- ReadAnd(s, fl);
    OrLoop(left, s1, fl)
  }

  /** A blank string matches everything; anything left over is an error. */
  function ParseWhere(input: seq<byte>, fl: FloatReader): Result<Option<BoolNode>, Error> {
    var s := AfterWs(input);
    if s == [] then Ok(None) else
    match ReadOr(s, fl)
    case None => Err(Schema)
    case Some((n, rest)) => if AfterWs(rest) == [] then Ok(Some(n)) else Err(Schema)
  }
}
