/** The recursive-descent parser as written: a cursor over the input, advanced by every method. */
module FilterParser {
  import opened Wrappers
  import opened Bytes
  import opened Records
  import opened FilterParse
  import Utf8

  /** The outcome of a method and the input it leaves are what the reader function says. */
  ghost predicate Agrees<T>(r: Result<T, Error>, rest: seq<byte>, reading: Read<T>) {
    match reading
    case None => r == Err(Schema)
    case Some(p) => r == Ok(p.0) && rest == p.1
  }

  class Parser {
    const src: seq<byte>
    const readFloat: FloatReader
    var pos: nat

    constructor (input: seq<byte>, readFloat: FloatReader)
      ensures Valid() && src == input && this.readFloat == readFloat && Rest() == input
    {
      src := input;
      this.readFloat := readFloat;
      pos := 0;
    }

    ghost predicate Valid()
      reads this
    {
      pos <= |src|
    }

    ghost function Rest(): (s: seq<byte>)
      requires Valid()
      reads this
      ensures |s| == |src| - pos
    {
      src[pos..]
    }

    method SkipWs()
      requires Valid()
      modifies this
      ensures Valid() && Rest() == AfterWs(old(Rest()))
    {
      while pos < |src| && IsWs(src[pos])
        invariant Valid() && AfterWs(Rest()) == AfterWs(old(Rest()))
        decreases |src| - pos
      {
        ghost var before := Rest();
        pos := pos + 1;
        assert before[1..] == Rest();
      }
    }

    method EatKeyword(kw: seq<byte>) returns (eaten: bool)
      requires Valid()
      modifies this
      ensures Valid() && eaten == AfterKeyword(old(Rest()), kw).Some?
      ensures Rest() == if eaten then AfterKeyword(old(Rest()), kw).value else old(Rest())
    {
      eaten := false;
      if |src| >= pos + |kw| && StartsWith(src[pos..pos + |kw|], kw) {
        assert forall i | 0 <= i < |kw| :: src[pos..pos + |kw|][i] == Rest()[i];
        var end := pos + |kw|;
        if !(end < |src| && IsIdent(src[end])) {
          assert Rest()[|kw|..] == src[end..];
          pos := end;
          eaten := true;
        }
      } else {
        assert |src| >= pos + |kw| ==> forall i | 0 <= i < |kw| :: src[pos..pos + |kw|][i] == Rest()[i];
      }
    }

    method EatChar(c: byte) returns (eaten: bool)
      requires Valid()
      modifies this
      ensures Valid() && eaten == AfterChar(old(Rest()), c).Some?
      ensures Rest() == if eaten then AfterChar(old(Rest()), c).value else old(Rest())
    {
      eaten := pos < |src| && src[pos] == c;
      if eaten {
        assert Rest()[1..] == src[pos + 1..];
        pos := pos + 1;
      }
    }

    method Ident() returns (r: Result<seq<byte>, Error>)
      requires Valid()
      modifies this
      ensures Valid() && Agrees(r, Rest(), ReadIdent(old(Rest())))
    {
      SkipWs();
      var start := pos;
      ghost var s := Rest();
      if !(pos < |src| && IsLetter(src[pos])) {
        return Err(Schema);
      }
      while pos < |src| && IsIdent(src[pos])
        invariant start <= pos <= |src|
        invariant pos - start + IdentLen(Rest()) == IdentLen(s)
        decreases |src| - pos
      {
        ghost var before := Rest();
        pos := pos + 1;
        assert before[1..] == Rest();
      }
      Cut(src, start, pos);
      return Ok(src[start..pos]);
    }

    /** Digits with at most one dot, starting at the cursor. */
    method NumberBody() returns (digit: bool, dot: bool)
      requires Valid()
      modifies this
      ensures Valid() && pos == old(pos) + NumberRun(old(Rest()), false).0
      ensures digit == NumberRun(old(Rest()), false).1 && dot == NumberRun(old(Rest()), false).2
    {
      digit, dot := false, false;
      ghost var s := Rest();
      while pos < |src| && (IsDigit(src[pos]) || (src[pos] == DOT && !dot))
        invariant old(pos) <= pos <= |src|
        invariant pos - old(pos) + NumberRun(Rest(), dot).0 == NumberRun(s, false).0
        invariant digit || NumberRun(Rest(), dot).1 <==> NumberRun(s, false).1
        invariant dot || NumberRun(Rest(), dot).2 <==> NumberRun(s, false).2
        decreases |src| - pos
      {
        ghost var before := Rest();
        if IsDigit(src[pos]) { digit := true; } else { dot := true; }
        pos := pos + 1;
        assert before[1..] == Rest();
      }
    }

    method NumberLiteral() returns (r: Result<Num, Error>)
      requires Valid()
      modifies this
      ensures Valid() && Agrees(r, Rest(), ReadNumber(old(Rest()), readFloat))
    {
      hide NumberRun, AfterWs, NumberOf, ReadNumber;
      SkipWs();
      var start := pos;
      if pos < |src| && (src[pos] == MINUS || src[pos] == PLUS) {
        pos := pos + 1;
      }
      ghost var body := pos;
      var digit, dot := NumberBody();
      NumberRead(src, old(Rest()), start, body, pos, readFloat);
      if !digit {
        return Err(Schema);
      }
      r := Converted(src[start..pos], dot, readFloat);
    }

    method StringLiteral() returns (r: Result<text, Error>)
      requires Valid()
      modifies this
      ensures Valid() && Agrees(r, Rest(), ReadString(old(Rest())))
    {
      hide Utf8.Valid, InFront, ReadQuoted, ReadString;
      StringStart(src, pos);
      if !(pos < |src| && (src[pos] == QUOTE || src[pos] == DQUOTE)) {
        return Err(Schema);
      }
      var quote := src[pos];
      pos := pos + 1;
      ghost var reading := ReadQuoted(src[pos..], quote);
      var out: seq<byte> := [];
      InFrontNone(reading);
      while pos < |src| && src[pos] != quote
        invariant Valid()
        invariant reading == InFront(out, ReadQuoted(src[pos..], quote))
        decreases |src| - pos
      {
        ghost var at := pos;
        var c := src[pos];
        if c == BACKSLASH {
          pos := pos + 1;
          if !(pos < |src| && (src[pos] == BACKSLASH || src[pos] == QUOTE || src[pos] == DQUOTE)) {
            BadEscape(src, at, quote, out);
            return Err(Schema);
          }
          c := src[pos];
        }
        pos := pos + 1;
        QuotedStep(src, at, pos, quote, c, out);
        out := out + [c];
      }
      QuotedEnd(src, pos, quote, out);
      if pos == |src| {
        return Err(Schema);
      }
      pos := pos + 1;
      if !Utf8.Valid(out) {
        return Err(Schema);
      }
      return Ok(out);
    }

    method Literal() returns (r: Result<MetaValue, Error>)
      requires Valid()
      modifies this
      ensures Valid() && Agrees(r, Rest(), ReadLiteral(old(Rest()), readFloat))
    {
      SkipWs();
      ghost var s := Rest();
      if pos < |src| && (src[pos] == QUOTE || src[pos] == DQUOTE) {
        var t :- StringLiteral();
        return Ok(StrValue(t));
      }
      if pos < |src| && (src[pos] == MINUS || IsDigit(src[pos])) {
        r := IntOrFloat();
        return;
      }
      var yes := EatKeyword(KW_TRUE);
      if yes {
        return Ok(BoolValue(true));
      }
      var no := EatKeyword(KW_FALSE);
      if no {
        return Ok(BoolValue(false));
      }
      return Err(Schema);
    }

    method IntOrFloat() returns (r: Result<MetaValue, Error>)
      requires Valid()
      modifies this
      ensures Valid() && Agrees(r, Rest(), ReadIntOrFloat(old(Rest()), readFloat))
    {
      hide NumberRun, ValueOf, ReadIntOrFloat;
      var start := pos;
      if pos < |src| && src[pos] == MINUS {
        pos := pos + 1;
      }
      ghost var body := pos;
      var digit, dot := NumberBody();
      IntOrFloatRead(src, start, body, pos, readFloat);
      if !digit {
        return Err(Schema);
      }
      r := ConvertedValue(src[start..pos], dot, readFloat);
    }

    method Comparison() returns (r: Result<Predicate, Error>)
      requires Valid()
      modifies this
      ensures Valid() && Agrees(r, Rest(), ReadComparison(old(Rest()), readFloat))
    {
      hide ReadIdent, AfterWs, AfterKeyword, AfterChar, ReadList, ReadNull, ReadOperator;
      var field :- Ident();
      SkipWs();
      var isTest := EatKeyword(KW_IS);
      if isTest {
        r := NullTest(field);
        return;
      }
      var inList := EatKeyword(KW_IN);
      if inList {
        SkipWs();
        var open := EatChar(OPEN);
        if !open {
          return Err(Schema);
        }
        var values :- ListBody();
        return Ok(In(field, values));
      }
      r := Operator(field);
    }

    method NullTest(field: seq<byte>) returns (r: Result<Predicate, Error>)
      requires Valid()
      modifies this
      ensures Valid() && Agrees(r, Rest(), ReadNull(field, old(Rest())))
    {
      hide AfterWs, AfterKeyword;
      SkipWs();
      var negate := EatKeyword(KW_NOT);
      SkipWs();
      var isNull := EatKeyword(KW_NULL);
      if !isNull {
        return Err(Schema);
      }
      return Ok(if negate then Present(field) else NotPresent(field));
    }

    method ListBody() returns (r: Result<seq<MetaValue>, Error>)
      requires Valid()
      modifies this
      ensures Valid() && Agrees(r, Rest(), ReadList(old(Rest()), readFloat))
    {
      hide ReadLiteral, AfterWs, AfterChar, InFront, ReadList;
      ghost var reading := ReadList(Rest(), readFloat);
      var values: seq<MetaValue> := [];
      InFrontNone(reading);
      while true
        invariant Valid()
        invariant reading == InFront(values, ReadList(Rest(), readFloat))
        decreases |src| - pos
      {
        ghost var s := Rest();
        SkipWs();
        ListStep(s, readFloat, values);
        var v :- Literal();
        values := values + [v];
        SkipWs();
        var comma := EatChar(COMMA);
        if !comma {
          var close := EatChar(CLOSE);
          return if close then Ok(values) else Err(Schema);
        }
      }
    }

    method Operator(field: seq<byte>) returns (r: Result<Predicate, Error>)
      requires Valid()
      modifies this
      ensures Valid() && Agrees(r, Rest(), ReadOperator(field, old(Rest()), readFloat))
    {
      hide ReadLiteral, ReadNumber, NextUp, NextDown;
      var eq := EatChar(EQUALS);
      if eq {
        var v :- Literal();
        return Ok(Eq(field, v));
      }
      var bang := EatChar(BANG);
      if bang {
        eq := EatChar(EQUALS);
        if !eq {
          return Err(Schema);
        }
        var v :- Literal();
        return Ok(Neq(field, v));
      }
      var less := EatChar(LESS);
      if less {
        eq := EatChar(EQUALS);
        if eq {
          var hi :- NumberLiteral();
          return Ok(Range(field, FloatNum(NEG_INF), hi));
        }
        var greater := EatChar(GREATER);
        if greater {
          var v :- Literal();
          return Ok(Neq(field, v));
        }
        var hi :- NumberLiteral();
        return Ok(Range(field, FloatNum(NEG_INF), NextDown(hi)));
      }
      var greater := EatChar(GREATER);
      if greater {
        eq := EatChar(EQUALS);
        var lo :- NumberLiteral();
        return Ok(Range(field, if eq then lo else NextUp(lo), FloatNum(POS_INF)));
      }
      return Err(Schema);
    }

    method Primary() returns (r: Result<BoolNode, Error>)
      requires Valid()
      modifies this
      ensures Valid() && Agrees(r, Rest(), ReadPrimary(old(Rest()), readFloat))
      decreases |src| - pos, 0
    {
      hide ReadOr, AfterWs, ReadComparison;
      SkipWs();
      var open := EatChar(OPEN);
      if open {
        var n :- OrExpr();
        SkipWs();
        var close := EatChar(CLOSE);
        return if close then Ok(n) else Err(Schema);
      }
      var p :- Comparison();
      return Ok(Leaf(p));
    }

    method NotExpr() returns (r: Result<BoolNode, Error>)
      requires Valid()
      modifies this
      ensures Valid() && Agrees(r, Rest(), ReadNot(old(Rest()), readFloat))
      decreases |src| - pos, 1
    {
      hide AfterWs, ReadPrimary, AfterKeyword;
      SkipWs();
      var no := EatKeyword(KW_NOT);
      if no {
        var inner :- NotExpr();
        return Ok(Not(inner));
      }
      r := Primary();
    }

    method AndExpr() returns (r: Result<BoolNode, Error>)
      requires Valid()
      modifies this
      ensures Valid() && Agrees(r, Rest(), ReadAnd(old(Rest()), readFloat))
      decreases |src| - pos, 3
    {
      hide AfterWs, ReadNot, AfterKeyword;
      ghost var reading := ReadAnd(Rest(), readFloat);
      var left :- NotExpr();
      while true
        invariant Valid() && pos > old(pos)
        invariant reading == AndLoop(left, Rest(), readFloat)
        decreases |src| - pos
      {
        SkipWs();
        var more := EatKeyword(KW_AND);
        if !more {
          return Ok(left);
        }
        var right :- NotExpr();
        left := And(left, right);
      }
    }

    method OrExpr() returns (r: Result<BoolNode, Error>)
      requires Valid()
      modifies this
      ensures Valid() && Agrees(r, Rest(), ReadOr(old(Rest()), readFloat))
      decreases |src| - pos, 5
    {
      hide AfterWs, ReadAnd, AfterKeyword;
      ghost var reading := ReadOr(Rest(), readFloat);
      var left :- AndExpr();
      while true
        invariant Valid() && pos > old(pos)
        invariant reading == OrLoop(left, Rest(), readFloat)
        decreases |src| - pos
      {
        SkipWs();
        var more := EatKeyword(KW_OR);
        if !more {
          return Ok(left);
        }
        var right :- AndExpr();
        left := Or(left, right);
      }
    }
  }

  /** The whole parser: blank input matches everything, anything left over is an error. */
  method ParseInput(input: seq<byte>, readFloat: FloatReader) returns (r: Result<Option<BoolNode>, Error>)
    ensures r == ParseWhere(input, readFloat)
  {
    hide AfterWs, ReadOr, ParseWhere;
    var p := new Parser(input, readFloat);
    p.SkipWs();
    ghost var s := p.Rest();
    ghost var reading := ReadOr(s, readFloat);
    ParseCases(input, readFloat);
    if p.pos == |p.src| {
      assert s == [];
      return Ok(None);
    }
    assert s != [];
    var n :- p.OrExpr();
    assert reading == Some((n, p.Rest()));
    p.SkipWs();
    return if p.pos == |p.src| then Ok(Some(n)) else Err(Schema);
  }

  lemma ParseCases(input: seq<byte>, fl: FloatReader)
    ensures
      var s := AfterWs(input);
      var n := ReadOr(s, fl);
      ParseWhere(input, fl) ==
        if s == [] then Ok(None)
        else if n.Some? && AfterWs(n.value.1) == [] then Ok(Some(n.value.0))
        else Err(Schema)
  {
    hide AfterWs, ReadOr;
  }

  lemma ListStep(s: seq<byte>, fl: FloatReader, front: seq<MetaValue>)
    ensures InFront(front, ReadList(s, fl)) ==
      var v := ReadLiteral(AfterWs(s), fl);
      if v.None? then None else
      var t := AfterWs(v.value.1);
      var more, close := AfterChar(t, COMMA), AfterChar(t, CLOSE);
      if more.Some? then InFront(front + [v.value.0], ReadList(more.value, fl))
      else if close.Some? then Some((front + [v.value.0], close.value))
      else None
  {
    hide ReadLiteral, AfterWs, AfterChar;
    var v := ReadLiteral(AfterWs(s), fl);
    if v.Some? {
      var more := AfterChar(AfterWs(v.value.1), COMMA);
      if more.Some? { InFrontTwice(front, v.value.0, ReadList(more.value, fl)); }
    }
  }

  /** A reading with bytes put in front of its value. */
  function InFront<T>(front: seq<T>, reading: Read<seq<T>>): Read<seq<T>> {
    if reading.None? then None else Some((front + reading.value.0, reading.value.1))
  }

  lemma InFrontNone<T>(reading: Read<seq<T>>)
    ensures InFront([], reading) == reading
  {
    if reading.Some? { assert [] + reading.value.0 == reading.value.0; }
  }

  lemma InFrontTwice<T>(front: seq<T>, x: T, reading: Read<seq<T>>)
    ensures InFront(front, InFront([x], reading)) == InFront(front + [x], reading)
  {
    if reading.Some? {
      assert front + ([x] + reading.value.0) == front + [x] + reading.value.0;
    }
  }

  method Converted(numeral: seq<byte>, dot: bool, readFloat: FloatReader) returns (r: Result<Num, Error>)
    ensures r == match NumberOf(numeral, dot, readFloat) case None => Err(Schema) case Some(n) => Ok(n)
  {
    hide IsNan, ParseI64;
    if dot {
      var f := readFloat(numeral);
      return if IsNan(f) then Err(Schema) else Ok(FloatNum(f));
    }
    match ParseI64(numeral) {
      case Some(i) => return Ok(IntNum(i));
      case None => return Ok(FloatNum(readFloat(numeral)));
    }
  }

  /** A numeral behind a sign, if there is one, and what is left after it. */
  lemma Parts(src: seq<byte>, start: nat, body: nat, end: nat)
    requires start <= body <= end <= |src| && body <= start + 1
    ensures var s, numeral := src[start..], src[start..end];
      && (s != [] <==> start < |src|) && (s != [] ==> s[0] == src[start])
      && src[body..] == (if body > start then s[1..] else s)
      && |numeral| == |s| - |src[body..]| + (end - body)
      && numeral == s[..|numeral|] && src[end..] == s[|numeral|..]
  {
    Cut(src, start, end);
    if body > start { Cut(src, start, body); }
  }

  /** A bound read from `start`, its digits from `body` to `end`. */
  lemma NumberRead(src: seq<byte>, s0: seq<byte>, start: nat, body: nat, end: nat, fl: FloatReader)
    requires start <= body <= end <= |src| && src[start..] == AfterWs(s0)
    requires body == if start < |src| && (src[start] == MINUS || src[start] == PLUS) then start + 1 else start
    requires end == body + NumberRun(src[body..], false).0
    ensures
      var (_, digit, dot) := NumberRun(src[body..], false);
      var value := NumberOf(src[start..end], dot, fl);
      ReadNumber(s0, fl) == if !digit || value.None? then None else Some((value.value, src[end..]))
  {
    hide NumberRun, AfterWs, NumberOf, ReadNumber;
    Parts(src, start, body, end);
    NumberReadFrom(s0, src[start..], src[body..], src[start..end], src[end..], fl);
  }

  method ConvertedValue(numeral: seq<byte>, dot: bool, readFloat: FloatReader) returns (r: Result<MetaValue, Error>)
    ensures r == match ValueOf(numeral, dot, readFloat) case None => Err(Schema) case Some(v) => Ok(v)
  {
    hide IsNan, ParseI64;
    if dot {
      var f := readFloat(numeral);
      return if IsNan(f) then Err(Schema) else Ok(FloatValue(f));
    }
    match ParseI64(numeral) {
      case Some(i) => return Ok(IntValue(i));
      case None => return Err(Schema);
    }
  }

  lemma IntOrFloatRead(src: seq<byte>, start: nat, body: nat, end: nat, fl: FloatReader)
    requires start <= body <= end <= |src|
    requires body == if start < |src| && src[start] == MINUS then start + 1 else start
    requires end == body + NumberRun(src[body..], false).0
    ensures
      var (_, digit, dot) := NumberRun(src[body..], false);
      var value := ValueOf(src[start..end], dot, fl);
      ReadIntOrFloat(src[start..], fl) == if !digit || value.None? then None else Some((value.value, src[end..]))
  {
    hide NumberRun, ValueOf, ReadIntOrFloat;
    Parts(src, start, body, end);
    IntOrFloatReadFrom(src[start..], src[body..], src[start..end], src[end..], fl);
  }

  lemma StringStart(src: seq<byte>, at: nat)
    requires at <= |src|
    ensures ReadString(src[at..]) ==
      if at < |src| && (src[at] == QUOTE || src[at] == DQUOTE) then
        var q := ReadQuoted(src[at + 1..], src[at]);
        if q.Some? && Utf8.Valid(q.value.0) then Some((q.value.0, q.value.1)) else None
      else None
  {
    hide ReadQuoted, Utf8.Valid;
    if at < |src| { Cut(src, at, at + 1); }
  }

  /** One step of a quoted string: a plain byte, or a backslash and the byte it escapes. */
  lemma QuotedStep(src: seq<byte>, at: nat, next: nat, quote: byte, c: byte, out: seq<byte>)
    requires at < next <= |src| && src[at] != quote && c == src[next - 1]
    requires if src[at] == BACKSLASH then next == at + 2 && (c == BACKSLASH || c == QUOTE || c == DQUOTE)
             else next == at + 1
    ensures InFront(out, ReadQuoted(src[at..], quote)) == InFront(out + [c], ReadQuoted(src[next..], quote))
  {
    Cut(src, at, next);
    InFrontTwice(out, c, ReadQuoted(src[next..], quote));
  }

  lemma BadEscape(src: seq<byte>, at: nat, quote: byte, out: seq<byte>)
    requires at < |src| && src[at] != quote && src[at] == BACKSLASH
    requires !(at + 1 < |src| && (src[at + 1] == BACKSLASH || src[at + 1] == QUOTE || src[at + 1] == DQUOTE))
    ensures InFront(out, ReadQuoted(src[at..], quote)) == None
  {
  }

  lemma QuotedEnd(src: seq<byte>, at: nat, quote: byte, out: seq<byte>)
    requires at <= |src| && (at < |src| ==> src[at] == quote)
    ensures InFront(out, ReadQuoted(src[at..], quote)) == if at == |src| then None else Some((out, src[at + 1..]))
  {
    if at < |src| { Cut(src, at, at + 1); }
    assert out + [] == out;
  }

  /** Where a slice of the input ends, the rest of the input begins. */
  lemma Cut(src: seq<byte>, i: nat, j: nat)
    requires i <= j <= |src|
    ensures src[i..][..j - i] == src[i..j] && src[i..][j - i..] == src[j..]
  {
  }
}
