/** What a filter tree means: exact evaluation on one record's metadata. */
module FilterEval {
  import opened Wrappers
  import opened Bytes
  import opened Records
  import opened FilterParse

  /** The two conversions between i64 and double that evaluation uses: the rounding cast, and
      the exact one that is defined only on integral doubles of at most 2^53. */
  datatype Floats = Floats(ofInt: i64 -> u64, exact: u64 -> Option<i64>)

  type Meta = seq<(text, MetaValue)>

  predicate FloatLess(a: u64, b: u64) { !IsNan(a) && !IsNan(b) && Order(a) < Order(b) }

  predicate FloatEqual(a: u64, b: u64) { !IsNan(a) && !IsNan(b) && Order(a) == Order(b) }

  predicate FloatBetween(lo: u64, x: u64, hi: u64) {
    (FloatLess(lo, x) || FloatEqual(lo, x)) && (FloatLess(x, hi) || FloatEqual(x, hi))
  }

  function AsFloat(n: Num, fs: Floats): u64 {
    match n case IntNum(i) => fs.ofInt(i) case FloatNum(b) => b
  }

  function AsInt(n: Num, fs: Floats): Option<i64> {
    match n case IntNum(i) => Some(i) case FloatNum(b) => fs.exact(b)
  }

  predicate NanBound(n: Num) { n.FloatNum? && IsNan(n.bits) }

  /** Equality is type-sensitive; doubles compare as doubles. */
  predicate SameValue(a: MetaValue, b: MetaValue) {
    if a.FloatValue? && b.FloatValue? then FloatEqual(a.bits, b.bits) else a == b && !a.FloatValue?
  }

  predicate InIntRange(v: MetaValue, lo: i64, hi: i64, fs: Floats) {
    match v
    case IntValue(x) => lo <= x <= hi
    case FloatValue(b) => fs.exact(b).Some? && lo <= fs.exact(b).value <= hi
    case BoolValue(_) => false
    case StrValue(_) => false
    case BytesValue(_) => false
  }

  predicate InFloatRange(v: MetaValue, lo: u64, hi: u64, fs: Floats) {
    match v
    case IntValue(x) => FloatBetween(lo, fs.ofInt(x), hi)
    case FloatValue(b) => FloatBetween(lo, b, hi)
    case BoolValue(_) => false
    case StrValue(_) => false
    case BytesValue(_) => false
  }

  predicate AnyEqual(meta: Meta, field: seq<byte>, v: MetaValue) {
    exists i | 0 <= i < |meta| :: meta[i].0 == field && SameValue(meta[i].1, v)
  }

  predicate AnyAmong(meta: Meta, field: seq<byte>, vs: seq<MetaValue>) {
    exists i | 0 <= i < |meta| :: meta[i].0 == field && exists j | 0 <= j < |vs| :: SameValue(meta[i].1, vs[j])
  }

  predicate AnyNamed(meta: Meta, field: seq<byte>) {
    exists i | 0 <= i < |meta| :: meta[i].0 == field
  }

  function RangeHolds(meta: Meta, field: seq<byte>, lo: Num, hi: Num, fs: Floats): Result<bool, Error> {
    if FloatLess(AsFloat(hi, fs), AsFloat(lo, fs)) then Ok(false)
    else if NanBound(lo) || NanBound(hi) then Err(Schema)
    else if AsInt(lo, fs).Some? && AsInt(hi, fs).Some? then
      Ok(exists i | 0 <= i < |meta| ::
        meta[i].0 == field && InIntRange(meta[i].1, AsInt(lo, fs).value, AsInt(hi, fs).value, fs))
    else
      Ok(exists i | 0 <= i < |meta| ::
        meta[i].0 == field && InFloatRange(meta[i].1, AsFloat(lo, fs), AsFloat(hi, fs), fs))
  }

  function Holds(p: Predicate, meta: Meta, fs: Floats): Result<bool, Error> {
    match p
    case Eq(field, v) => Ok(AnyEqual(meta, field, v))
    case In(field, vs) => Ok(AnyAmong(meta, field, vs))
    case Range(field, lo, hi) => RangeHolds(meta, field, lo, hi, fs)
    case Present(field) => Ok(AnyNamed(meta, field))
    case NotPresent(field) => Ok(!AnyNamed(meta, field))
    case Neq(field, v) => Ok(!AnyEqual(meta, field, v))
  }

  /** Left to right: the second operand counts only after the first came out true. */
  function Both(a: Result<bool, Error>, b: Result<bool, Error>): Result<bool, Error> {
    if a == Ok(true) then b else a
  }

  function Either(a: Result<bool, Error>, b: Result<bool, Error>): Result<bool, Error> {
    if a == Ok(false) then b else a
  }

  function Opposite(a: Result<bool, Error>): Result<bool, Error> {
    match a case Ok(v) => Ok(!v) case Err(e) => Err(e)
  }

  function Matches(n: BoolNode, meta: Meta, fs: Floats): Result<bool, Error> {
    match n
    case Leaf(p) => Holds(p, meta, fs)
    case And(l, r) => Both(Matches(l, meta, fs), Matches(r, meta, fs))
    case Or(l, r) => Either(Matches(l, meta, fs), Matches(r, meta, fs))
    case Not(m) => Opposite(Matches(m, meta, fs))
  }

  /** A filter: no tree matches everything. */
  datatype Filter = Filter(root: Option<BoolNode>) {
    function Accepts(meta: Meta, fs: Floats): Result<bool, Error> {
      if root.None? then Ok(true) else Matches(root.value, meta, fs)
    }

    function AndPredicate(p: Predicate): Filter {
      Filter(Some(if root.None? then Leaf(p) else And(root.value, Leaf(p))))
    }

    function AndFilter(other: Filter): Filter {
      if other.root.None? then this
      else Filter(Some(if root.None? then other.root.value else And(root.value, other.root.value)))
    }
  }

  // --- laws ---

  /** A filter built predicate by predicate asks them in order and stops at the first that does not hold. */
  function Built(ps: seq<Predicate>): Filter {
    if ps == [] then Filter(None) else Built(ps[..|ps| - 1]).AndPredicate(ps[|ps| - 1])
  }

  function FirstRefusal(ps: seq<Predicate>, meta: Meta, fs: Floats): Result<bool, Error> {
    if ps == [] then Ok(true)
    else if Holds(ps[0], meta, fs) != Ok(true) then Holds(ps[0], meta, fs)
    else FirstRefusal(ps[1..], meta, fs)
  }

  lemma {:induction false} FirstRefusalSplits(ps: seq<Predicate>, p: Predicate, meta: Meta, fs: Floats)
    ensures FirstRefusal(ps + [p], meta, fs) == Both(FirstRefusal(ps, meta, fs), Holds(p, meta, fs))
  {
    hide Holds;
    var all := ps + [p];
    if ps == [] {
      assert all[1..] == [];
    } else {
      assert all[1..] == ps[1..] + [p];
      FirstRefusalSplits(ps[1..], p, meta, fs);
    }
  }

  lemma {:induction false} BuilderMeaning(ps: seq<Predicate>, meta: Meta, fs: Floats)
    ensures Built(ps).Accepts(meta, fs) == FirstRefusal(ps, meta, fs)
  {
    hide Holds;
    if ps != [] {
      var front, p := ps[..|ps| - 1], ps[|ps| - 1];
      BuilderMeaning(front, meta, fs);
      FirstRefusalSplits(front, p, meta, fs);
      assert front + [p] == ps;
      assert Matches(Leaf(p), meta, fs) == Holds(p, meta, fs);
    }
  }

  lemma AndAccepts(f: Filter, g: Filter, meta: Meta, fs: Floats)
    ensures f.AndFilter(g).Accepts(meta, fs) == Both(f.Accepts(meta, fs), g.Accepts(meta, fs))
  {
    hide Holds;
  }

  function Conjoined(gs: seq<Filter>): Filter {
    if gs == [] then Filter(None) else Conjoined(gs[..|gs| - 1]).AndFilter(gs[|gs| - 1])
  }

  /** How conjunctions nest does not matter, errors included. */
  lemma {:induction false} AndFilterNests(a: seq<Filter>, b: seq<Filter>, meta: Meta, fs: Floats)
    ensures Conjoined(a + b).Accepts(meta, fs) == Conjoined(a).AndFilter(Conjoined(b)).Accepts(meta, fs)
    ensures Conjoined(a + b).Accepts(meta, fs) == Both(Conjoined(a).Accepts(meta, fs), Conjoined(b).Accepts(meta, fs))
    decreases |b|
  {
    hide Matches;
    AndAccepts(Conjoined(a), Conjoined(b), meta, fs);
    if b == [] {
      assert a + b == a;
    } else {
      var front, g := b[..|b| - 1], b[|b| - 1];
      AndAccepts(Conjoined(front), g, meta, fs);
      AndAccepts(Conjoined(a + front), g, meta, fs);
      AndFilterNests(a, front, meta, fs);
      assert (a + b)[..|a + b| - 1] == a + front;
    }
  }

  /** The disjunction of `field = v` over a list of values. */
  function AnyOf(field: seq<byte>, vs: seq<MetaValue>): BoolNode
    requires vs != []
  {
    if |vs| == 1 then Leaf(Eq(field, vs[0])) else Or(Leaf(Eq(field, vs[0])), AnyOf(field, vs[1..]))
  }

  lemma AmongSplits(meta: Meta, field: seq<byte>, vs: seq<MetaValue>)
    requires vs != []
    ensures AnyAmong(meta, field, vs) <==> AnyEqual(meta, field, vs[0]) || AnyAmong(meta, field, vs[1..])
  {
    hide SameValue;
    if AnyAmong(meta, field, vs) {
      var i: nat, j: nat :| i < |meta| && j < |vs| && meta[i].0 == field && SameValue(meta[i].1, vs[j]);
      if j > 0 { assert SameValue(meta[i].1, vs[1..][j - 1]); }
    }
    if AnyAmong(meta, field, vs[1..]) {
      var i: nat, j: nat :| i < |meta| && j < |vs[1..]| && meta[i].0 == field && SameValue(meta[i].1, vs[1..][j]);
      assert SameValue(meta[i].1, vs[j + 1]);
    }
  }

  /** IN is the disjunction of the equalities. */
  lemma {:induction false} InIsAnyOf(field: seq<byte>, vs: seq<MetaValue>, meta: Meta, fs: Floats)
    requires vs != []
    ensures Matches(Leaf(In(field, vs)), meta, fs) == Matches(AnyOf(field, vs), meta, fs)
  {
    hide AnyAmong, AnyEqual;
    AmongSplits(meta, field, vs);
    if |vs| == 1 { NoneAmong(meta, field, vs[1..]); } else { InIsAnyOf(field, vs[1..], meta, fs); }
  }

  lemma NoneAmong(meta: Meta, field: seq<byte>, vs: seq<MetaValue>)
    requires vs == []
    ensures !AnyAmong(meta, field, vs)
  {
  }

  /** The conjunction of `field != v` over a list of values. */
  function NoneOf(field: seq<byte>, vs: seq<MetaValue>): BoolNode
    requires vs != []
  {
    if |vs| == 1 then Leaf(Neq(field, vs[0])) else And(Leaf(Neq(field, vs[0])), NoneOf(field, vs[1..]))
  }

  /** NOT IN is the conjunction of the inequalities, on every record, one without the field included. */
  lemma {:induction false} NotInIsNoneOf(field: seq<byte>, vs: seq<MetaValue>, meta: Meta, fs: Floats)
    requires vs != []
    ensures Matches(Not(Leaf(In(field, vs))), meta, fs) == Matches(NoneOf(field, vs), meta, fs)
  {
    hide AnyAmong, AnyEqual;
    AmongSplits(meta, field, vs);
    if |vs| == 1 { NoneAmong(meta, field, vs[1..]); } else { NotInIsNoneOf(field, vs[1..], meta, fs); }
  }

  /** Rounding integers to doubles keeps their order, and no infinity is an integer. */
  ghost predicate Rounds(fs: Floats) {
    && (forall a: i64, b: i64 | a <= b :: !FloatLess(fs.ofInt(b), fs.ofInt(a)))
    && (forall a: i64 :: !IsNan(fs.ofInt(a)))
    && fs.exact(POS_INF).None? && fs.exact(NEG_INF).None?
  }

  /** The integer a value is: its own, or that of an integral double. */
  function Whole(v: MetaValue, fs: Floats): Option<i64> {
    match v
    case IntValue(x) => Some(x)
    case FloatValue(b) => fs.exact(b)
    case BoolValue(_) => None
    case StrValue(_) => None
    case BytesValue(_) => None
  }

  /** Between integer bounds integers compare exactly, however large, and so do the doubles that are
      integers: the check for an empty range on rounded bounds never refuses a value that is in it. */
  lemma IntRangeIsExact(field: seq<byte>, lo: i64, hi: i64, meta: Meta, fs: Floats)
    requires Rounds(fs)
    ensures Holds(Range(field, IntNum(lo), IntNum(hi)), meta, fs)
         == Ok(exists i | 0 <= i < |meta| && meta[i].0 == field ::
                 Whole(meta[i].1, fs).Some? && lo <= Whole(meta[i].1, fs).value <= hi)
  {
    hide FloatLess;
    if lo <= hi { assert !FloatLess(fs.ofInt(hi), fs.ofInt(lo)); }
    assert forall v :: InIntRange(v, lo, hi, fs) <==> Whole(v, fs).Some? && lo <= Whole(v, fs).value <= hi;
  }

  /** A one-sided integer bound compares doubles: an integer on the wrong side of it is let in exactly when both
      round to the same double, and no integer on the right side is ever refused. */
  lemma OneSidedIsRounded(field: text, bound: i64, x: i64, fs: Floats)
    requires Rounds(fs)
    ensures var meta := [(field, IntValue(x))]; var merged := FloatEqual(fs.ofInt(x), fs.ofInt(bound));
      && Holds(Range(field, IntNum(bound), FloatNum(POS_INF)), meta, fs) == Ok(bound <= x || merged)
      && Holds(Range(field, FloatNum(NEG_INF), IntNum(bound)), meta, fs) == Ok(x <= bound || merged)
  {
    hide IsNan;
    var meta: Meta := [(field, IntValue(x))];
    var b, y := fs.ofInt(bound), fs.ofInt(x);
    Infinities();
    Extremes(b);
    Extremes(y);
    assert meta[0].0 == field && !FloatLess(POS_INF, b) && !FloatLess(b, NEG_INF);
    assert InFloatRange(meta[0].1, b, POS_INF, fs) == (Order(b) <= Order(y));
    assert InFloatRange(meta[0].1, NEG_INF, b, fs) == (Order(y) <= Order(b));
    if bound <= x { assert !FloatLess(y, b); }
    if x <= bound { assert !FloatLess(b, y); }
  }

  lemma Extremes(b: u64)
    requires !IsNan(b)
    ensures Order(NEG_INF) <= Order(b) <= Order(POS_INF)
  {
  }

  lemma OneDouble(field: text, x: u64, lo: u64, hi: u64, fs: Floats)
    requires !IsNan(lo) && !IsNan(hi) && (fs.exact(lo).None? || fs.exact(hi).None?)
    ensures Holds(Range(field, FloatNum(lo), FloatNum(hi)), [(field, FloatValue(x))], fs) == Ok(FloatBetween(lo, x, hi))
  {
    hide IsNan, Order;
    var meta: Meta := [(field, FloatValue(x))];
    assert meta[0].0 == field && InFloatRange(meta[0].1, lo, hi, fs) == FloatBetween(lo, x, hi);
  }

  /** On a double, `field > b` as the parser writes it is NOT `field <= b` if and only if the double is a number
      and not the infinity that the bound is too, and likewise for `field < b` and `field >= b`. (A NaN bound,
      which the parser never writes, makes all four an error.) */
  lemma ExclusiveIsNotInclusive(field: text, x: u64, b: u64, fs: Floats)
    requires Rounds(fs)
    ensures var meta := [(field, FloatValue(x))];
      && (Matches(Leaf(Range(field, NextUp(FloatNum(b)), FloatNum(POS_INF))), meta, fs)
            == Matches(Not(Leaf(Range(field, FloatNum(NEG_INF), FloatNum(b)))), meta, fs)
          <==> IsNan(b) || (!IsNan(x) && !(b == POS_INF && x == POS_INF)))
      && (Matches(Leaf(Range(field, FloatNum(NEG_INF), NextDown(FloatNum(b)))), meta, fs)
            == Matches(Not(Leaf(Range(field, FloatNum(b), FloatNum(POS_INF)))), meta, fs)
          <==> IsNan(b) || (!IsNan(x) && !(b == NEG_INF && x == NEG_INF)))
  {
    hide Holds;
    if IsNan(b) {
      NanBoundFails(field, x, b, fs);
    } else {
      OneDouble(field, x, FloatUp(b), POS_INF, fs);
      OneDouble(field, x, NEG_INF, b, fs);
      OneDouble(field, x, NEG_INF, FloatDown(b), fs);
      OneDouble(field, x, b, POS_INF, fs);
    }
  }

  lemma NanBoundFails(field: text, x: u64, b: u64, fs: Floats)
    requires IsNan(b)
    ensures var meta := [(field, FloatValue(x))];
      && Holds(Range(field, FloatNum(b), FloatNum(POS_INF)), meta, fs) == Err(Schema)
      && Holds(Range(field, FloatNum(NEG_INF), FloatNum(b)), meta, fs) == Err(Schema)
  {
    hide Order, IsNan;
  }

  // --- a parsed filter never fails ---

  predicate NanFree(n: BoolNode) {
    match n
    case Leaf(p) => SafeLeaf(p)
    case And(l, r) => NanFree(l) && NanFree(r)
    case Or(l, r) => NanFree(l) && NanFree(r)
    case Not(m) => NanFree(m)
  }

  predicate SafeLeaf(p: Predicate) { p.Range? ==> !NanBound(p.lo) && !NanBound(p.hi) }

  /** Decimal text never reads as NaN. */
  ghost predicate NoNans(fl: FloatReader) { forall t :: !IsNan(fl(t)) }

  lemma {:induction false} NanFreeNeverFails(n: BoolNode, meta: Meta, fs: Floats)
    requires NanFree(n)
    ensures Matches(n, meta, fs).Ok?
  {
    hide NanBound;
    match n
    case Leaf(p) =>
    case And(l, r) => NanFreeNeverFails(l, meta, fs); NanFreeNeverFails(r, meta, fs);
    case Or(l, r) => NanFreeNeverFails(l, meta, fs); NanFreeNeverFails(r, meta, fs);
    case Not(m) => NanFreeNeverFails(m, meta, fs);
  }

  lemma BoundSafe(s: seq<byte>, fl: FloatReader)
    requires NoNans(fl)
    ensures ReadNumber(s, fl).Some? ==>
      var n := ReadNumber(s, fl).value.0;
      !NanBound(n) && !NanBound(NextUp(n)) && !NanBound(NextDown(n))
  {
    hide AfterWs, NumberRun, ParseI64;
  }

  lemma OperatorSafe(field: seq<byte>, s: seq<byte>, fl: FloatReader)
    requires NoNans(fl)
    ensures ReadOperator(field, s, fl).Some? ==> SafeLeaf(ReadOperator(field, s, fl).value.0)
  {
    hide ReadNumber, ReadLiteral, NextUp, NextDown, NoNans;
    if |s| >= 1 {
      BoundSafe(s[1..], fl);
      if |s| >= 2 { BoundSafe(s[1..][1..], fl); }
    }
    Infinities();
  }

  lemma Infinities()
    ensures !NanBound(FloatNum(POS_INF)) && !NanBound(FloatNum(NEG_INF))
  {
  }

  lemma ComparisonSafe(s: seq<byte>, fl: FloatReader)
    requires NoNans(fl)
    ensures ReadComparison(s, fl).Some? ==> SafeLeaf(ReadComparison(s, fl).value.0)
  {
    hide ReadIdent, AfterWs, AfterKeyword, AfterChar, ReadList, ReadOperator, NoNans;
    if ReadIdent(s).Some? {
      var (field, s1) := ReadIdent(s).value;
      OperatorSafe(field, AfterWs(s1), fl);
    }
  }

  lemma {:induction false} PrimarySafe(s0: seq<byte>, fl: FloatReader)
    requires NoNans(fl)
    ensures ReadPrimary(s0, fl).Some? ==> NanFree(ReadPrimary(s0, fl).value.0)
    decreases |s0|, 0
  {
    hide AfterWs, ReadComparison, ReadOr, NoNans, SafeLeaf;
    var s := AfterWs(s0);
    if AfterChar(s, OPEN).Some? { OrSafe(AfterChar(s, OPEN).value, fl); } else { ComparisonSafe(s, fl); }
  }

  lemma {:induction false} NotSafe(s0: seq<byte>, fl: FloatReader)
    requires NoNans(fl)
    ensures ReadNot(s0, fl).Some? ==> NanFree(ReadNot(s0, fl).value.0)
    decreases |s0|, 1
  {
    hide AfterWs, AfterKeyword, ReadPrimary, NoNans, SafeLeaf;
    var s := AfterWs(s0);
    var inner := AfterKeyword(s, KW_NOT);
    if inner.Some? { NotSafe(inner.value, fl); } else { PrimarySafe(s, fl); }
  }

  lemma {:induction false} AndLoopSafe(left: BoolNode, s: seq<byte>, fl: FloatReader)
    requires NoNans(fl) && NanFree(left)
    ensures AndLoop(left, s, fl).Some? ==> NanFree(AndLoop(left, s, fl).value.0)
    decreases |s|, 2
  {
    hide AfterWs, AfterKeyword, ReadNot, NoNans, SafeLeaf;
    var more := AfterKeyword(AfterWs(s), KW_AND);
    if more.Some? {
      NotSafe(more.value, fl);
      var right := ReadNot(more.value, fl);
      if right.Some? { AndLoopSafe(And(left, right.value.0), right.value.1, fl); }
    }
  }

  lemma {:induction false} AndSafe(s: seq<byte>, fl: FloatReader)
    requires NoNans(fl)
    ensures ReadAnd(s, fl).Some? ==> NanFree(ReadAnd(s, fl).value.0)
    decreases |s|, 3
  {
    hide ReadNot, AndLoop, NoNans, NanFree;
    NotSafe(s, fl);
    var first := ReadNot(s, fl);
    if first.Some? { AndLoopSafe(first.value.0, first.value.1, fl); }
  }

  lemma {:induction false} OrLoopSafe(left: BoolNode, s: seq<byte>, fl: FloatReader)
    requires NoNans(fl) && NanFree(left)
    ensures OrLoop(left, s, fl).Some? ==> NanFree(OrLoop(left, s, fl).value.0)
    decreases |s|, 4
  {
    hide AfterWs, AfterKeyword, ReadAnd, NoNans, SafeLeaf;
    var more := AfterKeyword(AfterWs(s), KW_OR);
    if more.Some? {
      AndSafe(more.value, fl);
      var right := ReadAnd(more.value, fl);
      if right.Some? { OrLoopSafe(Or(left, right.value.0), right.value.1, fl); }
    }
  }

  lemma {:induction false} OrSafe(s: seq<byte>, fl: FloatReader)
    requires NoNans(fl)
    ensures ReadOr(s, fl).Some? ==> NanFree(ReadOr(s, fl).value.0)
    decreases |s|, 5
  {
    hide ReadAnd, OrLoop, NoNans, NanFree;
    AndSafe(s, fl);
    var first := ReadAnd(s, fl);
    if first.Some? { OrLoopSafe(first.value.0, first.value.1, fl); }
  }

  /** Whatever string parses, the filter it gives answers on every record. */
  lemma ParsedNeverFails(input: seq<byte>, fl: FloatReader, meta: Meta, fs: Floats)
    requires NoNans(fl) && ParseWhere(input, fl).Ok?
    ensures Filter(ParseWhere(input, fl).value).Accepts(meta, fs).Ok?
  {
    hide AfterWs, ReadOr, NoNans, NanFree, Matches;
    var s := AfterWs(input);
    OrSafe(s, fl);
    var n := ReadOr(s, fl);
    if n.Some? { NanFreeNeverFails(n.value.0, meta, fs); }
  }
}
