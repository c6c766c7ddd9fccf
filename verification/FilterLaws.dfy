/** What filters accept, said of a record's entries themselves. */
module FilterLaws {
  import opened Wrappers
  import opened Bytes
  import opened Records
  import opened FilterParse
  import opened FilterEval

  /** IS NULL holds when no entry has the field's name, IS NOT NULL when one does, whatever its value. */
  lemma NullTests(field: seq<byte>, meta: Meta, fs: Floats)
    ensures Matches(Leaf(NotPresent(field)), meta, fs) == Ok(forall e | e in meta :: e.0 != field)
    ensures Matches(Leaf(Present(field)), meta, fs) == Ok(exists e | e in meta :: e.0 == field)
    ensures Matches(Leaf(Present(field)), meta, fs) == Matches(Not(Leaf(NotPresent(field))), meta, fs)
  {
    hide IsNan;
    if e :| e in meta && e.0 == field {
      var i :| 0 <= i < |meta| && meta[i] == e;
      assert meta[i].0 == field;
    }
  }

  // --- equality ---

  predicate NanValue(v: MetaValue) { v.FloatValue? && IsNan(v.bits) }

  /** The same type and content; a NaN equals nothing and the two zeros equal each other. */
  predicate Equals(a: MetaValue, b: MetaValue) {
    (a == b && !NanValue(a)) || (a in ZEROS && b in ZEROS)
  }

  const ZEROS: set<MetaValue> := {FloatValue(0), FloatValue(SIGN)}

  lemma SameIsEqual(a: MetaValue, b: MetaValue)
    ensures SameValue(a, b) <==> Equals(a, b)
  {
    if a.FloatValue? && b.FloatValue? { OrderIsInjective(a.bits, b.bits); }
  }

  lemma OrderIsInjective(a: u64, b: u64)
    ensures Order(a) == Order(b) <==> a == b || (a % SIGN == 0 && b % SIGN == 0)
  {
  }

  lemma EqMeaning(field: seq<byte>, v: MetaValue, meta: Meta, fs: Floats)
    ensures Matches(Leaf(Eq(field, v)), meta, fs) == Ok(exists e | e in meta :: e.0 == field && Equals(e.1, v))
    ensures Matches(Leaf(Neq(field, v)), meta, fs) == Ok(forall e | e in meta :: e.0 == field ==> !Equals(e.1, v))
  {
    hide SameValue, Equals;
    forall e: (text, MetaValue)
      ensures SameValue(e.1, v) <==> Equals(e.1, v)
    {
      SameIsEqual(e.1, v);
    }
    if e :| e in meta && e.0 == field && Equals(e.1, v) {
      var i :| 0 <= i < |meta| && meta[i] == e;
      assert SameValue(meta[i].1, v);
    }
    if AnyEqual(meta, field, v) {
      var i :| 0 <= i < |meta| && meta[i].0 == field && SameValue(meta[i].1, v);
      assert meta[i] in meta;
    }
  }

  /** An entry of that name and value makes the equality hold, wherever it stands; the one exception is NaN. */
  lemma EqFinds(field: text, v: MetaValue, front: Meta, back: Meta, fs: Floats)
    ensures Matches(Leaf(Eq(field, v)), front + [(field, v)] + back, fs) == Ok(true)
      <==> !NanValue(v) || Matches(Leaf(Eq(field, v)), front + back, fs) == Ok(true)
  {
    hide Matches;
    var meta := front + [(field, v)] + back;
    EqMeaning(field, v, meta, fs);
    EqMeaning(field, v, front + back, fs);
    assert meta[|front|] == (field, v);
    assert forall e :: e in meta <==> e in front + back || e == (field, v);
    assert Equals(v, v) <==> !NanValue(v);
  }

  // --- the order of doubles ---

  const ONE: nat := 0x10_0000_0000_0000

  /** The size of a finite double, in units of the smallest one: a 52-bit fraction, with a leading one
      unless the exponent is zero, shifted by the exponent. */
  function Size(b: u64): nat { Shifted(b % ONE, b % SIGN / ONE) }

  function Shifted(m: nat, e: nat): nat { if e == 0 then m else (ONE + m) * Pow2(e - 1) }

  function Numeric(b: u64): int {
    var size: int := Size(b);
    if b < SIGN then size else -size
  }

  /** A NaN has all exponent bits set and a fraction, the infinities none. */
  lemma SpecialDoubles(b: u64)
    ensures IsNan(b) <==> b % SIGN / ONE == 0x7FF && b % ONE != 0
    ensures b == POS_INF || b == NEG_INF <==> b % SIGN / ONE == 0x7FF && b % ONE == 0
    ensures Finite(b) <==> b % SIGN / ONE != 0x7FF
    ensures NEG_INF == POS_INF + SIGN && POS_INF < SIGN
  {
    assert b % ONE == b % SIGN % ONE;
  }

  predicate Finite(b: u64) { b % SIGN < POS_INF }

  lemma {:induction false} Pow2Grows(a: nat, b: nat)
    requires a <= b
    ensures 1 <= Pow2(a) <= Pow2(b)
    decreases b
  {
    if a < b { Pow2Grows(a, b - 1); } else if a > 0 { Pow2Grows(a - 1, a - 1); }
  }

  lemma SizeGrows(a: u64, b: u64)
    requires a % SIGN < b % SIGN
    ensures Size(a) < Size(b)
  {
    hide Shifted;
    var m, e, n, f := a % ONE, a % SIGN / ONE, b % ONE, b % SIGN / ONE;
    assert a % SIGN == e * ONE + m && b % SIGN == f * ONE + n;
    assert e < f || (e == f && m < n);
    if e == f { FractionGrows(m, n, e); } else { ExponentGrows(m, e, n, f); }
  }

  lemma FractionGrows(m: nat, n: nat, e: nat)
    requires m < n
    ensures Shifted(m, e) < Shifted(n, e)
  {
    if e > 0 { Scaled(ONE + m, ONE + n, Pow2(e - 1)); }
  }

  lemma ExponentGrows(m: nat, e: nat, n: nat, f: nat)
    requires e < f && m < ONE
    ensures Shifted(m, e) < Shifted(n, f)
  {
    Pow2Grows(e, f - 1);
    Scaled(ONE, ONE + n, Pow2(f - 1));
    if e == 0 {
      Scaled(ONE, ONE, Pow2(f - 1));
    } else {
      Scaled(ONE + m, 2 * ONE, Pow2(e - 1));
      assert 2 * ONE * Pow2(e - 1) == ONE * Pow2(e);
      Scaled(Pow2(e), Pow2(f - 1), ONE);
    }
  }

  lemma Scaled(a: nat, b: nat, k: nat)
    requires a <= b && k >= 1
    ensures a * k <= b * k && a <= a * k && (a < b ==> a * k < b * k)
  {
    assert (b - a) * k >= b - a;
    assert a * (k - 1) >= 0;
  }

  /** Finite doubles compare as the numbers they stand for, both infinities beyond all of them. */
  lemma OrderIsNumeric(a: u64, b: u64)
    requires Finite(a) && Finite(b)
    ensures FloatLess(a, b) <==> Numeric(a) < Numeric(b)
    ensures FloatEqual(a, b) <==> Numeric(a) == Numeric(b)
    ensures FloatLess(NEG_INF, a) && FloatLess(a, POS_INF)
  {
    hide Size;
    if a % SIGN < b % SIGN { SizeGrows(a, b); }
    if b % SIGN < a % SIGN { SizeGrows(b, a); }
    SizeIs(a, b);
    NoSize(a);
    NoSize(b);
  }

  lemma SizeIs(a: u64, b: u64)
    ensures a % SIGN == b % SIGN ==> Size(a) == Size(b)
  {
    hide Shifted;
    assert a % ONE == a % SIGN % ONE && b % ONE == b % SIGN % ONE;
  }

  lemma NoSize(a: u64)
    ensures Size(a) == 0 <==> a % SIGN == 0
  {
    hide Size;
    if a % SIGN > 0 { SizeGrows(0, a); }
    SizeIs(0, a);
    assert Size(0) == 0 by { ZeroSize(); }
  }

  lemma ZeroSize()
    ensures Size(0) == 0
  {
  }

  /** The next double up is the least one above: no finite double lies strictly between. */
  lemma NextUpIsLeastAbove(b: u64, x: u64)
    requires Finite(b) && !IsNan(x)
    ensures FloatLess(b, x) <==> FloatLess(FloatUp(b), x) || FloatEqual(FloatUp(b), x)
    ensures FloatLess(x, b) <==> FloatLess(x, FloatDown(b)) || FloatEqual(x, FloatDown(b))
  {
  }

  // --- ranges ---

  /** A range is an error exactly when a bound is NaN. */
  lemma RangeFailsIff(field: seq<byte>, lo: Num, hi: Num, meta: Meta, fs: Floats)
    ensures Matches(Leaf(Range(field, lo, hi)), meta, fs).Err? <==> NanBound(lo) || NanBound(hi)
  {
    hide IsNan, Order;
  }

  /** Strings, booleans and byte strings are in no range. */
  lemma RangeNeedsNumbers(field: seq<byte>, lo: Num, hi: Num, meta: Meta, fs: Floats)
    requires forall e | e in meta && e.0 == field :: !e.1.IntValue? && !e.1.FloatValue?
    ensures Matches(Leaf(Range(field, lo, hi)), meta, fs) != Ok(true)
  {
    hide IsNan, Order, FloatBetween;
    assert forall i | 0 <= i < |meta| :: meta[i] in meta;
  }

  /** An exact conversion gives the integer that the double is, in units of the smallest double. */
  ghost predicate ExactIsNumeric(fs: Floats) {
    forall b: u64 | Finite(b) && fs.exact(b).Some? :: Numeric(b) == fs.exact(b).value * Pow2(1074)
  }

  /** A range between two doubles holds of a double if and only if it lies between them, with one exception: when
      both bounds are integers, a double between them that is none is left out. */
  lemma DoubleRangeIff(field: text, x: u64, lo: u64, hi: u64, fs: Floats)
    requires Finite(x) && Finite(lo) && Finite(hi) && ExactIsNumeric(fs)
    ensures var between := Numeric(lo) <= Numeric(x) <= Numeric(hi);
      Matches(Leaf(Range(field, FloatNum(lo), FloatNum(hi))), [(field, FloatValue(x))], fs)
        == Ok(between && (fs.exact(lo).None? || fs.exact(hi).None? || fs.exact(x).Some?))
  {
    hide Numeric, FloatBetween, Holds, ExactIsNumeric;
    FiniteIsNumber(lo);
    FiniteIsNumber(hi);
    if fs.exact(lo).Some? && fs.exact(hi).Some? {
      WholeRange(field, x, lo, hi, fs);
    } else {
      OneDouble(field, x, lo, hi, fs);
      BetweenIsNumeric(lo, x, hi);
    }
  }

  lemma BetweenIsNumeric(lo: u64, x: u64, hi: u64)
    requires Finite(lo) && Finite(x) && Finite(hi)
    ensures FloatBetween(lo, x, hi) <==> Numeric(lo) <= Numeric(x) <= Numeric(hi)
  {
    hide Numeric, FloatLess, FloatEqual;
    OrderIsNumeric(lo, x);
    OrderIsNumeric(x, hi);
  }

  lemma WholeRange(field: text, x: u64, lo: u64, hi: u64, fs: Floats)
    requires Finite(x) && Finite(lo) && Finite(hi) && ExactIsNumeric(fs)
    requires fs.exact(lo).Some? && fs.exact(hi).Some?
    ensures Holds(Range(field, FloatNum(lo), FloatNum(hi)), [(field, FloatValue(x))], fs)
         == Ok(Numeric(lo) <= Numeric(x) <= Numeric(hi) && fs.exact(x).Some?)
  {
    hide Numeric, FloatLess;
    var meta: Meta := [(field, FloatValue(x))];
    assert meta[0].0 == field && meta[0].1 == FloatValue(x);
    OrderIsNumeric(hi, lo);
    FiniteIsNumber(lo);
    FiniteIsNumber(hi);
    if fs.exact(x).Some? {
      Units(fs.exact(lo).value, fs.exact(x).value, Pow2(1074));
      Units(fs.exact(x).value, fs.exact(hi).value, Pow2(1074));
    }
  }

  lemma FiniteIsNumber(b: u64)
    requires Finite(b)
    ensures !IsNan(b)
  {
  }

  lemma Units(a: int, b: int, k: nat)
    requires k > 0
    ensures a <= b <==> a * k <= b * k
  {
    if a <= b { assert (b - a) * k >= 0; } else { assert (a - b - 1) * k >= 0; }
  }

  /** Nothing is above the last integer or below the first: a strict bound there lets in no integer. */
  lemma StrictAtTheEnds(field: text, x: i64, fs: Floats)
    requires Finite(fs.ofInt(x)) && fs.exact(POS_INF).None? && fs.exact(NEG_INF).None?
    ensures var meta := [(field, IntValue(x))];
      && Matches(Leaf(Range(field, NextUp(IntNum(0x7FFF_FFFF_FFFF_FFFF)), FloatNum(POS_INF))), meta, fs) == Ok(false)
      && Matches(Leaf(Range(field, FloatNum(NEG_INF), NextDown(IntNum(-0x8000_0000_0000_0000)))), meta, fs)
           == Ok(false)
  {
    var meta: Meta := [(field, IntValue(x))];
    assert meta[0].1 == IntValue(x);
  }

  // --- the connectives ---

  /** De Morgan's laws, errors included; two negations cancel. */
  lemma DeMorgan(l: BoolNode, r: BoolNode, meta: Meta, fs: Floats)
    ensures Matches(Not(And(l, r)), meta, fs) == Matches(Or(Not(l), Not(r)), meta, fs)
    ensures Matches(Not(Or(l, r)), meta, fs) == Matches(And(Not(l), Not(r)), meta, fs)
    ensures Matches(Not(Not(l)), meta, fs) == Matches(l, meta, fs)
  {
    hide Holds;
  }

  /** What a tree accepts: a conjunction when both operands do, a negation when its operand answers no;
      an error comes out exactly when the left operand fails, or the right one after it did not decide. */
  lemma Connectives(l: BoolNode, r: BoolNode, meta: Meta, fs: Floats)
    ensures var a, b := Matches(l, meta, fs), Matches(r, meta, fs);
      && (Matches(And(l, r), meta, fs) == Ok(true) <==> a == Ok(true) && b == Ok(true))
      && (Matches(Or(l, r), meta, fs) == Ok(true) <==> a == Ok(true) || (a == Ok(false) && b == Ok(true)))
      && (Matches(Not(l), meta, fs) == Ok(true) <==> a == Ok(false))
      && (Matches(And(l, r), meta, fs).Err? <==> a.Err? || (a == Ok(true) && b.Err?))
      && (Matches(Or(l, r), meta, fs).Err? <==> a.Err? || (a == Ok(false) && b.Err?))
  {
    hide Holds;
  }
}
