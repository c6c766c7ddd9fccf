/** The grammar of where-strings: every way to spell a filter, and the proof that the parser reads exactly these. */
module FilterGrammar {
  import opened Wrappers
  import opened Bytes
  import opened FilterParse
  import opened FilterPrint
  import opened FilterSpelling

  // --- expressions ---

  /** How an expression is spelled, from the blanks before it on. */
  datatype Spelling =
    | Tested(gap: seq<byte>, field: seq<byte>, test: Test)
    | Grouped(gap: seq<byte>, inner: Spelling, close: seq<byte>)
    | Negated(gap: seq<byte>, word: seq<byte>, inner: Spelling)
    | Joined(left: Spelling, gap: seq<byte>, word: seq<byte>, right: Spelling)
    | Parted(left: Spelling, gap: seq<byte>, word: seq<byte>, right: Spelling)

  function Text(n: Spelling): seq<byte> {
    match n
    case Tested(gap, field, test) => gap + field + (test.gap + TestCore(test))
    case Grouped(gap, inner, close) => gap + ([OPEN] + (Text(inner) + (close + [CLOSE])))
    case Negated(gap, word, inner) => gap + (word + Text(inner))
    case Joined(left, gap, word, right) => Text(left) + (gap + (word + Text(right)))
    case Parted(left, gap, word, right) => Text(left) + (gap + (word + Text(right)))
  }

  function Tree(n: Spelling): BoolNode {
    match n
    case Tested(_, field, test) => Leaf(Asked(test, field))
    case Grouped(_, inner, _) => Tree(inner)
    case Negated(_, _, inner) => Not(Tree(inner))
    case Joined(left, _, _, right) => And(Tree(left), Tree(right))
    case Parted(left, _, _, right) => Or(Tree(left), Tree(right))
  }

  /** The spelling may stand where an or, an and, or a not expression is expected, with s behind it: NOT binds
      tighter than AND and AND than OR, both associate to the left, and words are kept apart. */
  predicate Fine(n: Spelling, at: Level, s: seq<byte>, fl: FloatReader) {
    match n
    case Tested(gap, field, test) =>
      && Blank(gap) && IsName(field) && !SaysNot(field)
      && TestSays(test, fl) && TestEnds(test, s) && WordEnds(test.gap + TestCore(test) + s)
    case Grouped(gap, inner, close) =>
      Blank(gap) && Blank(close) && Fine(inner, OrLevel, close + ([CLOSE] + s), fl)
    case Negated(gap, word, inner) =>
      Blank(gap) && Word(word, KW_NOT) && Fine(inner, NotLevel, s, fl) && WordEnds(Text(inner) + s)
    case Joined(left, gap, word, right) =>
      && !at.NotLevel? && Blank(gap) && Word(word, KW_AND) && WordEnds(Text(right) + s)
      && Fine(left, AndLevel, gap + (word + (Text(right) + s)), fl) && Fine(right, NotLevel, s, fl)
    case Parted(left, gap, word, right) =>
      && at.OrLevel? && Blank(gap) && Word(word, KW_OR) && WordEnds(Text(right) + s)
      && Fine(left, OrLevel, gap + (word + (Text(right) + s)), fl) && Fine(right, AndLevel, s, fl)
  }

  /** A name is taken for a keyword only when it is that keyword in some case. */
  lemma NameMissed(f: seq<byte>, s: seq<byte>)
    requires IsName(f) && !SaysNot(f) && WordEnds(s)
    ensures AfterKeyword(f + s, KW_NOT) == None && AfterWs(f + s) == f + s && AfterChar(f + s, OPEN) == None
  {
    var t := f + s;
    assert t[0] == f[0];
    NoBlank(t);
    if |f| < 3 && |t| >= 3 {
      assert t[|f|] == s[0];
      assert !StartsWith(t, KW_NOT) by { assert Lower(t[|f|]) != Lower(KW_NOT[|f|]); }
    } else if |f| >= 3 {
      assert forall i | 0 <= i < 3 :: t[i] == f[i];
      if |f| > 3 { assert t[3] == f[3]; }
    }
  }

  lemma TestedRead(gap: seq<byte>, field: seq<byte>, t: Test, s: seq<byte>, fl: FloatReader)
    requires Blank(gap) && IsName(field) && !SaysNot(field)
    requires TestSays(t, fl) && TestEnds(t, s) && WordEnds(t.gap + TestCore(t) + s)
    ensures ReadNot(gap + field + (t.gap + TestCore(t)) + s, fl) == Some((Leaf(Asked(t, field)), s))
  {
    hide ReadComparison, AfterKeyword, AfterChar, AfterWs, TestSays, TestEnds, TestCore, Asked, Blank, IsName, SaysNot,
         WordEnds;
    var rest := t.gap + TestCore(t) + s;
    var bare := field + rest;
    assert gap + field + (t.gap + TestCore(t)) + s == gap + bare;
    GapSkipped(gap, bare);
    NameMissed(field, rest);
    assert Blank([]) by { NothingBlank(); }
    ComparisonRead([], field, t, s, fl);
    assert [] + field + rest == bare;
  }

  lemma NothingBlank()
    ensures Blank([])
  {
  }

  lemma {:induction false} NotRead(n: Spelling, s: seq<byte>, fl: FloatReader)
    requires Fine(n, NotLevel, s, fl)
    ensures ReadNot(Text(n) + s, fl) == Some((Tree(n), s))
    decreases n, 1
  {
    hide AfterKeyword, ReadPrimary, AfterWs, TestSays, TestEnds, TestCore, Asked, Blank, IsName, SaysNot, WordEnds,
         Word, ReadComparison;
    match n
    case Tested(gap, field, test) => TestedRead(gap, field, test, s, fl);
    case Grouped(gap, inner, close) => GroupRead(n, s, fl);
    case Negated(gap, word, inner) =>
      var rest := Text(inner) + s;
      assert Text(n) + s == gap + (word + rest);
      GapSkipped(gap, word + rest);
      WordStarts(word, KW_NOT, rest);
      WordRead(word, KW_NOT, rest);
      NotRead(inner, s, fl);
  }

  lemma {:induction false} GroupRead(n: Spelling, s: seq<byte>, fl: FloatReader)
    requires n.Grouped? && Fine(n, NotLevel, s, fl)
    ensures ReadNot(Text(n) + s, fl) == Some((Tree(n), s))
    decreases n, 0
  {
    hide AfterKeyword, AfterChar, ReadOr, OrLoop, AfterWs, Blank;
    var close := [CLOSE] + s;
    var inner := Text(n.inner) + (n.close + close);
    assert Text(n) + s == n.gap + ([OPEN] + inner);
    GapSkipped(n.gap, [OPEN] + inner);
    NoBlank([OPEN] + inner);
    WordMissed([OPEN] + inner, KW_NOT);
    CharTaken(OPEN, inner);
    CharTaken(CLOSE, s);
    GapSkipped(n.close, close);
    ClosedGroup(Tree(n.inner), s, fl);
    OrRead(n.inner, n.close + close, fl);
    OrLoopAfterWs(Tree(n.inner), n.close + close, fl);
  }

  lemma {:induction false} AndRead(n: Spelling, s: seq<byte>, fl: FloatReader)
    requires Fine(n, AndLevel, s, fl)
    ensures ReadAnd(Text(n) + s, fl) == AndLoop(Tree(n), s, fl)
    decreases n, 2
  {
    hide AfterKeyword, AfterWs, TestSays, TestEnds, TestCore, Asked, Blank, IsName, SaysNot, WordEnds, Word, ReadNot;
    if n.Joined? {
      var right := Text(n.right) + s;
      var rest := n.gap + (n.word + right);
      assert Text(n) + s == Text(n.left) + rest;
      AndRead(n.left, rest, fl);
      GapSkipped(n.gap, n.word + right);
      WordStarts(n.word, KW_AND, right);
      WordRead(n.word, KW_AND, right);
      NotRead(n.right, s, fl);
    } else {
      NotRead(n, s, fl);
    }
  }

  lemma {:induction false} OrRead(n: Spelling, s: seq<byte>, fl: FloatReader)
    requires Fine(n, OrLevel, s, fl) && AfterKeyword(AfterWs(s), KW_AND) == None
    ensures ReadOr(Text(n) + s, fl) == OrLoop(Tree(n), s, fl)
    decreases n, 3
  {
    hide AfterKeyword, AfterWs, TestSays, TestEnds, TestCore, Asked, Blank, IsName, SaysNot, WordEnds, Word, ReadAnd;
    if n.Parted? {
      var right := Text(n.right) + s;
      var rest := n.gap + (n.word + right);
      assert Text(n) + s == Text(n.left) + rest;
      GapSkipped(n.gap, n.word + right);
      WordStarts(n.word, KW_OR, right);
      OtherWord(n.word, KW_OR, right, KW_AND, 0);
      OrRead(n.left, rest, fl);
      WordRead(n.word, KW_OR, right);
      AndRead(n.right, s, fl);
    } else {
      AndRead(n, s, fl);
    }
    OrLoopAfterWs(Tree(n), s, fl);
  }

  // --- every parse is a spelling ---

  lemma Looser(n: Spelling, s: seq<byte>, fl: FloatReader)
    ensures Fine(n, NotLevel, s, fl) ==> Fine(n, AndLevel, s, fl)
    ensures Fine(n, AndLevel, s, fl) ==> Fine(n, OrLevel, s, fl)
  {
    hide TestSays, TestEnds, TestCore, Blank, IsName, SaysNot, WordEnds, Word, Text;
  }

  lemma {:induction false} NotFound(s0: seq<byte>, fl: FloatReader) returns (n: Spelling)
    requires ReadNot(s0, fl).Some?
    ensures var (t, rest) := ReadNot(s0, fl).value;
      Fine(n, NotLevel, rest, fl) && s0 == Text(n) + rest && Tree(n) == t
    decreases |s0|, 1
  {
    hide AfterKeyword, AfterWs, Blank, WordEnds, Word, ReadPrimary;
    var gap := GapFound(s0);
    var s := AfterWs(s0);
    var (t, rest) := ReadNot(s0, fl).value;
    if AfterKeyword(s, KW_NOT).Some? {
      var word := WordFound(s, KW_NOT);
      var inner := NotFound(AfterKeyword(s, KW_NOT).value, fl);
      n := Negated(gap, word, inner);
      assert s0 == gap + (word + Text(inner)) + rest;
    } else {
      n := PrimaryFound(s0, gap, s, fl);
    }
  }

  lemma {:induction false} PrimaryFound(s0: seq<byte>, gap: seq<byte>, s: seq<byte>, fl: FloatReader)
    returns (n: Spelling)
    requires s0 == gap + s && Blank(gap) && (s == [] || !IsWs(s[0])) && ReadPrimary(s, fl).Some?
    requires AfterKeyword(s, KW_NOT) == None
    ensures var (t, rest) := ReadPrimary(s, fl).value;
      Fine(n, NotLevel, rest, fl) && s0 == Text(n) + rest && Tree(n) == t
    decreases |s0|, 0
  {
    hide AfterKeyword, AfterWs, Blank, WordEnds, ReadComparison, ReadOr, TestSays, TestEnds, TestCore, Asked, IsName,
         SaysNot;
    NoBlank(s);
    var (t, rest) := ReadPrimary(s, fl).value;
    if AfterChar(s, OPEN).Some? {
      var inner, tail := OrFound(s[1..], fl);
      var close := GapFound(tail);
      var s2 := ReadOr(s[1..], fl).value.1;
      SkipTwice(tail);
      assert AfterWs(s2) == [CLOSE] + rest;
      n := Grouped(gap, inner, close);
      assert s == [OPEN] + s[1..];
      assert s0 == gap + ([OPEN] + (Text(inner) + (close + [CLOSE]))) + rest;
    } else {
      n := LeafFound(s0, gap, s, fl);
    }
  }

  lemma NoGap(gap: seq<byte>, s: seq<byte>)
    requires Blank(gap) && gap <= s && (s == [] || !IsWs(s[0]))
    ensures gap == []
  {
  }

  lemma LeafFound(s0: seq<byte>, gap: seq<byte>, s: seq<byte>, fl: FloatReader) returns (n: Spelling)
    requires s0 == gap + s && Blank(gap) && (s == [] || !IsWs(s[0])) && ReadComparison(s, fl).Some?
    requires AfterKeyword(s, KW_NOT) == None
    ensures var (p, rest) := ReadComparison(s, fl).value;
      Fine(n, NotLevel, rest, fl) && s0 == Text(n) + rest && Tree(n) == Leaf(p)
  {
    hide AfterKeyword, WordEnds, ReadComparison, TestSays, TestEnds, TestCore, Asked, IsName;
    var (p, rest) := ReadComparison(s, fl).value;
    var none, field, test := ComparisonFound(s, fl);
    var behind := test.gap + TestCore(test) + rest;
    assert s == none + (field + behind);
    NoGap(none, s);
    assert s == field + behind;
    if SaysNot(field) { WordRead(field, KW_NOT, behind); }
    n := Tested(gap, field, test);
    assert s0 == gap + field + (test.gap + TestCore(test)) + rest;
  }

  /** The ANDs behind a left operand. */
  lemma {:induction false} AndsFound(l: Spelling, s: seq<byte>, fl: FloatReader)
    returns (n: Spelling, tail: seq<byte>)
    requires Fine(l, AndLevel, s, fl) && AndLoop(Tree(l), s, fl).Some?
    ensures var (t, rest) := AndLoop(Tree(l), s, fl).value;
      && Fine(n, AndLevel, tail, fl) && Text(l) + s == Text(n) + tail && Tree(n) == t && rest == AfterWs(tail)
      && |tail| <= |s|
    decreases |s|, 2
  {
    hide AfterKeyword, AfterWs, Blank, WordEnds, Word, ReadNot, TestSays, TestEnds, TestCore, Asked, IsName, SaysNot;
    var after := AfterKeyword(AfterWs(s), KW_AND);
    if after.Some? {
      var gap := GapFound(s);
      var word := WordFound(AfterWs(s), KW_AND);
      var right := NotFound(after.value, fl);
      var s2 := ReadNot(after.value, fl).value.1;
      assert s == gap + (word + (Text(right) + s2));
      var both := Joined(l, gap, word, right);
      assert Text(both) + s2 == Text(l) + s;
      n, tail := AndsFound(both, s2, fl);
    } else {
      n, tail := l, s;
    }
  }

  lemma {:induction false} AndFound(s0: seq<byte>, fl: FloatReader) returns (n: Spelling, tail: seq<byte>)
    requires ReadAnd(s0, fl).Some?
    ensures var (t, rest) := ReadAnd(s0, fl).value;
      && Fine(n, AndLevel, tail, fl) && s0 == Text(n) + tail && Tree(n) == t && rest == AfterWs(tail)
      && |tail| < |s0|
    decreases |s0|, 3
  {
    hide AfterWs, AndLoop, Fine, Text, Tree, ReadNot;
    var first := NotFound(s0, fl);
    var s1 := ReadNot(s0, fl).value.1;
    Looser(first, s1, fl);
    n, tail := AndsFound(first, s1, fl);
  }

  /** The ORs behind a left operand. */
  lemma {:induction false} OrsFound(l: Spelling, s: seq<byte>, fl: FloatReader)
    returns (n: Spelling, tail: seq<byte>)
    requires Fine(l, OrLevel, s, fl) && OrLoop(Tree(l), s, fl).Some?
    ensures var (t, rest) := OrLoop(Tree(l), s, fl).value;
      && Fine(n, OrLevel, tail, fl) && Text(l) + s == Text(n) + tail && Tree(n) == t && rest == AfterWs(tail)
    decreases |s|, 4
  {
    hide AfterKeyword, AfterWs, Blank, WordEnds, Word, ReadAnd, TestSays, TestEnds, TestCore, Asked, IsName, SaysNot;
    var after := AfterKeyword(AfterWs(s), KW_OR);
    if after.Some? {
      var gap := GapFound(s);
      var word := WordFound(AfterWs(s), KW_OR);
      var right, s2 := AndFound(after.value, fl);
      assert s == gap + (word + (Text(right) + s2));
      var both := Parted(l, gap, word, right);
      assert Text(both) + s2 == Text(l) + s;
      OrLoopAfterWs(Tree(both), s2, fl);
      n, tail := OrsFound(both, s2, fl);
    } else {
      n, tail := l, s;
    }
  }

  lemma {:induction false} OrFound(s0: seq<byte>, fl: FloatReader) returns (n: Spelling, tail: seq<byte>)
    requires ReadOr(s0, fl).Some?
    ensures var (t, rest) := ReadOr(s0, fl).value;
      Fine(n, OrLevel, tail, fl) && s0 == Text(n) + tail && Tree(n) == t && rest == AfterWs(tail)
    decreases |s0|, 5
  {
    hide AfterWs, OrLoop, Fine, Text, Tree, ReadAnd;
    var first, s1 := AndFound(s0, fl);
    Looser(first, s1, fl);
    OrLoopAfterWs(Tree(first), s1, fl);
    n, tail := OrsFound(first, s1, fl);
  }

  // --- the theorem ---

  /** The input is this spelling with blanks behind it. */
  predicate Spells(n: Spelling, blanks: seq<byte>, input: seq<byte>, fl: FloatReader) {
    Blank(blanks) && Fine(n, OrLevel, blanks, fl) && input == Text(n) + blanks
  }

  lemma ParseFrom(input: seq<byte>, fl: FloatReader)
    ensures AfterWs(input) != [] ==> ReadOr(AfterWs(input), fl) == ReadOr(input, fl)
    ensures AfterWs(input) == [] ==> ReadOr(input, fl) == None
  {
    hide AfterWs, ReadAnd, OrLoop;
    AndAfterWs(input, fl);
    if AfterWs(input) == [] { NothingRead(fl); }
  }

  lemma NothingRead(fl: FloatReader)
    ensures ReadAnd([], fl) == None
  {
  }

  lemma SpellingParses(n: Spelling, blanks: seq<byte>, input: seq<byte>, fl: FloatReader)
    requires Spells(n, blanks, input, fl)
    ensures ParseWhere(input, fl) == Ok(Some(Tree(n)))
  {
    hide AfterWs, ReadOr, OrLoop, Fine, Text, Tree, Blank;
    GapSkipped(blanks, []);
    assert blanks + [] == blanks;
    NothingLeft(Tree(n), fl);
    OrRead(n, blanks, fl);
    OrLoopAfterWs(Tree(n), blanks, fl);
    ParseFrom(input, fl);
  }

  /** The parser accepts exactly the spellings of the grammar, and gives what they spell. */
  lemma ParserReadsGrammar(input: seq<byte>, tree: BoolNode, fl: FloatReader)
    ensures ParseWhere(input, fl) == Ok(Some(tree))
       <==> exists n, blanks :: Spells(n, blanks, input, fl) && Tree(n) == tree
  {
    hide AfterWs, ReadOr, Fine, Text, Tree, Blank, Spells;
    if ParseWhere(input, fl) == Ok(Some(tree)) {
      ParseFrom(input, fl);
      var n, blanks := OrFound(input, fl);
      assert Spells(n, blanks, input, fl) by { TailIsBlank(n, blanks, input, fl); }
    }
    if n, blanks :| Spells(n, blanks, input, fl) && Tree(n) == tree { SpellingParses(n, blanks, input, fl); }
  }

  lemma TailIsBlank(n: Spelling, tail: seq<byte>, input: seq<byte>, fl: FloatReader)
    requires Fine(n, OrLevel, tail, fl) && input == Text(n) + tail && AfterWs(AfterWs(tail)) == []
    ensures Spells(n, tail, input, fl)
  {
    hide AfterWs, Fine, Text;
    SkipTwice(tail);
    var gap := GapFound(tail);
    assert tail == gap;
  }

  /** Nothing but blanks is the filter that accepts everything. */
  lemma BlankParses(input: seq<byte>, fl: FloatReader)
    ensures ParseWhere(input, fl) == Ok(None) <==> Blank(input)
  {
    hide ReadOr, AfterWs;
    var gap := GapFound(input);
    if Blank(input) {
      GapSkipped(input, []);
      assert input + [] == input;
      NothingLeft(Leaf(Present([])), fl);
    }
  }
}
