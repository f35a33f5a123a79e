/** The names of cells: what is shown as a location is read as that cell. */
module Locations {
  import opened Formulas
  import opened Numerals

  function Letter(column: nat, small: bool): char
    requires column < 26
  {
    (if small then 'a' else 'A') + column as char
  }

  /** How the program shows the location of a cell: the letter of the column and the number of the row. */
  function Location(row: nat, column: nat, small: bool): string
    requires column < 26
  {
    [Letter(column, small)] + Decimal(row + 1)
  }

  lemma LetterRead(column: nat, small: bool)
    requires column < 26
    ensures IsLetter(Letter(column, small)) && Upper(Letter(column, small)) as int - 'A' as int == column
  {}

  lemma DecimalDigit(d: nat)
    requires d < 10
    ensures DECIMAL[d] == '0' + d as char
  {
    assert d == 0 || d == 1 || d == 2 || d == 3 || d == 4 || d == 5 || d == 6 || d == 7 || d == 8 || d == 9;
  }

  lemma Divided(q: nat, d: nat)
    requires d < 10
    ensures (10 * q + d) / 10 == q && (10 * q + d) % 10 == d
  {}

  /** What is written for a number ends in its last digit. */
  lemma DecimalEnd(n: nat, q: nat, d: nat)
    requires n == 10 * q + d && d < 10
    ensures Decimal(n) == (if q == 0 then [] else Decimal(q)) + ['0' + d as char]
  {
    Divided(q, d);
    DecimalDigit(d);
    assert Quotient(n, DECIMAL) == q && Last(n, DECIMAL) == d;
  }

  lemma ReadEnd(front: string, c: char)
    requires IsDigit(c) && forall i :: 0 <= i < |front| ==> IsDigit(front[i])
    ensures ToInt(front + [c]) == ToInt(front) * 10 + (c as int - '0' as int)
  {
    assert (front + [c])[..|front|] == front;
  }

  lemma {:induction false} ReadDecimal(n: nat)
    ensures ToInt(Decimal(n)) == n
    decreases n
  {
    var q, d := n / 10, n % 10;
    DecimalEnd(n, q, d);
    ReadEnd(if q == 0 then [] else Decimal(q), '0' + d as char);
    if q == 0 {
    } else {
      ReadDecimal(q);
    }
  }

  /** Numbers below a thousand have up to three digits, the first of which is not 0. */
  lemma DecimalShape(n: nat)
    requires 0 < n < 1000
    ensures |Decimal(n)| <= 3 && '1' <= Decimal(n)[0]
  {
    var q := n / 10;
    DecimalEnd(n, q, n % 10);
    if q > 0 {
      DecimalEnd(q, q / 10, q % 10);
      if q >= 10 {
        DecimalEnd(q / 10, 0, q / 10);
      }
    }
  }

  lemma LocationParts(c: char, digits: string)
    requires IsLetter(c) && 1 <= |digits| <= 3 && '1' <= digits[0]
    requires forall i :: 0 <= i < |digits| ==> IsDigit(digits[i])
    ensures var s := [c] + digits; IsLocation(s) && LocationOf(s) == (ToInt(digits) - 1, Upper(c) as int - 'A' as int)
  {
    assert ([c] + digits)[1..] == digits;
  }

  /** What the program shows as the location of a cell is read as that cell, in capital and in small letters. */
  lemma LocationRead(row: nat, column: nat, small: bool)
    requires row < 999 && column < 26
    ensures var s := Location(row, column, small); IsLocation(s) && LocationOf(s) == (row, column)
  {
    DecimalShape(row + 1);
    ReadDecimal(row + 1);
    LetterRead(column, small);
    LocationParts(Letter(column, small), Decimal(row + 1));
  }

  lemma {:induction false} DigitsShown(s: string)
    requires s != [] && '1' <= s[0] && forall i :: 0 <= i < |s| ==> IsDigit(s[i])
    ensures ToInt(s) > 0 && Decimal(ToInt(s)) == s
    decreases |s|
  {
    var front, c := s[..|s| - 1], s[|s| - 1];
    assert s == front + [c];
    ReadEnd(front, c);
    if front == [] {
      DecimalEnd(ToInt(s), 0, ToInt(s));
    } else {
      DigitsShown(front);
      DecimalEnd(ToInt(s), ToInt(front), c as int - '0' as int);
    }
  }

  lemma ThreeDigits(s: string)
    requires 1 <= |s| <= 3 && forall i :: 0 <= i < |s| ==> IsDigit(s[i])
    ensures ToInt(s) < 1000
  {
    var b := s[..|s| - 1];
    assert s == b + [s[|s| - 1]];
    ReadEnd(b, s[|s| - 1]);
    if b != [] {
      var a := b[..|b| - 1];
      assert b == a + [b[|b| - 1]];
      ReadEnd(a, b[|b| - 1]);
    }
  }

  /** And nothing else is read as a location: each is what the program shows for a cell of the first 999 rows. */
  lemma LocationsShown(s: string)
    requires IsLocation(s)
    ensures var (row, column) := LocationOf(s);
      0 <= row < 999 && 0 <= column < 26 && (s == Location(row, column, false) || s == Location(row, column, true))
  {
    var c, digits := s[0], s[1..];
    assert s == [c] + digits && forall i :: 0 <= i < |digits| ==> digits[i] == s[i + 1];
    LocationParts(c, digits);
    DigitsShown(digits);
    ThreeDigits(digits);
    LetterShown(c);
  }

  lemma LetterShown(c: char)
    requires IsLetter(c)
    ensures var column := Upper(c) as int - 'A' as int;
      0 <= column < 26 && (c == Letter(column, false) || c == Letter(column, true))
  {}
}

/** One text has one meaning: no two formulas are written alike. */
module Unambiguous {
  import opened Formulas
  import opened FormulaText

  // ----- A sum is determined by its first term and its tail, and a product likewise

  lemma SnocLonger(a: Tail, op: Sign, t: Term)
    ensures Snoc(a, op, t).More? && (Snoc(a, op, t).rest.Nothing? <==> a.Nothing?)
  {}

  lemma {:induction false} SnocOnly(a: Tail, op: Sign, t: Term, b: Tail, op': Sign, t': Term)
    requires Snoc(a, op, t) == Snoc(b, op', t')
    ensures a == b && op == op' && t == t'
    decreases a
  {
    if a.Nothing? || b.Nothing? {
      SnocLonger(a, op, t);
      SnocLonger(b, op', t');
    } else {
      SnocOnly(a.rest, op, t, b.rest, op', t');
    }
  }

  lemma {:induction false} Rebuilt(e: Expression, d: Expression)
    requires First(e) == First(d) && TailOf(e) == TailOf(d)
    ensures e == d
    decreases e
  {
    if e.Single? || d.Single? {
      assert e.Sum? ==> TailOf(e).More?;
      assert d.Sum? ==> TailOf(d).More?;
    } else {
      SnocOnly(TailOf(e.e), e.op, e.t, TailOf(d.e), d.op, d.t);
      Rebuilt(e.e, d.e);
    }
  }

  lemma SnocScaleLonger(a: Scaling, op: Scale, f: Factor)
    ensures SnocScale(a, op, f).Scaled? && (SnocScale(a, op, f).rest.Unscaled? <==> a.Unscaled?)
  {}

  lemma {:induction false} SnocScaleOnly(a: Scaling, op: Scale, f: Factor, b: Scaling, op': Scale, f': Factor)
    requires SnocScale(a, op, f) == SnocScale(b, op', f')
    ensures a == b && op == op' && f == f'
    decreases a
  {
    if a.Unscaled? || b.Unscaled? {
      SnocScaleLonger(a, op, f);
      SnocScaleLonger(b, op', f');
    } else {
      SnocScaleOnly(a.rest, op, f, b.rest, op', f');
    }
  }

  lemma {:induction false} RebuiltTerm(t: Term, u: Term)
    requires FirstFactor(t) == FirstFactor(u) && ScalingOf(t) == ScalingOf(u)
    ensures t == u
    decreases t
  {
    if t.Alone? || u.Alone? {
      assert t.Product? ==> ScalingOf(t).Scaled?;
      assert u.Product? ==> ScalingOf(u).Scaled?;
    } else {
      SnocScaleOnly(ScalingOf(t.t), t.scale, t.f, ScalingOf(u.t), u.scale, u.f);
      RebuiltTerm(t.t, u.t);
    }
  }

  // ----- What stands at one place is one thing

  lemma Opened(str: string, pos: int, e: Expression, alnum: char -> bool)
    requires ExpressionAt(str, pos, e, alnum) && WellFormed(e, alnum) && CharClass(alnum)
    ensures TermAt(str, pos, First(e), alnum) && WellFormedTerm(First(e), alnum)
    ensures TailAt(str, pos + |TermText(First(e))|, TailOf(e), alnum) && TailFormed(TailOf(e), alnum)
    ensures Size(First(e)) + TailSize(TailOf(e)) < ExpressionSize(e)
  {
    LeftToRight(e, alnum);
    HereSplit(str, pos, TermText(First(e)), TailText(TailOf(e)));
    TailHead(str, pos + |TermText(First(e))|, TailOf(e), alnum);
  }

  lemma OpenedTerm(str: string, pos: int, t: Term, alnum: char -> bool)
    requires TermAt(str, pos, t, alnum) && WellFormedTerm(t, alnum) && CharClass(alnum)
    ensures FactorAt(str, pos, FirstFactor(t), alnum) && WellFormedFactor(FirstFactor(t), alnum)
    ensures ScalingAt(str, pos + |FactorText(FirstFactor(t))|, ScalingOf(t), alnum)
      && ScalingFormed(ScalingOf(t), alnum)
    ensures FactorSize(FirstFactor(t)) + ScalingSize(ScalingOf(t)) < Size(t)
  {
    ScaleLeftToRight(t, alnum);
    HereSplit(str, pos, FactorText(FirstFactor(t)), ScalingText(ScalingOf(t)));
    ScalingHead(str, pos + |FactorText(FirstFactor(t))|, ScalingOf(t), alnum);
  }

  lemma {:induction false} SameExpression(str: string, pos: int, e: Expression, d: Expression, alnum: char -> bool)
    requires ExpressionAt(str, pos, e, alnum) && WellFormed(e, alnum) && CharClass(alnum)
    requires ExpressionAt(str, pos, d, alnum) && WellFormed(d, alnum)
    ensures e == d
    decreases ExpressionSize(e)
  {
    Opened(str, pos, e, alnum);
    Opened(str, pos, d, alnum);
    SameTerm(str, pos, First(e), First(d), alnum);
    SameTail(str, pos + |TermText(First(e))|, TailOf(e), TailOf(d), alnum);
    Rebuilt(e, d);
  }

  lemma {:induction false} SameTail(str: string, pos: int, a: Tail, b: Tail, alnum: char -> bool)
    requires TailAt(str, pos, a, alnum) && TailFormed(a, alnum) && CharClass(alnum)
    requires TailAt(str, pos, b, alnum) && TailFormed(b, alnum)
    ensures a == b
    decreases TailSize(a)
  {
    TailHead(str, pos, a, alnum);
    TailHead(str, pos, b, alnum);
    if a.More? && b.More? {
      TailStep(str, pos, a, alnum);
      TailStep(str, pos, b, alnum);
      SameTerm(str, pos + 1, a.t, b.t, alnum);
      SameTail(str, pos + 1 + |TermText(a.t)|, a.rest, b.rest, alnum);
    }
  }

  lemma {:induction false} SameTerm(str: string, pos: int, t: Term, u: Term, alnum: char -> bool)
    requires TermAt(str, pos, t, alnum) && WellFormedTerm(t, alnum) && CharClass(alnum)
    requires TermAt(str, pos, u, alnum) && WellFormedTerm(u, alnum)
    ensures t == u
    decreases Size(t)
  {
    OpenedTerm(str, pos, t, alnum);
    OpenedTerm(str, pos, u, alnum);
    SameFactor(str, pos, FirstFactor(t), FirstFactor(u), alnum);
    SameScaling(str, pos + |FactorText(FirstFactor(t))|, ScalingOf(t), ScalingOf(u), alnum);
    RebuiltTerm(t, u);
  }

  lemma {:induction false} SameScaling(str: string, pos: int, a: Scaling, b: Scaling, alnum: char -> bool)
    requires ScalingAt(str, pos, a, alnum) && ScalingFormed(a, alnum) && CharClass(alnum)
    requires ScalingAt(str, pos, b, alnum) && ScalingFormed(b, alnum)
    ensures a == b
    decreases ScalingSize(a)
  {
    ScalingHead(str, pos, a, alnum);
    ScalingHead(str, pos, b, alnum);
    if a.Scaled? && b.Scaled? {
      ScalingStep(str, pos, a, alnum);
      ScalingStep(str, pos, b, alnum);
      SameFactor(str, pos + 1, a.f, b.f, alnum);
      SameScaling(str, pos + 1 + |FactorText(a.f)|, a.rest, b.rest, alnum);
    }
  }

  lemma {:induction false} SameFactor(str: string, pos: int, f: Factor, g: Factor, alnum: char -> bool)
    requires FactorAt(str, pos, f, alnum) && WellFormedFactor(f, alnum) && CharClass(alnum)
    requires FactorAt(str, pos, g, alnum) && WellFormedFactor(g, alnum)
    ensures f == g
    decreases FactorSize(f)
  {
    FactorStart(str, pos, f, alnum);
    FactorStart(str, pos, g, alnum);
    var start := if f.negative then pos + 1 else pos;
    AtomStart(str, start, f.atom, alnum);
    AtomStart(str, start, g.atom, alnum);
    if f.atom.Paren? {
      ParenInside(str, start, f.atom, alnum);
      ParenInside(str, start, g.atom, alnum);
      assert FactorSize(f) == 2 + ExpressionSize(f.atom.e);
      SameExpression(str, start + 1, f.atom.e, g.atom.e, alnum);
    } else {
      SameToken(str, start, f.atom.s, g.atom.s, alnum);
    }
  }

  lemma InToken(str: string, pos: int, s: string, k: nat, alnum: char -> bool)
    requires TokenAt(str, pos, s, alnum)
    ensures k < |s| ==> TokenChar(alnum, str[pos + k])
  {
    if k < |s| {
      assert s[k] in s && s[k] == str[pos + k];
    }
  }

  /** A token goes as far as its characters do. */
  lemma SameToken(str: string, pos: int, s: string, u: string, alnum: char -> bool)
    requires TokenAt(str, pos, s, alnum) && TokenAt(str, pos, u, alnum)
    ensures s == u
  {
    InToken(str, pos, s, |u|, alnum);
    InToken(str, pos, u, |s|, alnum);
    assert |s| == |u| && forall i :: 0 <= i < |s| ==> s[i] == str[pos + i] == u[i];
  }

  /** Two well-formed formulas with the same text are equal. */
  lemma OneFormula(e: Expression, d: Expression, alnum: char -> bool)
    requires CharClass(alnum) && WellFormed(e, alnum) && WellFormed(d, alnum) && ExpressionText(e) == ExpressionText(d)
    ensures e == d
  {
    SameExpression(ExpressionText(e) + [NUL], 0, e, d, alnum);
  }
}

/** What cells show for texts written out. */
module FormulaLaws {
  import opened Formulas
  import opened FormulaText
  import opened Locations
  import opened Options
  import opened SheetEdits
  import opened SheetMeaning
  import opened Spreadsheet
  import opened Unambiguous

  /** A text describes one content at most. */
  lemma OneContent(alnum: char -> bool, text: string, c: Content, d: Content)
    requires CharClass(alnum) && Describes(alnum, text, c) && Describes(alnum, text, d)
    ensures c == d
  {
    if c.Formula? && d.Formula? {
      OneFormula(c.e, d.e, alnum);
    }
  }

  /** Spaces in a formula play no part, wherever they stand. */
  lemma {:induction false} SpacesIgnored(a: string, b: string)
    ensures Strip(a + " " + b) == Strip(a + b)
    decreases |a|
  {
    if a == [] {
      assert (a + " " + b)[1..] == b && a + b == b;
    } else {
      SpacesIgnored(a[1..], b);
      assert (a + " " + b)[1..] == a[1..] + " " + b && (a + b)[1..] == a[1..] + b;
    }
  }

  lemma SpacedFormula(alnum: char -> bool, a: string, b: string, e: Expression)
    ensures Describes(alnum, "=" + (a + " " + b), Formula(e)) <==> Describes(alnum, "=" + (a + b), Formula(e))
  {
    SpacesIgnored(a, b);
    assert ("=" + (a + " " + b))[1..] == a + " " + b && ("=" + (a + b))[1..] == a + b;
  }

  // ----- Texts of formulas have no spaces

  ghost predicate Tight(s: string) {
    forall i :: 0 <= i < |s| ==> s[i] != ' '
  }

  lemma {:induction false} TextTight(e: Expression, alnum: char -> bool)
    requires WellFormed(e, alnum) && CharClass(alnum)
    ensures Tight(ExpressionText(e))
    decreases e
  {
    match e
    case Single(t) => TermTight(t, alnum);
    case Sum(l, _, t) =>
      TextTight(l, alnum);
      TermTight(t, alnum);
  }

  lemma {:induction false} TermTight(t: Term, alnum: char -> bool)
    requires WellFormedTerm(t, alnum) && CharClass(alnum)
    ensures Tight(TermText(t))
    decreases t
  {
    match t
    case Alone(f) => FactorTight(f, alnum);
    case Product(l, _, f) =>
      TermTight(l, alnum);
      FactorTight(f, alnum);
  }

  lemma {:induction false} FactorTight(f: Factor, alnum: char -> bool)
    requires WellFormedFactor(f, alnum) && CharClass(alnum)
    ensures Tight(FactorText(f))
    decreases f
  {
    match f.atom
    case Paren(e) => TextTight(e, alnum);
    case Token(s) =>
      forall i | 0 <= i < |s| ensures s[i] != ' ' {
        assert s[i] in s;
      }
  }

  // ----- What a text is worth

  /** The text describes a content without references, and no other, and its value is v. */
  ghost predicate Worth(alnum: char -> bool, num: Numeral, text: string, v: Value) {
    exists c :: Describes(alnum, text, c) && RefsOf(c) == {} && EvalContent(c, map[], num) == v
  }

  /** A cell with such a text has this value in every sheet. */
  lemma WorthMeans(alnum: char -> bool, num: Numeral, text: string, v: Value, sheet: Sheet, l: Loc)
    requires CharClass(alnum) && Worth(alnum, num, text, v) && l in sheet && Describes(alnum, text, sheet[l])
    ensures Sem(sheet, num, l) == v
  {
    var c :| Describes(alnum, text, c) && RefsOf(c) == {} && EvalContent(c, map[], num) == v;
    OneContent(alnum, text, c, sheet[l]);
    SemFixpoint(sheet, num, l);
    assert SemEnv(sheet, num, {}) == map[];
  }

  lemma FormulaWorth(alnum: char -> bool, num: Numeral, e: Expression, text: string, v: Value)
    requires CharClass(alnum) && WellFormed(e, alnum) && Refs(e) == {} && Eval(e, map[], num) == v
    requires text == ExpressionText(e)
    ensures Worth(alnum, num, "=" + text, v)
  {
    TextTight(e, alnum);
    forall c | c in text ensures c != ' ' {
      var i :| 0 <= i < |text| && text[i] == c;
    }
    StripTight(text);
    assert ("=" + text)[1..] == text;
    assert Describes(alnum, "=" + text, Formula(e));
  }

  /** A numeral of letters, digits and points, which the scanner takes as one token. */
  ghost predicate IsNumeral(alnum: char -> bool, num: Numeral, s: string, x: real) {
    s != [] && (forall c :: c in s ==> alnum(c) || c == '.') && !IsLocation(s) && num(s) == Some(x)
  }

  // A part of a formula, its text and its value.

  ghost predicate FactorIs(alnum: char -> bool, num: Numeral, f: Factor, text: string, v: Value) {
    WellFormedFactor(f, alnum) && FactorText(f) == text && FactorRefs(f) == {} && EvalFactor(f, map[], num) == v
  }

  ghost predicate TermIs(alnum: char -> bool, num: Numeral, t: Term, text: string, v: Value) {
    WellFormedTerm(t, alnum) && TermText(t) == text && TermRefs(t) == {} && EvalTerm(t, map[], num) == v
  }

  ghost predicate SumIs(alnum: char -> bool, num: Numeral, e: Expression, text: string, v: Value) {
    WellFormed(e, alnum) && ExpressionText(e) == text && Refs(e) == {} && Eval(e, map[], num) == v
  }

  lemma NumeralPart(alnum: char -> bool, num: Numeral, s: string, x: real) returns (f: Factor)
    requires IsNumeral(alnum, num, s, x)
    ensures FactorIs(alnum, num, f, s, Number(x)) && !f.negative
  {
    f := Factor(false, Token(s));
    assert "" + s == s;
  }

  lemma NegatedPart(alnum: char -> bool, num: Numeral, f: Factor, text: string, x: real) returns (g: Factor)
    requires FactorIs(alnum, num, f, text, Number(x)) && !f.negative
    ensures FactorIs(alnum, num, g, "-" + text, Number(-x))
  {
    g := Factor(true, f.atom);
    assert FactorText(f) == AtomText(f.atom);
  }

  lemma ParenPart(alnum: char -> bool, num: Numeral, e: Expression, text: string, v: Value) returns (f: Factor)
    requires SumIs(alnum, num, e, text, v)
    ensures FactorIs(alnum, num, f, "(" + text + ")", v)
  {
    f := Factor(false, Paren(e));
    assert FactorText(f) == "(" + (text + ")") == "(" + text + ")";
  }

  lemma AlonePart(alnum: char -> bool, num: Numeral, f: Factor, text: string, v: Value) returns (t: Term)
    requires FactorIs(alnum, num, f, text, v)
    ensures TermIs(alnum, num, t, text, v)
  {
    t := Alone(f);
  }

  lemma ProductPart(alnum: char -> bool, num: Numeral, t: Term, a: string, v: Value, op: Scale, f: Factor, b: string,
                    w: Value) returns (r: Term)
    requires TermIs(alnum, num, t, a, v) && FactorIs(alnum, num, f, b, w)
    ensures TermIs(alnum, num, r, a + [ScaleChar(op)] + b, Multiply(op, v, w))
  {
    r := Product(t, op, f);
    assert a + ([ScaleChar(op)] + b) == a + [ScaleChar(op)] + b;
  }

  lemma SinglePart(alnum: char -> bool, num: Numeral, t: Term, text: string, v: Value) returns (e: Expression)
    requires TermIs(alnum, num, t, text, v)
    ensures SumIs(alnum, num, e, text, v)
  {
    e := Single(t);
  }

  lemma SumPart(alnum: char -> bool, num: Numeral, e: Expression, a: string, v: Value, op: Sign, t: Term, b: string,
                w: Value) returns (r: Expression)
    requires SumIs(alnum, num, e, a, v) && TermIs(alnum, num, t, b, w)
    ensures SumIs(alnum, num, r, a + [SignChar(op)] + b, Add(op, v, w))
  {
    r := Sum(e, op, t);
    assert a + ([SignChar(op)] + b) == a + [SignChar(op)] + b;
  }

  lemma PartWorth(alnum: char -> bool, num: Numeral, e: Expression, text: string, v: Value)
    requires CharClass(alnum) && SumIs(alnum, num, e, text, v)
    ensures Worth(alnum, num, "=" + text, v)
  {
    FormulaWorth(alnum, num, e, text, v);
  }

  lemma NumeralTerm(alnum: char -> bool, num: Numeral, s: string, x: real) returns (t: Term)
    requires IsNumeral(alnum, num, s, x)
    ensures TermIs(alnum, num, t, s, Number(x))
  {
    var f := NumeralPart(alnum, num, s, x);
    t := AlonePart(alnum, num, f, s, Number(x));
  }

  lemma SumOfTwo(alnum: char -> bool, num: Numeral, a: string, x: real, op: Sign, b: string, y: real)
    returns (e: Expression)
    requires IsNumeral(alnum, num, a, x) && IsNumeral(alnum, num, b, y)
    ensures SumIs(alnum, num, e, a + [SignChar(op)] + b, Add(op, Number(x), Number(y)))
  {
    var t := NumeralTerm(alnum, num, a, x);
    var u := NumeralTerm(alnum, num, b, y);
    e := SinglePart(alnum, num, t, a, Number(x));
    e := SumPart(alnum, num, e, a, Number(x), op, u, b, Number(y));
  }

  lemma SumWorth(alnum: char -> bool, num: Numeral, a: string, x: real, b: string, y: real)
    requires CharClass(alnum) && IsNumeral(alnum, num, a, x) && IsNumeral(alnum, num, b, y)
    ensures Worth(alnum, num, "=" + (a + "+" + b), Number(x + y))
    ensures Worth(alnum, num, "=" + (a + "-" + b), Number(x - y))
  {
    var e := SumOfTwo(alnum, num, a, x, Plus, b, y);
    PartWorth(alnum, num, e, a + "+" + b, Number(x + y));
    e := SumOfTwo(alnum, num, a, x, Minus, b, y);
    PartWorth(alnum, num, e, a + "-" + b, Number(x - y));
  }

  lemma ProductOfTwo(alnum: char -> bool, num: Numeral, a: string, x: real, op: Scale, b: string, y: real)
    requires CharClass(alnum) && IsNumeral(alnum, num, a, x) && IsNumeral(alnum, num, b, y)
    ensures Worth(alnum, num, "=" + (a + [ScaleChar(op)] + b), Multiply(op, Number(x), Number(y)))
  {
    var t := NumeralTerm(alnum, num, a, x);
    var f := NumeralPart(alnum, num, b, y);
    t := ProductPart(alnum, num, t, a, Number(x), op, f, b, Number(y));
    var e := SinglePart(alnum, num, t, a + [ScaleChar(op)] + b, Multiply(op, Number(x), Number(y)));
    PartWorth(alnum, num, e, a + [ScaleChar(op)] + b, Multiply(op, Number(x), Number(y)));
  }

  lemma ProductWorth(alnum: char -> bool, num: Numeral, a: string, x: real, b: string, y: real)
    requires CharClass(alnum) && IsNumeral(alnum, num, a, x) && IsNumeral(alnum, num, b, y)
    ensures Worth(alnum, num, "=" + (a + "*" + b), Number(x * y))
    ensures Worth(alnum, num, "=" + (a + "/" + b), if y == 0.0 then Invalid else Number(x / y))
  {
    ProductOfTwo(alnum, num, a, x, Times, b, y);
    ProductOfTwo(alnum, num, a, x, Over, b, y);
  }

  lemma NegatedWorth(alnum: char -> bool, num: Numeral, a: string, x: real)
    requires CharClass(alnum) && IsNumeral(alnum, num, a, x)
    ensures Worth(alnum, num, "=" + ("-" + a), Number(-x))
  {
    var f := NumeralPart(alnum, num, a, x);
    f := NegatedPart(alnum, num, f, a, x);
    var t := AlonePart(alnum, num, f, "-" + a, Number(-x));
    var e := SinglePart(alnum, num, t, "-" + a, Number(-x));
    PartWorth(alnum, num, e, "-" + a, Number(-x));
  }

  /** The four operations and the sign: what cells with these texts show in any sheet, and so in every table. */
  lemma OperatorsShown(alnum: char -> bool, num: Numeral, a: string, x: real, b: string, y: real, sheet: Sheet, l: Loc)
    requires CharClass(alnum) && IsNumeral(alnum, num, a, x) && IsNumeral(alnum, num, b, y) && l in sheet
    ensures Describes(alnum, "=" + (a + "+" + b), sheet[l]) ==> Sem(sheet, num, l) == Number(x + y)
    ensures Describes(alnum, "=" + (a + "-" + b), sheet[l]) ==> Sem(sheet, num, l) == Number(x - y)
    ensures Describes(alnum, "=" + (a + "*" + b), sheet[l]) ==> Sem(sheet, num, l) == Number(x * y)
    ensures Describes(alnum, "=" + (a + "/" + b), sheet[l]) ==>
      Sem(sheet, num, l) == if y == 0.0 then Invalid else Number(x / y)
    ensures Describes(alnum, "=" + ("-" + a), sheet[l]) ==> Sem(sheet, num, l) == Number(-x)
  {
    SumWorth(alnum, num, a, x, b, y);
    ProductWorth(alnum, num, a, x, b, y);
    NegatedWorth(alnum, num, a, x);
    MeansIf(alnum, num, "=" + (a + "+" + b), Number(x + y), sheet, l);
    MeansIf(alnum, num, "=" + (a + "-" + b), Number(x - y), sheet, l);
    MeansIf(alnum, num, "=" + (a + "*" + b), Number(x * y), sheet, l);
    MeansIf(alnum, num, "=" + (a + "/" + b), if y == 0.0 then Invalid else Number(x / y), sheet, l);
    MeansIf(alnum, num, "=" + ("-" + a), Number(-x), sheet, l);
  }

  lemma MeansIf(alnum: char -> bool, num: Numeral, text: string, v: Value, sheet: Sheet, l: Loc)
    requires CharClass(alnum) && Worth(alnum, num, text, v) && l in sheet
    ensures Describes(alnum, text, sheet[l]) ==> Sem(sheet, num, l) == v
  {
    if Describes(alnum, text, sheet[l]) {
      WorthMeans(alnum, num, text, v, sheet, l);
    }
  }

  /** Products bind stronger than sums, sums and products go from the left, and parentheses come first. */
  lemma GroupingShown(alnum: char -> bool, num: Numeral, a: string, x: real, b: string, y: real, c: string, z: real,
                      sheet: Sheet, l: Loc)
    requires CharClass(alnum) && IsNumeral(alnum, num, a, x) && IsNumeral(alnum, num, b, y)
    requires IsNumeral(alnum, num, c, z) && l in sheet
    ensures Describes(alnum, "=" + (a + "-" + b + "-" + c), sheet[l]) ==> Sem(sheet, num, l) == Number(x - y - z)
    ensures Describes(alnum, "=" + (a + "+" + b + "*" + c), sheet[l]) ==> Sem(sheet, num, l) == Number(x + y * z)
    ensures Describes(alnum, "=" + ("(" + a + "+" + b + ")*" + c), sheet[l]) ==>
      Sem(sheet, num, l) == Number((x + y) * z)
  {
    LeftWorth(alnum, num, a, x, b, y, c, z);
    StrongerWorth(alnum, num, a, x, b, y, c, z);
    ParenWorth(alnum, num, a, x, b, y, c, z);
    MeansIf(alnum, num, "=" + (a + "-" + b + "-" + c), Number(x - y - z), sheet, l);
    MeansIf(alnum, num, "=" + (a + "+" + b + "*" + c), Number(x + y * z), sheet, l);
    MeansIf(alnum, num, "=" + ("(" + a + "+" + b + ")*" + c), Number((x + y) * z), sheet, l);
  }

  lemma LeftWorth(alnum: char -> bool, num: Numeral, a: string, x: real, b: string, y: real, c: string, z: real)
    requires CharClass(alnum) && IsNumeral(alnum, num, a, x) && IsNumeral(alnum, num, b, y)
    requires IsNumeral(alnum, num, c, z)
    ensures Worth(alnum, num, "=" + (a + "-" + b + "-" + c), Number(x - y - z))
  {
    var e := SumOfTwo(alnum, num, a, x, Minus, b, y);
    var t := NumeralTerm(alnum, num, c, z);
    e := SumPart(alnum, num, e, a + "-" + b, Number(x - y), Minus, t, c, Number(z));
    PartWorth(alnum, num, e, a + "-" + b + "-" + c, Number(x - y - z));
  }

  lemma StrongerWorth(alnum: char -> bool, num: Numeral, a: string, x: real, b: string, y: real, c: string, z: real)
    requires CharClass(alnum) && IsNumeral(alnum, num, a, x) && IsNumeral(alnum, num, b, y)
    requires IsNumeral(alnum, num, c, z)
    ensures Worth(alnum, num, "=" + (a + "+" + b + "*" + c), Number(x + y * z))
  {
    var t := NumeralTerm(alnum, num, a, x);
    var e := SinglePart(alnum, num, t, a, Number(x));
    var u := NumeralTerm(alnum, num, b, y);
    var f := NumeralPart(alnum, num, c, z);
    u := ProductPart(alnum, num, u, b, Number(y), Times, f, c, Number(z));
    var p := b + "*" + c;
    e := SumPart(alnum, num, e, a, Number(x), Plus, u, p, Number(y * z));
    assert a + "+" + p == a + "+" + b + "*" + c;
    PartWorth(alnum, num, e, a + "+" + p, Number(x + y * z));
  }

  lemma ParenWorth(alnum: char -> bool, num: Numeral, a: string, x: real, b: string, y: real, c: string, z: real)
    requires CharClass(alnum) && IsNumeral(alnum, num, a, x) && IsNumeral(alnum, num, b, y)
    requires IsNumeral(alnum, num, c, z)
    ensures Worth(alnum, num, "=" + ("(" + a + "+" + b + ")*" + c), Number((x + y) * z))
  {
    var e := SumOfTwo(alnum, num, a, x, Plus, b, y);
    var s := a + "+" + b;
    var f := ParenPart(alnum, num, e, s, Number(x + y));
    var p := "(" + s + ")";
    var t := AlonePart(alnum, num, f, p, Number(x + y));
    var g := NumeralPart(alnum, num, c, z);
    t := ProductPart(alnum, num, t, p, Number(x + y), Times, g, c, Number(z));
    e := SinglePart(alnum, num, t, p + "*" + c, Number((x + y) * z));
    assert p + "*" + c == "(" + a + "+" + b + ")*" + c;
    PartWorth(alnum, num, e, p + "*" + c, Number((x + y) * z));
  }

  // ----- References

  /** A cell whose text names another, as the program shows its location, shows what that one shows. */
  lemma ReferenceShown(alnum: char -> bool, num: Numeral, sheet: Sheet, l: Loc, row: nat, column: nat, small: bool)
    requires CharClass(alnum) && row < 999 && column < 26 && l in sheet
    requires forall c :: c in Location(row, column, small) ==> alnum(c)
    requires Describes(alnum, "=" + Location(row, column, small), sheet[l])
    ensures Sem(sheet, num, l) == Sem(sheet, num, (row, column))
  {
    var s := Location(row, column, small);
    LocationRead(row, column, small);
    DescribesReference(alnum, s, (row, column));
    OneContent(alnum, "=" + s, Reference(s), sheet[l]);
    ReferenceMeans(sheet, num, l, s);
  }

  /** A text with an apostrophe in front is shown without it; any other text that is no formula is shown as the number
    * it stands for, or as it is. */
  lemma TextShown(alnum: char -> bool, num: Numeral, sheet: Sheet, l: Loc, text: string)
    requires l in sheet && Describes(alnum, text, sheet[l]) && (text == [] || text[0] != '=')
    ensures Sem(sheet, num, l) ==
      if text != [] && text[0] == '\'' then Text(text[1..])
      else match num(text) case Some(r) => Number(r) case None => Text(text)
  {
    SemFixpoint(sheet, num, l);
  }
}
