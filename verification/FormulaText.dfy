/** How the text of a formula is read from left to right: what the loops of evalExpression and evalTerm rely on. */
module FormulaText {
  import opened Formulas

  // ----- Texts inside a string

  ghost predicate Here(str: string, pos: int, t: string) {
    0 <= pos && pos + |t| <= |str| && forall i :: 0 <= i < |t| ==> t[i] == str[pos + i]
  }

  lemma HereSplit(str: string, pos: int, a: string, b: string)
    requires Here(str, pos, a + b)
    ensures Here(str, pos, a) && Here(str, pos + |a|, b)
  {
    forall i | 0 <= i < |a| ensures a[i] == str[pos + i] {
      assert (a + b)[i] == a[i];
    }
    forall i | 0 <= i < |b| ensures b[i] == str[pos + |a| + i] {
      assert (a + b)[|a| + i] == b[i];
    }
  }

  lemma HereParts(str: string, pos: int, c: char, a: string, b: string)
    requires Here(str, pos, [c] + (a + b))
    ensures str[pos] == c && Here(str, pos + 1, a) && Here(str, pos + 1 + |a|, b)
  {
    HereSplit(str, pos, [c], a + b);
    HereSplit(str, pos + 1, a, b);
    assert [c][0] == c;
  }

  lemma Regroup(a: string, b: string, c: string, d: string)
    ensures a + (b + (c + d)) == (a + (b + c)) + d
  {}

  /** What may follow a factor, a term, an expression in a well-formed formula. */
  ghost predicate EndsFactor(alnum: char -> bool, c: char) {
    !TokenChar(alnum, c)
  }

  ghost predicate EndsTerm(alnum: char -> bool, c: char) {
    EndsFactor(alnum, c) && c != '*' && c != '/'
  }

  ghost predicate EndsExpression(alnum: char -> bool, c: char) {
    EndsTerm(alnum, c) && c != '+' && c != '-'
  }

  /** The text of `e` stands at `pos`, and what comes next cannot be taken for a part of it. */
  ghost predicate ExpressionAt(str: string, pos: int, e: Expression, alnum: char -> bool) {
    var end := pos + |ExpressionText(e)|;
    Here(str, pos, ExpressionText(e)) && end < |str| && EndsExpression(alnum, str[end])
  }

  ghost predicate TermAt(str: string, pos: int, t: Term, alnum: char -> bool) {
    var end := pos + |TermText(t)|;
    Here(str, pos, TermText(t)) && end < |str| && EndsTerm(alnum, str[end])
  }

  ghost predicate FactorAt(str: string, pos: int, f: Factor, alnum: char -> bool) {
    var end := pos + |FactorText(f)|;
    Here(str, pos, FactorText(f)) && end < |str| && EndsFactor(alnum, str[end])
  }

  ghost predicate TokenAt(str: string, pos: int, s: string, alnum: char -> bool) {
    Here(str, pos, s) && pos + |s| < |str| && !TokenChar(alnum, str[pos + |s|])
    && forall c :: c in s ==> TokenChar(alnum, c)
  }

  ghost predicate AtomAt(str: string, pos: int, a: Atom, alnum: char -> bool) {
    var end := pos + |AtomText(a)|;
    Here(str, pos, AtomText(a)) && end < |str| && EndsFactor(alnum, str[end])
  }

  lemma HereFirst(str: string, pos: int, t: string)
    requires Here(str, pos, t) && t != []
    ensures str[pos] == t[0]
  {
    assert t[0] == str[pos + 0];
  }

  /** How the first characters of a factor tell what it is. */
  lemma FactorStart(str: string, pos: int, f: Factor, alnum: char -> bool)
    requires FactorAt(str, pos, f, alnum) && WellFormedFactor(f, alnum) && CharClass(alnum)
    ensures 0 <= pos < |str| && (str[pos] == '-' <==> f.negative)
    ensures var start := if f.negative then pos + 1 else pos;
      AtomAt(str, start, f.atom, alnum) && pos + |FactorText(f)| == start + |AtomText(f.atom)|
  {
    var sign := if f.negative then "-" else "";
    HereSplit(str, pos, sign, AtomText(f.atom));
    if f.negative {
      HereFirst(str, pos, sign);
    } else {
      AtomStart(str, pos, f.atom, alnum);
    }
  }

  lemma AtomStart(str: string, pos: int, a: Atom, alnum: char -> bool)
    requires AtomAt(str, pos, a, alnum) && CharClass(alnum)
    requires a.Token? ==> a.s != [] && forall c :: c in a.s ==> TokenChar(alnum, c)
    ensures 0 <= pos < |str| && (str[pos] == '(' <==> a.Paren?) && str[pos] != '-'
    ensures a.Token? ==> TokenAt(str, pos, a.s, alnum)
  {
    HereFirst(str, pos, AtomText(a));
    if a.Token? {
      assert a.s[0] in a.s;
    }
  }

  lemma ParenInside(str: string, pos: int, a: Atom, alnum: char -> bool)
    requires AtomAt(str, pos, a, alnum) && a.Paren? && CharClass(alnum)
    ensures ExpressionAt(str, pos + 1, a.e, alnum) && |AtomText(a)| == |ExpressionText(a.e)| + 2
    ensures str[pos + 1 + |ExpressionText(a.e)|] == ')'
  {
    HereSplit(str, pos, "(", ExpressionText(a.e) + ")");
    HereSplit(str, pos + 1, ExpressionText(a.e), ")");
    HereFirst(str, pos + 1 + |ExpressionText(a.e)|, ")");
  }

  // ----- Sums read from left to right: a first term and a tail of signed terms

  datatype Tail = Nothing | More(op: Sign, t: Term, rest: Tail)

  ghost function Snoc(tail: Tail, op: Sign, t: Term): Tail {
    if tail.Nothing? then More(op, t, Nothing) else tail.(rest := Snoc(tail.rest, op, t))
  }

  ghost function First(e: Expression): Term {
    if e.Single? then e.t else First(e.e)
  }

  ghost function TailOf(e: Expression): Tail {
    if e.Single? then Nothing else Snoc(TailOf(e.e), e.op, e.t)
  }

  ghost function TailText(tail: Tail): string {
    if tail.Nothing? then "" else [SignChar(tail.op)] + (TermText(tail.t) + TailText(tail.rest))
  }

  ghost function TailRefs(tail: Tail): set<Loc> {
    if tail.Nothing? then {} else TermRefs(tail.t) + TailRefs(tail.rest)
  }

  ghost function TailSize(tail: Tail): nat {
    if tail.Nothing? then 0 else 1 + Size(tail.t) + TailSize(tail.rest)
  }

  ghost predicate TailFormed(tail: Tail, alnum: char -> bool) {
    tail.More? ==> WellFormedTerm(tail.t, alnum) && TailFormed(tail.rest, alnum)
  }

  ghost function Fold(v: Value, tail: Tail, env: Env, num: Numeral): Value
    requires TailRefs(tail) <= env.Keys
    decreases tail
  {
    if tail.Nothing? then v else Fold(Add(tail.op, v, EvalTerm(tail.t, env, num)), tail.rest, env, num)
  }

  lemma {:induction false} SnocFacts(tail: Tail, op: Sign, t: Term, alnum: char -> bool)
    ensures TailText(Snoc(tail, op, t)) == TailText(tail) + ([SignChar(op)] + TermText(t))
    ensures TailRefs(Snoc(tail, op, t)) == TailRefs(tail) + TermRefs(t)
    ensures TailSize(Snoc(tail, op, t)) == TailSize(tail) + 1 + Size(t)
    ensures TailFormed(Snoc(tail, op, t), alnum) <==> TailFormed(tail, alnum) && WellFormedTerm(t, alnum)
  {
    if tail.Nothing? {
    } else {
      SnocFacts(tail.rest, op, t, alnum);
      Regroup([SignChar(tail.op)], TermText(tail.t), TailText(tail.rest), [SignChar(op)] + TermText(t));
    }
  }

  lemma {:induction false} SnocFold(v: Value, tail: Tail, op: Sign, t: Term, env: Env, num: Numeral)
    requires TailRefs(tail) <= env.Keys && TermRefs(t) <= env.Keys && TailRefs(Snoc(tail, op, t)) <= env.Keys
    ensures Fold(v, Snoc(tail, op, t), env, num) == Add(op, Fold(v, tail, env, num), EvalTerm(t, env, num))
    decreases tail
  {
    if tail.Nothing? {
    } else {
      SnocFold(Add(tail.op, v, EvalTerm(tail.t, env, num)), tail.rest, op, t, env, num);
    }
  }

  /** Reading a left-nested sum from left to right. */
  lemma {:induction false} LeftToRight(e: Expression, alnum: char -> bool)
    ensures ExpressionText(e) == TermText(First(e)) + TailText(TailOf(e))
    ensures Refs(e) == TermRefs(First(e)) + TailRefs(TailOf(e))
    ensures Size(First(e)) + TailSize(TailOf(e)) < ExpressionSize(e)
    ensures WellFormed(e, alnum) ==> WellFormedTerm(First(e), alnum) && TailFormed(TailOf(e), alnum)
    decreases e
  {
    if e.Single? {
    } else {
      LeftToRight(e.e, alnum);
      SnocFacts(TailOf(e.e), e.op, e.t, alnum);
    }
  }

  lemma {:induction false} FoldValue(e: Expression, env: Env, num: Numeral)
    requires Refs(e) <= env.Keys && TermRefs(First(e)) <= env.Keys && TailRefs(TailOf(e)) <= env.Keys
    ensures Eval(e, env, num) == Fold(EvalTerm(First(e), env, num), TailOf(e), env, num)
    decreases e
  {
    if e.Single? {
    } else {
      LeftToRight(e.e, c => false);
      FoldValue(e.e, env, num);
      SnocFold(EvalTerm(First(e), env, num), TailOf(e.e), e.op, e.t, env, num);
    }
  }

  ghost predicate TailAt(str: string, pos: int, tail: Tail, alnum: char -> bool) {
    var end := pos + |TailText(tail)|;
    Here(str, pos, TailText(tail)) && end < |str| && EndsExpression(alnum, str[end])
  }

  lemma TailHead(str: string, pos: int, tail: Tail, alnum: char -> bool)
    requires TailAt(str, pos, tail, alnum) && CharClass(alnum)
    ensures 0 <= pos < |str| && EndsTerm(alnum, str[pos])
    ensures tail.Nothing? <==> str[pos] != '+' && str[pos] != '-'
    ensures tail.More? ==> str[pos] == SignChar(tail.op)
  {
    if tail.More? {
      HereParts(str, pos, SignChar(tail.op), TermText(tail.t), TailText(tail.rest));
    } else {
      assert TailText(tail) == "";
    }
  }

  lemma TailStep(str: string, pos: int, tail: Tail, alnum: char -> bool)
    requires TailAt(str, pos, tail, alnum) && CharClass(alnum) && tail.More?
    ensures |TailText(tail)| == 1 + |TermText(tail.t)| + |TailText(tail.rest)|
    ensures TermAt(str, pos + 1, tail.t, alnum)
    ensures TailAt(str, pos + 1 + |TermText(tail.t)|, tail.rest, alnum)
  {
    var a, b := TermText(tail.t), TailText(tail.rest);
    HereParts(str, pos, SignChar(tail.op), a, b);
    assert |TailText(tail)| == 1 + |a| + |b|;
    TailHead(str, pos + 1 + |a|, tail.rest, alnum);
  }

  /** The loop over a tail stands at `end` with `value`, and `rest` is still to come. */
  ghost predicate AlongTail(str: string, pos: int, left: Value, tail: Tail, end: int, value: Value, rest: Tail,
                            env: Env, num: Numeral, alnum: char -> bool) {
    && TailAt(str, end, rest, alnum) && end + |TailText(rest)| == pos + |TailText(tail)| && 0 <= end < |str|
    && (rest.Nothing? <==> str[end] != '+' && str[end] != '-')
    && TailRefs(rest) <= TailRefs(tail) <= env.Keys && TailSize(rest) <= TailSize(tail) && TailFormed(rest, alnum)
    && Fold(value, rest, env, num) == Fold(left, tail, env, num)
  }

  lemma TailNext(str: string, pos: int, left: Value, tail: Tail, end: int, value: Value, rest: Tail,
                 env: Env, num: Numeral, alnum: char -> bool)
    requires AlongTail(str, pos, left, tail, end, value, rest, env, num, alnum) && rest.More? && CharClass(alnum)
    ensures str[end] == SignChar(rest.op) && TermAt(str, end + 1, rest.t, alnum) && WellFormedTerm(rest.t, alnum)
    ensures TermRefs(rest.t) <= env.Keys && Size(rest.t) < TailSize(rest)
    ensures var next := end + 1 + |TermText(rest.t)|;
      AlongTail(str, pos, left, tail, next, Add(rest.op, value, EvalTerm(rest.t, env, num)), rest.rest, env, num, alnum)
  {
    TailHead(str, end, rest, alnum);
    TailStep(str, end, rest, alnum);
    TailHead(str, end + 1 + |TermText(rest.t)|, rest.rest, alnum);
  }

  lemma TailDone(str: string, pos: int, left: Value, tail: Tail, end: int, value: Value, rest: Tail,
                 env: Env, num: Numeral, alnum: char -> bool)
    requires AlongTail(str, pos, left, tail, end, value, rest, env, num, alnum) && rest.Nothing?
    ensures end == pos + |TailText(tail)| && value == Fold(left, tail, env, num) && TailRefs(rest) == {}
  {}

  /** An expression at `pos`, taken from the left: its first term, and the tail behind it. */
  ghost predicate Entered(str: string, pos: int, e: Expression, first: Term, tail: Tail, env: Env, num: Numeral,
                          alnum: char -> bool) {
    && TermAt(str, pos, first, alnum) && WellFormedTerm(first, alnum)
    && TailAt(str, pos + |TermText(first)|, tail, alnum) && TailFormed(tail, alnum)
    && |TermText(first)| + |TailText(tail)| == |ExpressionText(e)|
    && TermRefs(first) <= env.Keys && TailRefs(tail) <= env.Keys && Refs(e) == TermRefs(first) + TailRefs(tail)
    && Size(first) < ExpressionSize(e) && TailSize(tail) < ExpressionSize(e)
    && Fold(EvalTerm(first, env, num), tail, env, num) == Eval(e, env, num)
  }

  lemma EnterExpression(str: string, pos: int, e: Expression, env: Env, num: Numeral, alnum: char -> bool)
    returns (first: Term, tail: Tail)
    requires ExpressionAt(str, pos, e, alnum) && WellFormed(e, alnum) && Refs(e) <= env.Keys && CharClass(alnum)
    ensures Entered(str, pos, e, first, tail, env, num, alnum)
  {
    first, tail := First(e), TailOf(e);
    LeftToRight(e, alnum);
    FoldValue(e, env, num);
    HereSplit(str, pos, TermText(first), TailText(tail));
    TailHead(str, pos + |TermText(first)|, tail, alnum);
  }

  // ----- Products likewise

  datatype Scaling = Unscaled | Scaled(scale: Scale, f: Factor, rest: Scaling)

  ghost function SnocScale(s: Scaling, op: Scale, f: Factor): Scaling {
    if s.Unscaled? then Scaled(op, f, Unscaled) else s.(rest := SnocScale(s.rest, op, f))
  }

  ghost function FirstFactor(t: Term): Factor {
    if t.Alone? then t.f else FirstFactor(t.t)
  }

  ghost function ScalingOf(t: Term): Scaling {
    if t.Alone? then Unscaled else SnocScale(ScalingOf(t.t), t.scale, t.f)
  }

  ghost function ScalingText(s: Scaling): string {
    if s.Unscaled? then "" else [ScaleChar(s.scale)] + (FactorText(s.f) + ScalingText(s.rest))
  }

  ghost function ScalingRefs(s: Scaling): set<Loc> {
    if s.Unscaled? then {} else FactorRefs(s.f) + ScalingRefs(s.rest)
  }

  ghost function ScalingSize(s: Scaling): nat {
    if s.Unscaled? then 0 else 1 + FactorSize(s.f) + ScalingSize(s.rest)
  }

  ghost predicate ScalingFormed(s: Scaling, alnum: char -> bool) {
    s.Scaled? ==> WellFormedFactor(s.f, alnum) && ScalingFormed(s.rest, alnum)
  }

  ghost function FoldScale(v: Value, s: Scaling, env: Env, num: Numeral): Value
    requires ScalingRefs(s) <= env.Keys
    decreases s
  {
    if s.Unscaled? then v else FoldScale(Multiply(s.scale, v, EvalFactor(s.f, env, num)), s.rest, env, num)
  }

  lemma {:induction false} SnocScaleFacts(s: Scaling, op: Scale, f: Factor, alnum: char -> bool)
    ensures ScalingText(SnocScale(s, op, f)) == ScalingText(s) + ([ScaleChar(op)] + FactorText(f))
    ensures ScalingRefs(SnocScale(s, op, f)) == ScalingRefs(s) + FactorRefs(f)
    ensures ScalingSize(SnocScale(s, op, f)) == ScalingSize(s) + 1 + FactorSize(f)
    ensures ScalingFormed(SnocScale(s, op, f), alnum) <==> ScalingFormed(s, alnum) && WellFormedFactor(f, alnum)
  {
    if s.Unscaled? {
    } else {
      SnocScaleFacts(s.rest, op, f, alnum);
      Regroup([ScaleChar(s.scale)], FactorText(s.f), ScalingText(s.rest), [ScaleChar(op)] + FactorText(f));
    }
  }

  lemma {:induction false} SnocScaleFold(v: Value, s: Scaling, op: Scale, f: Factor, env: Env, num: Numeral)
    requires ScalingRefs(s) <= env.Keys && FactorRefs(f) <= env.Keys && ScalingRefs(SnocScale(s, op, f)) <= env.Keys
    ensures FoldScale(v, SnocScale(s, op, f), env, num)
      == Multiply(op, FoldScale(v, s, env, num), EvalFactor(f, env, num))
    decreases s
  {
    if s.Unscaled? {
    } else {
      SnocScaleFold(Multiply(s.scale, v, EvalFactor(s.f, env, num)), s.rest, op, f, env, num);
    }
  }

  lemma {:induction false} ScaleLeftToRight(t: Term, alnum: char -> bool)
    ensures TermText(t) == FactorText(FirstFactor(t)) + ScalingText(ScalingOf(t))
    ensures TermRefs(t) == FactorRefs(FirstFactor(t)) + ScalingRefs(ScalingOf(t))
    ensures FactorSize(FirstFactor(t)) + ScalingSize(ScalingOf(t)) < Size(t)
    ensures WellFormedTerm(t, alnum) ==> WellFormedFactor(FirstFactor(t), alnum) && ScalingFormed(ScalingOf(t), alnum)
    decreases t
  {
    if t.Alone? {
    } else {
      ScaleLeftToRight(t.t, alnum);
      SnocScaleFacts(ScalingOf(t.t), t.scale, t.f, alnum);
    }
  }

  lemma {:induction false} FoldScaleValue(t: Term, env: Env, num: Numeral)
    requires TermRefs(t) <= env.Keys && FactorRefs(FirstFactor(t)) <= env.Keys && ScalingRefs(ScalingOf(t)) <= env.Keys
    ensures EvalTerm(t, env, num) == FoldScale(EvalFactor(FirstFactor(t), env, num), ScalingOf(t), env, num)
    decreases t
  {
    if t.Alone? {
    } else {
      ScaleLeftToRight(t.t, c => false);
      FoldScaleValue(t.t, env, num);
      SnocScaleFold(EvalFactor(FirstFactor(t), env, num), ScalingOf(t.t), t.scale, t.f, env, num);
    }
  }

  ghost predicate ScalingAt(str: string, pos: int, s: Scaling, alnum: char -> bool) {
    var end := pos + |ScalingText(s)|;
    Here(str, pos, ScalingText(s)) && end < |str| && EndsTerm(alnum, str[end])
  }

  lemma ScalingHead(str: string, pos: int, s: Scaling, alnum: char -> bool)
    requires ScalingAt(str, pos, s, alnum) && CharClass(alnum)
    ensures 0 <= pos < |str| && EndsFactor(alnum, str[pos])
    ensures s.Unscaled? <==> str[pos] != '*' && str[pos] != '/'
    ensures s.Scaled? ==> str[pos] == ScaleChar(s.scale)
  {
    if s.Scaled? {
      HereParts(str, pos, ScaleChar(s.scale), FactorText(s.f), ScalingText(s.rest));
    } else {
      assert ScalingText(s) == "";
    }
  }

  lemma ScalingStep(str: string, pos: int, s: Scaling, alnum: char -> bool)
    requires ScalingAt(str, pos, s, alnum) && CharClass(alnum) && s.Scaled?
    ensures |ScalingText(s)| == 1 + |FactorText(s.f)| + |ScalingText(s.rest)|
    ensures FactorAt(str, pos + 1, s.f, alnum)
    ensures ScalingAt(str, pos + 1 + |FactorText(s.f)|, s.rest, alnum)
  {
    var a, b := FactorText(s.f), ScalingText(s.rest);
    HereParts(str, pos, ScaleChar(s.scale), a, b);
    assert |ScalingText(s)| == 1 + |a| + |b|;
    ScalingHead(str, pos + 1 + |a|, s.rest, alnum);
  }

  ghost predicate AlongScaling(str: string, pos: int, left: Value, tail: Scaling, end: int, value: Value, rest: Scaling,
                               env: Env, num: Numeral, alnum: char -> bool) {
    && ScalingAt(str, end, rest, alnum) && end + |ScalingText(rest)| == pos + |ScalingText(tail)| && 0 <= end < |str|
    && (rest.Unscaled? <==> str[end] != '*' && str[end] != '/')
    && ScalingRefs(rest) <= ScalingRefs(tail) <= env.Keys && ScalingSize(rest) <= ScalingSize(tail)
    && ScalingFormed(rest, alnum) && FoldScale(value, rest, env, num) == FoldScale(left, tail, env, num)
  }

  lemma ScalingNext(str: string, pos: int, left: Value, tail: Scaling, end: int, value: Value, rest: Scaling,
                    env: Env, num: Numeral, alnum: char -> bool)
    requires AlongScaling(str, pos, left, tail, end, value, rest, env, num, alnum) && rest.Scaled? && CharClass(alnum)
    ensures str[end] == ScaleChar(rest.scale) && FactorAt(str, end + 1, rest.f, alnum)
      && WellFormedFactor(rest.f, alnum)
    ensures FactorRefs(rest.f) <= env.Keys && FactorSize(rest.f) < ScalingSize(rest)
    ensures var next := end + 1 + |FactorText(rest.f)|;
      var product := Multiply(rest.scale, value, EvalFactor(rest.f, env, num));
      AlongScaling(str, pos, left, tail, next, product, rest.rest, env, num, alnum)
  {
    ScalingHead(str, end, rest, alnum);
    ScalingStep(str, end, rest, alnum);
    ScalingHead(str, end + 1 + |FactorText(rest.f)|, rest.rest, alnum);
  }

  lemma ScalingDone(str: string, pos: int, left: Value, tail: Scaling, end: int, value: Value, rest: Scaling,
                    env: Env, num: Numeral, alnum: char -> bool)
    requires AlongScaling(str, pos, left, tail, end, value, rest, env, num, alnum) && rest.Unscaled?
    ensures end == pos + |ScalingText(tail)| && value == FoldScale(left, tail, env, num) && ScalingRefs(rest) == {}
  {}

  /** A term likewise. */
  ghost predicate EnteredTerm(str: string, pos: int, t: Term, first: Factor, tail: Scaling, env: Env, num: Numeral,
                              alnum: char -> bool) {
    && FactorAt(str, pos, first, alnum) && WellFormedFactor(first, alnum)
    && ScalingAt(str, pos + |FactorText(first)|, tail, alnum) && ScalingFormed(tail, alnum)
    && |FactorText(first)| + |ScalingText(tail)| == |TermText(t)|
    && FactorRefs(first) <= env.Keys && ScalingRefs(tail) <= env.Keys
    && TermRefs(t) == FactorRefs(first) + ScalingRefs(tail)
    && FactorSize(first) < Size(t) && ScalingSize(tail) < Size(t)
    && FoldScale(EvalFactor(first, env, num), tail, env, num) == EvalTerm(t, env, num)
  }

  lemma EnterTerm(str: string, pos: int, t: Term, env: Env, num: Numeral, alnum: char -> bool)
    returns (first: Factor, tail: Scaling)
    requires TermAt(str, pos, t, alnum) && WellFormedTerm(t, alnum) && TermRefs(t) <= env.Keys && CharClass(alnum)
    ensures EnteredTerm(str, pos, t, first, tail, env, num, alnum)
  {
    first, tail := FirstFactor(t), ScalingOf(t);
    ScaleLeftToRight(t, alnum);
    FoldScaleValue(t, env, num);
    HereSplit(str, pos, FactorText(first), ScalingText(tail));
    ScalingHead(str, pos + |FactorText(first)|, tail, alnum);
  }

  // ----- Measures

  ghost function ExpressionSize(e: Expression): nat
    decreases e
  {
    match e
    case Single(t) => 1 + Size(t)
    case Sum(l, _, t) => 1 + ExpressionSize(l) + Size(t)
  }

  ghost function Size(t: Term): nat
    decreases t
  {
    match t
    case Alone(f) => 1 + FactorSize(f)
    case Product(l, _, f) => 1 + Size(l) + FactorSize(f)
  }

  ghost function FactorSize(f: Factor): nat
    decreases f
  {
    1 + AtomSize(f.atom)
  }

  ghost function AtomSize(a: Atom): nat
    decreases a
  {
    match a
    case Paren(e) => 1 + ExpressionSize(e)
    case Token(_) => 2
  }
}
