/** Spreadsheet formulas (cell.cpp): their syntax, their text, what they mean, and what a whole sheet means. */
module Formulas {
  import opened Options

  datatype Value = Invalid | Number(r: real) | Text(s: string)

  type Loc = (int, int)   // row, column

  datatype Sign = Plus | Minus
  datatype Scale = Times | Over

  /** The diagrams of cell.cpp; repetition nests to the left. */
  datatype Expression = Single(t: Term) | Sum(e: Expression, op: Sign, t: Term)
  datatype Term = Alone(f: Factor) | Product(t: Term, scale: Scale, f: Factor)
  datatype Factor = Factor(negative: bool, atom: Atom)
  datatype Atom = Paren(e: Expression) | Token(s: string)

  // ----- Text

  function SignChar(op: Sign): char { if op.Plus? then '+' else '-' }
  function ScaleChar(op: Scale): char { if op.Times? then '*' else '/' }

  function ExpressionText(e: Expression): string
    decreases e
  {
    match e
    case Single(t) => TermText(t)
    case Sum(l, op, t) => ExpressionText(l) + ([SignChar(op)] + TermText(t))
  }

  function TermText(t: Term): string
    decreases t
  {
    match t
    case Alone(f) => FactorText(f)
    case Product(l, op, f) => TermText(l) + ([ScaleChar(op)] + FactorText(f))
  }

  function FactorText(f: Factor): string
    decreases f
  {
    (if f.negative then "-" else "") + AtomText(f.atom)
  }

  function AtomText(a: Atom): string
    decreases a
  {
    match a
    case Paren(e) => "(" + (ExpressionText(e) + ")")
    case Token(s) => s
  }

  /** The characters the scanner of evalFactor takes into a token; `alnum` is QChar::isLetterOrNumber. */
  predicate TokenChar(alnum: char -> bool, c: char) {
    alnum(c) || c == '.'
  }

  const NUL: char := '\0'

  /** None of the characters with a meaning of their own is a letter or a number. */
  ghost predicate CharClass(alnum: char -> bool) {
    && !alnum('+') && !alnum('-') && !alnum('*') && !alnum('/')
    && !alnum('(') && !alnum(')') && !alnum(' ') && !alnum(NUL)
  }

  /** Tokens are non-empty runs of token characters. */
  ghost predicate WellFormed(e: Expression, alnum: char -> bool)
    decreases e
  {
    match e
    case Single(t) => WellFormedTerm(t, alnum)
    case Sum(l, _, t) => WellFormed(l, alnum) && WellFormedTerm(t, alnum)
  }

  ghost predicate WellFormedTerm(t: Term, alnum: char -> bool)
    decreases t
  {
    match t
    case Alone(f) => WellFormedFactor(f, alnum)
    case Product(l, _, f) => WellFormedTerm(l, alnum) && WellFormedFactor(f, alnum)
  }

  ghost predicate WellFormedFactor(f: Factor, alnum: char -> bool)
    decreases f
  {
    match f.atom
    case Paren(e) => WellFormed(e, alnum)
    case Token(s) => s != [] && forall c :: c in s ==> TokenChar(alnum, c)
  }

  // ----- Cell locations

  predicate IsLetter(c: char) {
    'A' <= c <= 'Z' || 'a' <= c <= 'z'
  }

  predicate IsDigit(c: char) {
    '0' <= c <= '9'
  }

  /** An exact match of [A-Za-z][1-9][0-9]{0,2}. */
  predicate IsLocation(s: string) {
    2 <= |s| <= 4 && IsLetter(s[0]) && '1' <= s[1] <= '9' && forall i :: 2 <= i < |s| ==> IsDigit(s[i])
  }

  function Upper(c: char): char {
    if 'a' <= c <= 'z' then (c as int - 32) as char else c
  }

  function ToInt(s: string): int
    requires forall i :: 0 <= i < |s| ==> IsDigit(s[i])
  {
    if s == [] then 0 else ToInt(s[..|s| - 1]) * 10 + (s[|s| - 1] as int - '0' as int)
  }

  function LocationOf(s: string): Loc
    requires IsLocation(s)
  {
    (ToInt(s[1..]) - 1, Upper(s[0]) as int - 'A' as int)
  }

  // ----- Values

  function Add(op: Sign, a: Value, b: Value): Value {
    if a.Number? && b.Number? then Number(if op.Plus? then a.r + b.r else a.r - b.r) else Invalid
  }

  function Multiply(op: Scale, a: Value, b: Value): Value {
    if a.Number? && b.Number? && !(op.Over? && b.r == 0.0)
    then Number(if op.Times? then a.r * b.r else a.r / b.r)
    else Invalid
  }

  function Negate(v: Value): Value {
    if v.Number? then Number(-v.r) else Invalid
  }

  function Refs(e: Expression): set<Loc>
    decreases e
  {
    match e
    case Single(t) => TermRefs(t)
    case Sum(l, _, t) => Refs(l) + TermRefs(t)
  }

  function TermRefs(t: Term): set<Loc>
    decreases t
  {
    match t
    case Alone(f) => FactorRefs(f)
    case Product(l, _, f) => TermRefs(l) + FactorRefs(f)
  }

  function FactorRefs(f: Factor): set<Loc>
    decreases f
  {
    AtomRefs(f.atom)
  }

  function AtomRefs(a: Atom): set<Loc>
    decreases a
  {
    match a
    case Paren(e) => Refs(e)
    case Token(s) => if IsLocation(s) then {LocationOf(s)} else {}
  }

  type Env = map<Loc, Value>
  type Numeral = string -> Option<real>   // QString::toDouble

  /** The left-associative value of an expression tree. */
  function Eval(e: Expression, env: Env, num: Numeral): Value
    requires Refs(e) <= env.Keys
    decreases e
  {
    match e
    case Single(t) => EvalTerm(t, env, num)
    case Sum(l, op, t) => Add(op, Eval(l, env, num), EvalTerm(t, env, num))
  }

  function EvalTerm(t: Term, env: Env, num: Numeral): Value
    requires TermRefs(t) <= env.Keys
    decreases t
  {
    match t
    case Alone(f) => EvalFactor(f, env, num)
    case Product(l, op, f) => Multiply(op, EvalTerm(l, env, num), EvalFactor(f, env, num))
  }

  function EvalFactor(f: Factor, env: Env, num: Numeral): Value
    requires FactorRefs(f) <= env.Keys
    decreases f
  {
    var v := EvalAtom(f.atom, env, num);
    if f.negative then Negate(v) else v
  }

  function EvalAtom(a: Atom, env: Env, num: Numeral): Value
    requires AtomRefs(a) <= env.Keys
    decreases a
  {
    match a
    case Paren(e) => Eval(e, env, num)
    case Token(s) =>
      if IsLocation(s) then env[LocationOf(s)]
      else match num(s) case Some(r) => Number(r) case None => Invalid
  }

  /** Invalid operands make the whole expression invalid. */
  lemma {:induction false} Strict(e: Expression, env: Env, num: Numeral, l: Loc)
    requires Refs(e) <= env.Keys && l in Refs(e) && env[l] == Invalid
    ensures Eval(e, env, num) == Invalid
    decreases e
  {
    match e
    case Single(t) => StrictTerm(t, env, num, l);
    case Sum(a, _, t) =>
      if l in Refs(a) { Strict(a, env, num, l); } else { StrictTerm(t, env, num, l); }
  }

  lemma {:induction false} StrictTerm(t: Term, env: Env, num: Numeral, l: Loc)
    requires TermRefs(t) <= env.Keys && l in TermRefs(t) && env[l] == Invalid
    ensures EvalTerm(t, env, num) == Invalid
    decreases t
  {
    match t
    case Alone(f) => StrictFactor(f, env, num, l);
    case Product(a, _, f) =>
      if l in TermRefs(a) { StrictTerm(a, env, num, l); } else { StrictFactor(f, env, num, l); }
  }

  lemma {:induction false} StrictFactor(f: Factor, env: Env, num: Numeral, l: Loc)
    requires FactorRefs(f) <= env.Keys && l in FactorRefs(f) && env[l] == Invalid
    ensures EvalFactor(f, env, num) == Invalid
    decreases f
  {
    if f.atom.Token? {
    } else {
      Strict(f.atom.e, env, num, l);
    }
  }
}

/** What a sheet means: recursion through references where that is well-founded, Invalid everywhere else. */
module SheetMeaning {
  import opened Options
  import opened Formulas

  /** What a cell says; Fixed stands for a cell whose value is not computed but given. */
  datatype Content = Quoted(s: string) | Formula(e: Expression) | Plain(s: string) | Fixed(v: Value)

  type Sheet = map<Loc, Content>

  function RefsOf(c: Content): set<Loc> {
    if c.Formula? then Refs(c.e) else {}
  }

  function EvalContent(c: Content, env: Env, num: Numeral): Value
    requires RefsOf(c) <= env.Keys
  {
    match c
    case Quoted(s) => Text(s)
    case Formula(e) => Eval(e, env, num)
    case Plain(s) => (match num(s) case Some(r) => Number(r) case None => Text(s))
    case Fixed(v) => v
  }

  /** References can be followed from `l` for fewer than `n` steps; an absent cell has none. */
  ghost predicate Grounded(sheet: Sheet, l: Loc, n: nat)
    decreases n
  {
    l in sheet ==> n > 0 && forall r :: r in RefsOf(sheet[l]) ==> Grounded(sheet, r, n - 1)
  }

  /** The plain recursive meaning of a cell. */
  ghost function Meaning(sheet: Sheet, num: Numeral, l: Loc, n: nat): Value
    requires Grounded(sheet, l, n)
    decreases n
  {
    if l !in sheet then Number(0.0)
    else EvalContent(sheet[l], map r | r in RefsOf(sheet[l]) :: Meaning(sheet, num, r, n - 1), num)
  }

  ghost predicate WellFounded(sheet: Sheet, l: Loc) {
    exists n: nat :: Grounded(sheet, l, n)
  }

  ghost function Sem(sheet: Sheet, num: Numeral, l: Loc): Value {
    if WellFounded(sheet, l) then (var n: nat :| Grounded(sheet, l, n); Meaning(sheet, num, l, n)) else Invalid
  }

  lemma {:induction false} GroundedMore(sheet: Sheet, l: Loc, n: nat, m: nat)
    requires Grounded(sheet, l, n) && n <= m
    ensures Grounded(sheet, l, m)
    decreases n
  {
    if l !in sheet {
    } else {
      forall r | r in RefsOf(sheet[l]) ensures Grounded(sheet, r, m - 1) {
        GroundedMore(sheet, r, n - 1, m - 1);
      }
    }
  }

  lemma {:induction false} MeaningUnique(sheet: Sheet, num: Numeral, l: Loc, n: nat, m: nat)
    requires Grounded(sheet, l, n) && Grounded(sheet, l, m)
    ensures Meaning(sheet, num, l, n) == Meaning(sheet, num, l, m)
    decreases n
  {
    if l !in sheet {
    } else {
      forall r | r in RefsOf(sheet[l]) ensures Meaning(sheet, num, r, n - 1) == Meaning(sheet, num, r, m - 1) {
        MeaningUnique(sheet, num, r, n - 1, m - 1);
      }
      assert (map r | r in RefsOf(sheet[l]) :: Meaning(sheet, num, r, n - 1))
          == (map r | r in RefsOf(sheet[l]) :: Meaning(sheet, num, r, m - 1));
    }
  }

  /** Finitely many references have a common bound. */
  lemma {:induction false} CommonBound(sheet: Sheet, rs: set<Loc>) returns (n: nat)
    requires forall r :: r in rs ==> WellFounded(sheet, r)
    ensures forall r :: r in rs ==> Grounded(sheet, r, n)
    decreases |rs|
  {
    if rs == {} {
      n := 0;
    } else {
      var r :| r in rs;
      var m := CommonBound(sheet, rs - {r});
      var k: nat :| Grounded(sheet, r, k);
      n := if m > k then m else k;
      GroundedMore(sheet, r, k, n);
      forall s | s in rs ensures Grounded(sheet, s, n) {
        if s != r { GroundedMore(sheet, s, m, n); }
      }
    }
  }

  ghost function SemEnv(sheet: Sheet, num: Numeral, rs: set<Loc>): Env {
    map r | r in rs :: Sem(sheet, num, r)
  }

  /** Where all references are well-founded, so is the cell, and its meaning comes from theirs. */
  lemma SemGrounded(sheet: Sheet, num: Numeral, l: Loc)
    requires l in sheet && forall r :: r in RefsOf(sheet[l]) ==> WellFounded(sheet, r)
    ensures WellFounded(sheet, l)
    ensures Sem(sheet, num, l) == EvalContent(sheet[l], SemEnv(sheet, num, RefsOf(sheet[l])), num)
  {
    var rs := RefsOf(sheet[l]);
    var n := CommonBound(sheet, rs);
    assert Grounded(sheet, l, n + 1);
    var k: nat :| Grounded(sheet, l, k) && Sem(sheet, num, l) == Meaning(sheet, num, l, k);
    MeaningUnique(sheet, num, l, k, n + 1);
    forall r | r in rs ensures Sem(sheet, num, r) == Meaning(sheet, num, r, n) {
      var j: nat :| Grounded(sheet, r, j) && Sem(sheet, num, r) == Meaning(sheet, num, r, j);
      MeaningUnique(sheet, num, r, j, n);
    }
    assert SemEnv(sheet, num, rs) == map r | r in rs :: Meaning(sheet, num, r, n);
  }

  lemma RefWellFounded(sheet: Sheet, l: Loc, r: Loc)
    requires l in sheet && WellFounded(sheet, l) && r in RefsOf(sheet[l])
    ensures WellFounded(sheet, r)
  {
    var n: nat :| Grounded(sheet, l, n);
    assert Grounded(sheet, r, n - 1);
  }

  /** `Sem` solves the equations of the whole sheet, cycles included. */
  lemma SemFixpoint(sheet: Sheet, num: Numeral, l: Loc)
    ensures l !in sheet ==> Sem(sheet, num, l) == Number(0.0)
    ensures l in sheet ==> Sem(sheet, num, l) == EvalContent(sheet[l], SemEnv(sheet, num, RefsOf(sheet[l])), num)
  {
    if l !in sheet {
      assert Grounded(sheet, l, 0);
    } else if forall r :: r in RefsOf(sheet[l]) ==> WellFounded(sheet, r) {
      SemGrounded(sheet, num, l);
    } else {
      var r :| r in RefsOf(sheet[l]) && !WellFounded(sheet, r);
      if WellFounded(sheet, l) {
        RefWellFounded(sheet, l, r);
      }
      Strict(sheet[l].e, SemEnv(sheet, num, RefsOf(sheet[l])), num, r);
    }
  }

  // ----- Cycles

  /** A chain of exactly `n` references leads from `a` to `b`. */
  ghost predicate Leads(sheet: Sheet, a: Loc, b: Loc, n: nat)
    decreases n
  {
    if n == 0 then a == b
    else a in sheet && exists r :: r in RefsOf(sheet[a]) && Leads(sheet, r, b, n - 1)
  }

  ghost predicate Reaches(sheet: Sheet, a: Loc, b: Loc) {
    exists n: nat :: n > 0 && Leads(sheet, a, b, n)
  }

  lemma {:induction false} LeadsOn(sheet: Sheet, a: Loc, b: Loc, c: Loc, n: nat, m: nat)
    requires Leads(sheet, a, b, n) && Leads(sheet, b, c, m)
    ensures Leads(sheet, a, c, n + m)
    decreases n
  {
    if n == 0 {
    } else {
      var r :| r in RefsOf(sheet[a]) && Leads(sheet, r, b, n - 1);
      LeadsOn(sheet, r, b, c, n - 1, m);
    }
  }

  lemma ReachesRef(sheet: Sheet, a: Loc, r: Loc)
    requires a in sheet && r in RefsOf(sheet[a])
    ensures Reaches(sheet, a, r)
  {
    assert Leads(sheet, r, r, 0);
    assert Leads(sheet, a, r, 1);
  }

  lemma ReachesTrans(sheet: Sheet, a: Loc, b: Loc, c: Loc)
    requires Reaches(sheet, a, b) && Reaches(sheet, b, c)
    ensures Reaches(sheet, a, c)
  {
    var n: nat :| n > 0 && Leads(sheet, a, b, n);
    var m: nat :| m > 0 && Leads(sheet, b, c, m);
    LeadsOn(sheet, a, b, c, n, m);
  }

  lemma {:induction false} GroundedAlong(sheet: Sheet, a: Loc, b: Loc, n: nat, k: nat)
    requires Grounded(sheet, a, n) && Leads(sheet, a, b, k) && b in sheet
    ensures n > k && Grounded(sheet, b, n - k)
    decreases k
  {
    if k == 0 {
    } else {
      var r :| r in RefsOf(sheet[a]) && Leads(sheet, r, b, k - 1);
      GroundedAlong(sheet, r, b, n - 1, k - 1);
    }
  }

  /** A cell on a reference cycle has no depth. */
  lemma {:induction false} CyclicUngrounded(sheet: Sheet, l: Loc, k: nat, n: nat)
    requires l in sheet && k > 0 && Leads(sheet, l, l, k)
    ensures !Grounded(sheet, l, n)
    decreases n
  {
    if Grounded(sheet, l, n) {
      GroundedAlong(sheet, l, l, n, k);
      CyclicUngrounded(sheet, l, k, n - k);
    }
  }

  lemma SelfReach(sheet: Sheet, num: Numeral, l: Loc)
    requires l in sheet && Reaches(sheet, l, l)
    ensures !WellFounded(sheet, l) && Sem(sheet, num, l) == Invalid
  {
    var k: nat :| k > 0 && Leads(sheet, l, l, k);
    forall n: nat ensures !Grounded(sheet, l, n) {
      CyclicUngrounded(sheet, l, k, n);
    }
  }

  /** The cell is on a reference cycle or leads to one. */
  ghost predicate ReachesCycle(sheet: Sheet, l: Loc) {
    exists c :: c in sheet && (c == l || Reaches(sheet, l, c)) && Reaches(sheet, c, c)
  }

  lemma GroundedByRefs(sheet: Sheet, l: Loc)
    requires l !in sheet || forall r :: r in RefsOf(sheet[l]) ==> WellFounded(sheet, r)
    ensures WellFounded(sheet, l)
  {
    if l in sheet {
      var n := CommonBound(sheet, RefsOf(sheet[l]));
      assert Grounded(sheet, l, n + 1);
    } else {
      assert Grounded(sheet, l, 0);
    }
  }

  lemma UngroundedRef(sheet: Sheet, l: Loc) returns (r: Loc)
    requires !WellFounded(sheet, l)
    ensures l in sheet && r in RefsOf(sheet[l]) && !WellFounded(sheet, r) && r in sheet
  {
    if l !in sheet || forall r :: r in RefsOf(sheet[l]) ==> WellFounded(sheet, r) {
      GroundedByRefs(sheet, l);
    } else {
      r :| r in RefsOf(sheet[l]) && !WellFounded(sheet, r);
      if r !in sheet {
        GroundedByRefs(sheet, r);
      }
    }
  }

  /** Following ungrounded references from `l`, through `seen` to `at`, must close a cycle in the end. */
  lemma {:induction false} FindCycle(sheet: Sheet, l: Loc, at: Loc, seen: set<Loc>)
    requires !WellFounded(sheet, at) && at in sheet && seen <= sheet.Keys
    requires at == l || Reaches(sheet, l, at)
    requires forall s :: s in seen ==> s != at && Reaches(sheet, s, at) && (s == l || Reaches(sheet, l, s))
    ensures ReachesCycle(sheet, l)
    decreases sheet.Keys - seen
  {
    var r := UngroundedRef(sheet, at);
    ReachesRef(sheet, at, r);
    if at != l {
      ReachesTrans(sheet, l, at, r);
    }
    forall s | s in seen ensures Reaches(sheet, s, r) {
      ReachesTrans(sheet, s, at, r);
    }
    if r in seen + {at} {
      assert Reaches(sheet, r, r);
    } else {
      assert sheet.Keys - (seen + {at}) < sheet.Keys - seen by {
        assert at in sheet.Keys - seen && at !in sheet.Keys - (seen + {at});
      }
      FindCycle(sheet, l, r, seen + {at});
    }
  }

  /** The plain recursive meaning exists exactly for the cells that cannot reach a reference cycle. */
  lemma WellFoundedIffAcyclic(sheet: Sheet, l: Loc)
    ensures WellFounded(sheet, l) <==> !ReachesCycle(sheet, l)
  {
    if WellFounded(sheet, l) && ReachesCycle(sheet, l) {
      var n: nat :| Grounded(sheet, l, n);
      var c :| c in sheet && (c == l || Reaches(sheet, l, c)) && Reaches(sheet, c, c);
      var k: nat :| k > 0 && Leads(sheet, c, c, k);
      if c == l {
        CyclicUngrounded(sheet, l, k, n);
      } else {
        var m: nat :| m > 0 && Leads(sheet, l, c, m);
        GroundedAlong(sheet, l, c, n, m);
        CyclicUngrounded(sheet, c, k, n - m);
      }
    }
    if !WellFounded(sheet, l) {
      var _ := UngroundedRef(sheet, l);
      FindCycle(sheet, l, l, {});
    }
  }

  /** Cells that can reach a cycle are Invalid; every other cell has its plain recursive meaning, at any depth bound. */
  lemma SemByCycles(sheet: Sheet, num: Numeral, l: Loc, n: nat)
    ensures ReachesCycle(sheet, l) ==> Sem(sheet, num, l) == Invalid
    ensures !ReachesCycle(sheet, l) ==> WellFounded(sheet, l)
    ensures !ReachesCycle(sheet, l) && Grounded(sheet, l, n) ==> Sem(sheet, num, l) == Meaning(sheet, num, l, n)
  {
    WellFoundedIffAcyclic(sheet, l);
    if Grounded(sheet, l, n) {
      var k: nat :| Grounded(sheet, l, k) && Sem(sheet, num, l) == Meaning(sheet, num, l, k);
      MeaningUnique(sheet, num, l, n, k);
    }
  }
}
