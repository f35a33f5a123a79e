/** Cached evaluation of spreadsheet cells (cell.cpp), proved against SheetMeaning. */
module Spreadsheet {
  import opened Formulas
  import opened FormulaText
  import opened SheetMeaning
  import opened SheetEdits
  import opened Options

  ghost function ContentSize(c: Content): nat {
    1 + if c.Formula? then ExpressionSize(c.e) else 0
  }

  function Strip(s: string): string {
    if s == [] then [] else (if s[0] == ' ' then [] else [s[0]]) + Strip(s[1..])
  }

  /** Cells that everything under evaluation leads to went from dirty to clean, each evaluated once, and with each of
    * them everything it refers to. */
  ghost predicate Swept(sheet: Sheet, stack: set<Loc>, e0: map<Loc, nat>, d0: set<Loc>, e1: map<Loc, nat>,
                        d1: set<Loc>) {
    && d1 <= d0 && |d1| <= |d0| && e1 == Once(e0, d0 - d1)
    && (forall m :: m in d0 && m !in d1 ==> m in sheet && RefsOf(sheet[m]) !! d1 && Leading(sheet, stack, {m}))
  }

  /** What is held after a look: the values held before, and those of the cells that the look evaluated. */
  lemma HeldAfterLook(was: Sheet, shown: Sheet, num: Numeral, l: Loc, d0: set<Loc>, d1: set<Loc>,
                      values: map<Loc, Value>)
    requires was.Keys == shown.Keys
    requires forall m :: m in shown ==> if m in d0 then shown[m] == was[m] else shown[m].Fixed?
    requires forall m :: m in d1 <==> m in d0 && !From(shown, l, m)
    requires values.Keys == shown.Keys - d1 && forall m :: m in values ==> values[m] == Sem(shown, num, m)
    ensures Held(was, values) == AfterRead(shown, num, l)
  {
    var held, after := Held(was, values), AfterRead(shown, num, l);
    forall m | m in was ensures held[m] == after[m] {
      if m !in d0 {
        FixedMeans(shown, num, m);
      }
    }
  }

  /** One evaluation more for each of these cells. */
  ghost function Once(e: map<Loc, nat>, s: set<Loc>): map<Loc, nat> {
    map m | m in e :: e[m] + if m in s then 1 else 0
  }

  lemma SweptTrans(sheet: Sheet, stack: set<Loc>, e0: map<Loc, nat>, d0: set<Loc>, e1: map<Loc, nat>, d1: set<Loc>,
                   e2: map<Loc, nat>, d2: set<Loc>)
    requires Swept(sheet, stack, e0, d0, e1, d1) && Swept(sheet, stack, e1, d1, e2, d2)
    ensures Swept(sheet, stack, e0, d0, e2, d2)
  {
    assert e2 == Once(e0, d0 - d2);
  }

  /** One cell has been marked clean, and its evaluation is counted. */
  ghost predicate Marked(l: Loc, e0: map<Loc, nat>, d0: set<Loc>, e1: map<Loc, nat>, d1: set<Loc>) {
    l in d0 && l in e0 && d1 == d0 - {l} && |d1| < |d0| && e1 == e0[l := e0[l] + 1]
  }

  /** A cell is marked clean, and then everything it refers to is evaluated. */
  lemma SweptFrom(sheet: Sheet, stack: set<Loc>, l: Loc, e0: map<Loc, nat>, d0: set<Loc>, e1: map<Loc, nat>,
                  d1: set<Loc>, e2: map<Loc, nat>, d2: set<Loc>)
    requires Marked(l, e0, d0, e1, d1) && l in sheet && RefsOf(sheet[l]) !! d2 && Leading(sheet, stack, {l})
    requires Swept(sheet, stack + {l}, e1, d1, e2, d2)
    ensures Swept(sheet, stack, e0, d0, e2, d2) && forall m :: m in d0 && m !in d2 ==> From(sheet, l, m)
  {
    assert e2 == Once(e0, d0 - d2);
  }

  /** The cells under evaluation all lead to the references still to be read. */
  ghost predicate Leading(sheet: Sheet, stack: set<Loc>, refs: set<Loc>) {
    forall s, r :: s in stack && r in refs ==> Reaches(sheet, s, r)
  }

  /** `env` holds the meanings of cells that everything under evaluation leads to. */
  ghost predicate Meant(sheet: Sheet, num: Numeral, env: Env, stack: set<Loc>) {
    Leading(sheet, stack, env.Keys) && forall r :: r in env ==> env[r] == Sem(sheet, num, r)
  }

  lemma LeadOn(sheet: Sheet, l: Loc, stack: set<Loc>)
    requires l in sheet && Leading(sheet, stack, {l})
    ensures Leading(sheet, stack + {l}, RefsOf(sheet[l]))
  {
    forall s, r | s in stack + {l} && r in RefsOf(sheet[l]) ensures Reaches(sheet, s, r) {
      ReachesRef(sheet, l, r);
      if s != l {
        ReachesTrans(sheet, s, l, r);
      }
    }
  }

  /** A read sweeps exactly what the cell leads to, where clean cells refer to nothing. */
  lemma SweptAll(sheet: Sheet, l: Loc, e0: map<Loc, nat>, d0: set<Loc>, e1: map<Loc, nat>, d1: set<Loc>)
    requires Swept(sheet, {}, e0, d0, e1, d1) && l !in d1
    requires forall m :: m in d0 && m !in d1 ==> From(sheet, l, m)
    requires forall m :: m in sheet && m !in d0 ==> sheet[m].Fixed?
    ensures forall m :: m in d1 <==> m in d0 && !From(sheet, l, m)
  {
    forall m | Reaches(sheet, l, m) ensures m !in d1 {
      var n: nat :| n > 0 && Leads(sheet, l, m, n);
      SweptAlong(sheet, l, m, n, e0, d0, e1, d1);
    }
  }

  lemma {:induction false} SweptAlong(sheet: Sheet, l: Loc, m: Loc, n: nat,
                                      e0: map<Loc, nat>, d0: set<Loc>, e1: map<Loc, nat>, d1: set<Loc>)
    requires Swept(sheet, {}, e0, d0, e1, d1) && l !in d1 && Leads(sheet, l, m, n)
    requires forall x :: x in sheet && x !in d0 ==> sheet[x].Fixed?
    ensures m !in d1
    decreases n
  {
    if n == 0 {
    } else {
      var r :| r in RefsOf(sheet[l]) && Leads(sheet, r, m, n - 1);
      SweptAlong(sheet, r, m, n - 1, e0, d0, e1, d1);
    }
  }

  /** No cell is dirty that was not before. */
  ghost predicate Within(d1: set<Loc>, d0: set<Loc>) {
    d1 <= d0 && |d1| <= |d0|
  }

  /** Of these cells only those still to come are dirty. */
  ghost predicate Clean(all: set<Loc>, rest: set<Loc>, dirty: set<Loc>) {
    forall r :: r in all && r in dirty ==> r in rest
  }

  lemma CleanOn(all: set<Loc>, here: set<Loc>, rest: set<Loc>, d1: set<Loc>, d2: set<Loc>)
    requires Clean(all, here + rest, d1) && d2 <= d1 && here !! d2
    ensures Clean(all, rest, d2)
  {}

  lemma AllClean(all: set<Loc>, rest: set<Loc>, dirty: set<Loc>)
    requires Clean(all, rest, dirty) && rest == {}
    ensures all !! dirty
  {}

  lemma ApartOn(here: set<Loc>, rest: set<Loc>, d1: set<Loc>, d2: set<Loc>)
    requires here !! d1 && rest !! d2 && d2 <= d1
    ensures here + rest !! d2
  {}

  method Combine(op: char, left: Value, term: Value, ghost sign: Sign) returns (result: Value)
    requires op == SignChar(sign)
    ensures result == Add(sign, left, term)
  {
    if left.Number? && term.Number? {
      if op == '+' {
        result := Number(left.r + term.r);
      } else {
        result := Number(left.r - term.r);
      }
    } else {
      result := Invalid;
    }
  }

  method CombineScaled(op: char, left: Value, factor: Value, ghost scale: Scale) returns (result: Value)
    requires op == ScaleChar(scale)
    ensures result == Multiply(scale, left, factor)
  {
    if left.Number? && factor.Number? {
      if op == '*' {
        result := Number(left.r * factor.r);
      } else if factor.r == 0.0 {
        result := Invalid;
      } else {
        result := Number(left.r / factor.r);
      }
    } else {
      result := Invalid;
    }
  }

  /** What value() makes of the text of a cell. */
  ghost predicate Describes(alnum: char -> bool, text: string, c: Content) {
    match c
    case Quoted(s) => text != [] && text[0] == '\'' && s == text[1..]
    case Formula(e) => text != [] && text[0] == '=' && Strip(text[1..]) == ExpressionText(e) && WellFormed(e, alnum)
    case Plain(s) => s == text && (text == [] || (text[0] != '\'' && text[0] != '='))
    case Fixed(_) => false
  }

  /** The values are the meanings of the first cells of the list. */
  ghost predicate Meanings(values: seq<Value>, sheet: Sheet, num: Numeral, order: seq<Loc>) {
    |values| <= |order| && forall j :: 0 <= j < |values| ==> values[j] == Sem(sheet, num, order[j])
  }

  lemma NextMeaning(values: seq<Value>, sheet: Sheet, num: Numeral, order: seq<Loc>, v: Value)
    requires Meanings(values, sheet, num, order) && |values| < |order| && v == Sem(sheet, num, order[|values|])
    ensures Meanings(values + [v], sheet, num, order)
  {}

  /** The sheet with the given values held. */
  ghost function Held(sheet: Sheet, values: map<Loc, Value>): Sheet {
    map m | m in sheet :: if m in values then Fixed(values[m]) else sheet[m]
  }

  lemma HeldEdited(texts: Sheet, shown: Sheet, values: map<Loc, Value>, l: Loc, c: Content)
    requires texts.Keys == shown.Keys && l !in values
    requires forall m :: m in texts && m != l ==> shown[m] == if m in values then Fixed(values[m]) else texts[m]
    ensures Held(Edited(texts, l, c), values) == Edited(shown, l, c)
  {}

  lemma SameEdit(a: Sheet, b: Sheet, l: Loc, c: Content)
    requires SameBut(a, b, l)
    ensures Edited(a, l, c) == Edited(b, l, c)
  {
    var x, y := Edited(a, l, c), Edited(b, l, c);
    assert forall m :: m in x <==> m in y;
  }

  /** What a user does: a new text for a cell, or a look at its value. */
  datatype Event = Edit(at: Loc, text: string) | Look(at: Loc)

  ghost predicate Matches(alnum: char -> bool, event: Event, step: Step) {
    match event
    case Edit(l, text) => step.Wrote? && step.at == l && Describes(alnum, text, step.c)
    case Look(l) => step == WasRead(l)
  }

  lemma ReadStep(texts: Sheet, shown: Sheet, now: Sheet, num: Numeral, l: Loc, right: bool)
    requires (right ==> Holds(texts, now, num)) && forall m :: Sem(now, num, m) == Sem(shown, num, m)
    ensures right ==> Holds(texts, AfterRead(now, num, l), num)
    ensures forall m :: Sem(AfterRead(now, num, l), num, m) == Sem(shown, num, m)
  {
    if right {
      HeldAfterRead(texts, now, num, l);
    }
    forall m ensures Sem(AfterRead(now, num, l), num, m) == Sem(shown, num, m) {
      ReadKeeps(now, num, l, m);
    }
  }

  lemma MeaningsHeld(values: seq<Value>, texts: Sheet, shown: Sheet, num: Numeral, order: seq<Loc>)
    requires Meanings(values, shown, num, order) && Holds(texts, shown, num)
    ensures Meanings(values, texts, num, order)
  {
    forall j | 0 <= j < |values| ensures values[j] == Sem(texts, num, order[j]) {
      HoldingKeeps(texts, shown, num, order[j]);
    }
  }

  /** After k steps of a run: what is shown now and the values so far lead to the same end. */
  ghost predicate OnTheWay(shown: Sheet, now: Sheet, num: Numeral, steps: seq<Step>, k: nat, values: seq<Value>) {
    && k <= |steps| && AfterAll(now, num, steps[k..]) == AfterAll(shown, num, steps)
    && values + ShownBy(now, num, steps[k..]) == ShownBy(shown, num, steps)
  }

  lemma NextStep(shown: Sheet, now: Sheet, num: Numeral, steps: seq<Step>, k: nat, values: seq<Value>, v: seq<Value>)
    requires k < |steps| && OnTheWay(shown, now, num, steps, k, values)
    requires v == if steps[k].WasRead? then [Sem(now, num, steps[k].at)] else []
    ensures OnTheWay(shown, After(now, num, steps[k]), num, steps, k + 1, values + v)
  {
    var rest := ShownBy(After(now, num, steps[k]), num, steps[k + 1..]);
    assert steps[k..][1..] == steps[k + 1..];
    assert ShownBy(now, num, steps[k..]) == v + rest;
    assert values + (v + rest) == (values + v) + rest;
  }

  lemma PresentNext(there: set<Loc>, steps: seq<Step>, k: nat)
    requires k < |steps| && Present(there, steps[k..])
    ensures steps[k].WasRead? ==> steps[k].at in there
    ensures Present(there + if steps[k].Wrote? then {steps[k].at} else {}, steps[k + 1..])
  {
    assert steps[k..][1..] == steps[k + 1..];
    assert steps[k].WasRead? ==> there + {} == there;
  }

  lemma EditMeanings(texts: Sheet, shown: Sheet, num: Numeral, l: Loc, c: Content, order: seq<Loc>, values: seq<Value>,
                     right: bool)
    requires Meanings(values, Edited(shown, l, c), num, order) && NoneFixed(texts)
    requires right ==> Holds(texts, shown, num) && Untouched(texts, shown, l)
    ensures forall i :: 0 <= i < |values| && Kept(shown, l, order[i]) ==> values[i] == shown[order[i]].v
    ensures right ==> Meanings(values, Edited(texts, l, c), num, order)
  {
    forall i | 0 <= i < |values| && Kept(shown, l, order[i]) ensures values[i] == shown[order[i]].v {
      FixedMeans(Edited(shown, l, c), num, order[i]);
    }
    if right {
      HeldIfUntouched(texts, shown, num, l, c);
      MeaningsHeld(values, Edited(texts, l, c), Edited(shown, l, c), num, order);
    }
  }

  lemma {:induction false} StripTight(s: string)
    requires forall c :: c in s ==> c != ' '
    ensures Strip(s) == s
  {
    if s == [] {
    } else {
      assert s[0] in s && forall c :: c in s[1..] ==> c in s;
      StripTight(s[1..]);
    }
  }

  /** A reference can be written. */
  lemma DescribesReference(alnum: char -> bool, s: string, l: Loc)
    requires CharClass(alnum) && Names(s, l, alnum)
    ensures Describes(alnum, "=" + s, Reference(s))
  {
    var f := Factor(false, Token(s));
    assert ("=" + s)[1..] == s;
    StripTight(s);
    assert ExpressionText(Single(Alone(f))) == TermText(Alone(f)) == FactorText(f) == "" + AtomText(f.atom) == s;
    ReferenceWritable(s, l, alnum);
  }

  class Cell {
    const at: Loc   // row and column of the item
    var text: string
    var cachedValue: Value
    var cacheIsDirty: bool

    constructor (at: Loc)
      ensures cacheIsDirty && text == "" && this.at == at
    {
      this.at := at;
      text, cachedValue, cacheIsDirty := "", Invalid, true;
    }

    /** setFormula, and with it setData for the edit role. */
    method SetFormula(formula: string)
      modifies this`text, this`cacheIsDirty
      ensures text == formula && cacheIsDirty
    {
      text := formula;
      cacheIsDirty := true;
    }
  }

  class Table {
    const alnum: char -> bool
    const num: Numeral
    var cells: map<Loc, Cell>
    ghost var items: set<Cell>         // the cells of the table
    ghost var sheet: Sheet             // what the texts say
    ghost var dirty: set<Loc>          // the cells whose cache is dirty
    ghost var evals: map<Loc, nat>     // how often each cell was evaluated

    /** The sheet says what the text of the cell says. */
    ghost predicate Described(l: Loc)
      reads this`cells, this`sheet, this`items, items`text
    {
      l in cells && l in sheet && cells[l] in items ==> Describes(alnum, cells[l].text, sheet[l])
    }

    /** What holds throughout an evaluation; of a clean cell nothing is known but its value. */
    ghost predicate Ready()
      reads this, items
    {
      && CharClass(alnum)
      && cells.Keys == sheet.Keys == evals.Keys && dirty <= cells.Keys
      && (forall l :: l in cells ==> cells[l] in items && cells[l].at == l && (cells[l].cacheIsDirty <==> l in dirty))
      && (forall l {:trigger Described(l)} :: l in dirty ==> Described(l))
    }

    /** Clean cells hold their meaning, except that those under evaluation hold Invalid. */
    ghost predicate Settled(stack: set<Loc>)
      reads this, items
    {
      && (forall l :: l in stack ==>
        l in cells && cells[l] in items && l in sheet && l !in dirty && cells[l].cachedValue == Invalid)
      && (forall l :: l in cells && cells[l] in items && l !in stack && l !in dirty ==>
        cells[l].cachedValue == Sem(sheet, num, l))
    }

    /** `l` has just been declared clean and its value is still to be computed. */
    ghost predicate Starting(l: Loc, stack: set<Loc>)
      reads this, items
    {
      && l in cells && l in sheet && l !in dirty && l !in stack && Described(l)
      && (forall m :: m in stack ==>
        m in cells && cells[m] in items && m in sheet && m !in dirty && cells[m].cachedValue == Invalid)
      && (forall m :: m in cells && cells[m] in items && m !in stack && m != l && m !in dirty ==>
        cells[m].cachedValue == Sem(sheet, num, m))
    }

    /** value(): the meaning of the cell, whatever has been evaluated before and whatever is being evaluated. */
    method Value(c: Cell, ghost l: Loc, ghost stack: set<Loc>) returns (v: Value)
      requires Ready() && Settled(stack) && l in cells && cells[l] == c && Leading(sheet, stack, {l})
      modifies items`cachedValue, items`cacheIsDirty, this`evals, this`dirty
      ensures Ready() && Settled(stack) && l !in dirty
      ensures v == Sem(sheet, num, l) && c.cachedValue == v
      ensures Swept(sheet, stack, old(evals), old(dirty), evals, dirty)
      ensures forall m :: m in old(dirty) && m !in dirty ==> From(sheet, l, m)
      decreases |dirty|, 0, 1
    {
      if c.cacheIsDirty {
        Evaluate(c, l, stack);
      } else if l in stack {
        SelfReach(sheet, num, l);
      }
      return c.cachedValue;
    }

    /** The part of value() that runs when the cache is dirty. */
    method Evaluate(c: Cell, ghost l: Loc, ghost stack: set<Loc>)
      requires Ready() && Settled(stack) && l in cells && cells[l] == c && Leading(sheet, stack, {l}) && c.cacheIsDirty
      modifies items`cachedValue, items`cacheIsDirty, this`evals, this`dirty
      ensures Ready() && Settled(stack) && l !in dirty && c.cachedValue == Sem(sheet, num, l)
      ensures Swept(sheet, stack, old(evals), old(dirty), evals, dirty)
      ensures forall m :: m in old(dirty) && m !in dirty ==> From(sheet, l, m)
      decreases |dirty|, 0, 0
    {
      ghost var e0, d0 := evals, dirty;
      MarkClean(c, l, stack);
      Refresh(c, l, stack, e0, d0);
    }

    /** Clearing the dirty flag before evaluating; the ghost counter notes that an evaluation starts. */
    method MarkClean(c: Cell, ghost l: Loc, ghost stack: set<Loc>)
      requires Ready() && Settled(stack) && l in cells && cells[l] == c && c.cacheIsDirty
      modifies c`cacheIsDirty, this`evals, this`dirty
      ensures Ready() && Starting(l, stack)
      ensures Marked(l, old(evals), old(dirty), evals, dirty)
    {
      c.cacheIsDirty := false;
      evals := evals[l := evals[l] + 1];
      dirty := dirty - {l};
    }

    method Store(c: Cell, ghost l: Loc, ghost stack: set<Loc>, v: Value)
      requires Ready() && Starting(l, stack) && cells[l] == c && v == Sem(sheet, num, l)
      modifies c`cachedValue
      ensures Ready() && Settled(stack) && c.cachedValue == v
    {
      c.cachedValue := v;
    }

    /** The evaluation of a cell that has just been declared clean. */
    method Refresh(c: Cell, ghost l: Loc, ghost stack: set<Loc>, ghost e0: map<Loc, nat>, ghost d0: set<Loc>)
      requires Ready() && Starting(l, stack) && cells[l] == c && Leading(sheet, stack, {l})
      requires Marked(l, e0, d0, evals, dirty)
      modifies items`cachedValue, items`cacheIsDirty, this`evals, this`dirty
      ensures Ready() && Settled(stack) && l !in dirty && c.cachedValue == Sem(sheet, num, l)
      ensures Swept(sheet, stack, e0, d0, evals, dirty) && forall m :: m in d0 && m !in dirty ==> From(sheet, l, m)
      decreases |dirty|, ContentSize(sheet[l]) + 1
    {
      ghost var e1, d1 := evals, dirty;
      SemFixpoint(sheet, num, l);
      var formulaStr := c.text;
      assert Described(l);
      if formulaStr != [] && formulaStr[0] == '\'' {
        Store(c, l, stack, Text(formulaStr[1..]));
      } else if formulaStr != [] && formulaStr[0] == '=' {
        RunFormula(c, l, stack);
      } else {
        var d := num(formulaStr);
        Store(c, l, stack, if d.Some? then Number(d.value) else Text(formulaStr));
      }
      SweptFrom(sheet, stack, l, e0, d0, e1, d1, evals, dirty);
    }

    method RunFormula(c: Cell, ghost l: Loc, ghost stack: set<Loc>)
      requires Ready() && Starting(l, stack) && cells[l] == c && Leading(sheet, stack, {l}) && sheet[l].Formula?
      modifies items`cachedValue, items`cacheIsDirty, this`evals, this`dirty
      ensures Ready() && Settled(stack) && l !in dirty && c.cachedValue == Sem(sheet, num, l)
      ensures Swept(sheet, stack + {l}, old(evals), old(dirty), evals, dirty) && RefsOf(sheet[l]) !! dirty
      decreases |dirty|, ContentSize(sheet[l])
    {
      c.cachedValue := Invalid;
      assert Described(l);
      var expr := Strip(c.text[1..]) + [NUL];
      ghost var e := sheet[l].e;
      LeadOn(sheet, l, stack);
      SemFixpoint(sheet, num, l);
      assert Settled(stack + {l});
      var v, pos := EvalExpression(expr, 0, e, SemEnv(sheet, num, Refs(e)), stack + {l}, evals, dirty);
      if expr[pos] != NUL {
        v := Invalid;
      }
      assert Starting(l, stack);
      Store(c, l, stack, v);
    }

    method EvalExpression(str: string, pos: int, ghost e: Expression, ghost env: Env, ghost stack: set<Loc>,
                          ghost e0: map<Loc, nat>, ghost d0: set<Loc>)
      returns (result: Value, end: int)
      requires Ready() && Settled(stack) && Swept(sheet, stack, e0, d0, evals, dirty)
      requires Meant(sheet, num, env, stack) && Refs(e) <= env.Keys
      requires WellFormed(e, alnum) && ExpressionAt(str, pos, e, alnum)
      modifies items`cachedValue, items`cacheIsDirty, this`evals, this`dirty
      ensures Ready() && Settled(stack) && Swept(sheet, stack, e0, d0, evals, dirty) && Within(dirty, old(dirty))
      ensures Refs(e) !! dirty && end == pos + |ExpressionText(e)| && result == Eval(e, env, num)
      decreases |dirty|, ExpressionSize(e), 1
    {
      ghost var first, tail := EnterExpression(str, pos, e, env, num, alnum);
      result, end := EvalTerm(str, pos, first, env, stack, e0, d0);
      ghost var d1 := dirty;
      result, end := AddTail(str, end, result, tail, env, stack, e0, d0);
      ApartOn(TermRefs(first), TailRefs(tail), d1, dirty);
    }

    /** The loop of evalExpression. */
    method AddTail(str: string, pos: int, left: Value, ghost tail: Tail, ghost env: Env, ghost stack: set<Loc>,
                   ghost e0: map<Loc, nat>, ghost d0: set<Loc>)
      returns (result: Value, end: int)
      requires Ready() && Settled(stack) && Swept(sheet, stack, e0, d0, evals, dirty)
      requires Meant(sheet, num, env, stack) && TailRefs(tail) <= env.Keys
      requires TailFormed(tail, alnum) && TailAt(str, pos, tail, alnum)
      modifies items`cachedValue, items`cacheIsDirty, this`evals, this`dirty
      ensures Ready() && Settled(stack) && Swept(sheet, stack, e0, d0, evals, dirty) && Within(dirty, old(dirty))
      ensures TailRefs(tail) !! dirty && end == pos + |TailText(tail)| && result == Fold(left, tail, env, num)
      decreases |dirty|, TailSize(tail), 1
    {
      result, end := left, pos;
      ghost var d1 := dirty;
      ghost var rest := tail;
      TailHead(str, pos, tail, alnum);
      while str[end] != NUL
        invariant Ready() && Settled(stack) && Swept(sheet, stack, e0, d0, evals, dirty) && Within(dirty, d1)
        invariant AlongTail(str, pos, left, tail, end, result, rest, env, num, alnum)
        invariant Clean(TailRefs(tail), TailRefs(rest), dirty)
        decreases rest
      {
        var op := str[end];
        if op != '+' && op != '-' {
          TailDone(str, pos, left, tail, end, result, rest, env, num, alnum);
          AllClean(TailRefs(tail), TailRefs(rest), dirty);
          return;
        }
        result, end := AddRound(str, pos, left, tail, end, op, result, rest, env, stack, e0, d0);
        rest := rest.rest;
      }
      TailDone(str, pos, left, tail, end, result, rest, env, num, alnum);
      AllClean(TailRefs(tail), TailRefs(rest), dirty);
    }

    /** One round of the loop of evalExpression. */
    method AddRound(str: string, ghost pos: int, ghost left: Value, ghost tail: Tail, at: int, op: char, value: Value,
                    ghost rest: Tail, ghost env: Env, ghost stack: set<Loc>, ghost e0: map<Loc, nat>,
                    ghost d0: set<Loc>)
      returns (result: Value, end: int)
      requires Ready() && Settled(stack) && Swept(sheet, stack, e0, d0, evals, dirty) && Meant(sheet, num, env, stack)
      requires AlongTail(str, pos, left, tail, at, value, rest, env, num, alnum) && rest.More? && op == str[at]
      requires Clean(TailRefs(tail), TailRefs(rest), dirty)
      modifies items`cachedValue, items`cacheIsDirty, this`evals, this`dirty
      ensures Ready() && Settled(stack) && Swept(sheet, stack, e0, d0, evals, dirty) && Within(dirty, old(dirty))
      ensures AlongTail(str, pos, left, tail, end, result, rest.rest, env, num, alnum)
      ensures Clean(TailRefs(tail), TailRefs(rest.rest), dirty)
      decreases |dirty|, TailSize(rest), 0
    {
      TailNext(str, pos, left, tail, at, value, rest, env, num, alnum);
      ghost var d1 := dirty;
      var x;
      x, end := EvalTerm(str, at + 1, rest.t, env, stack, e0, d0);
      CleanOn(TailRefs(tail), TermRefs(rest.t), TailRefs(rest.rest), d1, dirty);
      result := Combine(op, value, x, rest.op);
    }

    method EvalTerm(str: string, pos: int, ghost t: Term, ghost env: Env, ghost stack: set<Loc>,
                    ghost e0: map<Loc, nat>, ghost d0: set<Loc>)
      returns (result: Value, end: int)
      requires Ready() && Settled(stack) && Swept(sheet, stack, e0, d0, evals, dirty)
      requires Meant(sheet, num, env, stack) && TermRefs(t) <= env.Keys
      requires WellFormedTerm(t, alnum) && TermAt(str, pos, t, alnum)
      modifies items`cachedValue, items`cacheIsDirty, this`evals, this`dirty
      ensures Ready() && Settled(stack) && Swept(sheet, stack, e0, d0, evals, dirty) && Within(dirty, old(dirty))
      ensures TermRefs(t) !! dirty && end == pos + |TermText(t)| && result == Formulas.EvalTerm(t, env, num)
      decreases |dirty|, Size(t), 1
    {
      ghost var first, tail := EnterTerm(str, pos, t, env, num, alnum);
      result, end := EvalFactor(str, pos, first, env, stack, e0, d0);
      ghost var d1 := dirty;
      result, end := MultiplyTail(str, end, result, tail, env, stack, e0, d0);
      ApartOn(FactorRefs(first), ScalingRefs(tail), d1, dirty);
    }

    /** The loop of evalTerm. */
    method MultiplyTail(str: string, pos: int, left: Value, ghost tail: Scaling, ghost env: Env, ghost stack: set<Loc>,
                        ghost e0: map<Loc, nat>, ghost d0: set<Loc>)
      returns (result: Value, end: int)
      requires Ready() && Settled(stack) && Swept(sheet, stack, e0, d0, evals, dirty)
      requires Meant(sheet, num, env, stack) && ScalingRefs(tail) <= env.Keys
      requires ScalingFormed(tail, alnum) && ScalingAt(str, pos, tail, alnum)
      modifies items`cachedValue, items`cacheIsDirty, this`evals, this`dirty
      ensures Ready() && Settled(stack) && Swept(sheet, stack, e0, d0, evals, dirty) && Within(dirty, old(dirty))
      ensures ScalingRefs(tail) !! dirty && end == pos + |ScalingText(tail)|
        && result == FoldScale(left, tail, env, num)
      decreases |dirty|, ScalingSize(tail), 1
    {
      result, end := left, pos;
      ghost var d1 := dirty;
      ghost var rest := tail;
      ScalingHead(str, pos, tail, alnum);
      while str[end] != NUL
        invariant Ready() && Settled(stack) && Swept(sheet, stack, e0, d0, evals, dirty) && Within(dirty, d1)
        invariant AlongScaling(str, pos, left, tail, end, result, rest, env, num, alnum)
        invariant Clean(ScalingRefs(tail), ScalingRefs(rest), dirty)
        decreases rest
      {
        var op := str[end];
        if op != '*' && op != '/' {
          ScalingDone(str, pos, left, tail, end, result, rest, env, num, alnum);
          AllClean(ScalingRefs(tail), ScalingRefs(rest), dirty);
          return;
        }
        result, end := MultiplyRound(str, pos, left, tail, end, op, result, rest, env, stack, e0, d0);
        rest := rest.rest;
      }
      ScalingDone(str, pos, left, tail, end, result, rest, env, num, alnum);
      AllClean(ScalingRefs(tail), ScalingRefs(rest), dirty);
    }

    /** One round of the loop of evalTerm. */
    method MultiplyRound(str: string, ghost pos: int, ghost left: Value, ghost tail: Scaling, at: int, op: char,
                         value: Value,
                    ghost rest: Scaling, ghost env: Env, ghost stack: set<Loc>, ghost e0: map<Loc, nat>,
                    ghost d0: set<Loc>)
      returns (result: Value, end: int)
      requires Ready() && Settled(stack) && Swept(sheet, stack, e0, d0, evals, dirty) && Meant(sheet, num, env, stack)
      requires AlongScaling(str, pos, left, tail, at, value, rest, env, num, alnum) && rest.Scaled? && op == str[at]
      requires Clean(ScalingRefs(tail), ScalingRefs(rest), dirty)
      modifies items`cachedValue, items`cacheIsDirty, this`evals, this`dirty
      ensures Ready() && Settled(stack) && Swept(sheet, stack, e0, d0, evals, dirty) && Within(dirty, old(dirty))
      ensures AlongScaling(str, pos, left, tail, end, result, rest.rest, env, num, alnum)
      ensures Clean(ScalingRefs(tail), ScalingRefs(rest.rest), dirty)
      decreases |dirty|, ScalingSize(rest), 0
    {
      ScalingNext(str, pos, left, tail, at, value, rest, env, num, alnum);
      ghost var d1 := dirty;
      var x;
      x, end := EvalFactor(str, at + 1, rest.f, env, stack, e0, d0);
      CleanOn(ScalingRefs(tail), FactorRefs(rest.f), ScalingRefs(rest.rest), d1, dirty);
      result := CombineScaled(op, value, x, rest.scale);
    }

    method EvalFactor(str: string, pos: int, ghost f: Factor, ghost env: Env, ghost stack: set<Loc>,
                      ghost e0: map<Loc, nat>, ghost d0: set<Loc>)
      returns (result: Value, end: int)
      requires Ready() && Settled(stack) && Swept(sheet, stack, e0, d0, evals, dirty)
      requires Meant(sheet, num, env, stack) && FactorRefs(f) <= env.Keys
      requires WellFormedFactor(f, alnum) && FactorAt(str, pos, f, alnum)
      modifies items`cachedValue, items`cacheIsDirty, this`evals, this`dirty
      ensures Ready() && Settled(stack) && Swept(sheet, stack, e0, d0, evals, dirty) && Within(dirty, old(dirty))
      ensures FactorRefs(f) !! dirty && end == pos + |FactorText(f)| && result == Formulas.EvalFactor(f, env, num)
      decreases |dirty|, FactorSize(f)
    {
      end := pos;
      FactorStart(str, pos, f, alnum);
      var negative := false;
      if str[end] == '-' {
        negative := true;
        end := end + 1;
      }
      result, end := EvalAtom(str, end, f.atom, env, stack, e0, d0);
      if negative {
        if result.Number? {
          result := Number(-result.r);
        } else {
          result := Invalid;
        }
      }
    }

    method EvalAtom(str: string, pos: int, ghost a: Atom, ghost env: Env, ghost stack: set<Loc>,
                    ghost e0: map<Loc, nat>, ghost d0: set<Loc>)
      returns (result: Value, end: int)
      requires Ready() && Settled(stack) && Swept(sheet, stack, e0, d0, evals, dirty)
      requires Meant(sheet, num, env, stack) && AtomRefs(a) <= env.Keys
      requires AtomAt(str, pos, a, alnum)
      requires if a.Paren? then WellFormed(a.e, alnum) else a.s != [] && forall c :: c in a.s ==> TokenChar(alnum, c)
      modifies items`cachedValue, items`cacheIsDirty, this`evals, this`dirty
      ensures Ready() && Settled(stack) && Swept(sheet, stack, e0, d0, evals, dirty) && Within(dirty, old(dirty))
      ensures AtomRefs(a) !! dirty && end == pos + |AtomText(a)| && result == Formulas.EvalAtom(a, env, num)
      decreases |dirty|, AtomSize(a)
    {
      AtomStart(str, pos, a, alnum);
      if str[pos] == '(' {
        ParenInside(str, pos, a, alnum);
        result, end := EvalExpression(str, pos + 1, a.e, env, stack, e0, d0);
        if str[end] != ')' {
          result := Invalid;
        }
        end := end + 1;
      } else {
        result, end := EvalToken(str, pos, a.s, env, stack, e0, d0);
      }
    }

    method EvalToken(str: string, pos: int, ghost s: string, ghost env: Env, ghost stack: set<Loc>,
                     ghost e0: map<Loc, nat>, ghost d0: set<Loc>)
      returns (result: Value, end: int)
      requires Ready() && Settled(stack) && Swept(sheet, stack, e0, d0, evals, dirty)
      requires Meant(sheet, num, env, stack) && AtomRefs(Token(s)) <= env.Keys
      requires TokenAt(str, pos, s, alnum)
      modifies items`cachedValue, items`cacheIsDirty, this`evals, this`dirty
      ensures Ready() && Settled(stack) && Swept(sheet, stack, e0, d0, evals, dirty) && Within(dirty, old(dirty))
      ensures AtomRefs(Token(s)) !! dirty && end == pos + |s|
      ensures result == if IsLocation(s) then env[LocationOf(s)]
        else match num(s) case Some(r) => Number(r) case None => Invalid
      decreases |dirty|, 1
    {
      end := pos;
      var token := "";
      assert s != [] ==> s[0] in s && str[pos + 0] == s[0];
      while TokenChar(alnum, str[end])
        invariant pos <= end <= pos + |s| && token == s[..end - pos]
        invariant end < pos + |s| ==> TokenChar(alnum, str[end])
        decreases |str| - end
      {
        token := token + [str[end]];
        assert str[end] == s[end - pos];
        end := end + 1;
        assert end < pos + |s| ==> str[end] == s[end - pos] && s[end - pos] in s;
      }
      assert token == s;
      if IsLocation(token) {
        var l := LocationOf(token);
        if l in cells {
          ghost var e1, d1 := evals, dirty;
          result := Value(cells[l], l, stack);
          SweptTrans(sheet, stack, e0, d0, e1, d1, evals, dirty);
        } else {
          SemFixpoint(sheet, num, l);
          result := Number(0.0);
        }
      } else {
        var d := num(token);
        result := if d.Some? then Number(d.value) else Invalid;
      }
    }

    // ----- Between evaluations

    /** The texts of all cells say what the sheet says. */
    ghost predicate Says(s: Sheet)
      reads this`cells, this`items, items`text
    {
      forall l :: l in cells && cells[l] in items && l in s ==> Describes(alnum, cells[l].text, s[l])
    }

    /** Nothing is under evaluation, and the sheet says what the texts say. */
    ghost predicate Valid()
      reads this, items
    {
      && CharClass(alnum)
      && cells.Keys == sheet.Keys == evals.Keys && dirty <= cells.Keys
      && (forall l :: l in cells ==> cells[l] in items && cells[l].at == l && (cells[l].cacheIsDirty <==> l in dirty))
      && (forall l {:trigger Described(l)} :: l in cells ==> Described(l))
    }

    /** The sheet with every clean cell holding its cached value: what the table shows. */
    ghost function Shown(): Sheet
      reads this`cells, this`sheet, this`dirty, this`items, items`cachedValue
    {
      map l | l in sheet ::
        if l in cells && cells[l] in items && l !in dirty then Fixed(cells[l].cachedValue) else sheet[l]
    }

    /** The cells hold these values. */
    ghost predicate Holding(values: map<Loc, Value>)
      reads this`cells, this`items, items`cachedValue
    {
      forall m :: m in values ==> m in cells && cells[m] in items && cells[m].cachedValue == values[m]
    }

    lemma ShownHeld(values: map<Loc, Value>)
      requires Valid() && Holding(values) && values.Keys == cells.Keys - dirty
      ensures Shown() == Held(sheet, values)
    {}

    /** The values of the clean cells but `l`. */
    ghost function CleanValues(l: Loc): (values: map<Loc, Value>)
      requires Valid()
      reads this, items
      ensures Holding(values) && values.Keys == cells.Keys - dirty - {l}
      ensures forall m :: m in sheet && m != l ==> Shown()[m] == if m in values then Fixed(values[m]) else sheet[m]
    {
      map m | m in cells && m !in dirty && m != l :: cells[m].cachedValue
    }

    /** A table over cells none of which has been evaluated yet. */
    constructor (alnum: char -> bool, num: Numeral, cells: map<Loc, Cell>, ghost sheet: Sheet)
      requires CharClass(alnum) && cells.Keys == sheet.Keys
      requires forall l :: l in cells ==>
        cells[l].at == l && cells[l].cacheIsDirty && Describes(alnum, cells[l].text, sheet[l])
      ensures Valid() && Settled({}) && this.cells == cells && this.sheet == sheet && this.num == num
        && this.alnum == alnum
      ensures dirty == cells.Keys && forall l :: l in cells ==> evals[l] == 0
      ensures items == (set l | l in cells :: cells[l]) && Shown() == sheet
    {
      this.alnum, this.num, this.cells, this.sheet := alnum, num, cells, sheet;
      items := set l | l in cells :: cells[l];
      dirty := cells.Keys;
      evals := map l | l in cells :: 0;
    }

    /** Clean cells are right exactly if holding them changes nothing. */
    lemma SettledShown()
      requires Valid()
      ensures Settled({}) <==> Holds(sheet, Shown(), num)
    {
      if Holds(sheet, Shown(), num) {
        forall l | l in cells && l !in dirty ensures cells[l].cachedValue == Sem(sheet, num, l) {
          assert Described(l);
        }
      }
    }

    /** The evaluation works on what the table shows, where every clean cell holds its value. */
    ghost method Look()
      requires Valid()
      modifies this`sheet
      ensures sheet == old(Shown()) && Ready() && Settled({}) && Says(old(sheet))
    {
      var shown := Shown();
      assert forall m :: m in cells ==> Described(m);
      forall m | m in cells && m !in dirty ensures Sem(shown, num, m) == cells[m].cachedValue {
        FixedMeans(shown, num, m);
      }
      sheet := shown;
    }

    /** Back to what the texts say. */
    ghost method LookAway(was: Sheet, l: Loc, d0: set<Loc>)
      requires Ready() && Settled({}) && Says(was) && was.Keys == sheet.Keys
      requires forall m :: m in sheet ==> if m in d0 then sheet[m] == was[m] else sheet[m].Fixed?
      requires forall m :: m in dirty <==> m in d0 && !From(sheet, l, m)
      modifies this`sheet
      ensures Valid() && sheet == was && Shown() == AfterRead(old(sheet), num, l)
    {
      var values := map m | m in cells && m !in dirty :: Sem(sheet, num, m);
      HeldAfterLook(was, sheet, num, l, d0, dirty, values);
      assert Holding(values);
      sheet := was;
      forall m | m in cells ensures Described(m) {
        assert m in was && cells[m] in items;
      }
      assert Valid();
      ShownHeld(values);
    }

    /** A read of one cell, from any state: what the table shows there is its meaning with all clean cells held, and
      * exactly the cells that the read evaluates hold their meanings afterwards. */
    method Read(l: Loc) returns (v: Value)
      requires Valid() && l in cells
      modifies items`cachedValue, items`cacheIsDirty, this`evals, this`dirty, this`sheet
      ensures Valid() && sheet == old(sheet) && v == Sem(old(Shown()), num, l)
      ensures Shown() == AfterRead(old(Shown()), num, l)
      ensures evals == Once(old(evals), old(dirty) - dirty)
    {
      ghost var was, e0, d0 := sheet, evals, dirty;
      Look();
      ghost var shown := sheet;
      v := Value(cells[l], l, {});
      SweptAll(shown, l, e0, d0, evals, dirty);
      LookAway(was, l, d0);
    }

    /** An empty and dirty cell comes where there was none. */
    method AddCell(l: Loc, c: Cell)
      requires Valid() && l !in cells && c !in items && c.at == l && c.text == "" && c.cacheIsDirty
      modifies this`cells, this`items, this`sheet, this`dirty, this`evals
      ensures Valid() && sheet == Edited(old(sheet), l, Plain("")) && dirty == old(dirty) + {l}
      ensures cells == old(cells)[l := c] && items == old(items) + {c}
    {
      cells := cells[l := c];
      items := items + {c};
      sheet := sheet[l := Plain("")];
      dirty := dirty + {l};
      evals := evals[l := 0];
      forall m | m in cells ensures Described(m) {
        assert m != l ==> old(Described(m));
      }
    }

    /** The new text of a cell that is there. */
    method Rewrite(l: Loc, formula: string, ghost content: Content, ghost values: map<Loc, Value>)
      requires Valid() && l in cells && Describes(alnum, formula, content) && Holding(values)
      modifies this`sheet, this`dirty, items`text, items`cacheIsDirty
      ensures Holding(values)
      ensures Valid() && sheet == Edited(old(sheet), l, content) && dirty == old(dirty) + {l}
        && cells[l].text == formula
    {
      var c := cells[l];
      c.SetFormula(formula);
      sheet := sheet[l := content];
      dirty := dirty + {l};
      assert forall m :: m in cells && m != l ==> cells[m] != c;
      forall m | m in cells && m != l ensures Described(m) {
        assert old(Described(m));
      }
      assert Described(l);
    }

    /** The cell that setFormula finds or creates. */
    method EnsureCell(l: Loc, ghost values: map<Loc, Value>)
      requires Valid() && Holding(values)
      modifies this`cells, this`items, this`sheet, this`dirty, this`evals
      ensures Valid() && l in cells && cells.Keys == old(cells.Keys) + {l} && old(dirty) <= dirty <= old(dirty) + {l}
      ensures SameBut(old(sheet), sheet, l) && sheet.Keys == old(sheet.Keys) + {l}
      ensures forall m :: m in old(cells) ==> cells[m] == old(cells[m])
      ensures old(items) <= items && fresh(items - old(items)) && Holding(values)
    {
      if l !in cells {
        var c := new Cell(l);
        AddCell(l, c);
      }
    }

    /** Spreadsheet::setFormula, from any state: the text of one cell changes, and every other cell shows what it showed
      * before if it was clean, and what its text means now otherwise. */
    method SetFormula(l: Loc, formula: string, ghost content: Content)
      requires Valid() && Describes(alnum, formula, content)
      modifies this`cells, this`items, this`sheet, this`dirty, this`evals, items`text, items`cacheIsDirty
      ensures Valid() && sheet == Edited(old(sheet), l, content) && dirty == old(dirty) + {l}
      ensures cells.Keys == old(cells.Keys) + {l} && cells[l].text == formula
      ensures forall m :: m in old(cells) ==> cells[m] == old(cells[m])
      ensures fresh(items - old(items))
      ensures Shown() == Edited(old(Shown()), l, content)
    {
      ghost var before, shown, values := sheet, Shown(), CleanValues(l);
      HeldEdited(before, shown, values, l, content);
      EnsureCell(l, values);
      SameEdit(before, sheet, l, content);
      Rewrite(l, formula, content, values);
      ShownHeld(values);
    }

    lemma TextsProper()
      requires Valid()
      ensures NoneFixed(sheet) && Proper(sheet, alnum)
    {
      assert forall m :: m in cells ==> Described(m);
    }

    /** Any cells, read in any order, from any state: one read does not change what another gives, and right caches
      * stay right. */
    method ReadAll(order: seq<Loc>) returns (values: seq<Value>)
      requires Valid() && forall i :: 0 <= i < |order| ==> order[i] in cells
      modifies items`cachedValue, items`cacheIsDirty, this`evals, this`dirty, this`sheet
      ensures Valid() && sheet == old(sheet) && |values| == |order| && Meanings(values, old(Shown()), num, order)
      ensures old(Settled({})) ==> Settled({}) && Meanings(values, sheet, num, order)
      ensures forall m :: Sem(Shown(), num, m) == Sem(old(Shown()), num, m)
    {
      values := [];
      ghost var texts, shown, right := sheet, Shown(), Settled({});
      SettledShown();
      for i := 0 to |order|
        invariant Valid() && sheet == texts && cells == old(cells)
        invariant |values| == i && Meanings(values, shown, num, order)
        invariant right ==> Holds(texts, Shown(), num)
        invariant forall m :: Sem(Shown(), num, m) == Sem(shown, num, m)
      {
        ghost var now := Shown();
        var v := Read(order[i]);
        ReadStep(texts, shown, now, num, order[i], right);
        NextMeaning(values, shown, num, order, v);
        values := values + [v];
      }
      SettledShown();
      if right {
        MeaningsHeld(values, texts, shown, num, order);
      }
    }

    /** What one event does: the texts and what the table shows change as the step says, and a look gives a value. */
    method Do(event: Event, ghost step: Step) returns (values: seq<Value>)
      requires Valid() && Matches(alnum, event, step) && (event.Look? ==> event.at in cells)
      modifies this`cells, this`items, this`sheet, this`dirty, this`evals
      modifies items`text, items`cachedValue, items`cacheIsDirty
      ensures Valid() && Shown() == After(old(Shown()), num, step)
      ensures values == if step.WasRead? then [Sem(old(Shown()), num, step.at)] else []
      ensures sheet == if step.Wrote? then Edited(old(sheet), step.at, step.c) else old(sheet)
      ensures cells.Keys == old(cells.Keys) + if step.Wrote? then {step.at} else {}
      ensures fresh(items - old(items))
    {
      match event {
        case Edit(l, text) =>
          SetFormula(l, text, step.c);
          values := [];
        case Look(l) =>
          var v := Read(l);
          values := [v];
      }
    }

    /** One event of a run that began when `shown` was shown. */
    method DoNext(event: Event, ghost shown: Sheet, ghost steps: seq<Step>, ghost k: nat, ghost values: seq<Value>)
      returns (v: seq<Value>)
      requires Valid() && k < |steps| && Matches(alnum, event, steps[k]) && Present(cells.Keys, steps[k..])
      requires OnTheWay(shown, Shown(), num, steps, k, values)
      modifies this`cells, this`items, this`sheet, this`dirty, this`evals
      modifies items`text, items`cachedValue, items`cacheIsDirty
      ensures Valid() && fresh(items - old(items)) && Present(cells.Keys, steps[k + 1..])
      ensures OnTheWay(shown, Shown(), num, steps, k + 1, values + v)
    {
      ghost var now := Shown();
      PresentNext(cells.Keys, steps, k);
      v := Do(event, steps[k]);
      NextStep(shown, now, num, steps, k, values, v);
    }

    /** Any run of edits and looks, from any state: the looks give what the run over what is shown gives. */
    method Run(events: seq<Event>, ghost steps: seq<Step>) returns (values: seq<Value>)
      requires Valid() && |steps| == |events| && forall k :: 0 <= k < |events| ==> Matches(alnum, events[k], steps[k])
      requires Present(cells.Keys, steps)
      modifies this`cells, this`items, this`sheet, this`dirty, this`evals
      modifies items`text, items`cachedValue, items`cacheIsDirty
      ensures Valid() && values == ShownBy(old(Shown()), num, steps) && Shown() == AfterAll(old(Shown()), num, steps)
    {
      values := [];
      ghost var shown := Shown();
      assert steps[0..] == steps && steps[|steps|..] == [];
      for k := 0 to |events|
        invariant Valid() && fresh(items - old(items)) && Present(cells.Keys, steps[k..])
        invariant OnTheWay(shown, Shown(), num, steps, k, values)
      {
        var v := DoNext(events[k], shown, steps, k, values);
        values := values + v;
      }
    }

    // ----- When an edit leaves every read right

    /** An edit, and then reads in any order: a clean cell gives its old value whatever its text means now; but if the
      * caches were right and no clean cell leads to the edited one, every cell gives what its text means. */
    method EditAndRead(l: Loc, formula: string, ghost content: Content, order: seq<Loc>) returns (values: seq<Value>)
      requires Valid() && Describes(alnum, formula, content)
      requires forall i :: 0 <= i < |order| ==> order[i] in cells || order[i] == l
      modifies this`cells, this`items, this`sheet, this`dirty, this`evals
      modifies items`text, items`cachedValue, items`cacheIsDirty
      ensures Valid() && sheet == Edited(old(sheet), l, content)
      ensures |values| == |order| && Meanings(values, Edited(old(Shown()), l, content), num, order)
      ensures forall i :: 0 <= i < |order| && Kept(old(Shown()), l, order[i]) ==> values[i] == old(Shown())[order[i]].v
      ensures old(Settled({}) && Untouched(sheet, Shown(), l)) ==> Meanings(values, sheet, num, order)
    {
      ghost var texts, shown := sheet, Shown();
      ghost var right := Settled({}) && Untouched(texts, shown, l);
      TextsProper();
      SettledShown();
      SetFormula(l, formula, content);
      values := ReadAll(order);
      EditMeanings(texts, shown, num, l, content, order, values, right);
    }

    /** In a run whose edits are of cells to which no clean cell leads at the time, every look is right. */
    lemma RunsRight(steps: seq<Step>)
      requires Valid() && Settled({}) && AllUntouched(sheet, Shown(), num, steps)
      ensures ShownBy(Shown(), num, steps) == Truth(sheet, num, steps)
    {
      TextsProper();
      SettledShown();
      RunRight(sheet, Shown(), num, steps);
    }

    /** Looks after any edit of l are right exactly if no clean cell leads to l; unless all clean cells that lead to l
      * show Invalid. */
    lemma EditSafeExactly(l: Loc)
      requires Valid() && Settled({}) && Telling(sheet, Shown(), l)
      ensures Untouched(sheet, Shown(), l)
          <==> forall text, c, m :: Describes(alnum, text, c) ==>
            ShownBy(Shown(), num, EditThenRead(l, c, m)) == Truth(sheet, num, EditThenRead(l, c, m))
    {
      TextsProper();
      SettledShown();
      if Untouched(sheet, Shown(), l) {
        forall text, c, m | Describes(alnum, text, c)
          ensures ShownBy(Shown(), num, EditThenRead(l, c, m)) == Truth(sheet, num, EditThenRead(l, c, m))
        {
          RightReads(sheet, Shown(), num, l, c, m);
        }
      } else {
        var s, m := WrongRead(sheet, Shown(), num, alnum, l);
        DescribesReference(alnum, s, l);
        var steps := EditThenRead(l, Reference(s), m);
        assert ShownBy(Shown(), num, steps) != Truth(sheet, num, steps);
      }
    }
  }

  // ----- The edit that fails

  lemma PairTexts(alnum: char -> bool)
    requires CharClass(alnum) && alnum('B') && alnum('1')
    ensures Describes(alnum, "=B1", Pair(Plain("1"))[A1]) && Describes(alnum, "1", Pair(Plain("1"))[B1])
  {
    BOne();
    DescribesReference(alnum, "B1", B1);
    assert "=B1" == "=" + "B1";
  }

  /** A cell A1 that says =B1, and a cell B1 that says 1. */
  method PairCells(alnum: char -> bool) returns (cells: map<Loc, Cell>)
    requires CharClass(alnum) && alnum('B') && alnum('1')
    ensures cells.Keys == {A1, B1} && forall l :: l in cells ==>
      fresh(cells[l]) && cells[l].at == l && cells[l].cacheIsDirty
      && Describes(alnum, cells[l].text, Pair(Plain("1"))[l])
  {
    PairTexts(alnum);
    var a := new Cell(A1);
    var b := new Cell(B1);
    a.SetFormula("=B1");
    b.SetFormula("1");
    cells := map[A1 := a, B1 := b];
  }

  /** A table of these two cells. */
  method PairTable(alnum: char -> bool, num: Numeral) returns (table: Table)
    requires CharClass(alnum) && alnum('B') && alnum('1')
    ensures fresh(table) && fresh(table.items) && table.Valid() && table.alnum == alnum && table.num == num
    ensures table.Shown() == table.sheet == Pair(Plain("1"))
  {
    var cells := PairCells(alnum);
    table := new Table(alnum, num, cells, Pair(Plain("1")));
  }

  /** A1 is looked at, 2 is written into B1, and A1 is looked at again: it gives 1 both times, while its text means 2
    * the second time. */
  method StaleExample(alnum: char -> bool, num: Numeral) returns (values: seq<Value>, ghost truth: seq<Value>)
    requires CharClass(alnum) && alnum('B') && alnum('1') && num("1") == Some(1.0) && num("2") == Some(2.0)
    ensures truth == Truth(Pair(Plain("1")), num, StaleSteps())
    ensures values == [Number(1.0), Number(1.0)] && truth == [Number(1.0), Number(2.0)]
  {
    var table := PairTable(alnum, num);
    StaleInstance(num);
    StaleEvents(alnum);
    truth := Truth(Pair(Plain("1")), num, StaleSteps());
    values := table.Run(StaleInput(), StaleSteps());
  }

  function StaleInput(): seq<Event> {
    [Look(A1), Edit(B1, "2"), Look(A1)]
  }

  ghost function StaleSteps(): seq<Step> {
    [WasRead(A1)] + EditThenRead(B1, Plain("2"), A1)
  }

  lemma StaleEvents(alnum: char -> bool)
    ensures |StaleInput()| == |StaleSteps()| && Present(Pair(Plain("1")).Keys, StaleSteps())
    ensures forall k :: 0 <= k < |StaleInput()| ==> Matches(alnum, StaleInput()[k], StaleSteps()[k])
  {
    var steps := StaleSteps();
    assert steps[1..] == EditThenRead(B1, Plain("2"), A1) && steps[1..][1..] == [WasRead(A1)];
    assert steps[1..][1..][1..] == [];
  }
}
