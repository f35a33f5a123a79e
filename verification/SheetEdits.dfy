/** What edits and reads do to a sheet some of whose cells have been evaluated before. */
module SheetEdits {
  import opened Options
  import opened Formulas
  import opened SheetMeaning

  // ----- One cell changes

  ghost function Edited(sheet: Sheet, l: Loc, c: Content): Sheet {
    sheet[l := c]
  }

  /** The sheets agree on every cell but `l`. */
  ghost predicate SameBut(a: Sheet, b: Sheet, l: Loc) {
    forall m :: m != l ==> (m in a <==> m in b) && (m in a ==> a[m] == b[m])
  }

  lemma RefElsewhere(sheet: Sheet, l: Loc, m: Loc, r: Loc)
    requires m in sheet && r in RefsOf(sheet[m]) && !Reaches(sheet, m, l)
    ensures r != l && !Reaches(sheet, r, l)
  {
    ReachesRef(sheet, m, r);
    if Reaches(sheet, r, l) {
      ReachesTrans(sheet, m, r, l);
    }
  }

  lemma {:induction false} MeaningElsewhere(a: Sheet, b: Sheet, num: Numeral, l: Loc, m: Loc, n: nat)
    requires SameBut(a, b, l) && m != l && !Reaches(a, m, l)
    ensures Grounded(a, m, n) <==> Grounded(b, m, n)
    ensures Grounded(a, m, n) ==> Meaning(a, num, m, n) == Meaning(b, num, m, n)
    decreases n
  {
    if m !in a || n == 0 {
    } else {
      forall r | r in RefsOf(a[m])
        ensures Grounded(a, r, n - 1) <==> Grounded(b, r, n - 1)
        ensures Grounded(a, r, n - 1) ==> Meaning(a, num, r, n - 1) == Meaning(b, num, r, n - 1)
      {
        RefElsewhere(a, l, m, r);
        MeaningElsewhere(a, b, num, l, r, n - 1);
      }
      if Grounded(a, m, n) {
        assert (map r | r in RefsOf(a[m]) :: Meaning(a, num, r, n - 1)) ==
          (map r | r in RefsOf(b[m]) :: Meaning(b, num, r, n - 1));
      }
    }
  }

  /** A cell that does not lead to the edited one means what it meant before. */
  lemma SemElsewhere(a: Sheet, b: Sheet, num: Numeral, l: Loc, m: Loc)
    requires SameBut(a, b, l) && m != l && !Reaches(a, m, l)
    ensures Sem(a, num, m) == Sem(b, num, m)
  {
    if WellFounded(a, m) {
      var n: nat :| Grounded(a, m, n) && Sem(a, num, m) == Meaning(a, num, m, n);
      MeaningElsewhere(a, b, num, l, m, n);
      var k: nat :| Grounded(b, m, k) && Sem(b, num, m) == Meaning(b, num, m, k);
      MeaningUnique(b, num, m, n, k);
    } else if WellFounded(b, m) {
      var n: nat :| Grounded(b, m, n);
      MeaningElsewhere(a, b, num, l, m, n);
    }
  }

  // ----- Cells that hold their value

  /** In `b` some cells hold their value, which is what they mean in `a`; the others say the same in both. */
  ghost predicate Holds(a: Sheet, b: Sheet, num: Numeral) {
    a.Keys == b.Keys && forall m :: m in a ==> b[m] == a[m] || b[m] == Fixed(Sem(a, num, m))
  }

  lemma {:induction false} HeldGrounded(a: Sheet, b: Sheet, num: Numeral, m: Loc, n: nat)
    requires Holds(a, b, num) && Grounded(a, m, n)
    ensures Grounded(b, m, n) && Meaning(a, num, m, n) == Meaning(b, num, m, n)
    decreases n
  {
    if m !in a {
    } else if b[m] == a[m] {
      forall r | r in RefsOf(a[m])
        ensures Grounded(b, r, n - 1) && Meaning(a, num, r, n - 1) == Meaning(b, num, r, n - 1)
      {
        HeldGrounded(a, b, num, r, n - 1);
      }
      assert (map r | r in RefsOf(a[m]) :: Meaning(a, num, r, n - 1)) ==
        (map r | r in RefsOf(b[m]) :: Meaning(b, num, r, n - 1));
    } else {
      SemAt(a, num, m, n);
    }
  }

  lemma SemAt(sheet: Sheet, num: Numeral, l: Loc, n: nat)
    requires Grounded(sheet, l, n)
    ensures Sem(sheet, num, l) == Meaning(sheet, num, l, n)
  {
    var k: nat :| Grounded(sheet, l, k) && Sem(sheet, num, l) == Meaning(sheet, num, l, k);
    MeaningUnique(sheet, num, l, n, k);
  }

  lemma {:induction false} HeldCyclic(a: Sheet, b: Sheet, num: Numeral, m: Loc, n: nat)
    requires Holds(a, b, num) && !WellFounded(a, m) && Grounded(b, m, n)
    ensures Sem(b, num, m) == Invalid
    decreases n
  {
    SemFixpoint(b, num, m);
    var r := UngroundedRef(a, m);
    if b[m] == a[m] {
      HeldCyclic(a, b, num, r, n - 1);
      Strict(b[m].e, SemEnv(b, num, RefsOf(b[m])), num, r);
    }
  }

  /** Holding values that are right changes no meaning, on cyclic sheets either. */
  lemma HoldingKeeps(a: Sheet, b: Sheet, num: Numeral, m: Loc)
    requires Holds(a, b, num)
    ensures Sem(a, num, m) == Sem(b, num, m)
  {
    if WellFounded(a, m) {
      var n: nat :| Grounded(a, m, n);
      HeldGrounded(a, b, num, m, n);
      SemAt(a, num, m, n);
      SemAt(b, num, m, n);
    } else if WellFounded(b, m) {
      var n: nat :| Grounded(b, m, n);
      HeldCyclic(a, b, num, m, n);
    }
  }

  lemma FixedMeans(sheet: Sheet, num: Numeral, m: Loc)
    requires m in sheet && sheet[m].Fixed?
    ensures Sem(sheet, num, m) == sheet[m].v
  {
    SemFixpoint(sheet, num, m);
  }

  // ----- Reading a cell

  /** The cells that a read of `l` evaluates: `l` and everything it leads to. */
  ghost predicate From(sheet: Sheet, l: Loc, m: Loc) {
    m == l || Reaches(sheet, l, m)
  }

  /** A read leaves what it evaluated with its value. */
  ghost function AfterRead(sheet: Sheet, num: Numeral, l: Loc): Sheet {
    map m | m in sheet :: if From(sheet, l, m) then Fixed(Sem(sheet, num, m)) else sheet[m]
  }

  /** A read changes no meaning. */
  lemma ReadKeeps(sheet: Sheet, num: Numeral, l: Loc, m: Loc)
    ensures Sem(AfterRead(sheet, num, l), num, m) == Sem(sheet, num, m)
  {
    HoldingKeeps(sheet, AfterRead(sheet, num, l), num, m);
  }

  lemma FromOn(sheet: Sheet, l: Loc, m: Loc, r: Loc)
    requires From(sheet, l, m) && m in sheet && r in RefsOf(sheet[m])
    ensures From(sheet, l, r)
  {
    ReachesRef(sheet, m, r);
    if m != l {
      ReachesTrans(sheet, l, m, r);
    }
  }

  lemma {:induction false} FromAlong(sheet: Sheet, l: Loc, m: Loc, x: Loc, n: nat)
    requires From(sheet, l, m) && Leads(sheet, m, x, n)
    ensures From(sheet, l, x)
    decreases n
  {
    if n == 0 {
    } else {
      var r :| r in RefsOf(sheet[m]) && Leads(sheet, r, x, n - 1);
      FromOn(sheet, l, m, r);
      FromAlong(sheet, l, r, x, n - 1);
    }
  }

  /** Between two reads nothing is lost: what the second one would have led to, it still does, or the first has it. */
  lemma {:induction false} LeadsAfterRead(sheet: Sheet, num: Numeral, l: Loc, m: Loc, x: Loc, n: nat)
    ensures Leads(AfterRead(sheet, num, l), m, x, n) ==> Leads(sheet, m, x, n)
    ensures Leads(sheet, m, x, n) ==> Leads(AfterRead(sheet, num, l), m, x, n) || From(sheet, l, x)
    decreases n
  {
    var after := AfterRead(sheet, num, l);
    if n == 0 {
    } else {
      forall r | m in sheet && r in RefsOf(sheet[m])
        ensures Leads(after, r, x, n - 1) ==> Leads(sheet, r, x, n - 1)
        ensures Leads(sheet, r, x, n - 1) ==> Leads(after, r, x, n - 1) || From(sheet, l, x)
      {
        LeadsAfterRead(sheet, num, l, r, x, n - 1);
      }
      if Leads(sheet, m, x, n) && From(sheet, l, m) {
        FromAlong(sheet, l, m, x, n);
      }
    }
  }

  lemma FromAfterRead(sheet: Sheet, num: Numeral, l: Loc, m: Loc, x: Loc)
    ensures From(sheet, l, x) || From(AfterRead(sheet, num, l), m, x) <==> From(sheet, l, x) || From(sheet, m, x)
  {
    var after := AfterRead(sheet, num, l);
    if Reaches(after, m, x) {
      var n: nat :| n > 0 && Leads(after, m, x, n);
      LeadsAfterRead(sheet, num, l, m, x, n);
    }
    if Reaches(sheet, m, x) {
      var n: nat :| n > 0 && Leads(sheet, m, x, n);
      LeadsAfterRead(sheet, num, l, m, x, n);
    }
  }

  lemma AfterTwo(sheet: Sheet, num: Numeral, l: Loc, m: Loc, x: Loc)
    requires x in sheet
    ensures AfterRead(AfterRead(sheet, num, l), num, m)[x]
      == if From(sheet, l, x) || From(sheet, m, x) then Fixed(Sem(sheet, num, x)) else sheet[x]
  {
    FromAfterRead(sheet, num, l, m, x);
    ReadKeeps(sheet, num, l, x);
  }

  /** Two reads leave the same sheet in either order. */
  lemma ReadsCommute(sheet: Sheet, num: Numeral, l: Loc, m: Loc)
    ensures AfterRead(AfterRead(sheet, num, l), num, m) == AfterRead(AfterRead(sheet, num, m), num, l)
  {
    var a, b := AfterRead(AfterRead(sheet, num, l), num, m), AfterRead(AfterRead(sheet, num, m), num, l);
    forall x | x in sheet ensures a[x] == b[x] {
      AfterTwo(sheet, num, l, m, x);
      AfterTwo(sheet, num, m, l, x);
    }
  }

  // ----- Which edits a cell notices

  function Reference(s: string): Content {
    Formula(Single(Alone(Factor(false, Token(s)))))
  }

  /** A location in letters that the scanner takes as a token. */
  ghost predicate Names(s: string, l: Loc, alnum: char -> bool) {
    IsLocation(s) && LocationOf(s) == l && forall c :: c in s ==> TokenChar(alnum, c)
  }

  lemma {:induction false} NameIn(e: Expression, l: Loc, alnum: char -> bool) returns (s: string)
    requires WellFormed(e, alnum) && l in Refs(e)
    ensures Names(s, l, alnum)
    decreases e
  {
    match e
    case Single(t) => s := NameInTerm(t, l, alnum);
    case Sum(a, _, t) =>
      if l in Refs(a) { s := NameIn(a, l, alnum); } else { s := NameInTerm(t, l, alnum); }
  }

  lemma {:induction false} NameInTerm(t: Term, l: Loc, alnum: char -> bool) returns (s: string)
    requires WellFormedTerm(t, alnum) && l in TermRefs(t)
    ensures Names(s, l, alnum)
    decreases t
  {
    match t
    case Alone(f) => s := NameInFactor(f, l, alnum);
    case Product(a, _, f) =>
      if l in TermRefs(a) { s := NameInTerm(a, l, alnum); } else { s := NameInFactor(f, l, alnum); }
  }

  lemma {:induction false} NameInFactor(f: Factor, l: Loc, alnum: char -> bool) returns (s: string)
    requires WellFormedFactor(f, alnum) && l in FactorRefs(f)
    ensures Names(s, l, alnum)
    decreases f
  {
    match f.atom
    case Paren(e) => s := NameIn(e, l, alnum);
    case Token(u) => s := u;
  }

  ghost predicate Proper(sheet: Sheet, alnum: char -> bool) {
    forall m :: m in sheet && sheet[m].Formula? ==> WellFormed(sheet[m].e, alnum)
  }

  /** What leads to a cell names it. */
  lemma {:induction false} NameOf(sheet: Sheet, m: Loc, l: Loc, alnum: char -> bool, n: nat) returns (s: string)
    requires Proper(sheet, alnum) && n > 0 && Leads(sheet, m, l, n)
    ensures Names(s, l, alnum)
    decreases n
  {
    var r :| r in RefsOf(sheet[m]) && Leads(sheet, r, l, n - 1);
    if n == 1 {
      s := NameIn(sheet[m].e, l, alnum);
    } else {
      s := NameOf(sheet, r, l, alnum, n - 1);
    }
  }

  /** Editing the cell that a path ends at does not cut the path. */
  lemma {:induction false} StillReaches(sheet: Sheet, l: Loc, c: Content, m: Loc, n: nat)
    requires m != l && n > 0 && Leads(sheet, m, l, n)
    ensures Reaches(Edited(sheet, l, c), m, l)
    decreases n
  {
    var r :| r in RefsOf(sheet[m]) && Leads(sheet, r, l, n - 1);
    ReachesRef(Edited(sheet, l, c), m, r);
    if r != l {
      StillReaches(sheet, l, c, r, n - 1);
      ReachesTrans(Edited(sheet, l, c), m, r, l);
    }
  }

  /** Invalid spreads to everything that leads to it. */
  lemma {:induction false} InvalidAlong(sheet: Sheet, num: Numeral, m: Loc, l: Loc, n: nat)
    requires Leads(sheet, m, l, n) && Sem(sheet, num, l) == Invalid
    ensures Sem(sheet, num, m) == Invalid
    decreases n
  {
    if n == 0 {
    } else {
      var r :| r in RefsOf(sheet[m]) && Leads(sheet, r, l, n - 1);
      InvalidAlong(sheet, num, r, l, n - 1);
      SemFixpoint(sheet, num, m);
      Strict(sheet[m].e, SemEnv(sheet, num, RefsOf(sheet[m])), num, r);
    }
  }

  /** A reference to itself makes the edited cell Invalid, and with it everything that leads there. */
  lemma SelfReference(sheet: Sheet, num: Numeral, l: Loc, s: string, m: Loc)
    requires m != l && Reaches(sheet, m, l) && IsLocation(s) && LocationOf(s) == l
    ensures Sem(Edited(sheet, l, Reference(s)), num, m) == Invalid
  {
    var after := Edited(sheet, l, Reference(s));
    var n: nat :| n > 0 && Leads(sheet, m, l, n);
    StillReaches(sheet, l, Reference(s), m, n);
    var f := Factor(false, Token(s));
    assert Refs(Single(Alone(f))) == TermRefs(Alone(f)) == FactorRefs(f) == AtomRefs(f.atom) == {l};
    ReachesRef(after, l, l);
    SelfReach(after, num, l);
    var k: nat :| k > 0 && Leads(after, m, l, k);
    InvalidAlong(after, num, m, l, k);
  }

  /** A cell that has a value notices some edit of another cell exactly if it leads there. */
  lemma NoticedExactly(sheet: Sheet, num: Numeral, alnum: char -> bool, l: Loc, m: Loc)
    requires Proper(sheet, alnum) && m != l && Sem(sheet, num, m) != Invalid
    ensures Reaches(sheet, m, l) <==> exists c :: Sem(Edited(sheet, l, c), num, m) != Sem(sheet, num, m)
  {
    if Reaches(sheet, m, l) {
      var n: nat :| n > 0 && Leads(sheet, m, l, n);
      var s := NameOf(sheet, m, l, alnum, n);
      SelfReference(sheet, num, l, s, m);
      assert Sem(Edited(sheet, l, Reference(s)), num, m) != Sem(sheet, num, m);
    } else {
      forall c ensures Sem(Edited(sheet, l, c), num, m) == Sem(sheet, num, m) {
        SemElsewhere(sheet, Edited(sheet, l, c), num, l, m);
      }
    }
  }

  // ----- Edits of a sheet some of whose cells hold their values

  /** `m` holds its value and is not the edited cell. */
  ghost predicate Kept(shown: Sheet, l: Loc, m: Loc) {
    m in shown && m != l && shown[m].Fixed?
  }

  ghost predicate NoneFixed(sheet: Sheet) {
    forall m :: m in sheet ==> !sheet[m].Fixed?
  }

  /** Values that were right before an edit are right after it for the cells that do not notice it, and no others. */
  lemma HeldThroughEdit(texts: Sheet, shown: Sheet, num: Numeral, l: Loc, c: Content)
    requires Holds(texts, shown, num) && NoneFixed(texts)
    ensures Holds(Edited(texts, l, c), Edited(shown, l, c), num)
        <==> forall m :: Kept(shown, l, m) ==> Sem(Edited(texts, l, c), num, m) == Sem(texts, num, m)
  {
    var a, b := Edited(texts, l, c), Edited(shown, l, c);
    if Holds(a, b, num) {
      forall m | Kept(shown, l, m) ensures Sem(a, num, m) == Sem(texts, num, m) {
        assert b[m] == shown[m] == Fixed(Sem(texts, num, m)) && a[m] == texts[m];
      }
    }
  }

  /** No held value notices an edit of `l`. */
  ghost predicate Untouched(texts: Sheet, shown: Sheet, l: Loc) {
    forall m :: Kept(shown, l, m) ==> !Reaches(texts, m, l)
  }

  /** If any cell that holds a value leads to l, one of them holds something else than Invalid. */
  ghost predicate Telling(texts: Sheet, shown: Sheet, l: Loc) {
    Untouched(texts, shown, l) || exists m :: Kept(shown, l, m) && Reaches(texts, m, l) && shown[m].v != Invalid
  }

  lemma HeldIfUntouched(texts: Sheet, shown: Sheet, num: Numeral, l: Loc, c: Content)
    requires Holds(texts, shown, num) && NoneFixed(texts) && Untouched(texts, shown, l)
    ensures Holds(Edited(texts, l, c), Edited(shown, l, c), num)
  {
    forall m | Kept(shown, l, m) ensures Sem(Edited(texts, l, c), num, m) == Sem(texts, num, m) {
      SemElsewhere(texts, Edited(texts, l, c), num, l, m);
    }
    HeldThroughEdit(texts, shown, num, l, c);
  }

  // ----- Runs of edits and reads

  datatype Step = Wrote(at: Loc, c: Content) | WasRead(at: Loc)

  ghost function After(sheet: Sheet, num: Numeral, step: Step): Sheet {
    match step
    case Wrote(l, c) => Edited(sheet, l, c)
    case WasRead(l) => AfterRead(sheet, num, l)
  }

  ghost function AfterAll(sheet: Sheet, num: Numeral, steps: seq<Step>): Sheet
    decreases |steps|
  {
    if steps == [] then sheet else AfterAll(After(sheet, num, steps[0]), num, steps[1..])
  }

  /** Every read of the run is of a cell that is there at the time. */
  ghost predicate Present(there: set<Loc>, steps: seq<Step>)
    decreases |steps|
  {
    steps == [] ||
    match steps[0]
    case Wrote(l, _) => Present(there + {l}, steps[1..])
    case WasRead(l) => l in there && Present(there, steps[1..])
  }

  /** The values that the reads of a run give, if cells hold what was computed for them until they are edited. */
  ghost function ShownBy(sheet: Sheet, num: Numeral, steps: seq<Step>): seq<Value>
    decreases |steps|
  {
    if steps == [] then []
    else
      var rest := ShownBy(After(sheet, num, steps[0]), num, steps[1..]);
      if steps[0].WasRead? then [Sem(sheet, num, steps[0].at)] + rest else rest
  }

  /** The values that they should give: the meanings of the texts at the time. */
  ghost function Truth(texts: Sheet, num: Numeral, steps: seq<Step>): seq<Value>
    decreases |steps|
  {
    if steps == [] then []
    else match steps[0]
      case Wrote(l, c) => Truth(Edited(texts, l, c), num, steps[1..])
      case WasRead(l) => [Sem(texts, num, l)] + Truth(texts, num, steps[1..])
  }

  /** No edit of the run is of a cell that a value held at the time leads to. */
  ghost predicate AllUntouched(texts: Sheet, shown: Sheet, num: Numeral, steps: seq<Step>)
    decreases |steps|
  {
    steps == [] ||
    match steps[0]
    case Wrote(l, c) =>
      !c.Fixed? && Untouched(texts, shown, l) && AllUntouched(Edited(texts, l, c), Edited(shown, l, c), num, steps[1..])
    case WasRead(l) =>
      AllUntouched(texts, AfterRead(shown, num, l), num, steps[1..])
  }

  lemma HeldAfterRead(texts: Sheet, shown: Sheet, num: Numeral, l: Loc)
    requires Holds(texts, shown, num)
    ensures Holds(texts, AfterRead(shown, num, l), num) && Sem(shown, num, l) == Sem(texts, num, l)
  {
    forall m ensures Sem(shown, num, m) == Sem(texts, num, m) {
      HoldingKeeps(texts, shown, num, m);
    }
  }

  /** In a run whose edits touch nothing that is held, every read gives what the texts mean at the time. */
  lemma {:induction false} RunRight(texts: Sheet, shown: Sheet, num: Numeral, steps: seq<Step>)
    requires Holds(texts, shown, num) && NoneFixed(texts) && AllUntouched(texts, shown, num, steps)
    ensures ShownBy(shown, num, steps) == Truth(texts, num, steps)
    decreases |steps|
  {
    if steps == [] {
    } else {
      match steps[0]
      case Wrote(l, c) =>
        HeldIfUntouched(texts, shown, num, l, c);
        RunRight(Edited(texts, l, c), Edited(shown, l, c), num, steps[1..]);
      case WasRead(l) =>
        HeldAfterRead(texts, shown, num, l);
        RunRight(texts, AfterRead(shown, num, l), num, steps[1..]);
    }
  }

  /** Content that a text can have. */
  ghost predicate Writable(c: Content, alnum: char -> bool) {
    !c.Fixed? && (c.Formula? ==> WellFormed(c.e, alnum))
  }

  ghost function EditThenRead(l: Loc, c: Content, m: Loc): seq<Step> {
    [Wrote(l, c), WasRead(m)]
  }

  lemma ReadAfterEdit(sheet: Sheet, num: Numeral, l: Loc, c: Content, m: Loc)
    ensures ShownBy(sheet, num, EditThenRead(l, c, m)) == [Sem(Edited(sheet, l, c), num, m)]
    ensures Truth(sheet, num, EditThenRead(l, c, m)) == [Sem(Edited(sheet, l, c), num, m)]
  {
    assert EditThenRead(l, c, m)[1..] == [WasRead(m)];
    LastRead(Edited(sheet, l, c), num, m);
  }

  /** If a cell that holds something else than Invalid leads to l, some text written to l makes the next read of that
    * cell wrong. */
  lemma WrongRead(texts: Sheet, shown: Sheet, num: Numeral, alnum: char -> bool, l: Loc) returns (s: string, m: Loc)
    requires Holds(texts, shown, num) && NoneFixed(texts) && Proper(texts, alnum) && !Untouched(texts, shown, l)
    requires Telling(texts, shown, l)
    ensures Names(s, l, alnum) && m in texts && m != l
    ensures var steps := EditThenRead(l, Reference(s), m); ShownBy(shown, num, steps) != Truth(texts, num, steps)
  {
    m :| Kept(shown, l, m) && Reaches(texts, m, l) && shown[m].v != Invalid;
    var n: nat :| n > 0 && Leads(texts, m, l, n);
    s := NameOf(texts, m, l, alnum, n);
    SelfReference(texts, num, l, s, m);
    FixedMeans(Edited(shown, l, Reference(s)), num, m);
    ReadAfterEdit(texts, num, l, Reference(s), m);
    ReadAfterEdit(shown, num, l, Reference(s), m);
  }

  lemma RightReads(texts: Sheet, shown: Sheet, num: Numeral, l: Loc, c: Content, m: Loc)
    requires Holds(texts, shown, num) && NoneFixed(texts) && Untouched(texts, shown, l)
    ensures var steps := EditThenRead(l, c, m); ShownBy(shown, num, steps) == Truth(texts, num, steps)
  {
    HeldIfUntouched(texts, shown, num, l, c);
    HoldingKeeps(Edited(texts, l, c), Edited(shown, l, c), num, m);
    ReadAfterEdit(texts, num, l, c, m);
    ReadAfterEdit(shown, num, l, c, m);
  }

  /** Whatever is written to l, every read is right afterwards, exactly if no cell that holds its value leads to l;
    * unless all cells that hold a value and lead to l hold Invalid. */
  lemma RightForAllEdits(texts: Sheet, shown: Sheet, num: Numeral, alnum: char -> bool, l: Loc)
    requires Holds(texts, shown, num) && NoneFixed(texts) && Proper(texts, alnum)
    requires Telling(texts, shown, l)
    ensures Untouched(texts, shown, l)
        <==> forall c, m :: Writable(c, alnum) ==>
          ShownBy(shown, num, EditThenRead(l, c, m)) == Truth(texts, num, EditThenRead(l, c, m))
  {
    if Untouched(texts, shown, l) {
      forall c, m ensures ShownBy(shown, num, EditThenRead(l, c, m)) == Truth(texts, num, EditThenRead(l, c, m)) {
        RightReads(texts, shown, num, l, c, m);
      }
    } else {
      var s, m := WrongRead(texts, shown, num, alnum, l);
      ReferenceWritable(s, l, alnum);
    }
  }

  lemma ReferenceWritable(s: string, l: Loc, alnum: char -> bool)
    requires Names(s, l, alnum)
    ensures Writable(Reference(s), alnum)
  {
    var f := Factor(false, Token(s));
    assert WellFormedFactor(f, alnum) && WellFormedTerm(Alone(f), alnum) && WellFormed(Single(Alone(f)), alnum);
  }

  // ----- The instance that fails

  const A1: Loc := (0, 0)
  const B1: Loc := (0, 1)

  ghost function Pair(b: Content): Sheet {
    map[A1 := Reference("B1"), B1 := b]
  }

  /** A1 refers to B1. It is read, B1 changes from 1 to 2, and A1 still shows 1, although its text now means 2. */
  lemma StaleMeans(num: Numeral)
    requires num("1") == Some(1.0) && num("2") == Some(2.0)
    ensures var s := Pair(Plain("1"));
      && Sem(s, num, A1) == Number(1.0)
      && Sem(Edited(AfterRead(s, num, A1), B1, Plain("2")), num, A1) == Number(1.0)
      && Sem(Edited(s, B1, Plain("2")), num, A1) == Number(2.0)
  {
    var s := Pair(Plain("1"));
    BOne();
    ReferenceMeans(s, num, A1, "B1");
    SemFixpoint(s, num, B1);
    ReferenceMeans(Edited(s, B1, Plain("2")), num, A1, "B1");
    SemFixpoint(Edited(s, B1, Plain("2")), num, B1);
    FixedMeans(Edited(AfterRead(s, num, A1), B1, Plain("2")), num, A1);
  }

  lemma StaleInstance(num: Numeral)
    requires num("1") == Some(1.0) && num("2") == Some(2.0)
    ensures var s, steps := Pair(Plain("1")), [WasRead(A1)] + EditThenRead(B1, Plain("2"), A1);
      && ShownBy(s, num, steps) == [Number(1.0), Number(1.0)]
      && Truth(s, num, steps) == [Number(1.0), Number(2.0)]
  {
    var s, steps := Pair(Plain("1")), [WasRead(A1)] + EditThenRead(B1, Plain("2"), A1);
    StaleMeans(num);
    assert steps[1..] == EditThenRead(B1, Plain("2"), A1);
    ReadAfterEdit(AfterRead(s, num, A1), num, B1, Plain("2"), A1);
    ReadAfterEdit(s, num, B1, Plain("2"), A1);
  }

  lemma LastRead(sheet: Sheet, num: Numeral, l: Loc)
    ensures ShownBy(sheet, num, [WasRead(l)]) == Truth(sheet, num, [WasRead(l)]) == [Sem(sheet, num, l)]
  {}

  /** A cell that refers to another, and to nothing else, means what that one means. */
  lemma ReferenceMeans(sheet: Sheet, num: Numeral, l: Loc, s: string)
    requires IsLocation(s) && l in sheet && sheet[l] == Reference(s)
    ensures Sem(sheet, num, l) == Sem(sheet, num, LocationOf(s))
  {
    SemFixpoint(sheet, num, l);
    var m, f := LocationOf(s), Factor(false, Token(s));
    var t := Alone(f);
    var env := SemEnv(sheet, num, RefsOf(sheet[l]));
    assert RefsOf(sheet[l]) == Refs(Single(t)) == TermRefs(t) == FactorRefs(f) == {m};
    assert Eval(Single(t), env, num) == EvalTerm(t, env, num) == EvalFactor(f, env, num) == env[m];
  }

  lemma BOne()
    ensures IsLocation("B1") && LocationOf("B1") == B1
  {
    var digits := "B1"[1..];
    assert digits == "1" && digits[..0] == "";
    assert ToInt(digits) == 1;
  }
}
