/** From words to quads: the actions that the parser calls for, performed one after the other. */
module ConditionCompiler {
  import opened Conditions
  import opened CreateMidcode
  import opened ConditionGrammar
  import opened ConditionParser
  import opened Options

  // ----- What a sequence of actions builds

  /** The conditions on the stacks after the actions, if they fit: a mark stands behind the condition with its number,
    * and the rule for an operator takes the last mark, which must stand between the two last conditions. */
  ghost function Built(st: seq<BoolExp>, marks: seq<nat>, actions: seq<Action>): Option<seq<BoolExp>>
    decreases |actions|
  {
    if actions == [] then if marks == [] then Some(st) else None
    else
      var n, rest := |st|, actions[1..];
      match actions[0]
      case Operand(x) => Built(st + [Var(x)], marks, rest)
      case MarkQuad => if n > 0 && Below(marks, n - 1) then Built(st, marks + [n - 1], rest) else None
      case NotRule => if n > 0 then Built(st[..n - 1] + [Not(st[n - 1])], marks, rest) else None
      case AndRule =>
        if n > 1 && marks != [] && marks[|marks| - 1] == n - 2
        then Built(st[..n - 2] + [And(st[n - 2], st[n - 1])], marks[..|marks| - 1], rest) else None
      case OrRule =>
        if n > 1 && marks != [] && marks[|marks| - 1] == n - 2
        then Built(st[..n - 2] + [Or(st[n - 2], st[n - 1])], marks[..|marks| - 1], rest) else None
  }

  ghost predicate Below(marks: seq<nat>, n: int) {
    marks == [] || marks[|marks| - 1] < n
  }

  /** The actions for a condition build it on top of whatever is there. */
  lemma {:induction false} BuiltActions(e: BoolExp, st: seq<BoolExp>, marks: seq<nat>, rest: seq<Action>)
    requires Below(marks, |st|)
    ensures Built(st, marks, Actions(e) + rest) == Built(st + [e], marks, rest)
    decreases e, 1
  {
    match e
    case Var(x) =>
      assert ([Operand(x)] + rest)[1..] == rest;
    case Not(a) =>
      var last := [Action.NotRule] + rest;
      assert Actions(e) + rest == Actions(a) + last && last[1..] == rest;
      BuiltActions(a, st, marks, last);
      assert (st + [a])[..|st|] == st;
    case And(l, r) =>
      BuiltSides(e, l, r, Action.AndRule, st, marks, rest);
    case Or(l, r) =>
      BuiltSides(e, l, r, Action.OrRule, st, marks, rest);
  }

  lemma {:induction false} BuiltSides(e: BoolExp, l: BoolExp, r: BoolExp, rule: Action, st: seq<BoolExp>,
                                      marks: seq<nat>, rest: seq<Action>)
    requires Below(marks, |st|)
    requires (e == And(l, r) && rule.AndRule?) || (e == Or(l, r) && rule.OrRule?)
    ensures Built(st, marks, Actions(e) + rest) == Built(st + [e], marks, rest)
    decreases e, 0
  {
    var last := [rule] + rest;
    var more := [MarkQuad] + (Actions(r) + last);
    Regrouped(Actions(l), MarkQuad, Actions(r), rule, rest);
    BuiltActions(l, st, marks, more);
    BuiltMark(st, l, marks, Actions(r) + last);
    BuiltActions(r, st + [l], marks + [|st|], last);
    BuiltRule(st, l, r, rule, marks, rest);
  }

  lemma Regrouped(a: seq<Action>, m: Action, b: seq<Action>, c: Action, rest: seq<Action>)
    ensures a + [m] + b + [c] + rest == a + ([m] + (b + ([c] + rest)))
  {}

  lemma BuiltMark(st: seq<BoolExp>, l: BoolExp, marks: seq<nat>, rest: seq<Action>)
    requires Below(marks, |st|)
    ensures Built(st + [l], marks, [MarkQuad] + rest) == Built(st + [l], marks + [|st|], rest)
  {
    assert ([MarkQuad] + rest)[1..] == rest;
  }

  lemma BuiltRule(st: seq<BoolExp>, l: BoolExp, r: BoolExp, rule: Action, marks: seq<nat>, rest: seq<Action>)
    requires rule.AndRule? || rule.OrRule?
    ensures Built(st + [l] + [r], marks + [|st|], [rule] + rest)
      == Built(st + [if rule.AndRule? then And(l, r) else Or(l, r)], marks, rest)
  {
    var both := st + [l] + [r];
    assert ([rule] + rest)[1..] == rest;
    assert both[..|both| - 2] == st && (marks + [|st|])[..|marks|] == marks;
  }

  // ----- What the stacks and the quads hold meanwhile

  /** A condition whose code lies in [lo, hi), with its two lists of open jumps. */
  datatype Piece = Piece(e: BoolExp, lo: int, hi: int, tl: seq<int>, fl: seq<int>)

  ghost predicate Good(ts: seq<FourTuple>, th: int, fh: int, p: Piece) {
    0 <= p.lo <= p.hi <= |ts| && Pending(ts, p.lo, p.hi, th, p.tl, fh, p.fl) && Decides(p.e, ts, p.lo, p.hi, p.tl, p.fl)
  }

  ghost function Exps(pieces: seq<Piece>): (st: seq<BoolExp>)
    ensures |st| == |pieces|
  {
    seq(|pieces|, i requires 0 <= i < |pieces| => pieces[i].e)
  }

  /** The heads on the stacks belong to the pieces, which lie one behind the other from `start` to the last quad. */
  ghost predicate Stacked(ts: seq<FourTuple>, tc: seq<int>, fc: seq<int>, start: int, pieces: seq<Piece>) {
    && |tc| == |fc| == |pieces| && 0 <= start && Ends(start, pieces) == |ts|
    && (forall i :: 0 <= i < |pieces| ==> Good(ts, tc[i], fc[i], pieces[i]))
    && (forall i :: 0 <= i < |pieces| ==> pieces[i].lo == Ends(start, pieces[..i]))
  }

  /** Where the last piece ends. */
  ghost function Ends(start: int, pieces: seq<Piece>): int {
    if pieces == [] then start else pieces[|pieces| - 1].hi
  }

  /** The marks stand at the ends of the pieces with these numbers, which rise. */
  ghost predicate Marked(kept: seq<int>, marks: seq<nat>, pieces: seq<Piece>) {
    && |kept| == |marks|
    && (forall j :: 0 <= j < |marks| ==> marks[j] < |pieces| && kept[j] == pieces[marks[j]].hi)
    && (forall i, j :: 0 <= i < j < |marks| ==> marks[i] < marks[j])
  }

  lemma GoodFrame(ts: seq<FourTuple>, us: seq<FourTuple>, th: int, fh: int, p: Piece)
    requires Good(ts, th, fh, p) && |ts| <= |us| && forall i :: p.lo <= i < p.hi ==> us[i] == ts[i]
    ensures Good(us, th, fh, p)
  {
    ChainFrame(ts, us, th, p.tl);
    ChainFrame(ts, us, fh, p.fl);
    DecidesFrame(p.e, ts, us, p.lo, p.hi, p.tl, p.fl);
  }

  lemma {:induction false} PiecesRise(ts: seq<FourTuple>, tc: seq<int>, fc: seq<int>, start: int, pieces: seq<Piece>,
                                      i: nat)
    requires Stacked(ts, tc, fc, start, pieces) && i < |pieces|
    ensures start <= pieces[i].lo <= pieces[i].hi <= |ts|
    ensures i + 1 < |pieces| ==> pieces[i].hi == pieces[i + 1].lo
    ensures forall j :: i < j < |pieces| ==> pieces[i].hi <= pieces[j].lo
    decreases |pieces| - i
  {
    assert Good(ts, tc[i], fc[i], pieces[i]);
    if i + 1 < |pieces| {
      assert pieces[i + 1].lo == Ends(start, pieces[..i + 1]) == pieces[i].hi;
      PiecesRise(ts, tc, fc, start, pieces, i + 1);
    }
    StartFirst(ts, tc, fc, start, pieces, i);
  }

  lemma {:induction false} StartFirst(ts: seq<FourTuple>, tc: seq<int>, fc: seq<int>, start: int, pieces: seq<Piece>,
                                      i: nat)
    requires Stacked(ts, tc, fc, start, pieces) && i < |pieces|
    ensures start <= pieces[i].lo
    decreases i
  {
    assert Good(ts, tc[i], fc[i], pieces[i]);
    if i == 0 {
    } else {
      StartFirst(ts, tc, fc, start, pieces, i - 1);
      assert Good(ts, tc[i - 1], fc[i - 1], pieces[i - 1]);
      assert pieces[i].lo == Ends(start, pieces[..i]) == pieces[i - 1].hi;
    }
  }

  /** The code before the end of the first k pieces is the same. */
  ghost predicate SameFront(ts: seq<FourTuple>, us: seq<FourTuple>, start: int, pieces: seq<Piece>, k: nat)
    requires k <= |pieces|
  {
    |ts| <= |us| && forall i :: 0 <= i < |ts| && i < Ends(start, pieces[..k]) ==> us[i] == ts[i]
  }

  lemma StackedFront(ts: seq<FourTuple>, us: seq<FourTuple>, tc: seq<int>, fc: seq<int>, start: int, pieces: seq<Piece>,
                     k: nat)
    requires Stacked(ts, tc, fc, start, pieces) && k <= |pieces| && SameFront(ts, us, start, pieces, k)
    ensures forall i :: 0 <= i < k ==> Good(us, tc[i], fc[i], pieces[i])
  {
    forall i | 0 <= i < k ensures Good(us, tc[i], fc[i], pieces[i]) {
      PiecesRise(ts, tc, fc, start, pieces, i);
      assert pieces[i].hi <= Ends(start, pieces[..k]) by {
        if i < k - 1 {
          PiecesRise(ts, tc, fc, start, pieces, k - 1);
        }
      }
      GoodFrame(ts, us, tc[i], fc[i], pieces[i]);
    }
  }

  /** The first k pieces stay, and one new piece takes the place of the others. */
  lemma Restacked(ts: seq<FourTuple>, us: seq<FourTuple>, tc: seq<int>, fc: seq<int>, start: int, pieces: seq<Piece>,
                  k: nat, th: int, fh: int, p: Piece)
    requires Stacked(ts, tc, fc, start, pieces) && k <= |pieces| && SameFront(ts, us, start, pieces, k)
    requires Good(us, th, fh, p) && p.lo == Ends(start, pieces[..k]) && p.hi == |us|
    ensures Stacked(us, tc[..k] + [th], fc[..k] + [fh], start, pieces[..k] + [p])
  {
    StackedFront(ts, us, tc, fc, start, pieces, k);
    var all := pieces[..k] + [p];
    forall i | 0 <= i < |all| ensures all[i].lo == Ends(start, all[..i]) {
      assert all[..i] == pieces[..i];
    }
  }

  lemma ExpsRenewed(pieces: seq<Piece>, k: nat, p: Piece)
    requires k <= |pieces|
    ensures Exps(pieces[..k] + [p]) == Exps(pieces)[..k] + [p.e]
  {}

  /** The marks that stood behind the first k pieces still do. */
  lemma Remarked(kept: seq<int>, marks: seq<nat>, pieces: seq<Piece>, k: nat, p: Piece)
    requires Marked(kept, marks, pieces) && k <= |pieces|
    requires Below(marks, k) || (k + 1 == |pieces| && p.hi == pieces[k].hi)
    ensures Marked(kept, marks, pieces[..k] + [p])
  {}

  lemma Unmarked(kept: seq<int>, marks: seq<nat>, pieces: seq<Piece>)
    requires Marked(kept, marks, pieces) && marks != []
    ensures Marked(kept[..|kept| - 1], marks[..|marks| - 1], pieces)
    ensures Below(marks[..|marks| - 1], marks[|marks| - 1])
  {}

  // ----- The actions, one by one

  /** What was there before the first action. */
  datatype Base = Base(tc: seq<int>, fc: seq<int>, mQuad: seq<int>, operands: seq<string>, tuples: seq<FourTuple>,
                       variables: map<string, int>)

  /** What has come on top of it. */
  datatype Top = Top(tc: seq<int>, fc: seq<int>, kept: seq<int>, pieces: seq<Piece>, marks: seq<nat>)

  ghost predicate Fine(ts: seq<FourTuple>, start: int, top: Top) {
    Stacked(ts, top.tc, top.fc, start, top.pieces) && Marked(top.kept, top.marks, top.pieces)
  }

  /** Nothing older has changed. */
  ghost predicate Above(base: Base, top: Top, ts: seq<FourTuple>, tc: seq<int>, fc: seq<int>, mQuad: seq<int>) {
    && tc == base.tc + top.tc && fc == base.fc + top.fc && mQuad == base.mQuad + top.kept
    && base.tuples <= ts && Fine(ts, |base.tuples|, top)
  }

  ghost predicate Holds(gen: CodeGen, base: Base, top: Top)
    reads gen
  {
    && gen.Valid() && gen.operands == base.operands && gen.variableTable == base.variables
    && Above(base, top, gen.tuples, gen.tc, gen.fc, gen.mQuad)
  }

  /** The two quads of a variable. */
  lemma VarGood(ts: seq<FourTuple>, us: seq<FourTuple>, x: string)
    requires us == ts + [FourTuple("jnz", x, "-", "-1", -1), FourTuple("j", "-", "-", "-1", -1)]
    ensures var n := |ts|; Good(us, n, n + 1, Piece(Var(x), n, n + 2, [n], [n + 1]))
  {
    var n := |ts|;
    VarDecides(x, us, n, n + 2);
    assert us[n].nextSen == -1 && us[n + 1].nextSen == -1;
    assert Chain(us, -1, [n][1..]) && Chain(us, -1, [n + 1][1..]);
  }

  /** A stack whose top has changed from place k on. */
  lemma TopAfter(base: seq<int>, top: seq<int>, now: seq<int>, k: nat)
    requires k <= |top| && |now| == |base| + k + 1 && now[..|now| - 1] == (base + top)[..|now| - 1]
    ensures now == base + (top[..k] + [now[|now| - 1]])
  {
    assert now == now[..|now| - 1] + [now[|now| - 1]];
    assert (base + top)[..|base| + k] == base + top[..k];
  }

  /** The first k pieces stay, with the marks given, and one new piece comes. */
  ghost function Renewed(top: Top, k: nat, kept: seq<int>, marks: seq<nat>, th: int, fh: int, p: Piece): Top
    requires k <= |top.tc| && k <= |top.fc| && k <= |top.pieces|
  {
    Top(top.tc[..k] + [th], top.fc[..k] + [fh], kept, top.pieces[..k] + [p], marks)
  }

  lemma VarFine(ts: seq<FourTuple>, us: seq<FourTuple>, start: int, top: Top, x: string) returns (next: Top)
    requires Fine(ts, start, top)
    requires us == ts + [FourTuple("jnz", x, "-", "-1", -1), FourTuple("j", "-", "-", "-1", -1)]
    ensures Fine(us, start, next) && Exps(next.pieces) == Exps(top.pieces) + [Var(x)]
    ensures next.tc == top.tc + [|ts|] && next.fc == top.fc + [|ts| + 1] && next.kept == top.kept
    ensures next.marks == top.marks
  {
    VarGood(ts, us, x);
    next := PieceFine(ts, us, start, top, |ts|, |ts| + 1, Piece(Var(x), |ts|, |ts| + 2, [|ts|], [|ts| + 1]));
  }

  lemma AllOf<T>(s: seq<T>)
    ensures s[..|s|] == s
  {}

  /** A new piece at the end. */
  lemma PieceFine(ts: seq<FourTuple>, us: seq<FourTuple>, start: int, top: Top, th: int, fh: int, p: Piece)
    returns (next: Top)
    requires Fine(ts, start, top) && ts <= us && Good(us, th, fh, p) && p.lo == |ts| && p.hi == |us|
    ensures Fine(us, start, next) && Exps(next.pieces) == Exps(top.pieces) + [p.e]
    ensures next.tc == top.tc + [th] && next.fc == top.fc + [fh] && next.kept == top.kept && next.marks == top.marks
  {
    var k := |top.pieces|;
    AllOf(top.pieces);
    AllOf(top.tc);
    AllOf(top.fc);
    AllOf(Exps(top.pieces));
    assert SameFront(ts, us, start, top.pieces, k);
    Restacked(ts, us, top.tc, top.fc, start, top.pieces, k, th, fh, p);
    Remarked(top.kept, top.marks, top.pieces, k, p);
    ExpsRenewed(top.pieces, k, p);
    next := Renewed(top, k, top.kept, top.marks, th, fh, p);
  }

  lemma NotFine(ts: seq<FourTuple>, start: int, top: Top) returns (next: Top)
    requires Fine(ts, start, top) && top.pieces != []
    ensures var k := |top.pieces| - 1;
      && Fine(ts, start, next) && Exps(next.pieces) == Exps(top.pieces)[..k] + [Not(top.pieces[k].e)]
      && next.tc == top.tc[..k] + [top.fc[k]] && next.fc == top.fc[..k] + [top.tc[k]]
      && next.kept == top.kept && next.marks == top.marks
  {
    var k := |top.pieces| - 1;
    var a := top.pieces[k];
    assert Good(ts, top.tc[k], top.fc[k], a);
    var p := Piece(Not(a.e), a.lo, a.hi, a.fl, a.tl);
    NotDecides(a.e, ts, a.lo, a.hi, a.tl, a.fl);
    Restacked(ts, ts, top.tc, top.fc, start, top.pieces, k, top.fc[k], top.tc[k], p);
    Remarked(top.kept, top.marks, top.pieces, k, p);
    ExpsRenewed(top.pieces, k, p);
    next := Renewed(top, k, top.kept, top.marks, top.fc[k], top.tc[k], p);
  }

  lemma MarkedMore(kept: seq<int>, marks: seq<nat>, pieces: seq<Piece>)
    requires Marked(kept, marks, pieces) && pieces != [] && Below(marks, |pieces| - 1)
    ensures Marked(kept + [pieces[|pieces| - 1].hi], marks + [|pieces| - 1], pieces)
  {}

  lemma MarkFine(ts: seq<FourTuple>, start: int, top: Top)
    requires Fine(ts, start, top) && top.pieces != [] && Below(top.marks, |top.pieces| - 1)
    ensures Fine(ts, start, top.(kept := top.kept + [|ts|], marks := top.marks + [|top.pieces| - 1]))
  {
    MarkedMore(top.kept, top.marks, top.pieces);
    assert Ends(start, top.pieces) == top.pieces[|top.pieces| - 1].hi;
  }

  /** The last mark stands between the two last pieces. */
  ghost predicate Between(top: Top) {
    |top.pieces| > 1 && top.marks != [] && top.marks[|top.marks| - 1] == |top.pieces| - 2
  }

  lemma TwoLast(ts: seq<FourTuple>, start: int, top: Top) returns (a: Piece, b: Piece)
    requires Fine(ts, start, top) && Between(top)
    ensures var k := |top.pieces| - 2;
      && a == top.pieces[k] && b == top.pieces[k + 1] && |top.tc| == |top.fc| == k + 2 && top.kept != []
      && Good(ts, top.tc[k], top.fc[k], a) && Good(ts, top.tc[k + 1], top.fc[k + 1], b)
      && start <= a.lo <= a.hi == b.lo == top.kept[|top.kept| - 1] && b.hi == |ts|
  {
    var k := |top.pieces| - 2;
    a, b := top.pieces[k], top.pieces[k + 1];
    PiecesRise(ts, top.tc, top.fc, start, top.pieces, k);
  }

  lemma RuleFine(ts: seq<FourTuple>, us: seq<FourTuple>, start: int, top: Top, th: int, fh: int, p: Piece)
    returns (next: Top)
    requires Fine(ts, start, top) && Between(top) && |us| == |ts|
    requires p.lo == top.pieces[|top.pieces| - 2].lo && p.hi == |ts| && 0 <= p.lo <= |ts| && us[..p.lo] == ts[..p.lo]
    requires Good(us, th, fh, p)
    ensures var k := |top.pieces| - 2;
      && |top.tc| == |top.fc| == k + 2 && |top.kept| == |top.marks|
      && Fine(us, start, next) && Exps(next.pieces) == Exps(top.pieces)[..k] + [p.e]
      && next.tc == top.tc[..k] + [th] && next.fc == top.fc[..k] + [fh]
      && next.kept == top.kept[..|top.kept| - 1] && next.marks == top.marks[..|top.marks| - 1]
  {
    var k := |top.pieces| - 2;
    PiecesRise(ts, top.tc, top.fc, start, top.pieces, k);
    assert forall i :: 0 <= i < p.lo ==> us[i] == us[..p.lo][i] == ts[..p.lo][i] == ts[i];
    Restacked(ts, us, top.tc, top.fc, start, top.pieces, k, th, fh, p);
    Unmarked(top.kept, top.marks, top.pieces);
    var kept, marks := top.kept[..|top.kept| - 1], top.marks[..|top.marks| - 1];
    Remarked(kept, marks, top.pieces, k, p);
    ExpsRenewed(top.pieces, k, p);
    next := Renewed(top, k, kept, marks, th, fh, p);
  }

  // ----- On the stacks of the translator

  lemma VarAbove(base: Base, top: Top, ts: seq<FourTuple>, tc: seq<int>, fc: seq<int>, mQuad: seq<int>,
                 us: seq<FourTuple>, x: string)
    returns (next: Top)
    requires Above(base, top, ts, tc, fc, mQuad)
    requires us == ts + [FourTuple("jnz", x, "-", "-1", -1), FourTuple("j", "-", "-", "-1", -1)]
    ensures Above(base, next, us, tc + [|ts|], fc + [|ts| + 1], mQuad)
    ensures Exps(next.pieces) == Exps(top.pieces) + [Var(x)] && next.marks == top.marks
  {
    next := VarFine(ts, us, |base.tuples|, top, x);
    assert base.tc + top.tc + [|ts|] == base.tc + next.tc && base.fc + top.fc + [|ts| + 1] == base.fc + next.fc;
  }

  method ActOperand(gen: CodeGen, x: string, ghost base: Base, ghost top: Top) returns (ghost next: Top)
    requires Holds(gen, base, top) && x in base.variables && base.variables[x] == BOOL_T
    modifies gen
    ensures Holds(gen, base, next) && gen.trace == old(gen.trace) + [Operand(x)]
    ensures Exps(next.pieces) == Exps(top.pieces) + [Var(x)] && next.marks == top.marks
  {
    ghost var ts, tc, fc := gen.tuples, gen.tc, gen.fc;
    gen.StoreVariable(x);
    var _ := gen.F();
    next := VarAbove(base, top, ts, tc, fc, gen.mQuad, gen.tuples, x);
  }

  method ActMark(gen: CodeGen, ghost base: Base, ghost top: Top) returns (ghost next: Top)
    requires Holds(gen, base, top) && top.pieces != [] && Below(top.marks, |top.pieces| - 1)
    modifies gen
    ensures Holds(gen, base, next) && gen.trace == old(gen.trace) + [MarkQuad]
    ensures next.pieces == top.pieces && next.marks == top.marks + [|top.pieces| - 1]
  {
    gen.R();
    MarkFine(gen.tuples, |base.tuples|, top);
    next := top.(kept := top.kept + [|gen.tuples|], marks := top.marks + [|top.pieces| - 1]);
  }

  lemma NotAbove(base: Base, top: Top, ts: seq<FourTuple>, tc: seq<int>, fc: seq<int>, mQuad: seq<int>)
    returns (next: Top)
    requires Above(base, top, ts, tc, fc, mQuad) && top.pieces != []
    ensures tc != [] && fc != []
    ensures Above(base, next, ts, tc[..|tc| - 1] + [fc[|fc| - 1]], fc[..|fc| - 1] + [tc[|tc| - 1]], mQuad)
    ensures next.marks == top.marks
    ensures var k := |top.pieces| - 1; Exps(next.pieces) == Exps(top.pieces)[..k] + [Not(top.pieces[k].e)]
  {
    var k := |top.pieces| - 1;
    next := NotFine(ts, |base.tuples|, top);
    TopAfter(base.tc, top.tc, tc[..|tc| - 1] + [fc[|fc| - 1]], k);
    TopAfter(base.fc, top.fc, fc[..|fc| - 1] + [tc[|tc| - 1]], k);
  }

  method ActNot(gen: CodeGen, ghost base: Base, ghost top: Top) returns (ghost next: Top)
    requires Holds(gen, base, top) && top.pieces != []
    modifies gen
    ensures Holds(gen, base, next) && gen.trace == old(gen.trace) + [Action.NotRule] && next.marks == top.marks
    ensures var k := |top.pieces| - 1; Exps(next.pieces) == Exps(top.pieces)[..k] + [Not(top.pieces[k].e)]
  {
    next := NotAbove(base, top, gen.tuples, gen.tc, gen.fc, gen.mQuad);
    gen.NotRule();
  }

  /** What the rules for operators need. */
  lemma TwoAbove(base: Base, top: Top, ts: seq<FourTuple>, tc: seq<int>, fc: seq<int>, mQuad: seq<int>)
    returns (a: Piece, b: Piece)
    requires Above(base, top, ts, tc, fc, mQuad) && Between(top)
    ensures a == top.pieces[|top.pieces| - 2] && b == top.pieces[|top.pieces| - 1]
    ensures |tc| >= 2 && |fc| >= 2 && mQuad != [] && mQuad[|mQuad| - 1] == b.lo && 0 <= a.lo <= b.lo <= |ts| == b.hi
    ensures Pending(ts, a.lo, b.lo, tc[|tc| - 2], a.tl, fc[|fc| - 2], a.fl) && Decides(a.e, ts, a.lo, b.lo, a.tl, a.fl)
    ensures Pending(ts, b.lo, |ts|, tc[|tc| - 1], b.tl, fc[|fc| - 1], b.fl) && Decides(b.e, ts, b.lo, |ts|, b.tl, b.fl)
  {
    a, b := TwoLast(ts, |base.tuples|, top);
  }

  /** What the rule for an operator has done to the quads and stacks: two pieces from p.lo on have become one. */
  ghost predicate Joined(ts: seq<FourTuple>, tc: seq<int>, fc: seq<int>, mQuad: seq<int>,
                         us: seq<FourTuple>, uc: seq<int>, vc: seq<int>, nQuad: seq<int>, p: Piece) {
    && |us| == |ts| == p.hi && 0 <= p.lo <= |ts| && us[..p.lo] == ts[..p.lo]
    && |uc| == |tc| - 1 && uc != [] && uc[..|uc| - 1] == tc[..|uc| - 1]
    && |vc| == |fc| - 1 && vc != [] && vc[..|vc| - 1] == fc[..|vc| - 1]
    && mQuad != [] && nQuad == mQuad[..|mQuad| - 1] && Good(us, uc[|uc| - 1], vc[|vc| - 1], p)
  }

  /** The rule for an operator, as the stacks and quads show it. */
  lemma RuleAbove(base: Base, top: Top, ts: seq<FourTuple>, tc: seq<int>, fc: seq<int>, mQuad: seq<int>,
                  us: seq<FourTuple>, uc: seq<int>, vc: seq<int>, nQuad: seq<int>, p: Piece)
    returns (next: Top)
    requires Above(base, top, ts, tc, fc, mQuad) && Between(top)
    requires Joined(ts, tc, fc, mQuad, us, uc, vc, nQuad, p) && p.lo == top.pieces[|top.pieces| - 2].lo
    ensures Above(base, next, us, uc, vc, nQuad) && next.marks == top.marks[..|top.marks| - 1]
    ensures var k := |top.pieces| - 2; Exps(next.pieces) == Exps(top.pieces)[..k] + [p.e]
  {
    var a, b := TwoLast(ts, |base.tuples|, top);
    var k := |top.pieces| - 2;
    TopAfter(base.tc, top.tc, uc, k);
    TopAfter(base.fc, top.fc, vc, k);
    next := RuleFine(ts, us, |base.tuples|, top, uc[|uc| - 1], vc[|vc| - 1], p);
    assert nQuad == base.mQuad + top.kept[..|top.kept| - 1];
    StillPrefix(base.tuples, ts, us, p.lo);
  }

  lemma StillPrefix<T>(base: seq<T>, ts: seq<T>, us: seq<T>, lo: nat)
    requires base <= ts && |base| <= lo <= |ts| == |us| && us[..lo] == ts[..lo]
    ensures base <= us
  {
    assert us[..lo][..|base|] == us[..|base|] && ts[..lo][..|base|] == ts[..|base|];
  }

  method JoinAnd(gen: CodeGen, ghost base: Base, ghost top: Top, ghost l: BoolExp, ghost r: BoolExp)
    returns (ghost p: Piece)
    requires Holds(gen, base, top) && Between(top)
    requires l == top.pieces[|top.pieces| - 2].e && r == top.pieces[|top.pieces| - 1].e
    modifies gen`tc, gen`fc, gen`mQuad, gen`tuples, gen`trace
    ensures gen.Valid() && gen.trace == old(gen.trace) + [Action.AndRule]
    ensures Joined(old(gen.tuples), old(gen.tc), old(gen.fc), old(gen.mQuad), gen.tuples, gen.tc, gen.fc, gen.mQuad, p)
    ensures p.e == And(l, r) && p.lo == top.pieces[|top.pieces| - 2].lo
  {
    ghost var a, b := TwoAbove(base, top, gen.tuples, gen.tc, gen.fc, gen.mQuad);
    ghost var tl, fl := gen.FinishAnd(l, r, a.lo, b.lo, a.tl, a.fl, b.tl, b.fl);
    p := Piece(And(l, r), a.lo, b.hi, tl, fl);
  }

  method ActAnd(gen: CodeGen, ghost base: Base, ghost top: Top) returns (ghost next: Top)
    requires Holds(gen, base, top) && Between(top)
    modifies gen
    ensures Holds(gen, base, next) && gen.trace == old(gen.trace) + [Action.AndRule]
    ensures next.marks == top.marks[..|top.marks| - 1]
    ensures var k, l, r := |top.pieces| - 2, top.pieces[|top.pieces| - 2].e, top.pieces[|top.pieces| - 1].e;
      Exps(next.pieces) == Exps(top.pieces)[..k] + [And(l, r)]
  {
    ghost var ts, tc, fc, mQuad := gen.tuples, gen.tc, gen.fc, gen.mQuad;
    ghost var p := JoinAnd(gen, base, top, top.pieces[|top.pieces| - 2].e, top.pieces[|top.pieces| - 1].e);
    next := RuleAbove(base, top, ts, tc, fc, mQuad, gen.tuples, gen.tc, gen.fc, gen.mQuad, p);
  }

  method JoinOr(gen: CodeGen, ghost base: Base, ghost top: Top, ghost l: BoolExp, ghost r: BoolExp)
    returns (ghost p: Piece)
    requires Holds(gen, base, top) && Between(top)
    requires l == top.pieces[|top.pieces| - 2].e && r == top.pieces[|top.pieces| - 1].e
    modifies gen`tc, gen`fc, gen`mQuad, gen`tuples, gen`trace
    ensures gen.Valid() && gen.trace == old(gen.trace) + [Action.OrRule]
    ensures Joined(old(gen.tuples), old(gen.tc), old(gen.fc), old(gen.mQuad), gen.tuples, gen.tc, gen.fc, gen.mQuad, p)
    ensures p.e == Or(l, r) && p.lo == top.pieces[|top.pieces| - 2].lo
  {
    ghost var a, b := TwoAbove(base, top, gen.tuples, gen.tc, gen.fc, gen.mQuad);
    ghost var tl, fl := gen.FinishOr(l, r, a.lo, b.lo, a.tl, a.fl, b.tl, b.fl);
    p := Piece(Or(l, r), a.lo, b.hi, tl, fl);
  }

  method ActOr(gen: CodeGen, ghost base: Base, ghost top: Top) returns (ghost next: Top)
    requires Holds(gen, base, top) && Between(top)
    modifies gen
    ensures Holds(gen, base, next) && gen.trace == old(gen.trace) + [Action.OrRule]
    ensures next.marks == top.marks[..|top.marks| - 1]
    ensures var k, l, r := |top.pieces| - 2, top.pieces[|top.pieces| - 2].e, top.pieces[|top.pieces| - 1].e;
      Exps(next.pieces) == Exps(top.pieces)[..k] + [Or(l, r)]
  {
    ghost var ts, tc, fc, mQuad := gen.tuples, gen.tc, gen.fc, gen.mQuad;
    ghost var p := JoinOr(gen, base, top, top.pieces[|top.pieces| - 2].e, top.pieces[|top.pieces| - 1].e);
    next := RuleAbove(base, top, ts, tc, fc, mQuad, gen.tuples, gen.tc, gen.fc, gen.mQuad, p);
  }

  // ----- All of them

  ghost predicate AllDeclared(actions: seq<Action>, variables: map<string, int>) {
    forall k :: 0 <= k < |actions| && actions[k].Operand? ==>
      actions[k].name in variables && variables[actions[k].name] == BOOL_T
  }

  /** What an action finds on the stacks, and what it leaves there. */
  lemma BuiltNext(st: seq<BoolExp>, marks: seq<nat>, action: Action, rest: seq<Action>)
    requires Built(st, marks, [action] + rest).Some?
    ensures action.MarkQuad? ==>
      st != [] && Below(marks, |st| - 1) && Built(st, marks, [action] + rest) == Built(st, marks + [|st| - 1], rest)
    ensures action.NotRule? ==>
      st != [] && Built(st, marks, [action] + rest) == Built(st[..|st| - 1] + [Not(st[|st| - 1])], marks, rest)
    ensures action.Operand? ==> Built(st, marks, [action] + rest) == Built(st + [Var(action.name)], marks, rest)
    ensures action.AndRule? || action.OrRule? ==>
      && |st| > 1 && marks != [] && marks[|marks| - 1] == |st| - 2
      && var k, l, r := |st| - 2, st[|st| - 2], st[|st| - 1];
         Built(st, marks, [action] + rest)
         == Built(st[..k] + [if action.AndRule? then And(l, r) else Or(l, r)], marks[..|marks| - 1], rest)
  {
    assert ([action] + rest)[1..] == rest;
  }

  /** After k actions: those to come will leave exactly the condition `e`. */
  ghost predicate OnCourse(top: Top, actions: seq<Action>, k: nat, e: BoolExp) {
    k <= |actions| && Built(Exps(top.pieces), top.marks, actions[k..]) == Some([e])
  }

  lemma CourseNext(top: Top, actions: seq<Action>, k: nat, e: BoolExp)
    requires OnCourse(top, actions, k, e) && k < |actions|
    ensures Built(Exps(top.pieces), top.marks, [actions[k]] + actions[k + 1..]) == Some([e])
  {
    assert actions[k..] == [actions[k]] + actions[k + 1..];
  }

  lemma CourseStart(e: BoolExp, actions: seq<Action>)
    requires actions == Actions(e)
    ensures OnCourse(Top([], [], [], [], []), actions, 0, e)
  {
    BuiltActions(e, [], [], []);
    assert Exps([]) == [] && Actions(e) + [] == actions && [] + [e] == [e] && actions[0..] == actions;
  }

  method Act(gen: CodeGen, action: Action, ghost rest: seq<Action>, ghost base: Base, ghost top: Top)
    returns (ghost next: Top)
    requires Holds(gen, base, top) && Built(Exps(top.pieces), top.marks, [action] + rest).Some?
    requires AllDeclared([action], base.variables)
    modifies gen
    ensures Holds(gen, base, next) && gen.trace == old(gen.trace) + [action]
    ensures Built(Exps(next.pieces), next.marks, rest) == Built(Exps(top.pieces), top.marks, [action] + rest)
  {
    BuiltNext(Exps(top.pieces), top.marks, action, rest);
    assert [action][0] == action;
    match action {
      case Operand(x) => next := ActOperand(gen, x, base, top);
      case MarkQuad => next := ActMark(gen, base, top);
      case NotRule => next := ActNot(gen, base, top);
      case AndRule => next := ActAnd(gen, base, top);
      case OrRule => next := ActOr(gen, base, top);
    }
  }

  /** The next of the actions. */
  method ActAt(gen: CodeGen, actions: seq<Action>, k: nat, ghost e: BoolExp, ghost base: Base, ghost top: Top)
    returns (ghost next: Top)
    requires Holds(gen, base, top) && OnCourse(top, actions, k, e) && k < |actions|
    requires AllDeclared(actions, base.variables)
    modifies gen
    ensures Holds(gen, base, next) && gen.trace == old(gen.trace) + [actions[k]] && OnCourse(next, actions, k + 1, e)
  {
    CourseNext(top, actions, k, e);
    next := Act(gen, actions[k], actions[k + 1..], base, top);
  }

  lemma {:induction false} Operands(e: BoolExp, variables: map<string, int>)
    requires forall x :: x in Vars(e) ==> x in variables && variables[x] == BOOL_T
    ensures AllDeclared(Actions(e), variables)
    decreases e
  {
    match e
    case Var(x) =>
    case Not(a) => Operands(a, variables);
    case And(l, r) =>
      Operands(l, variables);
      Operands(r, variables);
    case Or(l, r) =>
      Operands(l, variables);
      Operands(r, variables);
  }

  /** The actions in a row. */
  method PerformAll(gen: CodeGen, actions: seq<Action>, ghost e: BoolExp, ghost base: Base) returns (ghost top: Top)
    requires Holds(gen, base, Top([], [], [], [], [])) && OnCourse(Top([], [], [], [], []), actions, 0, e)
    requires AllDeclared(actions, base.variables)
    modifies gen
    ensures Holds(gen, base, top) && OnCourse(top, actions, |actions|, e) && gen.trace == old(gen.trace) + actions
  {
    top := Top([], [], [], [], []);
    for k := 0 to |actions|
      invariant Holds(gen, base, top) && OnCourse(top, actions, k, e)
      invariant gen.trace == old(gen.trace) + actions[..k]
    {
      top := ActAt(gen, actions, k, e, base, top);
      assert actions[..k + 1] == actions[..k] + [actions[k]];
    }
    assert actions[..|actions|] == actions;
  }

  /** The actions for a condition: what they add decides it, and they touch nothing older. */
  method Perform(gen: CodeGen, actions: seq<Action>, ghost e: BoolExp) returns (ghost tl: seq<int>, ghost fl: seq<int>)
    requires gen.Valid() && gen.Declared(e) && actions == Actions(e)
    modifies gen
    ensures gen.Valid() && gen.mQuad == old(gen.mQuad) && gen.operands == old(gen.operands)
    ensures gen.trace == old(gen.trace) + actions && gen.variableTable == old(gen.variableTable)
    ensures gen.Added(e, old(gen.tc), old(gen.fc), old(gen.tuples), tl, fl)
  {
    ghost var base := Base(gen.tc, gen.fc, gen.mQuad, gen.operands, gen.tuples, gen.variableTable);
    CourseStart(e, actions);
    Operands(e, gen.variableTable);
    ghost var top := PerformAll(gen, actions, e, base);
    ghost var only := OnePiece(base, top, gen.tuples, gen.tc, gen.fc, gen.mQuad, actions, e);
    tl, fl := only.tl, only.fl;
  }

  lemma OnePiece(base: Base, top: Top, ts: seq<FourTuple>, tc: seq<int>, fc: seq<int>, mQuad: seq<int>,
                 actions: seq<Action>, e: BoolExp)
    returns (p: Piece)
    requires Above(base, top, ts, tc, fc, mQuad) && OnCourse(top, actions, |actions|, e)
    ensures mQuad == base.mQuad && base.tuples <= ts
    ensures |tc| == |base.tc| + 1 && tc[..|base.tc|] == base.tc && |fc| == |base.fc| + 1 && fc[..|base.fc|] == base.fc
    ensures Pending(ts, |base.tuples|, |ts|, tc[|base.tc|], p.tl, fc[|base.fc|], p.fl)
    ensures Decides(e, ts, |base.tuples|, |ts|, p.tl, p.fl)
  {
    assert Exps(top.pieces) == [e];
    p := top.pieces[0];
    assert p.e == Exps(top.pieces)[0] == e && Good(ts, top.tc[0], top.fc[0], p);
    assert p.lo == Ends(|base.tuples|, top.pieces[..0]);
  }

  /** From words to quads: the parser is run over the words of a condition, its actions are performed, and the two open
    * lists are sent to T and F.  The code then runs to the one that the value of the condition selects. */
  method Compile(gen: CodeGen, words: seq<Word>, T: int, F: int, ghost c: Cond, ghost rest: seq<Word>)
    requires gen.Valid() && gen.Declared(CondExp(c)) && words == CondWords(c) + rest && ConditionParser.Ends(rest)
    modifies gen
    ensures gen.Valid() && gen.tc == old(gen.tc) && gen.fc == old(gen.fc) && gen.mQuad == old(gen.mQuad)
    ensures gen.operands == old(gen.operands) && old(gen.tuples) <= gen.tuples
    ensures gen.Translated(CondExp(c), |old(gen.tuples)|, T, F)
  {
    var actions := Parse(words, c, rest);
    ghost var tl, fl := Perform(gen, actions, CondExp(c));
    gen.Close(CondExp(c), T, F, old(gen.tc), old(gen.fc), old(gen.tuples), tl, fl);
  }

  /** The loop of the parser, from the symbol E until its stack is empty. */
  method Parse(words: seq<Word>, ghost c: Cond, ghost rest: seq<Word>) returns (actions: seq<Action>)
    requires words == CondWords(c) + rest && ConditionParser.Ends(rest)
    ensures actions == Actions(CondExp(c))
  {
    var s := State("E", [], Stored(words), words, []);
    ParsesCondition(c, "", [], [], rest, []);
    ghost var goal := At("", "", [], [], rest, [] + Actions(CondExp(c)));
    assert At("E", "", [], [], words, []) == s;
    ghost var n: nat :| Rounds(Round, s, goal, n);
    while s.stack != ""
      invariant Rounds(Round, s, goal, n)
      decreases n
    {
      s := Round(s).value;
      n := n - 1;
    }
    actions := s.trace;
  }
}
