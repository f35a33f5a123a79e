/** Boolean conditions compiled to quads by backpatching (CreateMidcode): what runs, and why it computes
  * the condition. */
module Conditions {
  datatype FourTuple = FourTuple(op: string, first: string, second: string, result: string, nextSen: int)

  /** A condition as the grammar's productions nest it. */
  datatype BoolExp = Var(name: string) | And(l: BoolExp, r: BoolExp) | Or(l: BoolExp, r: BoolExp) | Not(e: BoolExp)

  type Env = string -> bool

  function Eval(e: BoolExp, env: Env): bool {
    match e
    case Var(x) => env(x)
    case And(l, r) => Eval(l, env) && Eval(r, env)
    case Or(l, r) => Eval(l, env) || Eval(r, env)
    case Not(a) => !Eval(a, env)
  }

  function Vars(e: BoolExp): set<string> {
    match e
    case Var(x) => {x}
    case And(l, r) => Vars(l) + Vars(r)
    case Or(l, r) => Vars(l) + Vars(r)
    case Not(a) => Vars(a)
  }

  // ----- Running quads

  function Step(code: seq<FourTuple>, env: Env, pc: int): int
    requires 0 <= pc < |code|
  {
    var q := code[pc];
    if q.op == "j" || (q.op == "jnz" && env(q.first)) then q.nextSen else pc + 1
  }

  /** `n` steps lead from `pc` to `target`, and all quads executed on the way lie in [lo, hi). */
  ghost predicate Runs(code: seq<FourTuple>, env: Env, pc: int, lo: int, hi: int, target: int, n: nat)
    decreases n
  {
    if n == 0 then pc == target
    else 0 <= lo <= pc < hi <= |code| && Runs(code, env, Step(code, env, pc), lo, hi, target, n - 1)
  }

  /** The run from `pc` leaves [lo, hi) at `target`, or passes it. */
  ghost predicate Reaches(code: seq<FourTuple>, env: Env, pc: int, lo: int, hi: int, target: int) {
    exists n: nat :: Runs(code, env, pc, lo, hi, target, n)
  }

  lemma {:induction false} RunsOn(code: seq<FourTuple>, env: Env, pc: int, lo: int, hi: int, mid: int, n: nat,
                                  lo': int, hi': int, lo'': int, hi'': int, target: int, m: nat)
    requires Runs(code, env, pc, lo, hi, mid, n) && Runs(code, env, mid, lo', hi', target, m)
    requires 0 <= lo'' <= lo && lo'' <= lo' && hi <= hi'' && hi' <= hi'' <= |code|
    ensures Runs(code, env, pc, lo'', hi'', target, n + m)
    decreases n + m
  {
    if n > 0 {
      RunsOn(code, env, Step(code, env, pc), lo, hi, mid, n - 1, lo', hi', lo'', hi'', target, m);
    } else if m > 0 {
      RunsOn(code, env, Step(code, env, pc), lo', hi', target, m - 1, lo', hi', lo'', hi'', target, 0);
    }
  }

  lemma ReachesThrough(code: seq<FourTuple>, env: Env, lo: int, mid: int, hi: int, target: int)
    requires 0 <= lo <= mid <= hi <= |code|
    requires Reaches(code, env, lo, lo, mid, mid) && Reaches(code, env, mid, mid, hi, target)
    ensures Reaches(code, env, lo, lo, hi, target)
  {
    var n: nat :| Runs(code, env, lo, lo, mid, mid, n);
    var m: nat :| Runs(code, env, mid, mid, hi, target, m);
    RunsOn(code, env, lo, lo, mid, mid, n, mid, hi, lo, hi, target, m);
  }

  lemma ReachesWithin(code: seq<FourTuple>, env: Env, lo: int, mid: int, hi: int, target: int)
    requires 0 <= lo <= mid <= hi <= |code| && Reaches(code, env, lo, lo, mid, target)
    ensures Reaches(code, env, lo, lo, hi, target)
  {
    var n: nat :| Runs(code, env, lo, lo, mid, target, n);
    RunsOn(code, env, lo, lo, mid, target, n, mid, hi, lo, hi, target, 0);
  }

  /** A run leaves a stretch of code at one place only. */
  lemma {:induction false} RunsUnique(code: seq<FourTuple>, env: Env, pc: int, lo: int, hi: int, s: int, t: int,
                                      n: nat, m: nat)
    requires Runs(code, env, pc, lo, hi, s, n) && Runs(code, env, pc, lo, hi, t, m)
    requires !(lo <= s < hi) && !(lo <= t < hi)
    ensures s == t
    decreases n
  {
    if n > 0 && m > 0 {
      RunsUnique(code, env, Step(code, env, pc), lo, hi, s, t, n - 1, m - 1);
    }
  }

  lemma OneExit(code: seq<FourTuple>, env: Env, lo: int, hi: int, s: int, t: int)
    requires Reaches(code, env, lo, lo, hi, s) && Reaches(code, env, lo, lo, hi, t)
    requires !(lo <= s < hi) && !(lo <= t < hi)
    ensures s == t
  {
    var n: nat :| Runs(code, env, lo, lo, hi, s, n);
    var m: nat :| Runs(code, env, lo, lo, hi, t, m);
    RunsUnique(code, env, lo, lo, hi, s, t, n, m);
  }

  // ----- Pending lists, threaded through nextSen

  /** Following nextSen from `head` visits exactly `ids`, in that order, and ends with -1. */
  ghost predicate Chain(ts: seq<FourTuple>, head: int, ids: seq<int>)
    decreases |ids|
  {
    if ids == [] then head == -1
    else head == ids[0] && 0 <= head < |ts| && Chain(ts, ts[head].nextSen, ids[1..])
  }

  ghost predicate NoRepeat(ids: seq<int>) {
    forall i, j :: 0 <= i < j < |ids| ==> ids[i] != ids[j]
  }

  ghost predicate Apart(s: seq<int>, t: seq<int>) {
    forall i :: i in s ==> i !in t
  }

  ghost predicate InRange(ids: seq<int>, lo: int, hi: int) {
    forall i :: i in ids ==> lo <= i < hi
  }

  lemma {:induction false} ChainFrame(ts: seq<FourTuple>, us: seq<FourTuple>, head: int, ids: seq<int>)
    requires Chain(ts, head, ids) && |ts| <= |us|
    requires forall i :: i in ids && 0 <= i < |ts| ==> us[i].nextSen == ts[i].nextSen
    ensures Chain(us, head, ids)
    decreases |ids|
  {
    if ids == [] {
    } else {
      ChainFrame(ts, us, ts[head].nextSen, ids[1..]);
    }
  }

  lemma {:induction false} ChainRange(ts: seq<FourTuple>, head: int, ids: seq<int>)
    requires Chain(ts, head, ids)
    ensures InRange(ids, 0, |ts|)
    decreases |ids|
  {
    if ids == [] {
    } else {
      ChainRange(ts, ts[head].nextSen, ids[1..]);
      assert forall i :: i in ids ==> i == ids[0] || i in ids[1..];
    }
  }

  lemma {:induction false} ChainAt(ts: seq<FourTuple>, head: int, ids: seq<int>, k: nat)
    requires Chain(ts, head, ids) && k < |ids|
    ensures 0 <= ids[k] < |ts|
    ensures ts[ids[k]].nextSen == if k + 1 < |ids| then ids[k + 1] else -1
    ensures Chain(ts, ids[k], ids[k..])
    decreases k
  {
    if k > 0 {
      ChainAt(ts, ts[head].nextSen, ids[1..], k - 1);
      assert ids[k..] == ids[1..][k - 1..];
    } else {
      assert ids[0..] == ids;
    }
  }

  lemma NoRepeatJoin(s: seq<int>, t: seq<int>)
    requires NoRepeat(s) && NoRepeat(t) && Apart(s, t)
    ensures NoRepeat(s + t)
  {
    forall i, j | 0 <= i < j < |s + t| ensures (s + t)[i] != (s + t)[j] {
      assert i < |s| <= j ==> s[i] in s && t[j - |s|] in t;
    }
  }

  /** Joining two lists: the last element of the second is made to point to the first. */
  lemma {:induction false} ChainJoin(ts: seq<FourTuple>, us: seq<FourTuple>, p1: int, s1: seq<int>, p2: int,
                                     s2: seq<int>)
    requires Chain(ts, p1, s1) && Chain(ts, p2, s2) && s2 != [] && NoRepeat(s2) && Apart(s1, s2)
    requires var last := s2[|s2| - 1];
      0 <= last < |ts| && us == ts[last := ts[last].(nextSen := p1)]
    ensures Chain(us, p2, s2 + s1)
    decreases |s2|
  {
    if |s2| == 1 {
      assert s2[0] in s2;
      ChainFrame(ts, us, p1, s1);
      assert (s2 + s1)[1..] == s1;
    } else {
      var last := s2[|s2| - 1];
      assert s2[1..][|s2| - 2] == last && s2[0] != last;
      ChainJoin(ts, us, p1, s1, ts[p2].nextSen, s2[1..]);
      assert (s2 + s1)[1..] == s2[1..] + s1;
    }
  }

  // ----- What a compiled condition promises

  /** `code` is `ts` on [lo, hi), with the true list sent to T and the false list to F. */
  ghost predicate Fills(code: seq<FourTuple>, ts: seq<FourTuple>, lo: int, hi: int,
                        tl: seq<int>, fl: seq<int>, T: int, F: int) {
    && 0 <= lo <= hi <= |ts| && hi <= |code|
    && forall i :: lo <= i < hi ==>
        code[i] == if i in tl then ts[i].(nextSen := T) else if i in fl then ts[i].(nextSen := F) else ts[i]
  }

  /** However the two pending lists are filled in, the stretch [lo, hi) decides `e`. */
  ghost predicate Decides(e: BoolExp, ts: seq<FourTuple>, lo: int, hi: int, tl: seq<int>, fl: seq<int>) {
    forall code: seq<FourTuple>, env: Env, T: int, F: int :: Fills(code, ts, lo, hi, tl, fl, T, F) ==>
      Reaches(code, env, lo, lo, hi, if Eval(e, env) then T else F)
  }

  /** The pending lists of one condition: non-empty, repetition-free, apart, inside its own stretch of code. */
  ghost predicate Pending(ts: seq<FourTuple>, lo: int, hi: int, th: int, tl: seq<int>, fh: int, fl: seq<int>) {
    && tl != [] && fl != [] && Chain(ts, th, tl) && Chain(ts, fh, fl)
    && NoRepeat(tl) && NoRepeat(fl) && Apart(tl, fl) && InRange(tl, lo, hi) && InRange(fl, lo, hi)
  }

  /** `us` is `ts` with the jumps in `ids` patched to `target`. */
  ghost predicate Patched(us: seq<FourTuple>, ts: seq<FourTuple>, ids: seq<int>, target: int) {
    && |us| == |ts|
    && forall i :: 0 <= i < |ts| ==> us[i] == if i in ids then ts[i].(nextSen := target) else ts[i]
  }

  lemma DecidesFrame(e: BoolExp, ts: seq<FourTuple>, us: seq<FourTuple>, lo: int, hi: int, tl: seq<int>, fl: seq<int>)
    requires Decides(e, ts, lo, hi, tl, fl) && 0 <= lo <= hi <= |ts| <= |us|
    requires forall i :: lo <= i < hi ==> us[i] == ts[i]
    ensures Decides(e, us, lo, hi, tl, fl)
  {
    forall code: seq<FourTuple>, env: Env, T: int, F: int | Fills(code, us, lo, hi, tl, fl, T, F)
      ensures Reaches(code, env, lo, lo, hi, if Eval(e, env) then T else F)
    {
      assert Fills(code, ts, lo, hi, tl, fl, T, F);
    }
  }

  lemma NotDecides(e: BoolExp, ts: seq<FourTuple>, lo: int, hi: int, tl: seq<int>, fl: seq<int>)
    requires Decides(e, ts, lo, hi, tl, fl) && Apart(tl, fl)
    ensures Decides(Not(e), ts, lo, hi, fl, tl)
  {
    forall code: seq<FourTuple>, env: Env, T: int, F: int | Fills(code, ts, lo, hi, fl, tl, T, F)
      ensures Reaches(code, env, lo, lo, hi, if Eval(Not(e), env) then T else F)
    {
      assert Fills(code, ts, lo, hi, tl, fl, F, T);
      assert Reaches(code, env, lo, lo, hi, if Eval(e, env) then F else T);
    }
  }

  lemma VarDecides(x: string, ts: seq<FourTuple>, lo: int, hi: int)
    requires 0 <= lo && |ts| == hi == lo + 2
    requires ts[lo].op == "jnz" && ts[lo].first == x && ts[lo + 1].op == "j"
    ensures Decides(Var(x), ts, lo, hi, [lo], [lo + 1])
  {
    var tl, fl := [lo], [lo + 1];
    forall code: seq<FourTuple>, env: Env, T: int, F: int | Fills(code, ts, lo, hi, tl, fl, T, F)
      ensures Reaches(code, env, lo, lo, hi, if Eval(Var(x), env) then T else F)
    {
      assert code[lo].op == "jnz" && code[lo].nextSen == T && code[lo + 1].op == "j" && code[lo + 1].nextSen == F;
      if env(x) {
        assert Runs(code, env, T, lo, hi, T, 0);
        assert Runs(code, env, lo, lo, hi, T, 1);
      } else {
        assert Runs(code, env, F, lo, hi, F, 0);
        assert Runs(code, env, lo + 1, lo, hi, F, 1);
        assert Runs(code, env, lo, lo, hi, F, 2);
      }
    }
  }

  /** `us` is `ts` after one list, `done`, was patched to `mid` and jumps in `open` were relinked. */
  ghost predicate Combined(us: seq<FourTuple>, ts: seq<FourTuple>, done: seq<int>, mid: int, open: seq<int>) {
    && |us| == |ts|
    && forall i :: 0 <= i < |ts| ==>
        us[i] == if i in done then ts[i].(nextSen := mid)
                 else if i in open then ts[i].(nextSen := us[i].nextSen) else ts[i]
  }

  lemma AndDecides(l: BoolExp, r: BoolExp, ts: seq<FourTuple>, us: seq<FourTuple>, lo: int, mid: int, hi: int,
                   tl1: seq<int>, fl1: seq<int>, tl2: seq<int>, fl2: seq<int>, fl: seq<int>)
    requires Decides(l, ts, lo, mid, tl1, fl1) && Decides(r, ts, mid, hi, tl2, fl2)
    requires 0 <= lo <= mid <= hi <= |ts|
    requires InRange(tl1, lo, mid) && InRange(fl1, lo, mid) && InRange(tl2, mid, hi) && InRange(fl2, mid, hi)
    requires Apart(tl1, fl1) && Apart(tl2, fl2) && forall i :: i in fl <==> i in fl1 || i in fl2
    requires Combined(us, ts, tl1, mid, fl)
    ensures Decides(And(l, r), us, lo, hi, tl2, fl)
  {
    forall code: seq<FourTuple>, env: Env, T: int, F: int | Fills(code, us, lo, hi, tl2, fl, T, F)
      ensures Reaches(code, env, lo, lo, hi, if Eval(And(l, r), env) then T else F)
    {
      assert Fills(code, ts, lo, mid, tl1, fl1, mid, F);
      assert Fills(code, ts, mid, hi, tl2, fl2, T, F);
      if Eval(l, env) {
        ReachesThrough(code, env, lo, mid, hi, if Eval(r, env) then T else F);
      } else {
        ReachesWithin(code, env, lo, mid, hi, F);
      }
    }
  }

  lemma OrDecides(l: BoolExp, r: BoolExp, ts: seq<FourTuple>, us: seq<FourTuple>, lo: int, mid: int, hi: int,
                  tl1: seq<int>, fl1: seq<int>, tl2: seq<int>, fl2: seq<int>, tl: seq<int>)
    requires Decides(l, ts, lo, mid, tl1, fl1) && Decides(r, ts, mid, hi, tl2, fl2)
    requires 0 <= lo <= mid <= hi <= |ts|
    requires InRange(tl1, lo, mid) && InRange(fl1, lo, mid) && InRange(tl2, mid, hi) && InRange(fl2, mid, hi)
    requires Apart(tl1, fl1) && Apart(tl2, fl2) && forall i :: i in tl <==> i in tl1 || i in tl2
    requires Combined(us, ts, fl1, mid, tl)
    ensures Decides(Or(l, r), us, lo, hi, tl, fl2)
  {
    forall code: seq<FourTuple>, env: Env, T: int, F: int | Fills(code, us, lo, hi, tl, fl2, T, F)
      ensures Reaches(code, env, lo, lo, hi, if Eval(Or(l, r), env) then T else F)
    {
      assert Fills(code, ts, lo, mid, tl1, fl1, T, mid);
      assert Fills(code, ts, mid, hi, tl2, fl2, T, F);
      if Eval(l, env) {
        ReachesWithin(code, env, lo, mid, hi, T);
      } else {
        ReachesThrough(code, env, lo, mid, hi, if Eval(r, env) then T else F);
      }
    }
  }
}

/** The actions of CreateMidcode for conditions, on its stacks and quads. */
module CreateMidcode {
  import opened Conditions

  const BOOL_T := 2

  /** The actions in the order in which the parser performs them. */
  datatype Action = Operand(name: string) | MarkQuad | AndRule | OrRule | NotRule

  class CodeGen {
    var tc: seq<int>
    var fc: seq<int>
    var mQuad: seq<int>
    var nextQuad: int
    var tuples: seq<FourTuple>
    var variableTable: map<string, int>
    var operands: seq<string>
    ghost var trace: seq<Action>

    ghost predicate Valid()
      reads this
    {
      nextQuad == |tuples|
    }

    constructor (variables: map<string, int>)
      ensures Valid() && tuples == [] && tc == [] && fc == [] && mQuad == [] && operands == [] && trace == []
      ensures variableTable == variables
    {
      tc, fc, mQuad, tuples, operands := [], [], [], [], [];
      nextQuad := 0;
      variableTable := variables;
      trace := [];
    }

    method CreateFourTuple(op: string, first: string, second: string, result: string)
      requires Valid()
      modifies this`nextQuad, this`tuples
      ensures Valid() && tuples == old(tuples) + [FourTuple(op, first, second, result, -1)]
    {
      nextQuad := nextQuad + 1;
      tuples := tuples + [FourTuple(op, first, second, result, -1)];
    }

    /** merge: list p1 is appended to list p2; a p2 outside the code is handed back untouched. */
    method Merge(p1: int, p2: int, ghost s1: seq<int>, ghost s2: seq<int>) returns (r: int)
      requires 0 <= p2 < |tuples| ==> Chain(tuples, p1, s1) && Chain(tuples, p2, s2) && NoRepeat(s2) && Apart(s1, s2)
      modifies this`tuples
      ensures r == p2
      ensures !(0 <= p2 < |old(tuples)|) ==> tuples == old(tuples)
      ensures 0 <= p2 < |old(tuples)| ==>
                && s2 != [] && 0 <= s2[|s2| - 1] < |old(tuples)| && Chain(tuples, p2, s2 + s1)
                && tuples == old(tuples)[s2[|s2| - 1] := old(tuples)[s2[|s2| - 1]].(nextSen := p1)]
    {
      if p2 < 0 || p2 >= |tuples| {
        return p2;
      }
      var index := p2;
      ghost var k := 0;
      ChainAt(tuples, p2, s2, 0);
      while tuples[index].nextSen != -1
        invariant k < |s2| && 0 <= index < |tuples| && index == s2[k] && Chain(tuples, p2, s2)
        invariant tuples[index].nextSen == if k + 1 < |s2| then s2[k + 1] else -1
        invariant tuples == old(tuples)
        decreases |s2| - k
      {
        index := tuples[index].nextSen;
        k := k + 1;
        ChainAt(tuples, p2, s2, k);
      }
      if k + 1 < |s2| {
        ChainAt(tuples, p2, s2, k + 1);
      }
      tuples := tuples[index := tuples[index].(nextSen := p1)];
      ChainJoin(old(tuples), tuples, p1, s1, p2, s2);
      return p2;
    }

    /** backpatch: exactly the quads of the list get the target. */
    method Backpatch(list: int, ft: int, ghost ids: seq<int>)
      requires Chain(tuples, list, ids) && NoRepeat(ids) && ids != []
      modifies this`tuples
      ensures Patched(tuples, old(tuples), ids, ft)
    {
      ChainAt(tuples, list, ids, 0);
      var next := tuples[list].nextSen;
      tuples := tuples[list := tuples[list].(nextSen := ft)];
      ghost var k := 1;
      while next >= 0
        invariant 1 <= k <= |ids| && next == (if k < |ids| then ids[k] else -1)
        invariant Patched(tuples, old(tuples), ids[..k], ft)
        decreases |ids| - k
      {
        ChainAt(old(tuples), list, ids, k);
        assert ids[k] !in ids[..k];
        var tmp := tuples[next].nextSen;
        tuples := tuples[next := tuples[next].(nextSen := ft)];
        next := tmp;
        assert ids[..k + 1] == ids[..k] + [ids[k]];
        k := k + 1;
      }
      if k < |ids| {
        ChainAt(old(tuples), list, ids, k);
      }
      assert ids[..k] == ids;
    }

    /** Joins the two lists on top of a stack, `a` below `b`; C++ leaves open which is popped first. */
    method MergeTop(a: int, b: int, ghost sa: seq<int>, ghost sb: seq<int>) returns (r: int, ghost s: seq<int>)
      requires Chain(tuples, a, sa) && Chain(tuples, b, sb) && sa != [] && sb != []
      requires NoRepeat(sa) && NoRepeat(sb) && Apart(sa, sb)
      modifies this`tuples
      ensures (s == sa + sb || s == sb + sa) && NoRepeat(s) && Chain(tuples, r, s)
      ensures Combined(tuples, old(tuples), [], 0, s)
    {
      ChainRange(tuples, a, sa);
      ChainRange(tuples, b, sb);
      assert Apart(sb, sa);
      if * {
        r := Merge(a, b, sa, sb);
        s := sb + sa;
        NoRepeatJoin(sb, sa);
        assert sb[|sb| - 1] in s;
      } else {
        r := Merge(b, a, sb, sa);
        s := sa + sb;
        NoRepeatJoin(sa, sb);
        assert sa[|sa| - 1] in s;
      }
    }

    /** I(25), and. */
    method AndRule(ghost tl1: seq<int>, ghost fl1: seq<int>, ghost tl2: seq<int>, ghost fl2: seq<int>)
      returns (ghost fl: seq<int>)
      requires Valid() && |tc| >= 2 && |fc| >= 2 && |mQuad| >= 1
      requires TwoPending(tl1, fl1, tl2, fl2)
      modifies this`tc, this`fc, this`mQuad, this`tuples, this`trace
      ensures Valid() && trace == old(trace) + [Action.AndRule] && mQuad == old(mQuad)[..|old(mQuad)| - 1]
      ensures tc == old(tc)[..|old(tc)| - 2] + [old(tc)[|old(tc)| - 1]]
      ensures fc != [] && fc[..|fc| - 1] == old(fc)[..|old(fc)| - 2] && |fc| == |old(fc)| - 1
      ensures (fl == fl1 + fl2 || fl == fl2 + fl1) && NoRepeat(fl)
      ensures Chain(tuples, tc[|tc| - 1], tl2) && Chain(tuples, fc[|fc| - 1], fl)
      ensures Combined(tuples, old(tuples), tl1, old(mQuad)[|old(mQuad)| - 1], fl)
    {
      var m := mQuad[|mQuad| - 1];
      mQuad := mQuad[..|mQuad| - 1];
      var tcId := tc[|tc| - 1];
      var t := tc[|tc| - 2];
      tc := tc[..|tc| - 2];
      Backpatch(t, m, tl1);
      ghost var mid := tuples;
      ChainFrame(old(tuples), tuples, tcId, tl2);
      ChainFrame(old(tuples), tuples, fc[|fc| - 2], fl1);
      ChainFrame(old(tuples), tuples, fc[|fc| - 1], fl2);
      var fcId;
      fcId, fl := MergeTop(fc[|fc| - 2], fc[|fc| - 1], fl1, fl2);
      ChainFrame(mid, tuples, tcId, tl2);
      fc := fc[..|fc| - 2] + [fcId];
      tc := tc + [tcId];
      trace := trace + [Action.AndRule];
    }

    /** I(26), or. */
    method OrRule(ghost tl1: seq<int>, ghost fl1: seq<int>, ghost tl2: seq<int>, ghost fl2: seq<int>)
      returns (ghost tl: seq<int>)
      requires Valid() && |tc| >= 2 && |fc| >= 2 && |mQuad| >= 1
      requires TwoPending(tl1, fl1, tl2, fl2)
      modifies this`tc, this`fc, this`mQuad, this`tuples, this`trace
      ensures Valid() && trace == old(trace) + [Action.OrRule] && mQuad == old(mQuad)[..|old(mQuad)| - 1]
      ensures fc == old(fc)[..|old(fc)| - 2] + [old(fc)[|old(fc)| - 1]]
      ensures tc != [] && tc[..|tc| - 1] == old(tc)[..|old(tc)| - 2] && |tc| == |old(tc)| - 1
      ensures (tl == tl1 + tl2 || tl == tl2 + tl1) && NoRepeat(tl)
      ensures Chain(tuples, tc[|tc| - 1], tl) && Chain(tuples, fc[|fc| - 1], fl2)
      ensures Combined(tuples, old(tuples), fl1, old(mQuad)[|old(mQuad)| - 1], tl)
    {
      var m := mQuad[|mQuad| - 1];
      mQuad := mQuad[..|mQuad| - 1];
      var fcId := fc[|fc| - 1];
      var f := fc[|fc| - 2];
      fc := fc[..|fc| - 2];
      Backpatch(f, m, fl1);
      ghost var mid := tuples;
      ChainFrame(old(tuples), tuples, fcId, fl2);
      ChainFrame(old(tuples), tuples, tc[|tc| - 2], tl1);
      ChainFrame(old(tuples), tuples, tc[|tc| - 1], tl2);
      var tcId;
      tcId, tl := MergeTop(tc[|tc| - 2], tc[|tc| - 1], tl1, tl2);
      ChainFrame(mid, tuples, fcId, fl2);
      tc := tc[..|tc| - 2] + [tcId];
      fc := fc + [fcId];
      trace := trace + [Action.OrRule];
    }

    /** The top two entries of both stacks head four lists that share no quad. */
    ghost predicate TwoPending(tl1: seq<int>, fl1: seq<int>, tl2: seq<int>, fl2: seq<int>)
      requires |tc| >= 2 && |fc| >= 2
      reads this
    {
      && tl1 != [] && fl1 != [] && tl2 != [] && fl2 != []
      && Chain(tuples, tc[|tc| - 2], tl1) && Chain(tuples, fc[|fc| - 2], fl1)
      && Chain(tuples, tc[|tc| - 1], tl2) && Chain(tuples, fc[|fc| - 1], fl2)
      && NoRepeat(tl1) && NoRepeat(fl1) && NoRepeat(tl2) && NoRepeat(fl2)
      && Apart(tl1, fl1) && Apart(tl2, fl2)
      && Apart(tl1, tl2) && Apart(tl1, fl2) && Apart(fl1, tl2) && Apart(fl1, fl2)
    }

    /** I(20), not: the two lists change sides. */
    method NotRule()
      requires Valid() && |tc| >= 1 && |fc| >= 1
      modifies this`tc, this`fc, this`trace
      ensures Valid() && trace == old(trace) + [Action.NotRule]
      ensures tc == old(tc)[..|old(tc)| - 1] + [old(fc)[|old(fc)| - 1]]
      ensures fc == old(fc)[..|old(fc)| - 1] + [old(tc)[|old(tc)| - 1]]
    {
      var tcId := fc[|fc| - 1];
      fc := fc[..|fc| - 1];
      var fcId := tc[|tc| - 1];
      tc := tc[..|tc| - 1];
      tc := tc + [tcId];
      fc := fc + [fcId];
      trace := trace + [Action.NotRule];
    }

    /** R: the number of the next quad is kept for backpatching. */
    method R()
      modifies this`mQuad, this`trace
      ensures mQuad == old(mQuad) + [nextQuad] && trace == old(trace) + [MarkQuad]
    {
      mQuad := mQuad + [nextQuad];
      trace := trace + [MarkQuad];
    }

    method StoreVariable(name: string)
      modifies this`operands
      ensures operands == old(operands) + [name]
    {
      operands := operands + [name];
    }

    /** F(13): a variable becomes a conditional and an unconditional jump, both still open. */
    method F() returns (r: int)
      requires Valid() && operands != []
      modifies this`tc, this`fc, this`operands, this`nextQuad, this`tuples, this`trace
      ensures Valid()
      ensures var x, n := old(operands)[|old(operands)| - 1], old(nextQuad);
        if x in variableTable && variableTable[x] == BOOL_T then
          && r == 0 && operands == old(operands)[..|old(operands)| - 1] && trace == old(trace) + [Operand(x)]
          && tc == old(tc) + [n] && fc == old(fc) + [n + 1]
          && tuples == old(tuples) + [FourTuple("jnz", x, "-", "-1", -1), FourTuple("j", "-", "-", "-1", -1)]
        else
          && r == (if x in variableTable then 0 else -1) && operands == old(operands) && trace == old(trace)
          && tc == old(tc) && fc == old(fc) && tuples == old(tuples)
    {
      var name := operands[|operands| - 1];
      if name !in variableTable {
        return -1;
      }
      if variableTable[name] == BOOL_T {
        tc := tc + [nextQuad];
        fc := fc + [nextQuad + 1];
        CreateFourTuple("jnz", name, "-", "-1");
        CreateFourTuple("j", "-", "-", "-1");
        operands := operands[..|operands| - 1];
        trace := trace + [Operand(name)];
      }
      return 0;
    }

    ghost predicate Declared(e: BoolExp)
      reads this`variableTable
    {
      forall x :: x in Vars(e) ==> x in variableTable && variableTable[x] == BOOL_T
    }

    /** All actions for one condition.  It adds its quads and one entry to each stack, touches nothing older,
      * and what it adds decides the condition. */
    method Generate(e: BoolExp) returns (ghost tl: seq<int>, ghost fl: seq<int>)
      requires Valid() && Declared(e)
      modifies this`tc, this`fc, this`mQuad, this`operands, this`nextQuad, this`tuples, this`trace
      ensures Valid() && mQuad == old(mQuad) && operands == old(operands) && trace == old(trace) + Actions(e)
      ensures |tc| == |old(tc)| + 1 && tc[..|old(tc)|] == old(tc)
      ensures |fc| == |old(fc)| + 1 && fc[..|old(fc)|] == old(fc)
      ensures |tuples| >= |old(tuples)| && tuples[..|old(tuples)|] == old(tuples)
      ensures Pending(tuples, |old(tuples)|, |tuples|, tc[|old(tc)|], tl, fc[|old(fc)|], fl)
      ensures Decides(e, tuples, |old(tuples)|, |tuples|, tl, fl)
      decreases e
    {
      match e
      case Var(x) =>
        StoreVariable(x);
        var _ := F();
        tl, fl := [|old(tuples)|], [|old(tuples)| + 1];
        VarDecides(x, tuples, |old(tuples)|, |tuples|);
        assert Chain(tuples, -1, tl[1..]) && Chain(tuples, -1, fl[1..]);
      case Not(a) =>
        fl, tl := Generate(a);
        NotRule();
        NotDecides(a, tuples, |old(tuples)|, |tuples|, fl, tl);
      case And(l, r) =>
        tl, fl := GenerateAnd(l, r);
      case Or(l, r) =>
        tl, fl := GenerateOr(l, r);
    }

    method FinishAnd(ghost l: BoolExp, ghost r: BoolExp, ghost lo: int, ghost mid: int, ghost tl1: seq<int>,
                     ghost fl1: seq<int>, ghost tl2: seq<int>, ghost fl2: seq<int>)
      returns (ghost tl: seq<int>, ghost fl: seq<int>)
      requires Valid() && |tc| >= 2 && |fc| >= 2 && |mQuad| >= 1 && mQuad[|mQuad| - 1] == mid
      requires 0 <= lo <= mid <= |tuples|
      requires Pending(tuples, lo, mid, tc[|tc| - 2], tl1, fc[|fc| - 2], fl1) && Decides(l, tuples, lo, mid, tl1, fl1)
      requires Pending(tuples, mid, |tuples|, tc[|tc| - 1], tl2, fc[|fc| - 1], fl2)
      requires Decides(r, tuples, mid, |tuples|, tl2, fl2)
      modifies this`tc, this`fc, this`mQuad, this`tuples, this`trace
      ensures Valid() && trace == old(trace) + [Action.AndRule] && mQuad == old(mQuad)[..|old(mQuad)| - 1]
      ensures |tc| == |old(tc)| - 1 && tc[..|tc| - 1] == old(tc)[..|tc| - 1]
      ensures |fc| == |old(fc)| - 1 && fc[..|fc| - 1] == old(fc)[..|fc| - 1]
      ensures |tuples| == |old(tuples)| && tuples[..lo] == old(tuples)[..lo]
      ensures Pending(tuples, lo, |tuples|, tc[|tc| - 1], tl, fc[|fc| - 1], fl)
      ensures Decides(And(l, r), tuples, lo, |tuples|, tl, fl)
    {
      ghost var before := tuples;
      fl := AndRule(tl1, fl1, tl2, fl2);
      tl := tl2;
      AndDecides(l, r, before, tuples, lo, mid, |tuples|, tl1, fl1, tl2, fl2, fl);
    }

    /** The actions for both operands of an operator, with the mark between them. */
    method BothSides(l: BoolExp, r: BoolExp, ghost e: BoolExp)
      returns (ghost mid: int, ghost tl1: seq<int>, ghost fl1: seq<int>, ghost tl2: seq<int>, ghost fl2: seq<int>)
      requires Valid() && Declared(l) && Declared(r) && (e == And(l, r) || e == Or(l, r))
      modifies this`tc, this`fc, this`mQuad, this`operands, this`nextQuad, this`tuples, this`trace
      ensures Valid() && mQuad == old(mQuad) + [mid] && operands == old(operands)
      ensures trace == old(trace) + (Actions(l) + [MarkQuad] + Actions(r))
      ensures |tc| == |old(tc)| + 2 && tc[..|old(tc)|] == old(tc)
      ensures |fc| == |old(fc)| + 2 && fc[..|old(fc)|] == old(fc)
      ensures |old(tuples)| <= mid <= |tuples| && tuples[..|old(tuples)|] == old(tuples)
      ensures Pending(tuples, |old(tuples)|, mid, tc[|old(tc)|], tl1, fc[|old(fc)|], fl1)
      ensures Decides(l, tuples, |old(tuples)|, mid, tl1, fl1)
      ensures Pending(tuples, mid, |tuples|, tc[|old(tc)| + 1], tl2, fc[|old(fc)| + 1], fl2)
      ensures Decides(r, tuples, mid, |tuples|, tl2, fl2)
      decreases e, 0
    {
      ghost var lo := |tuples|;
      tl1, fl1 := Generate(l);
      ghost var left := tuples;
      mid := |tuples|;
      R();
      tl2, fl2 := Generate(r);
      ghost var both := tuples;
      ChainFrame(left, both, tc[|old(tc)|], tl1);
      ChainFrame(left, both, fc[|old(fc)|], fl1);
      DecidesFrame(l, left, both, lo, mid, tl1, fl1);
    }

    method GenerateAnd(l: BoolExp, r: BoolExp) returns (ghost tl: seq<int>, ghost fl: seq<int>)
      requires Valid() && Declared(And(l, r))
      modifies this`tc, this`fc, this`mQuad, this`operands, this`nextQuad, this`tuples, this`trace
      ensures Valid() && mQuad == old(mQuad) && operands == old(operands) && trace == old(trace) + Actions(And(l, r))
      ensures |tc| == |old(tc)| + 1 && tc[..|old(tc)|] == old(tc)
      ensures |fc| == |old(fc)| + 1 && fc[..|old(fc)|] == old(fc)
      ensures |tuples| >= |old(tuples)| && tuples[..|old(tuples)|] == old(tuples)
      ensures Pending(tuples, |old(tuples)|, |tuples|, tc[|old(tc)|], tl, fc[|old(fc)|], fl)
      ensures Decides(And(l, r), tuples, |old(tuples)|, |tuples|, tl, fl)
      decreases And(l, r), 1
    {
      ghost var lo := |tuples|;
      ghost var mid, tl1, fl1, tl2, fl2 := BothSides(l, r, And(l, r));
      tl, fl := FinishAnd(l, r, lo, mid, tl1, fl1, tl2, fl2);
    }

    method FinishOr(ghost l: BoolExp, ghost r: BoolExp, ghost lo: int, ghost mid: int, ghost tl1: seq<int>,
                    ghost fl1: seq<int>, ghost tl2: seq<int>, ghost fl2: seq<int>)
      returns (ghost tl: seq<int>, ghost fl: seq<int>)
      requires Valid() && |tc| >= 2 && |fc| >= 2 && |mQuad| >= 1 && mQuad[|mQuad| - 1] == mid
      requires 0 <= lo <= mid <= |tuples|
      requires Pending(tuples, lo, mid, tc[|tc| - 2], tl1, fc[|fc| - 2], fl1) && Decides(l, tuples, lo, mid, tl1, fl1)
      requires Pending(tuples, mid, |tuples|, tc[|tc| - 1], tl2, fc[|fc| - 1], fl2)
      requires Decides(r, tuples, mid, |tuples|, tl2, fl2)
      modifies this`tc, this`fc, this`mQuad, this`tuples, this`trace
      ensures Valid() && trace == old(trace) + [Action.OrRule] && mQuad == old(mQuad)[..|old(mQuad)| - 1]
      ensures |tc| == |old(tc)| - 1 && tc[..|tc| - 1] == old(tc)[..|tc| - 1]
      ensures |fc| == |old(fc)| - 1 && fc[..|fc| - 1] == old(fc)[..|fc| - 1]
      ensures |tuples| == |old(tuples)| && tuples[..lo] == old(tuples)[..lo]
      ensures Pending(tuples, lo, |tuples|, tc[|tc| - 1], tl, fc[|fc| - 1], fl)
      ensures Decides(Or(l, r), tuples, lo, |tuples|, tl, fl)
    {
      ghost var before := tuples;
      tl := OrRule(tl1, fl1, tl2, fl2);
      fl := fl2;
      OrDecides(l, r, before, tuples, lo, mid, |tuples|, tl1, fl1, tl2, fl2, tl);
    }

    method GenerateOr(l: BoolExp, r: BoolExp) returns (ghost tl: seq<int>, ghost fl: seq<int>)
      requires Valid() && Declared(Or(l, r))
      modifies this`tc, this`fc, this`mQuad, this`operands, this`nextQuad, this`tuples, this`trace
      ensures Valid() && mQuad == old(mQuad) && operands == old(operands) && trace == old(trace) + Actions(Or(l, r))
      ensures |tc| == |old(tc)| + 1 && tc[..|old(tc)|] == old(tc)
      ensures |fc| == |old(fc)| + 1 && fc[..|old(fc)|] == old(fc)
      ensures |tuples| >= |old(tuples)| && tuples[..|old(tuples)|] == old(tuples)
      ensures Pending(tuples, |old(tuples)|, |tuples|, tc[|old(tc)|], tl, fc[|old(fc)|], fl)
      ensures Decides(Or(l, r), tuples, |old(tuples)|, |tuples|, tl, fl)
      decreases Or(l, r), 1
    {
      ghost var lo := |tuples|;
      ghost var mid, tl1, fl1, tl2, fl2 := BothSides(l, r, Or(l, r));
      tl, fl := FinishOr(l, r, lo, mid, tl1, fl1, tl2, fl2);
    }

    /** What has come on top decides the condition, its two lists still open. */
    ghost predicate Added(e: BoolExp, tc0: seq<int>, fc0: seq<int>, ts: seq<FourTuple>, tl: seq<int>, fl: seq<int>)
      reads this
    {
      && |tc| == |tc0| + 1 && tc[..|tc0|] == tc0 && |fc| == |fc0| + 1 && fc[..|fc0|] == fc0 && ts <= tuples
      && Pending(tuples, |ts|, |tuples|, tc[|tc0|], tl, fc[|fc0|], fl) && Decides(e, tuples, |ts|, |tuples|, tl, fl)
    }

    /** The quads from `lo` on run to the place that the value of the condition selects, and not to the other one. */
    ghost predicate Translated(e: BoolExp, lo: int, T: int, F: int)
      reads this
    {
      && (forall env: Env :: Reaches(tuples, env, lo, lo, |tuples|, if Eval(e, env) then T else F))
      && (T != F && !(lo <= T < |tuples|) && !(lo <= F < |tuples|) ==>
            forall env: Env :: !Reaches(tuples, env, lo, lo, |tuples|, if Eval(e, env) then F else T))
    }

    /** The two lists on top are taken off and sent to `T` and `F`. */
    method Close(ghost e: BoolExp, T: int, F: int, ghost tc0: seq<int>, ghost fc0: seq<int>, ghost ts: seq<FourTuple>,
                 ghost tl: seq<int>, ghost fl: seq<int>)
      requires Valid() && Added(e, tc0, fc0, ts, tl, fl)
      modifies this`tc, this`fc, this`tuples
      ensures Valid() && tc == tc0 && fc == fc0 && ts <= tuples && Translated(e, |ts|, T, F)
    {
      ghost var open := tuples;
      var t := tc[|tc| - 1];
      tc := tc[..|tc| - 1];
      Backpatch(t, T, tl);
      ghost var half := tuples;
      var f := fc[|fc| - 1];
      fc := fc[..|fc| - 1];
      ChainFrame(open, half, f, fl);
      Backpatch(f, F, fl);
      assert Fills(tuples, open, |ts|, |tuples|, tl, fl, T, F);
      OnlyExit(e, tuples, |ts|, |tuples|, T, F);
    }

    /** A condition whose two lists are finally sent to `T` and `F` runs to the one its value selects, and does not
      * run to the other one. */
    method Translate(e: BoolExp, T: int, F: int)
      requires Valid() && Declared(e)
      modifies this`tc, this`fc, this`mQuad, this`operands, this`nextQuad, this`tuples, this`trace
      ensures Valid() && tc == old(tc) && fc == old(fc) && mQuad == old(mQuad) && operands == old(operands)
      ensures trace == old(trace) + Actions(e) && old(tuples) <= tuples && Translated(e, |old(tuples)|, T, F)
    {
      ghost var tl, fl := Generate(e);
      Close(e, T, F, old(tc), old(fc), old(tuples), tl, fl);
    }
  }

  lemma OnlyExit(e: BoolExp, code: seq<FourTuple>, lo: int, hi: int, T: int, F: int)
    requires forall env: Env :: Reaches(code, env, lo, lo, hi, if Eval(e, env) then T else F)
    ensures T != F && !(lo <= T < hi) && !(lo <= F < hi) ==>
      forall env: Env :: !Reaches(code, env, lo, lo, hi, if Eval(e, env) then F else T)
  {
    if T != F && !(lo <= T < hi) && !(lo <= F < hi) {
      forall env: Env ensures !Reaches(code, env, lo, lo, hi, if Eval(e, env) then F else T) {
        if Reaches(code, env, lo, lo, hi, if Eval(e, env) then F else T) {
          OneExit(code, env, lo, hi, T, F);
        }
      }
    }
  }

  /** The order of the actions for a condition: operands first, a mark between the sides, the rule last. */
  function Actions(e: BoolExp): seq<Action> {
    match e
    case Var(x) => [Operand(x)]
    case And(l, r) => Actions(l) + [MarkQuad] + Actions(r) + [Action.AndRule]
    case Or(l, r) => Actions(l) + [MarkQuad] + Actions(r) + [Action.OrRule]
    case Not(a) => Actions(a) + [Action.NotRule]
  }
}
