/** Which condition a text is, by the productions 4-6, 12, 13, 20, 25 and 26, and when its actions happen. */
module ConditionGrammar {
  import opened Conditions
  import opened CreateMidcode

  /** F, by production 13 or 12. */
  datatype Factor = Ident(name: string) | Paren(inner: Cond)
  /** E, by production 4: a factor and what follows it. */
  datatype Cond = Cond(head: Factor, rest: Rest)
  /** I, by production 27, 25 or 26. */
  datatype Rest = Done | AndThen(arg: Arg) | OrElse(arg: Arg)
  /** G I after an operator: G is a factor, or empty before a production 20. */
  datatype Arg = Plain(head: Factor, rest: Rest) | Negated(arg: Arg)

  function FactorExp(f: Factor): BoolExp
    decreases f
  {
    match f
    case Ident(x) => Var(x)
    case Paren(c) => RestExp(FactorExp(c.head), c.rest)
  }

  /** What the parser makes of a factor and its continuation: everything after an operator is its right side. */
  function RestExp(left: BoolExp, rest: Rest): BoolExp
    decreases rest
  {
    match rest
    case Done => left
    case AndThen(a) => And(left, ArgExp(a))
    case OrElse(a) => Or(left, ArgExp(a))
  }

  function ArgExp(a: Arg): BoolExp
    decreases a
  {
    match a
    case Plain(f, r) => RestExp(FactorExp(f), r)
    case Negated(b) => Not(ArgExp(b))
  }

  function CondExp(c: Cond): BoolExp {
    RestExp(FactorExp(c.head), c.rest)
  }

  /** The actions in the order of the marks X and R on the parser's stack. */
  function FactorActions(f: Factor): seq<Action> {
    match f
    case Ident(x) => [Operand(x)]
    case Paren(c) => FactorActions(c.head) + RestActions(c.rest)
  }

  function RestActions(r: Rest): seq<Action> {
    match r
    case Done => []
    case AndThen(a) => [MarkQuad] + ArgActions(a) + [Action.AndRule]
    case OrElse(a) => [MarkQuad] + ArgActions(a) + [Action.OrRule]
  }

  function ArgActions(a: Arg): seq<Action> {
    match a
    case Plain(f, r) => FactorActions(f) + RestActions(r)
    case Negated(b) => ArgActions(b) + [Action.NotRule]
  }

  function CondActions(c: Cond): seq<Action> {
    FactorActions(c.head) + RestActions(c.rest)
  }

  /** In the order of the marks the actions are those that `CodeGen.Generate` performs for the expression. */
  lemma {:induction false} ParserActions(c: Cond)
    ensures CondActions(c) == Actions(CondExp(c))
  {
    FactorOrder(c.head);
    RestOrder(FactorExp(c.head), c.rest);
  }

  lemma {:induction false} FactorOrder(f: Factor)
    ensures FactorActions(f) == Actions(FactorExp(f))
  {
    if f.Ident? {
    } else {
      FactorOrder(f.inner.head);
      RestOrder(FactorExp(f.inner.head), f.inner.rest);
    }
  }

  lemma {:induction false} RestOrder(left: BoolExp, r: Rest)
    ensures Actions(RestExp(left, r)) == Actions(left) + RestActions(r)
    decreases r
  {
    if r.Done? {
    } else {
      ArgOrder(r.arg);
      var last := if r.AndThen? then Action.AndRule else Action.OrRule;
      assert Actions(left) + [MarkQuad] + ArgActions(r.arg) + [last] ==
        Actions(left) + ([MarkQuad] + ArgActions(r.arg) + [last]);
    }
  }

  lemma {:induction false} ArgOrder(a: Arg)
    ensures ArgActions(a) == Actions(ArgExp(a))
  {
    match a
    case Plain(f, r) =>
      FactorOrder(f);
      RestOrder(FactorExp(f), r);
    case Negated(b) =>
      ArgOrder(b);
  }

  // ----- The words of a condition

  /** A word and, for an identifier, its name; the numbers are those of the scanner. */
  datatype Word = Word(id: int, name: string)

  const AMP := Word(26, "")
  const BAR := Word(27, "")
  const BANG := Word(28, "")
  const OPEN := Word(17, "")
  const CLOSE := Word(18, "")

  function Label(name: string): Word {
    Word(33, name)
  }

  function FactorWords(f: Factor): (w: seq<Word>)
    ensures w != []
    decreases f
  {
    match f
    case Ident(x) => [Label(x)]
    case Paren(c) => [OPEN] + (FactorWords(c.head) + RestWords(c.rest)) + [CLOSE]
  }

  function RestWords(r: Rest): seq<Word>
    decreases r
  {
    match r
    case Done => []
    case AndThen(a) => [AMP] + ArgWords(a)
    case OrElse(a) => [BAR] + ArgWords(a)
  }

  function ArgWords(a: Arg): (w: seq<Word>)
    ensures w != []
    decreases a
  {
    match a
    case Plain(f, r) => FactorWords(f) + RestWords(r)
    case Negated(b) => [BANG] + ArgWords(b)
  }

  function CondWords(c: Cond): (w: seq<Word>)
    ensures w != []
  {
    FactorWords(c.head) + RestWords(c.rest)
  }

  // ----- There is no precedence

  /** An operator, the negations behind it, and a name. */
  datatype Link = Link(conjunction: bool, nots: nat, name: string)

  function Bangs(n: nat): seq<Word> {
    seq(n, _ => BANG)
  }

  /** A text without parentheses. */
  function FlatWords(x: string, links: seq<Link>): seq<Word>
    decreases |links|, 1
  {
    [Label(x)] + LinkWords(links)
  }

  function LinkWords(links: seq<Link>): seq<Word>
    decreases |links|, 0
  {
    if links == [] then []
    else [if links[0].conjunction then AMP else BAR] + Bangs(links[0].nots) + FlatWords(links[0].name, links[1..])
  }

  /** Its meaning: every operator, and every negation, takes everything that follows. */
  function Nested(x: string, links: seq<Link>): BoolExp
    decreases |links|
  {
    if links == [] then Var(x)
    else
      var right := Nots(links[0].nots, Nested(links[0].name, links[1..]));
      if links[0].conjunction then And(Var(x), right) else Or(Var(x), right)
  }

  function Nots(n: nat, e: BoolExp): BoolExp {
    if n == 0 then e else Not(Nots(n - 1, e))
  }

  function FlatCond(x: string, links: seq<Link>): Cond {
    Cond(Ident(x), FlatRest(links))
  }

  function FlatRest(links: seq<Link>): Rest {
    if links == [] then Done
    else
      var a := Negations(links[0].nots, Plain(Ident(links[0].name), FlatRest(links[1..])));
      if links[0].conjunction then AndThen(a) else OrElse(a)
  }

  function Negations(n: nat, a: Arg): Arg {
    if n == 0 then a else Negated(Negations(n - 1, a))
  }

  lemma OneBang(n: nat, w: seq<Word>)
    requires n > 0
    ensures [BANG] + (Bangs(n - 1) + w) == Bangs(n) + w
  {}

  lemma {:induction false} NegationsMean(n: nat, a: Arg)
    ensures ArgWords(Negations(n, a)) == Bangs(n) + ArgWords(a) && ArgExp(Negations(n, a)) == Nots(n, ArgExp(a))
  {
    if n == 0 {
    } else {
      NegationsMean(n - 1, a);
      OneBang(n, ArgWords(a));
    }
  }

  lemma LinkWordsNext(l: Link, rest: seq<Link>)
    ensures LinkWords([l] + rest) == [if l.conjunction then AMP else BAR] + (Bangs(l.nots) + FlatWords(l.name, rest))
    ensures FlatRest([l] + rest) ==
      var a := Negations(l.nots, Plain(Ident(l.name), FlatRest(rest))); if l.conjunction then AndThen(a) else OrElse(a)
  {
    assert ([l] + rest)[1..] == rest;
  }

  /** The words of what follows the first name, and what they mean for a left operand. */
  lemma {:induction false} FlatRestMeans(x: string, links: seq<Link>)
    ensures RestWords(FlatRest(links)) == LinkWords(links) && RestExp(Var(x), FlatRest(links)) == Nested(x, links)
    decreases |links|
  {
    if links == [] {
    } else {
      var l, rest := links[0], links[1..];
      assert links == [l] + rest;
      FlatRestMeans(l.name, rest);
      LinkWordsNext(l, rest);
      NegationsMean(l.nots, Plain(Ident(l.name), FlatRest(rest)));
      FlatArg(l.name, FlatRest(rest));
    }
  }

  lemma FlatArg(x: string, r: Rest)
    ensures ArgWords(Plain(Ident(x), r)) == [Label(x)] + RestWords(r)
      && ArgExp(Plain(Ident(x), r)) == RestExp(Var(x), r)
  {}

  /** There is no precedence: in any text without parentheses the right operand of every operator is everything
    * behind it, and a negation takes everything behind it. */
  lemma NoPrecedence(x: string, links: seq<Link>)
    ensures CondWords(FlatCond(x, links)) == FlatWords(x, links) && CondExp(FlatCond(x, links)) == Nested(x, links)
  {
    FlatRestMeans(x, links);
  }
}

/** The parser that drives the translation: its stack of symbols with the marks X, the stack of productions, and the
  * moments at which it calls the actions. */
module ConditionParser {
  import opened CreateMidcode
  import opened ConditionGrammar
  import opened Options

  /** table1, the right sides of the productions that conditions need. */
  function Right(p: int): string {
    match p
    case 4 => "GI"
    case 6 => "TO"
    case 9 => "PH"
    case 12 => "(E)"
    case 13 => "i"
    case 20 => "!GI"
    case 25 => "&RGI"
    case 26 => "|RGI"
    case 34 => "FQ"
    case _ => ""
  }

  /** table2, for the symbols and the words of conditions; -1 is an error. */
  function Production(symbol: char, id: int): int {
    if symbol == 'E' && (id == 33 || id == 17) then 4
    else if symbol == 'G' && (id == 33 || id == 17) then 6
    else if symbol == 'T' && (id == 33 || id == 17) then 9
    else if symbol == 'P' && (id == 33 || id == 17) then 34
    else if symbol == 'F' && id == 33 then 13
    else if symbol == 'F' && id == 17 then 12
    else if symbol == 'I' && id == 26 then 25
    else if symbol == 'I' && id == 27 then 26
    else if symbol == 'I' && id == 28 then 20
    else if symbol == 'G' && id == 28 then 27
    else if symbol in "HQO" && (id == 26 || id == 27 || id == 18 || id == 22) then 27
    else if symbol == 'I' && (id == 18 || id == 22) then 27
    else if symbol == 'R' && (id == 33 || id == 17 || id == 28) then 27
    else -1
  }

  /** get_id, for the words of conditions. */
  function Id(symbol: char): int {
    match symbol
    case '(' => 17
    case ')' => 18
    case ';' => 22
    case '&' => 26
    case '|' => 27
    case '!' => 28
    case 'i' => 33
    case _ => -1
  }

  /** The parser: the stack of symbols, top first, the productions waiting for their marks, the operands stored so far,
    * the words from the one at hand on, and the actions performed. */
  datatype State = State(stack: string, waiting: seq<int>, operands: seq<string>, input: seq<Word>, trace: seq<Action>)

  /** What create does for a production of a condition. */
  function Created(symbol: char, p: int, operands: seq<string>): seq<Action> {
    if symbol == 'F' && p == 13 && operands != [] then [Operand(operands[|operands| - 1])]
    else if symbol == 'I' && p == 25 then [Action.AndRule]
    else if symbol == 'I' && p == 26 then [Action.OrRule]
    else if symbol == 'I' && p == 20 then [Action.NotRule]
    else []
  }

  /** The operand that is stored when a word comes to hand. */
  function Stored(input: seq<Word>): seq<string> {
    if input != [] && input[0].id == 33 then [input[0].name] else []
  }

  /** One round of the loop of analysis; None for an error, or if there is no word or no symbol left. */
  function Round(s: State): Option<State> {
    if s.input == [] || s.stack == [] then None
    else if s.stack[0] == 'X' then
      if |s.stack| < 2 || s.waiting == [] then None
      else
        var p := s.waiting[|s.waiting| - 1];
        var used := s.stack[1] == 'F' && p == 13 && s.operands != [];
        Some(State(s.stack[2..], s.waiting[..|s.waiting| - 1],
                   if used then s.operands[..|s.operands| - 1] else s.operands,
                   s.input, s.trace + Created(s.stack[1], p, s.operands)))
    else if 'A' <= s.stack[0] <= 'Z' then
      var p := Production(s.stack[0], s.input[0].id);
      if p < 0 then None
      else
        var right := Right(p);
        Some(State(if right == "" then s.stack[1..] else right + ['X', s.stack[0]] + s.stack[1..],
                   if right == "" then s.waiting else s.waiting + [p],
                   s.operands, s.input, if s.stack[0] == 'R' then s.trace + [MarkQuad] else s.trace))
    else if s.input[0].id == Id(s.stack[0]) then
      Some(State(s.stack[1..], s.waiting, s.operands + Stored(s.input[1..]), s.input[1..], s.trace))
    else None
  }

  /** n rounds lead from one state to the other. */
  ghost predicate Rounds(round: State -> Option<State>, s: State, t: State, n: nat)
    decreases n
  {
    if n == 0 then s == t else round(s).Some? && Rounds(round, round(s).value, t, n - 1)
  }

  ghost predicate Leads(s: State, t: State) {
    exists n: nat :: Rounds(Round, s, t, n)
  }

  lemma {:induction false} RoundsOn(round: State -> Option<State>, s: State, t: State, u: State, n: nat, m: nat)
    requires Rounds(round, s, t, n) && Rounds(round, t, u, m)
    ensures Rounds(round, s, u, n + m)
    decreases n
  {
    if n == 0 {
    } else {
      RoundsOn(round, round(s).value, t, u, n - 1, m);
    }
  }

  /** What the runs below need to know of reaching one state from another. */
  ghost predicate Closed(leads: (State, State) -> bool) {
    && (forall s, t, u :: leads(s, t) && leads(t, u) ==> leads(s, u))
    && (forall s :: Round(s).Some? ==> leads(s, Round(s).value))
  }

  lemma LeadsIsClosed()
    ensures Closed(Leads)
  {
    forall s, t, u | Leads(s, t) && Leads(t, u) ensures Leads(s, u) {
      var n: nat :| Rounds(Round, s, t, n);
      var m: nat :| Rounds(Round, t, u, m);
      RoundsOn(Round, s, t, u, n, m);
    }
    forall s | Round(s).Some? ensures Leads(s, Round(s).value) {
      var t := Round(s).value;
      assert Rounds(Round, t, t, 0);
      assert Rounds(Round, s, t, 1);
    }
  }

  lemma LeadsOn(leads: (State, State) -> bool, s: State, t: State, u: State)
    requires Closed(leads) && leads(s, t) && leads(t, u)
    ensures leads(s, u)
  {}

  lemma LeadsByRound(leads: (State, State) -> bool, s: State, t: State)
    requires Closed(leads) && Round(s) == Some(t)
    ensures leads(s, t)
  {}

  /** One round more. */
  lemma Then(leads: (State, State) -> bool, s: State, t: State, u: State)
    requires Closed(leads) && leads(s, t) && Round(t) == Some(u)
    ensures leads(s, u)
  {
    LeadsByRound(leads, t, u);
  }

  /** The state in which `symbols` are on top of the stack and the words `w` at hand, the operand of the first of
    * them stored. */
  ghost function At(symbols: string, below: string, waiting: seq<int>, operands: seq<string>, w: seq<Word>,
                    trace: seq<Action>): State {
    State(symbols + below, waiting, operands + Stored(w), w, trace)
  }

  // ----- The kinds of rounds

  /** A symbol is replaced by the right side of its production, with its mark below. */
  lemma Expand(a: char, b: string, o: seq<int>, v: seq<string>, w: seq<Word>, t: seq<Action>)
    requires w != [] && 'A' <= a <= 'Z' && a != 'X' && a != 'R' && Production(a, w[0].id) >= 0
    ensures var p := Production(a, w[0].id);
      Right(p) != "" ==> Round(At([a], b, o, v, w, t)) == Some(At(Right(p), ['X', a] + b, o + [p], v, w, t))
    ensures Right(Production(a, w[0].id)) == "" ==> Round(At([a], b, o, v, w, t)) == Some(At("", b, o, v, w, t))
  {
    assert ([a] + b)[1..] == b;
    var p := Production(a, w[0].id);
    assert Right(p) + ['X', a] + b == Right(p) + (['X', a] + b);
    assert "" + b == b;
  }

  /** A final symbol meets its word. */
  lemma Match(c: char, b: string, o: seq<int>, v: seq<string>, w: seq<Word>, t: seq<Action>)
    requires w != [] && !('A' <= c <= 'Z') && w[0].id == Id(c)
    ensures Round(At([c], b, o, v, w, t)) == Some(At("", b, o, v + Stored(w), w[1..], t))
  {
    assert ([c] + b)[1..] == b && "" + b == b;
  }

  /** A mark X: the action of its production is performed, and an operand that it takes is gone. */
  lemma Fire(a: char, p: int, b: string, o: seq<int>, v: seq<string>, w: seq<Word>, t: seq<Action>)
    requires w != [] && Stored(w) == [] && !(a == 'F' && p == 13)
    ensures Round(At("", ['X', a] + b, o + [p], v, w, t)) == Some(At("", b, o, v, w, t + Created(a, p, v)))
  {
    assert "" + (['X', a] + b) == ['X', a] + b && (['X', a] + b)[2..] == b && "" + b == b;
    assert (o + [p])[..|o|] == o;
  }

  lemma FireOperand(b: string, o: seq<int>, v: seq<string>, x: string, w: seq<Word>, t: seq<Action>)
    requires w != [] && Stored(w) == []
    ensures Round(At("", ['X', 'F'] + b, o + [13], v + [x], w, t)) == Some(At("", b, o, v, w, t + [Operand(x)]))
  {
    assert "" + (['X', 'F'] + b) == ['X', 'F'] + b && (['X', 'F'] + b)[2..] == b && "" + b == b;
    assert (o + [13])[..|o|] == o && (v + [x])[..|v|] == v;
    assert v + [x] + Stored(w) == v + [x] && v + Stored(w) == v;
  }

  /** R: the mark for backpatching. */
  lemma Mark(b: string, o: seq<int>, v: seq<string>, w: seq<Word>, t: seq<Action>)
    requires w != [] && Production('R', w[0].id) == 27
    ensures Round(At("R", b, o, v, w, t)) == Some(At("", b, o, v, w, t + [MarkQuad]))
  {
    assert ("R" + b)[1..] == b && "" + b == b;
  }

  /** The symbols on top may be counted to what lies below. */
  lemma Top(c: char, more: string, b: string, o: seq<int>, v: seq<string>, w: seq<Word>, t: seq<Action>)
    ensures At([c] + more, b, o, v, w, t) == At([c], more + b, o, v, w, t)
    ensures At("", [c] + b, o, v, w, t) == At([c], b, o, v, w, t)
  {
    assert [c] + more + b == [c] + (more + b);
    assert "" + ([c] + b) == [c] + b;
  }

  /** What may follow a factor: an operator or the end of the condition. */
  predicate Follows(w: seq<Word>) {
    w != [] && (w[0].id == 26 || w[0].id == 27 || Ends(w))
  }

  /** What ends a condition: a closing parenthesis or a semicolon. */
  predicate Ends(w: seq<Word>) {
    w != [] && (w[0].id == 18 || w[0].id == 22)
  }

  lemma FirstWord(f: Factor, rest: seq<Word>)
    ensures (FactorWords(f) + rest)[0].id == if f.Ident? then 33 else 17
  {}

  /** F, an identifier: the operand stored for it is taken. */
  lemma IdentRun(leads: (State, State) -> bool, x: string, b: string, o: seq<int>, v: seq<string>, rest: seq<Word>,
                 t: seq<Action>)
    requires Closed(leads)
    requires Follows(rest)
    ensures leads(At("F", b, o, v, [Word(33, x)] + rest, t), At("", b, o, v, rest, t + [Operand(x)]))
  {
    var w, below := [Word(33, x)] + rest, ['X', 'F'] + b;
    var start, s1, s2 := At("F", b, o, v, w, t), At("i", below, o + [13], v, w, t),
      At("", below, o + [13], v + [x], rest, t);
    Expand('F', b, o, v, w, t);
    LeadsByRound(leads, start, s1);
    assert w[1..] == rest && Stored(w) == [x];
    Match('i', below, o + [13], v, w, t);
    Then(leads, start, s1, s2);
    FireOperand(b, o, v, x, rest, t);
    Then(leads, start, s2, At("", b, o, v, rest, t + [Operand(x)]));
  }

  /** F before an opening parenthesis. */
  lemma OpenRun(leads: (State, State) -> bool, b: string, o: seq<int>, v: seq<string>, inner: seq<Word>, t: seq<Action>)
    requires Closed(leads)
    ensures leads(At("F", b, o, v, [OPEN] + inner, t), At("", "E)" + (['X', 'F'] + b), o + [12], v, inner, t))
  {
    var w, below := [OPEN] + inner, ['X', 'F'] + b;
    var start, s1 := At("F", b, o, v, w, t), At("(E)", below, o + [12], v, w, t);
    Expand('F', b, o, v, w, t);
    LeadsByRound(leads, start, s1);
    assert "(E)" == ['('] + "E)";
    Top('(', "E)", below, o + [12], v, w, t);
    assert w[1..] == inner && v + Stored(w) == v;
    Match('(', "E)" + below, o + [12], v, w, t);
    Then(leads, start, s1, At("", "E)" + below, o + [12], v, inner, t));
  }

  /** F: an identifier or a condition in parentheses. */
  lemma {:induction false} FactorRun(leads: (State, State) -> bool, f: Factor, b: string, o: seq<int>, v: seq<string>,
                                     rest: seq<Word>, t: seq<Action>)
    requires Closed(leads)
    requires Follows(rest)
    ensures leads(At("F", b, o, v, FactorWords(f) + rest, t), At("", b, o, v, rest, t + FactorActions(f)))
    decreases f, 0
  {
    match f
    case Ident(x) =>
      IdentRun(leads, x, b, o, v, rest, t);
    case Paren(c) =>
      var inner := CondWords(c) + ([CLOSE] + rest);
      assert FactorWords(f) + rest == [OPEN] + inner;
      OpenRun(leads, b, o, v, inner, t);
      ParenRun(leads, c, b, o, v, rest, t);
      LeadsOn(leads, At("F", b, o, v, [OPEN] + inner, t), At("", "E)" + (['X', 'F'] + b), o + [12], v, inner, t),
              At("", b, o, v, rest, t + FactorActions(f)));
  }

  /** What follows an opening parenthesis. */
  lemma {:induction false} ParenRun(leads: (State, State) -> bool, c: Cond, b: string, o: seq<int>, v: seq<string>,
                                    rest: seq<Word>, t: seq<Action>)
    requires Closed(leads)
    requires Follows(rest)
    ensures var below := ['X', 'F'] + b;
      leads(At("", "E)" + below, o + [12], v, CondWords(c) + ([CLOSE] + rest), t),
            At("", b, o, v, rest, t + (FactorActions(c.head) + RestActions(c.rest))))
    decreases c, 1
  {
    var below, t' := ['X', 'F'] + b, t + CondActions(c);
    var start := At("", "E)" + below, o + [12], v, CondWords(c) + ([CLOSE] + rest), t);
    assert "E)" + below == ['E'] + (")" + below);
    Top('E', "", ")" + below, o + [12], v, CondWords(c) + ([CLOSE] + rest), t);
    CondRun(leads, c, ")" + below, o + [12], v, [CLOSE] + rest, t);
    var s1, s2 := At(")", below, o + [12], v, [CLOSE] + rest, t'), At("", below, o + [12], v, rest, t');
    Top(')', "", below, o + [12], v, [CLOSE] + rest, t');
    Match(')', below, o + [12], v, [CLOSE] + rest, t');
    assert ([CLOSE] + rest)[1..] == rest && v + Stored([CLOSE] + rest) == v;
    Then(leads, start, s1, s2);
    Fire('F', 12, b, o, v, rest, t');
    assert t' + Created('F', 12, v) == t';
    Then(leads, start, s2, At("", b, o, v, rest, t'));
  }

  /** E, by production 4. */
  lemma {:induction false} CondRun(leads: (State, State) -> bool, c: Cond, b: string, o: seq<int>, v: seq<string>,
                                   rest: seq<Word>, t: seq<Action>)
    requires Closed(leads)
    requires Ends(rest)
    ensures leads(At("E", b, o, v, CondWords(c) + rest, t), At("", b, o, v, rest, t + CondActions(c)))
    decreases c, 0
  {
    var w, below, o' := CondWords(c) + rest, ['X', 'E'] + b, o + [4];
    var start, t' := At("E", b, o, v, w, t), t + CondActions(c);
    assert w == FactorWords(c.head) + (RestWords(c.rest) + rest);
    FirstWord(c.head, RestWords(c.rest) + rest);
    Expand('E', b, o, v, w, t);
    LeadsByRound(leads, start, At("GI", below, o', v, w, t));
    RestFollows(c.rest, rest);
    GRun(leads, c.head, "I" + below, o', v, RestWords(c.rest) + rest, t);
    RestRun(leads, c.rest, below, o', v, rest, t + FactorActions(c.head));
    TermRun(leads, FactorWords(c.head), RestWords(c.rest), FactorActions(c.head), RestActions(c.rest), below, o', v,
      rest, t);
    LeadsOn(leads, start, At("GI", below, o', v, w, t), At("", below, o', v, rest, t'));
    Fire('E', 4, b, o, v, rest, t');
    assert t' + Created('E', 4, v) == t';
    Then(leads, start, At("", below, o', v, rest, t'), At("", b, o, v, rest, t'));
  }

  /** G I, a factor and what follows it, from the runs of the two. */
  lemma TermRun(leads: (State, State) -> bool, fw: seq<Word>, rw: seq<Word>, fa: seq<Action>, ra: seq<Action>,
                b: string, o: seq<int>, v: seq<string>, rest: seq<Word>, t: seq<Action>)
    requires Closed(leads)
    requires leads(At("G", "I" + b, o, v, fw + (rw + rest), t), At("", "I" + b, o, v, rw + rest, t + fa))
    requires leads(At("I", b, o, v, rw + rest, t + fa), At("", b, o, v, rest, t + fa + ra))
    ensures leads(At("GI", b, o, v, (fw + rw) + rest, t), At("", b, o, v, rest, t + (fa + ra)))
  {
    var w, more := (fw + rw) + rest, rw + rest;
    var t1, t2 := t + fa, t + (fa + ra);
    assert w == fw + more && t1 + ra == t2 && "GI" == ['G'] + "I";
    Top('G', "I", b, o, v, w, t);
    Top('I', "", b, o, v, more, t1);
    LeadsOn(leads, At("GI", b, o, v, w, t), At("", "I" + b, o, v, more, t1), At("", b, o, v, rest, t2));
  }

  lemma RestFollows(r: Rest, rest: seq<Word>)
    requires Ends(rest)
    ensures Follows(RestWords(r) + rest)
  {}

  /** G, by production 6 and those below it: for a factor nothing but the factor itself has an action. */
  lemma {:induction false} GRun(leads: (State, State) -> bool, f: Factor, b: string, o: seq<int>, v: seq<string>,
                                rest: seq<Word>, t: seq<Action>)
    requires Closed(leads)
    requires Follows(rest)
    ensures leads(At("G", b, o, v, FactorWords(f) + rest, t), At("", b, o, v, rest, t + FactorActions(f)))
    decreases f, 1
  {
    var w, t' := FactorWords(f) + rest, t + FactorActions(f);
    FirstWord(f, rest);
    var b1, o1 := ['O', 'X', 'G'] + b, o + [6];
    var b2, o2 := ['H', 'X', 'T'] + b1, o1 + [9];
    var b3, o3 := ['Q', 'X', 'P'] + b2, o2 + [34];
    var start := At("G", b, o, v, w, t);
    Descend('G', 'T', 'O', b, o, v, w, t);
    LeadsByRound(leads, start, At("T", b1, o1, v, w, t));
    Descend('T', 'P', 'H', b1, o1, v, w, t);
    Then(leads, start, At("T", b1, o1, v, w, t), At("P", b2, o2, v, w, t));
    Descend('P', 'F', 'Q', b2, o2, v, w, t);
    Then(leads, start, At("P", b2, o2, v, w, t), At("F", b3, o3, v, w, t));
    FactorRun(leads, f, b3, o3, v, rest, t);
    LeadsOn(leads, start, At("F", b3, o3, v, w, t), At("", b3, o3, v, rest, t'));
    Ascend(leads, 'P', 'Q', b2, o2, 34, v, rest, t');
    LeadsOn(leads, start, At("", b3, o3, v, rest, t'), At("", b2, o2, v, rest, t'));
    Ascend(leads, 'T', 'H', b1, o1, 9, v, rest, t');
    LeadsOn(leads, start, At("", b2, o2, v, rest, t'), At("", b1, o1, v, rest, t'));
    Ascend(leads, 'G', 'O', b, o, 6, v, rest, t');
    LeadsOn(leads, start, At("", b1, o1, v, rest, t'), At("", b, o, v, rest, t'));
  }

  /** A symbol whose production is two symbols: the first is expanded further. */
  lemma Descend(a: char, c: char, d: char, b: string, o: seq<int>, v: seq<string>, w: seq<Word>, t: seq<Action>)
    requires w != [] && 'A' <= a <= 'Z' && a != 'X' && a != 'R' && Production(a, w[0].id) >= 0
    requires Right(Production(a, w[0].id)) == [c, d]
    ensures Round(At([a], b, o, v, w, t)) == Some(At([c], [d, 'X', a] + b, o + [Production(a, w[0].id)], v, w, t))
  {
    var below := ['X', a] + b;
    Expand(a, b, o, v, w, t);
    assert [c, d] == [c] + [d] && [d] + below == [d, 'X', a] + b;
    Top(c, [d], below, o + [Production(a, w[0].id)], v, w, t);
  }

  /** The second symbol is empty, and the mark has no action. */
  lemma Ascend(leads: (State, State) -> bool, a: char, d: char, b: string, o: seq<int>, p: int, v: seq<string>,
               w: seq<Word>, t: seq<Action>)
    requires Closed(leads)
    requires Follows(w) && d in "QHO" && a in "PTG"
    ensures leads(At("", [d, 'X', a] + b, o + [p], v, w, t), At("", b, o, v, w, t))
  {
    var below := ['X', a] + b;
    var start := At("", [d, 'X', a] + b, o + [p], v, w, t);
    assert [d, 'X', a] + b == [d] + below;
    Top(d, "", below, o + [p], v, w, t);
    Expand(d, below, o + [p], v, w, t);
    LeadsByRound(leads, start, At("", below, o + [p], v, w, t));
    Fire(a, p, b, o, v, w, t);
    assert t + Created(a, p, v) == t;
    Then(leads, start, At("", below, o + [p], v, w, t), At("", b, o, v, w, t));
  }

  /** I: nothing, or an operator with everything behind it. */
  lemma {:induction false} RestRun(leads: (State, State) -> bool, r: Rest, b: string, o: seq<int>, v: seq<string>,
                                   rest: seq<Word>, t: seq<Action>)
    requires Closed(leads)
    requires Ends(rest)
    ensures leads(At("I", b, o, v, RestWords(r) + rest, t), At("", b, o, v, rest, t + RestActions(r)))
    decreases r
  {
    match r
    case Done =>
      assert RestWords(r) + rest == rest && t + RestActions(r) == t;
      Expand('I', b, o, v, rest, t);
      LeadsByRound(leads, At("I", b, o, v, rest, t), At("", b, o, v, rest, t));
    case AndThen(a) =>
      ArgRun(leads, a, ['X', 'I'] + b, o + [25], v, rest, t + [MarkQuad]);
      ArgStarts(a);
      OperatorRun(leads, AMP, '&', 25, ArgWords(a), ArgActions(a), b, o, v, rest, t);
    case OrElse(a) =>
      ArgRun(leads, a, ['X', 'I'] + b, o + [26], v, rest, t + [MarkQuad]);
      ArgStarts(a);
      OperatorRun(leads, BAR, '|', 26, ArgWords(a), ArgActions(a), b, o, v, rest, t);
  }

  /** The operator is read, R marks the quad, and the rule is applied when its right operand is done. */
  lemma OperatorRun(leads: (State, State) -> bool, op: Word, c: char, p: int, aw: seq<Word>, aa: seq<Action>,
                    b: string, o: seq<int>, v: seq<string>, rest: seq<Word>, t: seq<Action>)
    requires Closed(leads)
    requires Ends(rest) && ((op == AMP && c == '&' && p == 25) || (op == BAR && c == '|' && p == 26))
    requires aw != [] && Production('R', aw[0].id) == 27
    requires var below, t1 := ['X', 'I'] + b, t + [MarkQuad];
      leads(At("GI", below, o + [p], v, aw + rest, t1), At("", below, o + [p], v, rest, t1 + aa))
    ensures leads(At("I", b, o, v, ([op] + aw) + rest, t),
                  At("", b, o, v, rest, t + ([MarkQuad] + aa + Created('I', p, v))))
  {
    var w, below, o' := ([op] + aw) + rest, ['X', 'I'] + b, o + [p];
    var start, t1 := At("I", b, o, v, w, t), t + [MarkQuad];
    var s3, t2 := At("", "GI" + below, o', v, aw + rest, t1), t1 + aa;
    OperatorMarked(leads, op, c, p, aw, b, o, v, rest, t);
    assert "" + ("GI" + below) == "GI" + below;
    LeadsOn(leads, start, s3, At("", below, o', v, rest, t2));
    Fire('I', p, b, o, v, rest, t2);
    assert t2 + Created('I', p, v) == t + ([MarkQuad] + aa + Created('I', p, v));
    Then(leads, start, At("", below, o', v, rest, t2), At("", b, o, v, rest, t2 + Created('I', p, v)));
  }

  lemma OperatorMarked(leads: (State, State) -> bool, op: Word, c: char, p: int, aw: seq<Word>, b: string,
                       o: seq<int>, v: seq<string>, rest: seq<Word>, t: seq<Action>)
    requires Closed(leads)
    requires (op == AMP && c == '&' && p == 25) || (op == BAR && c == '|' && p == 26)
    requires aw != [] && Production('R', aw[0].id) == 27
    ensures leads(At("I", b, o, v, ([op] + aw) + rest, t),
                  At("", "GI" + (['X', 'I'] + b), o + [p], v, aw + rest, t + [MarkQuad]))
  {
    var more, below, o' := aw + rest, ['X', 'I'] + b, o + [p];
    assert Right(p) == [c] + "RGI";
    OperatorRead(leads, op, c, p, aw, b, o, v, rest, t);
    assert "RGI" + below == ['R'] + ("GI" + below);
    Top('R', "", "GI" + below, o', v, more, t);
    Mark("GI" + below, o', v, more, t);
    Then(leads, At("I", b, o, v, ([op] + aw) + rest, t), At("", "RGI" + below, o', v, more, t),
         At("", "GI" + below, o', v, more, t + [MarkQuad]));
  }

  lemma OperatorRead(leads: (State, State) -> bool, op: Word, c: char, p: int, aw: seq<Word>, b: string, o: seq<int>,
                     v: seq<string>, rest: seq<Word>, t: seq<Action>)
    requires Closed(leads)
    requires Production('I', op.id) == p && Right(p) == [c] + "RGI" && Id(c) == op.id && !('A' <= c <= 'Z') && aw != []
    requires op.id != 33
    ensures leads(At("I", b, o, v, ([op] + aw) + rest, t), At("", "RGI" + (['X', 'I'] + b), o + [p], v, aw + rest, t))
  {
    var w, below, o' := ([op] + aw) + rest, ['X', 'I'] + b, o + [p];
    var start, s1 := At("I", b, o, v, w, t), At([c] + "RGI", below, o', v, w, t);
    Expand('I', b, o, v, w, t);
    LeadsByRound(leads, start, s1);
    Top(c, "RGI", below, o', v, w, t);
    Match(c, "RGI" + below, o', v, w, t);
    assert w[1..] == aw + rest && v + Stored(w) == v;
    Then(leads, start, s1, At("", "RGI" + below, o', v, aw + rest, t));
  }

  lemma ArgStarts(a: Arg)
    ensures Production('R', ArgWords(a)[0].id) == 27
  {
    if a.Plain? {
      assert ArgWords(a)[0] == FactorWords(a.head)[0];
    }
  }

  /** G I behind an operator: a factor and what follows it, or an empty G and a negation. */
  lemma {:induction false} ArgRun(leads: (State, State) -> bool, a: Arg, b: string, o: seq<int>, v: seq<string>,
                                  rest: seq<Word>, t: seq<Action>)
    requires Closed(leads)
    requires Ends(rest)
    ensures leads(At("GI", b, o, v, ArgWords(a) + rest, t), At("", b, o, v, rest, t + ArgActions(a)))
    decreases a
  {
    match a
    case Plain(f, r) =>
      RestFollows(r, rest);
      GRun(leads, f, "I" + b, o, v, RestWords(r) + rest, t);
      RestRun(leads, r, b, o, v, rest, t + FactorActions(f));
      TermRun(leads, FactorWords(f), RestWords(r), FactorActions(f), RestActions(r), b, o, v, rest, t);
    case Negated(n) =>
      ArgRun(leads, n, ['X', 'I'] + b, o + [20], v, rest, t);
      NegationRun(leads, ArgWords(n), ArgActions(n), b, o, v, rest, t);
  }

  lemma NegationRun(leads: (State, State) -> bool, aw: seq<Word>, aa: seq<Action>, b: string, o: seq<int>,
                    v: seq<string>, rest: seq<Word>, t: seq<Action>)
    requires Closed(leads)
    requires Ends(rest) && aw != []
    requires var below := ['X', 'I'] + b;
      leads(At("GI", below, o + [20], v, aw + rest, t), At("", below, o + [20], v, rest, t + aa))
    ensures leads(At("GI", b, o, v, ([BANG] + aw) + rest, t), At("", b, o, v, rest, t + (aa + [Action.NotRule])))
  {
    var below, o' := ['X', 'I'] + b, o + [20];
    var start, t2 := At("GI", b, o, v, ([BANG] + aw) + rest, t), t + aa;
    var s3, s4 := At("", "GI" + below, o', v, aw + rest, t), At("", below, o', v, rest, t2);
    NegationRead(leads, aw, b, o, v, rest, t);
    assert "" + ("GI" + below) == "GI" + below;
    LeadsOn(leads, start, s3, s4);
    Fire('I', 20, b, o, v, rest, t2);
    assert t2 + Created('I', 20, v) == t + (aa + [Action.NotRule]);
    Then(leads, start, s4, At("", b, o, v, rest, t2 + Created('I', 20, v)));
  }

  lemma NegationRead(leads: (State, State) -> bool, aw: seq<Word>, b: string, o: seq<int>, v: seq<string>,
                     rest: seq<Word>, t: seq<Action>)
    requires Closed(leads)
    requires aw != []
    ensures leads(At("GI", b, o, v, ([BANG] + aw) + rest, t),
      At("", "GI" + (['X', 'I'] + b), o + [20], v, aw + rest, t))
  {
    var w, below, o' := ([BANG] + aw) + rest, ['X', 'I'] + b, o + [20];
    var start, s1, s2 := At("GI", b, o, v, w, t), At("", "I" + b, o, v, w, t), At("!GI", below, o', v, w, t);
    assert "GI" == ['G'] + "I" && "!GI" == ['!'] + "GI";
    Top('G', "I", b, o, v, w, t);
    Expand('G', "I" + b, o, v, w, t);
    LeadsByRound(leads, start, s1);
    Top('I', "", b, o, v, w, t);
    Expand('I', b, o, v, w, t);
    Then(leads, start, s1, s2);
    Top('!', "GI", below, o', v, w, t);
    Match('!', "GI" + below, o', v, w, t);
    assert w[1..] == aw + rest && v + Stored(w) == v;
    Then(leads, start, s2, At("", "GI" + below, o', v, aw + rest, t));
  }

  /** Wherever the parser meets the symbol E before the words of a condition, it reads exactly these words, leaves its
    * stacks as they were below the E, and performs exactly the actions that are proved right for the condition. */
  lemma ParsesCondition(c: Cond, b: string, o: seq<int>, v: seq<string>, rest: seq<Word>, t: seq<Action>)
    requires Ends(rest)
    ensures Leads(At("E", b, o, v, CondWords(c) + rest, t), At("", b, o, v, rest, t + Actions(CondExp(c))))
  {
    LeadsIsClosed();
    CondRun(Leads, c, b, o, v, rest, t);
    ParserActions(c);
  }
}
