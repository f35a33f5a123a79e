/** Attribute text as TinyXML writes and reads it: what the two directions compute, and when they undo each other. */
module XmlText {
  import opened Options

  /** A C string ends at its first NUL; reading at or behind the end of `t` gives NUL. */
  function At(t: string, i: nat): char {
    if i < |t| then t[i] else '\0'
  }

  predicate NulFree(t: string) {
    forall i :: 0 <= i < |t| ==> t[i] != '\0'
  }

  // ----- Writing

  function HexDigit(d: nat): char
    requires d < 16
  {
    if d < 10 then '0' + d as char else 'A' + (d - 10) as char
  }

  /** A character reference of two hexadecimal digits. */
  function Reference(c: char): string
    requires c < ' '
  {
    "&#x" + [HexDigit(c as int / 16), HexDigit(c as int % 16), ';']
  }

  /** What is written for one character. */
  function Escape(c: char): (e: string)
    ensures e != []
  {
    if c == '&' then "&amp;"
    else if c == '<' then "&lt;"
    else if c == '>' then "&gt;"
    else if c == '\"' then "&quot;"
    else if c == '\'' then "&apos;"
    else if c < ' ' then Reference(c)
    else [c]
  }

  /** A character reference, which is passed through. */
  predicate StartsReference(v: string) {
    |v| >= 3 && v[0] == '&' && v[1] == '#' && v[2] == 'x'
  }

  /** The first place from k on that holds c, or the length. */
  function Find(t: string, k: nat, c: char): (m: nat)
    requires k <= |t|
    ensures k <= m <= |t| && (m < |t| ==> t[m] == c) && forall i :: k <= i < m ==> t[i] != c
    decreases |t| - k
  {
    if k == |t| || t[k] == c then k else Find(t, k + 1, c)
  }

  /** How much is passed through: up to a semicolon, but never the last character. */
  function Passed(v: string): (k: nat)
    requires StartsReference(v)
    ensures 0 < k < |v|
  {
    var m := Find(v, 1, ';');
    if m < |v| then m else |v| - 1
  }

  function Encode(v: string): string
    decreases |v|
  {
    if v == [] then []
    else if StartsReference(v) then v[..Passed(v)] + Encode(v[Passed(v)..])
    else Escape(v[0]) + Encode(v[1..])
  }

  // ----- Reading

  /** utf8ByteTable. */
  function SequenceLength(c: char): (n: nat)
    ensures 1 <= n <= 4
  {
    if '\U{C2}' <= c <= '\U{DF}' then 2
    else if '\U{E0}' <= c <= '\U{EF}' then 3
    else if '\U{F0}' <= c <= '\U{F4}' then 4
    else 1
  }

  /** ConvertUTF32ToUTF8; nothing is written for numbers of more than 21 bits. */
  function ToUtf8(u: nat): (s: string)
    ensures |s| <= 4
  {
    if u < 0x80 then [u as char]
    else if u < 0x800 then [(0xC0 + u / 64) as char, (0x80 + u % 64) as char]
    else if u < 0x10000 then [(0xE0 + u / 4096) as char, (0x80 + u / 64 % 64) as char, (0x80 + u % 64) as char]
    else if u < 0x200000 then
      [(0xF0 + u / 262144) as char, (0x80 + u / 4096 % 64) as char, (0x80 + u / 64 % 64) as char,
        (0x80 + u % 64) as char]
    else []
  }

  function HexValue(c: char): Option<nat> {
    if '0' <= c <= '9' then Some((c - '0') as nat)
    else if 'a' <= c <= 'f' then Some((c - 'a') as nat + 10)
    else if 'A' <= c <= 'F' then Some((c - 'A') as nat + 10)
    else None
  }

  function DecimalValue(c: char): Option<nat> {
    if '0' <= c <= '9' then Some((c - '0') as nat) else None
  }

  const WORD: nat := 0x1_0000_0000
  const LONG: nat := 0x1_0000_0000_0000_0000

  /** The digits before the semicolon, read backwards to the mark; the multiplier is an unsigned of 32 bits. */
  function Digits(t: string, q: nat, hex: bool, ucs: nat, mult: nat): Option<nat>
    requires q < |t| && exists i :: 0 <= i <= q && t[i] == (if hex then 'x' else '#')
  {
    if t[q] == (if hex then 'x' else '#') then Some(ucs)
    else
      match if hex then HexValue(t[q]) else DecimalValue(t[q])
      case None => None
      case Some(d) =>
        Digits(t, q - 1, hex, (ucs + mult * d % WORD) % LONG, mult * (if hex then 16 else 10) % WORD)
  }

  /** The result of reading one character: what is appended, and how far the pointer moves; Null is the null pointer. */
  datatype Step = Null | Step(out: string, used: nat)

  predicate StartsWith(t: string, s: string) {
    |s| <= |t| && t[..|s|] == s
  }

  const ENTITIES: seq<(string, char)> := [("&amp;", '&'), ("&lt;", '<'), ("&gt;", '>'),
    ("&quot;", '\"'), ("&apos;", '\'')]

  /** GetEntity at a text that starts with an ampersand. */
  function Entity(t: string, utf8: bool): (r: Step)
    requires t != []
    ensures r.Step? ==> r.used > 0
  {
    if At(t, 1) == '#' && At(t, 2) != '\0' then
      var hex := t[2] == 'x';
      var from := if hex then 3 else 2;
      if At(t, from) == '\0' then Null else
      var m := Find(t, from, ';');
      if m == |t| then Null else
      assert t[from - 1] == if hex then 'x' else '#';
      match Digits(t, m - 1, hex, 0, 1)
      case None => Null
      case Some(ucs) => Step(if utf8 then ToUtf8(ucs) else [(ucs % 256) as char], m + 1)
    else if StartsWith(t, "&amp;") then Step("&", 5)
    else if StartsWith(t, "&lt;") then Step("<", 4)
    else if StartsWith(t, "&gt;") then Step(">", 4)
    else if StartsWith(t, "&quot;") then Step("\"", 6)
    else if StartsWith(t, "&apos;") then Step("'", 6)
    else Step("", 1)
  }

  /** GetChar. A sequence that the text cuts short is used in full, which leads behind the end of the text. */
  function Char(t: string, utf8: bool): (r: Step)
    requires t != []
    ensures r.Step? ==> r.used > 0
  {
    var n := if utf8 then SequenceLength(t[0]) else 1;
    if n > 1 then Step(if n <= |t| then t[..n] else t, n)
    else if t[0] == '&' then Entity(t, utf8)
    else Step([t[0]], 1)
  }

  /** The result of reading a value up to its quote; Wild stands for a pointer behind the end of the text. */
  datatype Reading = Fail | Wild | Got(value: string, used: nat)

  /** ReadText with white space kept, from just behind the opening quote. */
  function Read(t: string, quote: char, utf8: bool): Reading
    decreases |t|
  {
    if t == [] then Wild
    else if t[0] == quote then Got([], 1)
    else
      match Char(t, utf8)
      case Null => Fail
      case Step(out, used) =>
        if used > |t| then Wild else
          match Read(t[used..], quote, utf8)
          case Got(value, more) => Got(out + value, used + more)
          case other => other
  }

  // ----- Characters one by one

  predicate Quote(c: char) {
    c == '\"' || c == '\''
  }

  /** Every sequence has all its bytes. */
  predicate Complete(v: string, utf8: bool)
    decreases |v|
  {
    v == [] ||
    var n := if utf8 then SequenceLength(v[0]) else 1;
    n <= |v| && (forall i :: 1 <= i < n ==> '\U{80}' <= v[i] <= '\U{BF}') && Complete(v[n..], utf8)
  }

  predicate HasReference(v: string) {
    v != [] && (StartsReference(v) || HasReference(v[1..]))
  }

  lemma HexDigitValue(d: nat)
    requires d < 16
    ensures HexValue(HexDigit(d)) == Some(d) && HexDigit(d) != 'x'
  {}

  lemma Small(x: nat, m: nat)
    requires x < m
    ensures x % m == x
  {}

  /** One digit, where the arithmetic does not wrap around. */
  lemma HexDigitRead(t: string, q: nat, d: nat, ucs: nat, mult: nat)
    requires d < 16 && 0 < q < |t| && t[q] == HexDigit(d) && ucs < 256 && (mult == 1 || mult == 16)
    requires exists i :: 0 <= i < q && t[i] == 'x'
    ensures Digits(t, q, true, ucs, mult) == Digits(t, q - 1, true, ucs + mult * d, mult * 16)
  {
    HexDigitValue(d);
    Small(mult * d, WORD);
    Small(mult * 16, WORD);
    Small(ucs + mult * d, LONG);
  }

  /** The two digits of a reference, read backwards from the semicolon. */
  lemma ReferenceDigits(t: string, p: nat, c: char)
    requires c < ' ' && p + 4 < |t| && t[p + 2] == 'x' && t[p + 3] == HexDigit(c as int / 16)
      && t[p + 4] == HexDigit(c as int % 16)
    ensures Digits(t, p + 4, true, 0, 1) == Some(c as nat)
  {
    var n := c as nat;
    assert n / 16 < 16 && t[p + 2] == 'x';
    HexDigitRead(t, p + 4, n % 16, 0, 1);
    HexDigitRead(t, p + 3, n / 16, n % 16, 16);
  }

  lemma ReadsReference(c: char, z: string, utf8: bool)
    requires '\0' != c < ' '
    ensures Entity(Reference(c) + z, utf8) == Step([c], 6)
  {
    var t := Reference(c) + z;
    assert t[1] == '#' && t[2] == 'x' && t[3] != '\0' && t[4] != ';' && t[5] == ';';
    ReferenceDigits(t, 0, c);
    assert Find(t, 3, ';') == 5;
  }

  /** What is written for a character is read back as that character. */
  lemma ReadsEscape(c: char, z: string, utf8: bool)
    requires c != '\0' && (utf8 ==> SequenceLength(c) == 1)
    ensures Char(Escape(c) + z, utf8) == Step([c], |Escape(c)|) && !Quote(Escape(c)[0])
  {
    var t := Escape(c) + z;
    if c < ' ' {
      ReadsReference(c, z, utf8);
    } else if c == '&' {
      assert t[..5] == "&amp;";
    } else if c == '<' {
      assert t[..4] == "&lt;" && t[1] == 'l';
    } else if c == '>' {
      assert t[..4] == "&gt;" && t[1] == 'g';
    } else if c == '\"' {
      assert t[..6] == "&quot;" && t[1] == 'q';
    } else if c == '\'' {
      assert t[..6] == "&apos;" && t[2] == 'p';
    }
  }

  /** The bytes that belong to the first character of a value. */
  function FirstLength(v: string, utf8: bool): (n: nat)
    requires v != []
    ensures n > 0
  {
    if utf8 then SequenceLength(v[0]) else 1
  }

  /** The first character is written as it is read, and the rest after it. */
  lemma FirstUnit(v: string, z: string, utf8: bool) returns (e: string)
    requires v != [] && NulFree(v) && Complete(v, utf8) && !StartsReference(v)
    ensures var n := FirstLength(v, utf8);
      && n <= |v| && Complete(v[n..], utf8) && NulFree(v[n..]) && (HasReference(v) <==> HasReference(v[n..]))
      && e != [] && !Quote(e[0]) && Encode(v) == e + Encode(v[n..]) && Char(e + z, utf8) == Step(v[..n], |e|)
  {
    var n := FirstLength(v, utf8);
    if n == 1 {
      e := Escape(v[0]);
      ReadsEscape(v[0], z, utf8);
      assert v[..1] == [v[0]];
    } else {
      e := v[..n];
      PlainRun(v, n);
      assert (v[..n] + z)[..n] == v[..n];
    }
  }

  /** A character that is written as it is. */
  predicate Plain(c: char) {
    c != '&' && Escape(c) == [c]
  }

  /** Plain characters begin no reference. */
  lemma {:induction false} PlainRun(v: string, n: nat)
    requires n <= |v| && forall i :: 0 <= i < n ==> Plain(v[i])
    ensures Encode(v) == v[..n] + Encode(v[n..]) && (HasReference(v) <==> HasReference(v[n..]))
    decreases n
  {
    if n > 0 {
      var w := v[1..];
      PlainRun(w, n - 1);
      PlainOne(v);
      Regroup(v, n, Encode(w[n - 1..]));
    } else {
      assert v[0..] == v;
    }
  }

  lemma Regroup(v: string, n: nat, rest: string)
    requires 0 < n <= |v|
    ensures v[1..][n - 1..] == v[n..] && v[..n] + rest == [v[0]] + (v[1..][..n - 1] + rest)
  {}

  lemma PlainOne(v: string)
    requires v != [] && Plain(v[0])
    ensures Encode(v) == [v[0]] + Encode(v[1..]) && (HasReference(v) <==> HasReference(v[1..]))
  {}

  /** Reading goes on behind a unit. */
  lemma ReadUnit(e: string, z: string, quote: char, utf8: bool, out: string)
    requires e != [] && e[0] != quote && Char(e + z, utf8) == Step(out, |e|)
    ensures Read(e + z, quote, utf8) ==
      match Read(z, quote, utf8) case Got(value, more) => Got(out + value, |e| + more) case other => other
  {
    assert (e + z)[|e|..] == z;
  }

  lemma Behind(e: string, encoded: string, quote: char, z: string)
    ensures e + encoded + [quote] + z == e + (encoded + [quote] + z)
  {}

  /** Reading what was written for `v` begins with its first character. */
  lemma ReadFirst(v: string, quote: char, z: string, utf8: bool) returns (len: nat)
    requires v != [] && NulFree(v) && Complete(v, utf8) && !StartsReference(v) && Quote(quote)
    ensures var n := FirstLength(v, utf8);
      && n <= |v| && Complete(v[n..], utf8) && NulFree(v[n..]) && (HasReference(v) <==> HasReference(v[n..]))
      && |Encode(v)| == len + |Encode(v[n..])|
      && Read(Encode(v) + [quote] + z, quote, utf8) ==
         match Read(Encode(v[n..]) + [quote] + z, quote, utf8)
         case Got(value, more) => Got(v[..n] + value, len + more)
         case other => other
  {
    var n := FirstLength(v, utf8);
    var rest := Encode(v[n..]) + [quote] + z;
    var e := FirstUnit(v, rest, utf8);
    len := |e|;
    Behind(e, Encode(v[n..]), quote, z);
    ReadUnit(e, rest, quote, utf8, v[..n]);
  }

  lemma ReadEmpty(quote: char, z: string, utf8: bool)
    ensures Read(Encode([]) + [quote] + z, quote, utf8) == Got([], 1)
  {
    assert Encode([]) + [quote] + z == [quote] + z;
  }

  /** Without character references, what is written is read back, up to just behind the closing quote. */
  lemma {:induction false} ReadsBack(v: string, quote: char, z: string, utf8: bool)
    requires NulFree(v) && Complete(v, utf8) && !HasReference(v) && Quote(quote)
    ensures Read(Encode(v) + [quote] + z, quote, utf8) == Got(v, |Encode(v)| + 1)
    decreases |v|
  {
    if v == [] {
      ReadEmpty(quote, z, utf8);
    } else {
      var n := FirstLength(v, utf8);
      var len := ReadFirst(v, quote, z, utf8);
      ReadsBack(v[n..], quote, z, utf8);
      assert v == v[..n] + v[n..];
    }
  }

  // ----- With character references it goes wrong

  /** A semicolon ends a character, so what follows it is complete. */
  lemma {:induction false} CompleteBehind(v: string, j: nat, utf8: bool)
    requires Complete(v, utf8) && j < |v| && v[j] == ';'
    ensures Complete(v[j + 1..], utf8)
    decreases |v|
  {
    var n := FirstLength(v, utf8);
    if j < n {
      assert j == 0;
    } else {
      assert v[n..][j - n] == v[j] && v[n..][j - n + 1..] == v[j + 1..];
      CompleteBehind(v[n..], j - n, utf8);
    }
  }

  lemma {:induction false} FindIs(t: string, k: nat, m: nat, c: char)
    requires k <= m < |t| && t[m] == c && forall i :: k <= i < m ==> t[i] != c
    ensures Find(t, k, c) == m
  {}

  /** A reference that is closed by a semicolon at j: it is used up as a whole, for fewer characters than it has. */
  lemma ReadsClosed(t: string, j: nat, utf8: bool)
    requires StartsReference(t) && 3 <= j < |t| && t[j] == ';' && forall i :: 3 <= i < j ==> t[i] != ';'
    requires NulFree(t)
    ensures Char(t, utf8).Step? ==> Char(t, utf8).used == j + 1 && |Char(t, utf8).out| <= j
  {
    FindIs(t, 3, j, ';');
    if j == 3 {
      assert Digits(t, 2, true, 0, 1) == Some(0);
    }
  }

  lemma ReadsOpen(t: string, utf8: bool)
    requires StartsReference(t) && NulFree(t) && forall i :: 3 <= i < |t| ==> t[i] != ';'
    ensures Char(t, utf8) == Null
  {}

  /** Reading what was written for `v`, with nothing behind it. */
  ghost function ReadAlone(v: string, quote: char, utf8: bool): Reading {
    Read(Encode(v) + [quote], quote, utf8)
  }

  lemma ReadFirstAlone(v: string, quote: char, utf8: bool) returns (len: nat)
    requires v != [] && NulFree(v) && Complete(v, utf8) && !StartsReference(v) && Quote(quote)
    ensures var n := FirstLength(v, utf8);
      && n <= |v| && Complete(v[n..], utf8) && NulFree(v[n..]) && (HasReference(v) <==> HasReference(v[n..]))
      && ReadAlone(v, quote, utf8) ==
         match ReadAlone(v[n..], quote, utf8)
         case Got(value, more) => Got(v[..n] + value, len + more)
         case other => other
  {
    var n := FirstLength(v, utf8);
    len := ReadFirst(v, quote, [], utf8);
    assert Encode(v) + [quote] + [] == Encode(v) + [quote];
    assert Encode(v[n..]) + [quote] + [] == Encode(v[n..]) + [quote];
  }

  /** How a text goes on behind a reference that nothing closes but the escape of a last control character. */
  lemma ReadsLastControl(front: string, last: char, quote: char, utf8: bool)
    requires StartsReference(front) && NulFree(front) && '\0' != last < ' ' && Quote(quote)
    requires forall i :: 0 <= i < |front| ==> front[i] != ';'
    ensures Read(front + Reference(last) + [quote], quote, utf8) == Got([last], |front| + 7)
  {
    var t, p := front + Reference(last) + [quote], |front|;
    assert t[p..] == Reference(last) + [quote];
    assert t[p + 2] == 'x' && t[p + 5] == ';' && t[p + 3] != ';' && t[p + 4] != ';' && t[p] == '&' && t[p + 1] == '#';
    FindIs(t, 3, p + 5, ';');
    ReferenceDigits(t, p, last);
    assert Char(t, utf8) == Step([last], p + 6);
    assert t[p + 6..] == [quote];
    assert Read([quote], quote, utf8) == Got([], 1);
  }

  lemma ReadsLastEntity(front: string, last: char, quote: char, utf8: bool)
    requires StartsReference(front) && NulFree(front) && last >= ' ' && Escape(last) != [last] && Quote(quote)
    requires forall i :: 0 <= i < |front| ==> front[i] != ';'
    ensures Read(front + Escape(last) + [quote], quote, utf8) == Fail
  {
    var e, p := Escape(last), |front|;
    var t := front + e + [quote];
    var m := p + |e| - 1;
    assert t[m] == e[|e| - 1] == ';' && forall i :: p <= i < m ==> t[i] == e[i - p] != ';';
    FindIs(t, 3, m, ';');
    assert t[m - 1] == e[|e| - 2];
    assert HexValue(t[m - 1]) == None && t[m - 1] != 'x' && t[2] == 'x';
    assert Digits(t, m - 1, true, 0, 1) == None;
    assert Char(t, utf8) == Null;
  }

  lemma EncodeUnclosed(v: string)
    requires StartsReference(v) && Find(v, 1, ';') == |v|
    ensures Encode(v) == v[..|v| - 1] + Escape(v[|v| - 1])
  {
    var w := v[|v| - 1..];
    assert w == [v[|v| - 1]] && w[1..] == [] && !StartsReference(w);
    assert Encode(w) == Escape(w[0]) + Encode([]) == Escape(w[0]);
  }

  lemma UnclosedFront(v: string)
    requires StartsReference(v) && NulFree(v) && Find(v, 1, ';') == |v| && Escape(v[|v| - 1]) != [v[|v| - 1]]
    ensures var front := v[..|v| - 1];
      StartsReference(front) && NulFree(front) && forall i :: 0 <= i < |front| ==> front[i] != ';'
  {
    assert Escape(v[2]) == [v[2]];
  }

  lemma ReadNull(t: string, quote: char, utf8: bool)
    requires t != [] && t[0] != quote && Char(t, utf8) == Null
    ensures Read(t, quote, utf8) == Fail
  {}

  /** Reading a reference that nothing closes but the escape of the last character. */
  lemma ReadsAllBut(v: string, quote: char, utf8: bool)
    requires StartsReference(v) && NulFree(v) && Find(v, 1, ';') == |v| && Quote(quote)
    ensures var r := Read(v[..|v| - 1] + Escape(v[|v| - 1]) + [quote], quote, utf8); r.Got? ==> |r.value| < |v|
  {
    var front, last := v[..|v| - 1], v[|v| - 1];
    var t := front + Escape(last) + [quote];
    if Escape(last) == [last] {
      assert t == v + [quote];
      ReadsOpen(t, utf8);
      ReadNull(t, quote, utf8);
    } else {
      UnclosedFront(v);
      if last < ' ' {
        ReadsLastControl(front, last, quote, utf8);
      } else {
        ReadsLastEntity(front, last, quote, utf8);
      }
    }
  }

  lemma ReadsUnclosed(v: string, quote: char, utf8: bool)
    requires StartsReference(v) && NulFree(v) && Find(v, 1, ';') == |v| && Quote(quote)
    ensures var r := ReadAlone(v, quote, utf8); r.Got? ==> |r.value| < |v|
  {
    EncodeUnclosed(v);
    ReadsAllBut(v, quote, utf8);
  }

  lemma EncodeSemicolon(v: string, j: nat)
    requires j < |v| && v[j] == ';'
    ensures Encode(v[j..]) == [';'] + Encode(v[j + 1..])
  {
    assert v[j..][1..] == v[j + 1..];
  }

  /** What a closed reference is written as, followed by the rest. */
  lemma EncodePassed(v: string, quote: char) returns (j: nat)
    requires StartsReference(v) && Find(v, 1, ';') < |v|
    ensures 3 <= j < |v| && v[j] == ';' && forall i :: 0 <= i < j ==> v[i] != ';'
    ensures Encode(v) + [quote] == v[..j + 1] + (Encode(v[j + 1..]) + [quote])
  {
    j := Passed(v);
    EncodeSemicolon(v, j);
    RegroupPassed(v, j, Encode(v), Encode(v[j + 1..]), quote);
  }

  lemma RegroupPassed(v: string, j: nat, encoded: string, rest: string, quote: char)
    requires j < |v| && v[j] == ';' && encoded == v[..j] + ([';'] + rest)
    ensures encoded + [quote] == v[..j + 1] + (rest + [quote])
  {
    assert v[..j + 1] == v[..j] + [';'];
  }

  lemma ReadsPassed(v: string, quote: char, utf8: bool) returns (j: nat)
    requires StartsReference(v) && NulFree(v) && Find(v, 1, ';') < |v| && Quote(quote)
    ensures 3 <= j < |v| && v[j] == ';'
    ensures var r, rest := ReadAlone(v, quote, utf8), ReadAlone(v[j + 1..], quote, utf8);
      r.Got? ==> rest.Got? && |r.value| <= j + |rest.value|
  {
    j := EncodePassed(v, quote);
    var z := Encode(v[j + 1..]) + [quote];
    var t := v[..j + 1] + z;
    EncodeNulFree(v[j + 1..]);
    ReadsClosed(t, j, utf8);
    assert t[j + 1..] == z;
  }

  lemma {:induction false} EncodeNulFree(v: string)
    requires NulFree(v)
    ensures NulFree(Encode(v))
    decreases |v|
  {
    if v == [] {
    } else {
      if StartsReference(v) {
        EncodeNulFree(v[Passed(v)..]);
      } else {
        EncodeNulFree(v[1..]);
        assert NulFree(Escape(v[0]));
      }
    }
  }

  /** Reading never gives more characters than were written, and fewer from a character reference on. */
  lemma {:induction false} NeverLonger(v: string, quote: char, utf8: bool)
    requires NulFree(v) && Complete(v, utf8) && Quote(quote)
    ensures var r := ReadAlone(v, quote, utf8);
      r.Got? ==> |r.value| <= |v| && (v != [] && StartsReference(v) ==> |r.value| < |v|)
    decreases |v|
  {
    if v == [] {
      ReadEmpty(quote, [], utf8);
      assert Encode(v) + [quote] + [] == Encode(v) + [quote];
    } else if !StartsReference(v) {
      var len := ReadFirstAlone(v, quote, utf8);
      NeverLonger(v[FirstLength(v, utf8)..], quote, utf8);
    } else if Find(v, 1, ';') == |v| {
      ReadsUnclosed(v, quote, utf8);
    } else {
      var j := ReadsPassed(v, quote, utf8);
      CompleteBehind(v, j, utf8);
      NeverLonger(v[j + 1..], quote, utf8);
    }
  }

  lemma SameRest(v: string, n: nat, rest: string)
    requires n <= |v| && v[..n] + rest == v
    ensures rest == v[n..]
  {
    assert (v[..n] + rest)[n..] == rest;
  }

  /** With nothing behind the quote, a value with a character reference is not read back. */
  lemma {:induction false} NotReadAlone(v: string, quote: char, utf8: bool)
    requires NulFree(v) && Complete(v, utf8) && HasReference(v) && Quote(quote)
    ensures var r := ReadAlone(v, quote, utf8); r.Got? ==> r.value != v
    decreases |v|
  {
    if StartsReference(v) {
      NeverLonger(v, quote, utf8);
    } else {
      var n := FirstLength(v, utf8);
      var len := ReadFirstAlone(v, quote, utf8);
      NotReadAlone(v[n..], quote, utf8);
      var rest := ReadAlone(v[n..], quote, utf8);
      if rest.Got? && v[..n] + rest.value == v {
        SameRest(v, n, rest.value);
      }
    }
  }

  // ----- What is read does not depend on what lies behind it

  lemma FindInFront(s: string, z: string, k: nat, c: char)
    requires k <= |s| && Find(s + z, k, c) < |s|
    ensures Find(s, k, c) == Find(s + z, k, c)
  {
    var m := Find(s + z, k, c);
    assert forall i :: k <= i <= m ==> s[i] == (s + z)[i];
    FindIs(s, k, m, c);
  }

  lemma {:induction false} DigitsInFront(s: string, z: string, q: nat, hex: bool, ucs: nat, mult: nat)
    requires q < |s| && exists i :: 0 <= i <= q && s[i] == (if hex then 'x' else '#')
    ensures (exists i :: 0 <= i <= q && (s + z)[i] == (if hex then 'x' else '#'))
    ensures Digits(s, q, hex, ucs, mult) == Digits(s + z, q, hex, ucs, mult)
    decreases q
  {
    var mark := if hex then 'x' else '#';
    var i :| 0 <= i <= q && s[i] == mark;
    assert (s + z)[i] == mark && (s + z)[q] == s[q];
    if s[q] == mark {
    } else {
      var d := if hex then HexValue(s[q]) else DecimalValue(s[q]);
      if d.Some? {
        DigitsInFront(s, z, q - 1, hex, (ucs + mult * d.value % WORD) % LONG, mult * (if hex then 16 else 10) % WORD);
      }
    }
  }

  lemma StartsInFront(s: string, z: string, e: string)
    requires |e| <= |s|
    ensures StartsWith(s + z, e) <==> StartsWith(s, e)
  {
    assert (s + z)[..|e|] == s[..|e|];
  }

  /** A number that ends in front: the text behind it plays no part. */
  lemma NumberInFront(s: string, z: string, utf8: bool)
    requires s != [] && At(s + z, 1) == '#' && At(s + z, 2) != '\0'
    requires Entity(s + z, utf8).Step? && Entity(s + z, utf8).used <= |s|
    ensures Entity(s, utf8) == Entity(s + z, utf8)
  {
    var t := s + z;
    var hex := t[2] == 'x';
    var from := if hex then 3 else 2;
    var m := Find(t, from, ';');
    assert t[from - 1] == if hex then 'x' else '#';
    assert from <= m < |s| && forall i :: 0 <= i < |s| ==> t[i] == s[i];
    FindInFront(s, z, from, ';');
    assert s[from - 1] == if hex then 'x' else '#';
    DigitsInFront(s, z, m - 1, hex, 0, 1);
  }

  lemma EntityInFront(s: string, z: string, utf8: bool)
    requires s != [] && Entity(s + z, utf8).Step? && Entity(s + z, utf8).used <= |s|
    ensures Entity(s, utf8) == Entity(s + z, utf8)
  {
    var t := s + z;
    assert forall i :: 0 <= i < |s| ==> t[i] == s[i];
    if At(t, 1) == '#' && At(t, 2) != '\0' {
      NumberInFront(s, z, utf8);
    } else {
      NamedInFront(s, z, "&amp;");
      NamedInFront(s, z, "&lt;");
      NamedInFront(s, z, "&gt;");
      NamedInFront(s, z, "&quot;");
      NamedInFront(s, z, "&apos;");
    }
  }

  lemma NamedInFront(s: string, z: string, e: string)
    ensures StartsWith(s, e) ==> StartsWith(s + z, e)
    ensures StartsWith(s + z, e) && |e| <= |s| ==> StartsWith(s, e)
  {
    if |e| <= |s| {
      StartsInFront(s, z, e);
    }
  }

  lemma CharInFront(s: string, z: string, utf8: bool)
    requires s != [] && Char(s + z, utf8).Step? && Char(s + z, utf8).used <= |s|
    ensures Char(s, utf8) == Char(s + z, utf8)
  {
    var t := s + z;
    assert t[0] == s[0];
    var n := if utf8 then SequenceLength(t[0]) else 1;
    if n > 1 {
      assert n <= |s| ==> t[..n] == s[..n];
    } else if t[0] == '&' {
      EntityInFront(s, z, utf8);
    }
  }

  /** A value that ends in front of z is read from the text without z just the same. */
  lemma {:induction false} ReadInFront(s: string, z: string, quote: char, utf8: bool)
    requires Read(s + z, quote, utf8).Got? && Read(s + z, quote, utf8).used <= |s|
    ensures Read(s, quote, utf8) == Read(s + z, quote, utf8)
    decreases |s|
  {
    var t := s + z;
    assert t[0] == s[0];
    if t[0] == quote {
    } else {
      CharInFront(s, z, utf8);
      var used := Char(t, utf8).used;
      assert t[used..] == s[used..] + z;
      ReadInFront(s[used..], z, quote, utf8);
    }
  }

  /** A value with a character reference is not read back, whatever follows: either another value is read, or
      reading does not stop at the closing quote. */
  lemma NotReadBack(v: string, quote: char, z: string, utf8: bool)
    requires NulFree(v) && Complete(v, utf8) && HasReference(v) && Quote(quote)
    ensures Read(Encode(v) + [quote] + z, quote, utf8) != Got(v, |Encode(v)| + 1)
  {
    var s := Encode(v) + [quote];
    NotReadAlone(v, quote, utf8);
    if Read(s + z, quote, utf8) == Got(v, |s|) {
      ReadInFront(s, z, quote, utf8);
    }
  }

  // ----- Attributes

  /** isspace. */
  predicate WhiteSpace(c: char) {
    c == ' ' || '\t' <= c <= '\r'
  }

  /** IsAlpha or an underscore; everything from 127 on counts as a letter. */
  predicate NameStart(c: char) {
    'a' <= c <= 'z' || 'A' <= c <= 'Z' || c == '_' || c >= '\U{7F}'
  }

  predicate NameChar(c: char) {
    NameStart(c) || '0' <= c <= '9' || c == '-' || c == '.' || c == ':'
  }

  /** Behind the name characters from p on. */
  function NameEnd(t: string, p: nat): (q: nat)
    requires p <= |t|
    ensures p <= q <= |t|
    decreases |t| - p
  {
    if p == |t| || !NameChar(t[p]) then p else NameEnd(t, p + 1)
  }

  /** ReadName; p itself for the null pointer. */
  function BehindName(t: string, p: nat): (q: nat)
    requires p <= |t|
    ensures p <= q <= |t|
  {
    if p == |t| || !NameStart(t[p]) then p else NameEnd(t, p)
  }

  /** A byte order mark, or one of the two non-characters, in UTF-8. */
  predicate MarkAt(t: string, p: nat) {
    p + 3 <= |t| && t[p] == '\U{EF}' &&
    ((t[p + 1] == '\U{BB}' && t[p + 2] == '\U{BF}')
      || (t[p + 1] == '\U{BF}' && (t[p + 2] == '\U{BE}' || t[p + 2] == '\U{BF}')))
  }

  /** SkipWhiteSpace; at the end of the text the source gives the null pointer, which all callers treat like the end. */
  function Skip(t: string, p: nat, utf8: bool): (q: nat)
    requires p <= |t|
    ensures p <= q <= |t|
    decreases |t| - p
  {
    if p == |t| then p
    else if utf8 && MarkAt(t, p) then Skip(t, p + 3, utf8)
    else if WhiteSpace(t[p]) then Skip(t, p + 1, utf8)
    else p
  }

  /** The end of a value without quotes. */
  predicate EndsBare(c: char) {
    WhiteSpace(c) || c == '/' || c == '>'
  }

  /** Behind a value without quotes; it must not have a quote in it. */
  function BehindBare(t: string, p: nat): (q: nat)
    requires p <= |t|
    ensures p <= q <= |t|
    decreases |t| - p
  {
    if p == |t| || EndsBare(t[p]) || Quote(t[p]) then p else BehindBare(t, p + 1)
  }

  /** The result of parsing: an attribute and where the pointer stands, or an error, or a pointer behind the end. */
  datatype Parsed = Bad | Lost | Attribute(name: string, value: string, next: nat)

  /** From the value on; `used` counts from p. */
  function ParseValue(t: string, p: nat, utf8: bool): Reading
    requires p < |t|
  {
    if Quote(t[p]) then
      match Read(t[p + 1..], t[p], utf8)
      case Got(value, used) => Got(value, used + 1)
      case other => other
    else
      var q := BehindBare(t, p);
      if q < |t| && Quote(t[q]) then Fail else Got(t[p..q], q - p)
  }

  /** Behind the name and the white space after it. */
  function BeforeEquals(t: string, p: nat, utf8: bool): (q: nat)
    requires p <= |t|
    ensures q <= |t|
  {
    Skip(t, BehindName(t, p), utf8)
  }

  /** The name, and where the value begins. */
  function Head(t: string, p: nat, utf8: bool): (h: Option<(string, nat)>)
    requires p <= |t|
    ensures h.Some? ==> h.value.1 < |t|
  {
    var a := Skip(t, p, utf8);
    if BehindName(t, a) == a then None else
    var b := BeforeEquals(t, a, utf8);
    if b == |t| || t[b] != '=' then None else
    var c := Skip(t, b + 1, utf8);
    if c == |t| then None else Some((t[a..BehindName(t, a)], c))
  }

  /** TiXmlAttribute::Parse. */
  function Parse(t: string, p: nat, utf8: bool): Parsed
    requires p <= |t|
  {
    match Head(t, p, utf8)
    case None => Bad
    case Some((name, c)) =>
      match ParseValue(t, c, utf8)
      case Fail => Bad
      case Wild => Lost
      case Got(value, used) => Attribute(name, value, c + used)
  }

  function QuoteFor(value: string): (q: char)
    ensures Quote(q) && (q in value ==> '\"' in value && '\'' in value)
  {
    if '\"' in value then '\'' else '\"'
  }

  /** TiXmlAttribute::Print. */
  function Print(name: string, value: string): string {
    Encode(name) + ['=', QuoteFor(value)] + Encode(value) + [QuoteFor(value)]
  }

  /** A name that ReadName reads in full, and that SkipWhiteSpace does not eat into. */
  predicate ValidName(name: string, utf8: bool) {
    name != [] && NameStart(name[0]) && (forall i :: 0 <= i < |name| ==> NameChar(name[i]))
      && !(utf8 && MarkAt(name, 0))
  }

  lemma {:induction false} NameReadInFull(t: string, p: nat, q: nat)
    requires p <= q < |t| && (forall i :: p <= i < q ==> NameChar(t[i])) && !NameChar(t[q])
    ensures NameEnd(t, p) == q
    decreases q - p
  {
    if p == q {
    } else {
      NameReadInFull(t, p + 1, q);
    }
  }

  lemma NameCharPlain(c: char)
    requires NameChar(c)
    ensures Plain(c)
  {}

  lemma {:induction false} PlainName(name: string)
    requires forall i :: 0 <= i < |name| ==> NameChar(name[i])
    ensures Encode(name) == name
  {
    if name == [] {
    } else {
      NameCharPlain(name[0]);
      PlainOne(name);
      PlainName(name[1..]);
    }
  }

  /** A run of white space, which in UTF-8 may have marks in it. */
  predicate White(s: string, utf8: bool)
    decreases |s|
  {
    s == [] || if utf8 && MarkAt(s, 0) then White(s[3..], utf8) else WhiteSpace(s[0]) && White(s[1..], utf8)
  }

  /** Neither white space nor a mark stands at p. */
  predicate Dark(t: string, p: nat, utf8: bool) {
    p < |t| && !WhiteSpace(t[p]) && !(utf8 && MarkAt(t, p))
  }

  /** The part stands in the text at p. */
  ghost predicate PartAt(t: string, p: nat, part: string) {
    p + |part| <= |t| && t[p..p + |part|] == part
  }

  /** Skipping ends behind the whole run, wherever it stands. */
  lemma {:induction false} SkipsRun(t: string, p: nat, s: string, utf8: bool)
    requires White(s, utf8) && PartAt(t, p, s) && (p + |s| == |t| || Dark(t, p + |s|, utf8))
    ensures Skip(t, p, utf8) == p + |s|
    decreases |s|
  {
    if s == [] {
    } else {
      var k := if utf8 && MarkAt(s, 0) then 3 else 1;
      assert forall i :: 0 <= i < |s| ==> t[p + i] == s[i];
      assert PartAt(t, p + k, s[k..]);
      SkipsRun(t, p + k, s[k..], utf8);
    }
  }

  /** A name with white space around it, and the equals sign with white space behind it. */
  function Opening(s0: string, name: string, s1: string, s2: string): string {
    s0 + (name + (s1 + (['='] + s2)))
  }

  /** White space that may stand around a name; behind a name a mark would be read as a part of it. */
  predicate Spaced(s0: string, s1: string, s2: string, utf8: bool) {
    White(s0, utf8) && White(s1, utf8) && White(s2, utf8) && !(utf8 && MarkAt(s1, 0))
  }

  /** A name is not skipped, and it is read up to what stands behind it. */
  lemma NameRead(t: string, p: nat, name: string, utf8: bool)
    requires ValidName(name, utf8) && PartAt(t, p, name)
    requires p + |name| < |t| && (WhiteSpace(t[p + |name|]) || t[p + |name|] == '=')
    ensures Dark(t, p, utf8) && BehindName(t, p) == p + |name|
  {
    assert forall i :: 0 <= i < |name| ==> t[p + i] == name[i];
    NameReadInFull(t, p, p + |name|);
  }

  /** The parts of an attribute up to its value, which begins at k. */
  ghost predicate HeadAt(t: string, p: nat, s0: string, name: string, s1: string, s2: string, k: nat) {
    && PartAt(t, p, s0) && PartAt(t, p + |s0|, name) && PartAt(t, p + |s0| + |name|, s1)
    && k == p + |s0| + |name| + |s1| + 1 + |s2| <= |t| && t[k - |s2| - 1] == '=' && PartAt(t, k - |s2|, s2)
  }

  lemma HeadIs(t: string, p: nat, n: nat, b: nat, e: nat, k: nat, utf8: bool)
    requires p <= n < b <= e < |t| && Skip(t, p, utf8) == n && BehindName(t, n) == b && Skip(t, b, utf8) == e
    requires t[e] == '=' && Skip(t, e + 1, utf8) == k < |t|
    ensures Head(t, p, utf8) == Some((t[n..b], k))
  {}

  /** The white space plays no part: the name is found, and where the value begins. */
  lemma HeadRead(t: string, p: nat, s0: string, name: string, s1: string, s2: string, k: nat, utf8: bool)
    requires ValidName(name, utf8) && Spaced(s0, s1, s2, utf8) && HeadAt(t, p, s0, name, s1, s2, k) && Dark(t, k, utf8)
    ensures Head(t, p, utf8) == Some((name, k))
  {
    var n := p + |s0|;
    var b := n + |name|;
    assert s1 != [] ==> t[b] == t[b..b + |s1|][0] == s1[0];
    NameRead(t, n, name, utf8);
    SkipsRun(t, p, s0, utf8);
    SkipsRun(t, b, s1, utf8);
    SkipsRun(t, k - |s2|, s2, utf8);
    HeadIs(t, p, n, b, b + |s1|, k, utf8);
  }

  lemma PartBehind(a: string, part: string, z: string)
    ensures a + (part + z) == a + part + z && PartAt(a + (part + z), |a|, part) && |a + part| == |a| + |part|
  {}

  lemma HeadStands(a: string, s0: string, name: string, s1: string, s2: string, body: string)
    ensures var o := Opening(s0, name, s1, s2);
      HeadAt(a + (o + body), |a|, s0, name, s1, s2, |a| + |o|)
  {
    var z2 := s2 + body;
    var z1 := s1 + (['='] + z2);
    Opened(a, s0, name, s1, s2, body);
    PartBehind(a, s0, name + z1);
    PartBehind(a + s0, name, z1);
    PartBehind(a + s0 + name, s1, ['='] + z2);
    PartBehind(a + s0 + name + s1, ['='], z2);
    PartBehind(a + s0 + name + s1 + ['='], s2, body);
    var t := a + (s0 + (name + z1));
    assert PartAt(t, |a + s0 + name + s1|, ['=']);
  }

  lemma Opened(a: string, s0: string, name: string, s1: string, s2: string, body: string)
    ensures a + (Opening(s0, name, s1, s2) + body) == a + (s0 + (name + (s1 + (['='] + (s2 + body)))))
  {
    assert s1 + (['='] + s2) + body == s1 + (['='] + (s2 + body));
    assert name + (s1 + (['='] + s2)) + body == name + (s1 + (['='] + (s2 + body)));
    assert Opening(s0, name, s1, s2) + body == s0 + (name + (s1 + (['='] + (s2 + body))));
  }

  lemma QuotedRead(t: string, k: nat, q: char, body: string, utf8: bool)
    requires k < |t| && t[k..] == [q] + body && Quote(q)
    ensures ParseValue(t, k, utf8) ==
      match Read(body, q, utf8) case Got(v, used) => Got(v, used + 1) case other => other
  {
    assert t[k] == t[k..][0] == q && t[k + 1..] == t[k..][1..] == body;
  }

  lemma ParseIs(t: string, p: nat, name: string, k: nat, q: char, body: string, utf8: bool)
    requires p <= |t| && k < |t| && Head(t, p, utf8) == Some((name, k)) && t[k..] == [q] + body && Quote(q)
    ensures Parse(t, p, utf8) ==
      match Read(body, q, utf8)
      case Fail => Bad
      case Wild => Lost
      case Got(v, used) => Attribute(name, v, k + 1 + used)
  {
    QuotedRead(t, k, q, body, utf8);
  }

  /** Parsing an attribute comes down to reading its value. */
  lemma ParseParts(a: string, s0: string, name: string, s1: string, s2: string, q: char, body: string, utf8: bool)
    requires ValidName(name, utf8) && Spaced(s0, s1, s2, utf8) && Quote(q)
    ensures var o := Opening(s0, name, s1, s2);
      Parse(a + (o + ([q] + body)), |a|, utf8) ==
      match Read(body, q, utf8)
      case Fail => Bad
      case Wild => Lost
      case Got(v, used) => Attribute(name, v, |a| + |o| + 1 + used)
  {
    var o, value := Opening(s0, name, s1, s2), [q] + body;
    var t, k := a + (o + value), |a| + |o|;
    HeadStands(a, s0, name, s1, s2, value);
    BodyAt(a, o, value);
    DarkQuote(t, k, q, value, utf8);
    HeadRead(t, |a|, s0, name, s1, s2, k, utf8);
    ParseIs(t, |a|, name, k, q, body, utf8);
  }

  lemma DarkQuote(t: string, k: nat, q: char, value: string, utf8: bool)
    requires k < |t| && t[k..] == value && value != [] && value[0] == q && Quote(q)
    ensures Dark(t, k, utf8)
  {
    assert t[k] == t[k..][0];
  }

  lemma BodyAt(a: string, o: string, body: string)
    ensures var t, k := a + (o + body), |a| + |o|;
      t[k..] == body && |t| == k + |body| && forall i :: 0 <= i < |body| ==> t[k + i] == body[i]
  {}

  /** Whatever white space stands around the name and behind the equals sign, whichever quotes are used, and whatever
    * stands in front of the attribute and behind it: the written value comes back, up to just behind its closing
    * quote, exactly if it has no hexadecimal character reference. */
  lemma SpacedRoundTrip(a: string, s0: string, name: string, s1: string, s2: string, q: char, value: string,
                        rest: string, utf8: bool)
    requires ValidName(name, utf8) && Spaced(s0, s1, s2, utf8) && Quote(q) && NulFree(value) && Complete(value, utf8)
    ensures var e := Opening(s0, name, s1, s2) + ([q] + (Encode(value) + [q]));
      Parse(a + (e + rest), |a|, utf8) == Attribute(name, value, |a| + |e|) <==> !HasReference(value)
  {
    var o, body := Opening(s0, name, s1, s2), Encode(value) + [q] + rest;
    assert a + (o + ([q] + (Encode(value) + [q])) + rest) == a + (o + ([q] + body));
    ParseParts(a, s0, name, s1, s2, q, body, utf8);
    if HasReference(value) {
      NotReadBack(value, q, rest, utf8);
    } else {
      ReadsBack(value, q, rest, utf8);
    }
  }

  lemma {:induction false} BareEnds(t: string, p: nat, q: nat)
    requires p <= q <= |t| && (forall i :: p <= i < q ==> !EndsBare(t[i]) && !Quote(t[i]))
    requires q == |t| || EndsBare(t[q]) || Quote(t[q])
    ensures BehindBare(t, p) == q
    decreases q - p
  {
    if p == q {
    } else {
      BareEnds(t, p + 1, q);
    }
  }

  lemma BareRead(t: string, k: nat, bare: string, utf8: bool)
    requires PartAt(t, k, bare) && k < |t| && !Quote(t[k])
    requires forall i :: 0 <= i < |bare| ==> !EndsBare(bare[i]) && !Quote(bare[i])
    requires var q := k + |bare|; q == |t| || EndsBare(t[q]) || Quote(t[q])
    ensures var q := k + |bare|; ParseValue(t, k, utf8) == if q < |t| && Quote(t[q]) then Fail else Got(bare, |bare|)
  {
    assert forall i :: 0 <= i < |bare| ==> t[k + i] == bare[i];
    BareEnds(t, k, k + |bare|);
  }

  /** A value without quotes ends at white space, a slash, a greater-than sign or the end of the text; a quote in it is
    * an error. */
  lemma ParsesBare(a: string, s0: string, name: string, s1: string, s2: string, bare: string, rest: string, utf8: bool)
    requires ValidName(name, utf8) && Spaced(s0, s1, s2, utf8) && Dark(bare + rest, 0, utf8)
    requires (forall i :: 0 <= i < |bare| ==> !EndsBare(bare[i]) && !Quote(bare[i])) && !Quote((bare + rest)[0])
    requires rest == [] || EndsBare(rest[0]) || Quote(rest[0])
    ensures var o := Opening(s0, name, s1, s2);
      Parse(a + (o + (bare + rest)), |a|, utf8) ==
      if rest != [] && Quote(rest[0]) then Bad else Attribute(name, bare, |a| + |o| + |bare|)
  {
    var o, body := Opening(s0, name, s1, s2), bare + rest;
    var t, k := a + (o + body), |a| + |o|;
    HeadStands(a, s0, name, s1, s2, body);
    BodyAt(a, o, body);
    HeadRead(t, |a|, s0, name, s1, s2, k, utf8);
    assert t[k..k + |bare|] == t[k..][..|bare|] == bare;
    BareRead(t, k, bare, utf8);
  }

  lemma PrintIs(name: string, value: string, rest: string)
    requires forall i :: 0 <= i < |name| ==> NameChar(name[i])
    ensures var q := QuoteFor(value);
      && Print(name, value) + rest == [] + (Opening([], name, [], []) + ([q] + (Encode(value) + [q] + rest)))
      && |Opening([], name, [], [])| == |name| + 1
  {
    PlainName(name);
    OpeningPlain(name);
    PrintedText(name, QuoteFor(value), Encode(value), rest);
  }

  lemma OpeningPlain(name: string)
    ensures Opening([], name, [], []) == name + ['=']
  {
    assert [] + (['='] + []) == ['='];
  }

  lemma PrintedText(name: string, q: char, encoded: string, rest: string)
    ensures name + ['=', q] + encoded + [q] + rest == [] + (name + ['='] + ([q] + (encoded + [q] + rest)))
  {
    assert ['=', q] == ['='] + [q];
  }

  lemma ParsePrinted(name: string, value: string, rest: string, utf8: bool)
    requires ValidName(name, utf8)
    ensures var q := QuoteFor(value);
      Parse(Print(name, value) + rest, 0, utf8) ==
      match Read(Encode(value) + [q] + rest, q, utf8)
      case Fail => Bad
      case Wild => Lost
      case Got(v, used) => Attribute(name, v, |name| + 2 + used)
  {
    var q := QuoteFor(value);
    PrintIs(name, value, rest);
    ParseParts([], [], name, [], [], q, Encode(value) + [q] + rest, utf8);
  }

  /** The attribute comes back, whatever follows it, and parsing stops just behind the closing quote. */
  predicate ComesBack(name: string, value: string, rest: string, utf8: bool) {
    Parse(Print(name, value) + rest, 0, utf8) == Attribute(name, value, |Print(name, value)|)
  }

  /** Without character references no quote of either kind is written for a value. */
  lemma {:induction false} NoQuoteWritten(v: string)
    requires !HasReference(v)
    ensures forall i :: 0 <= i < |Encode(v)| ==> !Quote(Encode(v)[i])
    decreases |v|
  {
    if v == [] {
    } else {
      NoQuoteWritten(v[1..]);
      assert forall i :: 0 <= i < |Escape(v[0])| ==> !Quote(Escape(v[0])[i]);
    }
  }

  lemma AlwaysComesBack(name: string, value: string, rest: string, utf8: bool)
    requires ValidName(name, utf8) && NulFree(value) && Complete(value, utf8) && !HasReference(value)
    ensures ComesBack(name, value, rest, utf8)
  {
    PlainName(name);
    ReadsBack(value, QuoteFor(value), rest, utf8);
    ParsePrinted(name, value, rest, utf8);
  }

  lemma NeverComesBack(name: string, value: string, rest: string, utf8: bool)
    requires ValidName(name, utf8) && NulFree(value) && Complete(value, utf8) && HasReference(value)
    ensures !ComesBack(name, value, rest, utf8)
  {
    PlainName(name);
    NotReadBack(value, QuoteFor(value), rest, utf8);
    ParsePrinted(name, value, rest, utf8);
  }

  /** Whatever follows the attribute, printing and parsing undo each other exactly for the values without a
      hexadecimal character reference. */
  lemma RoundTrip(name: string, value: string, rest: string, utf8: bool)
    requires ValidName(name, utf8) && NulFree(value) && Complete(value, utf8)
    ensures ComesBack(name, value, rest, utf8) <==> !HasReference(value)
  {
    if HasReference(value) {
      NeverComesBack(name, value, rest, utf8);
    } else {
      AlwaysComesBack(name, value, rest, utf8);
    }
  }

  /** How the characters with a meaning of their own are written (section 4.6 of XML 1.0), and a control character. */
  lemma Spelling()
    ensures Encode("&") == "&amp;" && Encode("<") == "&lt;" && Encode(">") == "&gt;"
    ensures Encode("\"") == "&quot;" && Encode("'") == "&apos;" && Encode("\n") == "&#x0A;"
  {
    assert Escape('\n') == Reference('\n') == "&#x0A;";
    forall c: char ensures !StartsReference([c]) && Encode([c]) == Escape(c) {
      assert [c][1..] == [];
    }
  }

  /** The six characters that are white space. */
  lemma SixSpaces(c: char)
    ensures WhiteSpace(c) <==> c in {' ', '\t', '\n', '\U{0B}', '\U{0C}', '\r'}
  {}
}
