/** Character references: the number that is written is the number that is read, and its bytes give it back. */
module XmlNumbers {
  import opened Options
  import opened Numerals
  import opened XmlText

  /** The digits of a reference: decimal, or hexadecimal in either case. */
  predicate DigitsFor(digits: string, hex: bool) {
    if hex then digits == LOWER || digits == UPPER else digits == DECIMAL
  }

  lemma DigitRead(digits: string, hex: bool, d: nat)
    requires DigitsFor(digits, hex) && d < |digits|
    ensures |digits| == (if hex then 16 else 10) && digits[d] != ';' && digits[d] != 'x' && digits[d] != '#'
    ensures digits[d] != '\0' && (if hex then HexValue(digits[d]) else DecimalValue(digits[d])) == Some(d)
  {
    if d < 5 {
      assert d == 0 || d == 1 || d == 2 || d == 3 || d == 4;
    } else if d < 10 {
      assert d == 5 || d == 6 || d == 7 || d == 8 || d == 9;
    } else {
      assert d == 10 || d == 11 || d == 12 || d == 13 || d == 14 || d == 15;
    }
  }

  /** Taking off the last digit of a number that is multiplied: what the digit is worth, the multiplier for the
    * next, and what is left. */
  lemma LastDigit(mult: nat, n: nat, digits: string, total: nat) returns (part: nat, next: nat, left: nat)
    requires (|digits| == 10 || |digits| == 16) && total == mult * n
    ensures Last(n, digits) < |digits| && (n < |digits| <==> Quotient(n, digits) == 0)
    ensures part == mult * Last(n, digits) && next == mult * |digits| && left == next * Quotient(n, digits)
    ensures total == left + part && (n >= |digits| ==> next <= total)
  {
    var rest, d, base := Quotient(n, digits), Last(n, digits), |digits|;
    assert n == base * rest + d;
    Distribute(mult, base, rest, d);
    part, next, left := mult * d, mult * base, mult * base * rest;
  }

  lemma Distribute(mult: nat, base: nat, rest: nat, d: nat)
    ensures mult * (base * rest + d) == mult * base * rest + mult * d
    ensures mult * d <= mult * base * rest + mult * d && (rest > 0 ==> mult * base <= mult * base * rest + mult * d)
  {
    var m := mult * base;
    assert mult * (base * rest + d) == mult * (base * rest) + mult * d;
    assert mult * (base * rest) == m * rest;
    assert mult * d >= 0 && m * rest >= 0;
    if rest > 0 {
      assert m * rest == m * (rest - 1) + m && m * (rest - 1) >= 0;
    }
  }

  /** The digits of `t` begin at `from`, and the mark stands in front of them. */
  ghost predicate Marked(t: string, from: nat, hex: bool) {
    0 < from <= |t| && t[from - 1] == (if hex then 'x' else '#')
  }

  /** At q stands the digit d, which is worth `part`; nothing wraps around. */
  ghost predicate DigitAt(t: string, from: nat, digits: string, q: nat, d: nat, ucs: nat, mult: nat, part: nat,
                          next: nat) {
    from <= q < |t| && d < |digits| && t[q] == digits[d] && part == mult * d && next == mult * |digits|
      && ucs + part < WORD
  }

  /** The loop over digits, for any of its states. */
  ghost predicate Loops(loop: (nat, nat, nat) -> Option<nat>, t: string, from: nat, digits: string) {
    forall q: nat, d: nat, ucs: nat, mult: nat, part: nat, next: nat ::
      DigitAt(t, from, digits, q, d, ucs, mult, part, next) ==>
      if q == from then loop(q, ucs, mult) == Some(ucs + part)
      else next < WORD ==> loop(q, ucs, mult) == loop(q - 1, ucs + part, next)
  }

  ghost function Loop(t: string, from: nat, hex: bool): (nat, nat, nat) -> Option<nat>
    requires Marked(t, from, hex)
  {
    (q: nat, ucs: nat, mult: nat) => if from <= q < |t| then Digits(t, q, hex, ucs, mult) else None
  }

  /** One digit, where nothing wraps around. */
  lemma DigitStep(t: string, from: nat, digits: string, hex: bool, q: nat, d: nat, ucs: nat, mult: nat, part: nat,
                  next: nat)
    requires DigitsFor(digits, hex) && Marked(t, from, hex) && DigitAt(t, from, digits, q, d, ucs, mult, part, next)
    ensures Digits(t, q, hex, ucs, mult) == Digits(t, q - 1, hex, ucs + part, next % WORD)
  {
    DigitRead(digits, hex, d);
    Small(part, WORD);
    Small(ucs + part, LONG);
  }

  lemma LoopDoes(t: string, from: nat, digits: string, hex: bool)
    requires DigitsFor(digits, hex) && Marked(t, from, hex)
    ensures Loops(Loop(t, from, hex), t, from, digits)
  {
    var loop := Loop(t, from, hex);
    forall q: nat, d: nat, ucs: nat, mult: nat, part: nat, next: nat
      | DigitAt(t, from, digits, q, d, ucs, mult, part, next)
      ensures if q == from then loop(q, ucs, mult) == Some(ucs + part)
        else next < WORD ==> loop(q, ucs, mult) == loop(q - 1, ucs + part, next)
    {
      DigitStep(t, from, digits, hex, q, d, ucs, mult, part, next);
      if next < WORD {
        Small(next, WORD);
      }
    }
  }

  lemma LastWritten(s: string, n: nat, digits: string)
    requires (|digits| == 10 || |digits| == 16) && s == Written(n, digits)
    ensures s[|s| - 1] == digits[Last(n, digits)]
    ensures if n < |digits| then |s| == 1 else |s| > 1 && s[..|s| - 1] == Written(Quotient(n, digits), digits)
  {}

  lemma Slices(t: string, from: nat, q: nat)
    requires from <= q < |t|
    ensures var s := t[from..q + 1]; |s| == q + 1 - from && s[|s| - 1] == t[q] && s[..|s| - 1] == t[from..q]
  {}

  /** The last digit stands at q, and the others in front of it. */
  lemma LastPlace(t: string, from: nat, q: nat, digits: string, n: nat)
    requires (|digits| == 10 || |digits| == 16) && from <= q < |t| && t[from..q + 1] == Written(n, digits)
    ensures t[q] == digits[Last(n, digits)]
    ensures if n < |digits| then q == from else from < q && t[from..q] == Written(Quotient(n, digits), digits)
  {
    var s := t[from..q + 1];
    LastWritten(s, n, digits);
    Slices(t, from, q);
  }

  /** From the last digit to the mark, the loop gives the number that is written, if it is one of 32 bits. */
  lemma {:induction false} DigitsWritten(loop: (nat, nat, nat) -> Option<nat>, t: string, from: nat, q: nat,
                                         digits: string, n: nat, ucs: nat, mult: nat, total: nat)
    requires Loops(loop, t, from, digits) && from <= q < |t| && (|digits| == 10 || |digits| == 16)
    requires t[from..q + 1] == Written(n, digits) && total == mult * n && ucs + total < WORD
    ensures loop(q, ucs, mult) == Some(ucs + total)
    decreases n
  {
    var part, next, left := LastDigit(mult, n, digits, total);
    var d, rest := Last(n, digits), Quotient(n, digits);
    LastPlace(t, from, q, digits, n);
    assert DigitAt(t, from, digits, q, d, ucs, mult, part, next);
    if n < |digits| {
      assert left == 0;
    } else {
      DigitsWritten(loop, t, from, q - 1, digits, rest, ucs + part, next, left);
    }
  }

  /** A reference to the character with this number, behind which the text goes on. */
  function Numbered(n: nat, digits: string, hex: bool): string
    requires DigitsFor(digits, hex)
  {
    (if hex then "&#x" else "&#") + (Written(n, digits) + ";")
  }

  lemma Placed(a: string, w: string, z: string)
    ensures var t := a + (w + ";") + z; t[..|a|] == a && t[|a|..|a| + |w|] == w && t[|a| + |w|] == ';'
  {}

  /** No digit ends a reference or begins one. */
  lemma DigitsOnly(n: nat, digits: string, hex: bool, i: nat)
    requires DigitsFor(digits, hex) && |digits| == (if hex then 16 else 10) && i < |Written(n, digits)|
    ensures var c := Written(n, digits)[i]; c != ';' && c != '\0' && c != 'x'
  {
    var c := Written(n, digits)[i];
    assert c in digits;
    var d: nat :| d < |digits| && digits[d] == c;
    DigitRead(digits, hex, d);
  }

  lemma NumberPlaced(n: nat, digits: string, hex: bool, z: string)
    requires DigitsFor(digits, hex)
    ensures var e := Numbered(n, digits, hex); var t, from := e + z, if hex then 3 else 2;
      && t[2] != '\0' && (t[2] == 'x' <==> hex) && t[from] != '\0' && t[from - 1] == (if hex then 'x' else '#')
      && Find(t, from, ';') == |e| - 1 && t[from..|e| - 1] == Written(n, digits)
  {
    var t, from, w := Numbered(n, digits, hex) + z, if hex then 3 else 2, Written(n, digits);
    var m := from + |w|;
    Placed(if hex then "&#x" else "&#", w, z);
    forall i | from <= i < m ensures t[i] != ';' && t[i] != '\0' && t[i] != 'x' {
      assert t[i] == t[from..m][i - from];
      DigitsOnly(n, digits, hex, i - from);
    }
    FindIs(t, from, m, ';');
  }

  lemma NumberDigits(n: nat, digits: string, hex: bool, t: string, from: nat, q: nat)
    requires DigitsFor(digits, hex) && n < WORD && Marked(t, from, hex) && from <= q < |t|
    requires t[from..q + 1] == Written(n, digits)
    ensures Digits(t, q, hex, 0, 1) == Some(n)
  {
    LoopDoes(t, from, digits, hex);
    DigitsWritten(Loop(t, from, hex), t, from, q, digits, n, 0, 1, n);
  }

  // ----- What the bytes of a number are

  /** The payload of a byte that is not the first. */
  function Tail(c: char): Option<nat> {
    if '\U{80}' <= c <= '\U{BF}' then Some(c as nat - 0x80) else None
  }

  /** The number that a sequence of UTF-8 stands for (section 3 of RFC 3629, without its upper limit). */
  function FromUtf8(s: string): Option<nat> {
    if |s| == 1 && s[0] < '\U{80}' then Some(s[0] as nat)
    else if |s| == 2 && '\U{C0}' <= s[0] < '\U{E0}' && Tail(s[1]).Some? then
      AtLeast(0x80, (s[0] as nat - 0xC0) * 64 + Tail(s[1]).value)
    else if |s| == 3 && '\U{E0}' <= s[0] < '\U{F0}' && Tail(s[1]).Some? && Tail(s[2]).Some? then
      AtLeast(0x800, ((s[0] as nat - 0xE0) * 64 + Tail(s[1]).value) * 64 + Tail(s[2]).value)
    else if |s| == 4 && '\U{F0}' <= s[0] < '\U{F8}' && Tail(s[1]).Some? && Tail(s[2]).Some? && Tail(s[3]).Some? then
      AtLeast(0x10000,
        (((s[0] as nat - 0xF0) * 64 + Tail(s[1]).value) * 64 + Tail(s[2]).value) * 64 + Tail(s[3]).value)
    else None
  }

  /** No number may be written with more bytes than it needs. */
  function AtLeast(least: nat, n: nat): Option<nat> {
    if n >= least then Some(n) else None
  }

  lemma TwoBytes(n: nat)
    requires 0x80 <= n < 0x800
    ensures FromUtf8(ToUtf8(n)) == Some(n)
  {
    assert n == n / 64 * 64 + n % 64;
  }

  lemma ThreeBytes(n: nat)
    requires 0x800 <= n < 0x10000
    ensures FromUtf8(ToUtf8(n)) == Some(n)
  {
    assert n / 64 == n / 4096 * 64 + n / 64 % 64;
    assert n == (n / 4096 * 64 + n / 64 % 64) * 64 + n % 64;
  }

  lemma FourBytes(n: nat)
    requires 0x10000 <= n < 0x200000
    ensures FromUtf8(ToUtf8(n)) == Some(n)
  {
    assert n / 64 == n / 4096 * 64 + n / 64 % 64;
    assert n / 4096 == n / 262144 * 64 + n / 4096 % 64;
    assert n == ((n / 262144 * 64 + n / 4096 % 64) * 64 + n / 64 % 64) * 64 + n % 64;
  }

  /** The bytes that are written for a number stand for it, as far as there are any: below 2^21. */
  lemma BytesRead(n: nat)
    ensures if n < 0x200000 then FromUtf8(ToUtf8(n)) == Some(n) else ToUtf8(n) == []
  {
    if n < 0x80 {
    } else if n < 0x800 {
      TwoBytes(n);
    } else if n < 0x10000 {
      ThreeBytes(n);
    } else if n < 0x200000 {
      FourBytes(n);
    }
  }

  /** The first byte tells the length, up to the last number with a first byte in the table, and what is written for
    * such a number is read as one character. */
  lemma OneCharacter(n: nat, z: string)
    requires 0x80 <= n < 0x140000
    ensures var s := ToUtf8(n);
      Complete(s, true) && SequenceLength(s[0]) == |s| && Char(s + z, true) == Step(s, |s|)
  {
    var s := ToUtf8(n);
    assert (s + z)[..|s|] == s && s[|s|..] == [];
    assert SequenceLength(s[0]) == |s|;
  }

  /** A reference to any number of 32 bits, decimal or hexadecimal in either case, is used up and gives that number:
    * its lowest byte, or in UTF-8 the bytes that stand for it, and none if it has more than 21 bits. */
  lemma NumberRead(n: nat, digits: string, hex: bool, z: string, utf8: bool)
    requires DigitsFor(digits, hex) && n < WORD
    ensures var e := Numbered(n, digits, hex); var r := Entity(e + z, utf8);
      && r.Step? && r.used == |e|
      && if !utf8 then r.out == [(n % 256) as char]
         else if n < 0x200000 then FromUtf8(r.out) == Some(n)
         else r.out == []
  {
    var e := Numbered(n, digits, hex);
    var t := e + z;
    NumberPlaced(n, digits, hex, z);
    NumberDigits(n, digits, hex, t, if hex then 3 else 2, |e| - 2);
    assert At(t, 1) == '#';
    BytesRead(n);
  }

  lemma Regrouped(a: string, w: string, z: string)
    ensures a + w + ";" + z == a + (w + ";") + z && |a + (w + ";")| == |a| + |w| + 1
  {}

  lemma DecimalRead(n: nat, z: string, utf8: bool)
    requires n < WORD
    ensures var r := Entity("&#" + Decimal(n) + ";" + z, utf8);
      && r.Step? && r.used == |Decimal(n)| + 3
      && if !utf8 then r.out == [(n % 256) as char]
         else if n < 0x200000 then FromUtf8(r.out) == Some(n)
         else r.out == []
  {
    NumberRead(n, DECIMAL, false, z, utf8);
    Regrouped("&#", Decimal(n), z);
  }

  /** The marks that are skipped in UTF-8 are the byte order mark and the two numbers that are no characters. */
  lemma MarksSkipped(n: nat, z: string)
    requires 0x80 <= n < 0x200000
    ensures MarkAt(ToUtf8(n) + z, 0) <==> n == 0xFEFF || n == 0xFFFE || n == 0xFFFF
  {
    var t := ToUtf8(n) + z;
    if 0x800 <= n < 0x10000 {
      assert t[0] == ToUtf8(n)[0] && t[1] == ToUtf8(n)[1] && t[2] == ToUtf8(n)[2];
      assert n == (n / 4096 * 64 + n / 64 % 64) * 64 + n % 64;
    } else {
      assert t[0] == ToUtf8(n)[0];
    }
  }

  const SMALL := "abcdefghijklmnopqrstuvwxyz"
  const CAPITAL := "ABCDEFGHIJKLMNOPQRSTUVWXYZ"

  lemma LetterAt(d: nat)
    requires d < 26
    ensures SMALL[d] == 'a' + d as char && CAPITAL[d] == 'A' + d as char
  {
    if d < 9 {
      assert d == 0 || d == 1 || d == 2 || d == 3 || d == 4 || d == 5 || d == 6 || d == 7 || d == 8;
    } else if d < 18 {
      assert d == 9 || d == 10 || d == 11 || d == 12 || d == 13 || d == 14 || d == 15 || d == 16 || d == 17;
    } else {
      assert d == 18 || d == 19 || d == 20 || d == 21 || d == 22 || d == 23 || d == 24 || d == 25;
    }
  }

  /** A run of 26 characters from `first` on, and no others. */
  lemma RunIn(run: string, first: char, c: char)
    requires |run| == 26 && first <= 'a' && forall d: nat :: d < 26 ==> run[d] == first + d as char
    ensures c in run <==> first <= c <= first + 25 as char
  {
    if first <= c <= first + 25 as char {
      assert run[c as int - first as int] == c;
    }
  }

  lemma LetterIn(c: char)
    ensures c in SMALL <==> 'a' <= c <= 'z'
    ensures c in CAPITAL <==> 'A' <= c <= 'Z'
  {
    forall d: nat | d < 26 ensures SMALL[d] == 'a' + d as char && CAPITAL[d] == 'A' + d as char {
      LetterAt(d);
    }
    RunIn(SMALL, 'a', c);
    RunIn(CAPITAL, 'A', c);
  }

  lemma DigitIn(c: char)
    ensures c in DECIMAL <==> '0' <= c <= '9'
  {
    if '0' <= c <= '9' {
      var d := c as nat - '0' as nat;
      assert d == 0 || d == 1 || d == 2 || d == 3 || d == 4 || d == 5 || d == 6 || d == 7 || d == 8 || d == 9;
      assert DECIMAL[d] == c;
    }
  }

  /** In ASCII a name begins with a letter or an underscore, and goes on with these, digits and three other signs. */
  lemma NameCharacters(c: char)
    requires c < '\U{7F}'
    ensures NameStart(c) <==> c in SMALL || c in CAPITAL || c == '_'
    ensures NameChar(c) <==> NameStart(c) || c in DECIMAL || c in "-.:"
  {
    LetterIn(c);
    DigitIn(c);
    assert "-.:"[0] == '-' && "-.:"[1] == '.' && "-.:"[2] == ':';
  }
}
