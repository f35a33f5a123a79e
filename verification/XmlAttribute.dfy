/** TiXmlAttribute: the loops that write and read an attribute, proved against what the text means. */
module XmlAttribute {
  import opened Options
  import opened XmlText

  /** The inner loop of EncodeString: a reference is passed through up to its semicolon, or up to the last character. */
  method PassThrough(str: string, i0: nat) returns (i: nat, passed: string)
    requires i0 <= |str| && StartsReference(str[i0..])
    ensures i0 < i < |str| && passed + Encode(str[i..]) == Encode(str[i0..])
  {
    i, passed := i0, [];
    var stop := false;
    while i < |str| - 1 && !stop
      invariant i0 <= i <= |str| - 1 && passed == str[i0..i]
      invariant i > i0 ==> stop == (str[i] == ';')
      invariant i == i0 ==> !stop
      invariant forall k :: i0 < k < i ==> str[k] != ';'
      decreases |str| - i, !stop
    {
      passed := passed + [str[i]];
      i := i + 1;
      stop := str[i] == ';';
    }
    PassedIs(str, i0, i);
  }

  lemma PassedIs(str: string, i: nat, k: nat)
    requires i < k < |str| && StartsReference(str[i..]) && (forall m :: i < m < k ==> str[m] != ';')
      && (str[k] == ';' || k == |str| - 1)
    ensures Encode(str[i..]) == str[i..k] + Encode(str[k..])
  {
    var t := str[i..];
    assert forall m :: 1 <= m < k - i ==> t[m] == str[i + m];
    assert t[k - i] == str[k];
    if str[k] == ';' {
      FindIs(t, 1, k - i, ';');
    } else {
      assert Find(t, 1, ';') == |t|;
    }
    assert t[..k - i] == str[i..k] && t[k - i..] == str[k..];
  }

  lemma EscapedIs(str: string, i: nat, done: string)
    requires i < |str| && !StartsReference(str[i..])
    ensures done + Encode(str[i..]) == done + Escape(str[i]) + Encode(str[i + 1..])
  {
    assert str[i..][1..] == str[i + 1..];
  }

  lemma ReferenceAt(str: string, i: nat)
    requires i < |str|
    ensures StartsReference(str[i..])
      <==> str[i] == '&' && i < |str| - 2 && str[i + 1] == '#' && str[i + 2] == 'x'
  {}

  lemma Regroup(a: string, b: string, c: string)
    ensures a + b + c == a + (b + c)
  {}

  /** What the loop of EncodeString writes for one character that starts no reference. */
  method EncodeChar(c: char) returns (e: string)
    ensures e == Escape(c)
  {
    if c == '&' {
      e := ENTITIES[0].0;
    } else if c == '<' {
      e := ENTITIES[1].0;
    } else if c == '>' {
      e := ENTITIES[2].0;
    } else if c == '\"' {
      e := ENTITIES[3].0;
    } else if c == '\'' {
      e := ENTITIES[4].0;
    } else if c < ' ' {
      e := Reference(c);
    } else {
      e := [c];
    }
  }

  /** EncodeString. */
  method EncodeString(str: string) returns (out: string)
    ensures out == Encode(str)
  {
    out := [];
    var i := 0;
    while i < |str|
      invariant 0 <= i <= |str| && out + Encode(str[i..]) == Encode(str)
    {
      var c := str[i];
      ReferenceAt(str, i);
      if c == '&' && i < |str| - 2 && str[i + 1] == '#' && str[i + 2] == 'x' {
        var passed;
        i, passed := PassThrough(str, i);
        Regroup(out, passed, Encode(str[i..]));
        out := out + passed;
      } else {
        EscapedIs(str, i, out);
        var e := EncodeChar(c);
        out := out + e;
        i := i + 1;
      }
    }
    assert str[i..] == [];
  }

  // ----- Reading

  lemma TailAt(text: string, p: nat, i: nat)
    requires p <= |text|
    ensures p + i < |text| ==> text[p..][i] == text[p + i]
    ensures At(text[p..], i) == At(text, p + i)
  {}

  /** The two loops of GetEntity that go backwards over the digits. */
  method ReadDigits(t: string, m: nat, hex: bool) returns (r: Option<nat>)
    requires (if hex then 3 else 2) <= m < |t| && t[1] == '#' && (hex ==> t[2] == 'x')
    ensures r == Digits(t, m - 1, hex, 0, 1)
  {
    var ucs: nat, mult: nat := 0, 1;
    var q := m - 1;
    assert t[if hex then 2 else 1] == if hex then 'x' else '#';
    while t[q] != (if hex then 'x' else '#')
      invariant (if hex then 2 else 1) <= q < |t| && Digits(t, q, hex, ucs, mult) == Digits(t, m - 1, hex, 0, 1)
      decreases q
    {
      var d := if hex then HexValue(t[q]) else DecimalValue(t[q]);
      if d.None? {
        return None;
      }
      ucs := (ucs + mult * d.value % WORD) % LONG;
      mult := mult * (if hex then 16 else 10) % WORD;
      q := q - 1;
    }
    return Some(ucs);
  }

  lemma Listed(t: string, i: nat)
    requires i < 5 && StartsWith(t, ENTITIES[i].0) && t != [] && !(At(t, 1) == '#' && At(t, 2) != '\0')
    requires forall k :: 0 <= k < i ==> !StartsWith(t, ENTITIES[k].0)
    ensures Entity(t, false) == Entity(t, true) == Step([ENTITIES[i].1], |ENTITIES[i].0|)
  {
    assert i > 0 ==> !StartsWith(t, ENTITIES[0].0);
    assert i > 1 ==> !StartsWith(t, ENTITIES[1].0);
    assert i > 2 ==> !StartsWith(t, ENTITIES[2].0);
    assert i > 3 ==> !StartsWith(t, ENTITIES[3].0);
  }

  /** The loop of GetEntity over the table. */
  method MatchEntity(t: string) returns (r: Step)
    requires t != [] && t[0] == '&' && !(At(t, 1) == '#' && At(t, 2) != '\0')
    ensures r == Entity(t, false) == Entity(t, true)
  {
    var i := 0;
    while i < |ENTITIES|
      invariant 0 <= i <= 5 && forall k :: 0 <= k < i ==> !StartsWith(t, ENTITIES[k].0)
    {
      if StartsWith(t, ENTITIES[i].0) {
        Listed(t, i);
        return Step([ENTITIES[i].1], |ENTITIES[i].0|);
      }
      i := i + 1;
    }
    assert !StartsWith(t, ENTITIES[0].0) && !StartsWith(t, ENTITIES[1].0) && !StartsWith(t, ENTITIES[2].0)
        && !StartsWith(t, ENTITIES[3].0) && !StartsWith(t, ENTITIES[4].0);
    return Step("", 1);
  }

  /** GetEntity, at the text from the pointer on. */
  method GetEntity(t: string, utf8: bool) returns (r: Step)
    requires t != [] && t[0] == '&' && NulFree(t)
    ensures r == Entity(t, utf8)
  {
    if At(t, 1) == '#' && At(t, 2) != '\0' {
      var hex := t[2] == 'x';
      if At(t, if hex then 3 else 2) == '\0' {
        return Null;
      }
      var m := Find(t, if hex then 3 else 2, ';');
      if m == |t| {
        return Null;
      }
      var ucs := ReadDigits(t, m, hex);
      if ucs.None? {
        return Null;
      }
      return Step(if utf8 then ToUtf8(ucs.value) else [(ucs.value % 256) as char], m + 1);
    }
    r := MatchEntity(t);
  }

  /** GetChar: entities are resolved, and a sequence of several bytes is copied byte by byte. */
  method GetChar(t: string, utf8: bool) returns (r: Step)
    requires t != [] && NulFree(t)
    ensures r == Char(t, utf8)
  {
    var length := if utf8 then SequenceLength(t[0]) else 1;
    if length == 1 {
      if t[0] == '&' {
        r := GetEntity(t, utf8);
        return;
      }
      return Step([t[0]], 1);
    }
    var value := [];
    var i := 0;
    while At(t, i) != '\0' && i < length
      invariant 0 <= i <= length && i <= |t| && value == t[..i]
      decreases length - i
    {
      value := value + [t[i]];
      i := i + 1;
    }
    return Step(value, length);
  }

  /** tolower, in the C locale. */
  function ToLower(c: char): char {
    if 'A' <= c <= 'Z' then c + 32 as char else c
  }

  function Same(a: char, b: char, ignoreCase: bool): bool {
    if ignoreCase then ToLower(a) == ToLower(b) else a == b
  }

  /** The tag stands in the text at p. */
  ghost predicate StandsAt(text: string, p: nat, tag: string, ignoreCase: bool) {
    p + |tag| <= |text| && forall k :: 0 <= k < |tag| ==> Same(text[p + k], tag[k], ignoreCase)
  }

  /** StringEqual. */
  method StringEqual(text: string, p: nat, tag: string, ignoreCase: bool) returns (r: bool)
    requires p < |text| && NulFree(text) && NulFree(tag)
    ensures r <==> StandsAt(text, p, tag, ignoreCase)
  {
    var q, k := p, 0;
    if ignoreCase {
      while q < |text| && k < |tag| && ToLower(text[q]) == ToLower(tag[k])
        invariant 0 <= k <= |tag| && q == p + k <= |text|
        invariant forall m :: 0 <= m < k ==> Same(text[p + m], tag[m], true)
      {
        q := q + 1;
        k := k + 1;
      }
    } else {
      while q < |text| && k < |tag| && text[q] == tag[k]
        invariant 0 <= k <= |tag| && q == p + k <= |text|
        invariant forall m :: 0 <= m < k ==> Same(text[p + m], tag[m], false)
      {
        q := q + 1;
        k := k + 1;
      }
    }
    assert k < |tag| && q < |text| ==> !Same(text[p + k], tag[k], ignoreCase);
    return k == |tag|;
  }

  ghost function Prepend(value: string, used: nat, r: Reading): Reading {
    match r case Got(v, more) => Got(value + v, used + more) case other => other
  }

  lemma ReadNext(t: string, quote: char, utf8: bool)
    requires t != [] && t[0] != quote && Char(t, utf8).Step? && Char(t, utf8).used <= |t|
    ensures var step := Char(t, utf8);
      Read(t, quote, utf8) == Prepend(step.out, step.used, Read(t[step.used..], quote, utf8))
  {}

  lemma PrependTwice(a: string, i: nat, b: string, j: nat, r: Reading)
    ensures Prepend(a, i, Prepend(b, j, r)) == Prepend(a + b, i + j, r)
  {
    assert r.Got? ==> a + (b + r.value) == (a + b) + r.value;
  }

  datatype Turn = Stop(r: Reading) | Go(step: Step)

  /** How reading goes on at the text from the pointer on. */
  ghost predicate Turned(turn: Turn, t: string, quote: char, utf8: bool) {
    match turn
    case Stop(r) => Read(t, quote, utf8) == r
    case Go(step) =>
      step.Step? && 0 < step.used <= |t| &&
      Read(t, quote, utf8) == Prepend(step.out, step.used, Read(t[step.used..], quote, utf8))
  }

  /** One turn of the loop of ReadText, from its test for the end tag on. */
  method ReadTurn(text: string, p: nat, endTag: char, utf8: bool) returns (turn: Turn)
    requires p < |text| && NulFree(text) && endTag != '\0'
    ensures Turned(turn, text[p..], endTag, utf8)
  {
    var atEnd := StringEqual(text, p, [endTag], false);
    assert text[p..][0] == text[p + 0] && [endTag][0] == endTag;
    if atEnd {
      return Stop(Got([], 1));
    }
    var step := GetChar(text[p..], utf8);
    if step.Null? {
      return Stop(Fail);
    }
    if p + step.used > |text| {
      return Stop(Wild);
    }
    ReadNext(text[p..], endTag, utf8);
    return Go(step);
  }

  /** ReadText with white space kept, from p up to the quote that ends the text. */
  method ReadText(text: string, p0: nat, endTag: char, utf8: bool) returns (r: Reading)
    requires p0 <= |text| && NulFree(text) && endTag != '\0'
    ensures r == Read(text[p0..], endTag, utf8)
  {
    var p, value := p0, [];
    ghost var all, t := Read(text[p0..], endTag, utf8), text[p0..];
    while p < |text|
      invariant p0 <= p <= |text| && t == text[p..] && all == Prepend(value, p - p0, Read(t, endTag, utf8))
      decreases |text| - p
    {
      var turn := ReadTurn(text, p, endTag, utf8);
      match turn {
        case Stop(Got(v, n)) => return Got(value + v, p - p0 + n);
        case Stop(other) => return other;
        case Go(step) =>
          PrependTwice(value, p - p0, step.out, step.used, Read(t[step.used..], endTag, utf8));
          t := t[step.used..];
          p, value := p + step.used, value + step.out;
      }
    }
    return Wild;
  }

  /** ReadName: the position behind the name, or p0 itself for the null pointer. */
  method ReadName(text: string, p0: nat) returns (p: nat, name: string)
    requires p0 <= |text|
    ensures p == BehindName(text, p0) && name == text[p0..p]
  {
    p := p0;
    if p0 == |text| || !NameStart(text[p0]) {
      return p0, [];
    }
    while p < |text| && NameChar(text[p])
      invariant p0 <= p <= |text| && NameEnd(text, p0) == NameEnd(text, p)
    {
      p := p + 1;
    }
    name := text[p0..p];
  }

  /** SkipWhiteSpace. */
  method SkipWhiteSpace(text: string, p0: nat, utf8: bool) returns (p: nat)
    requires p0 <= |text|
    ensures p == Skip(text, p0, utf8)
  {
    p := p0;
    if utf8 {
      while p < |text|
        invariant p0 <= p <= |text| && Skip(text, p0, utf8) == Skip(text, p, utf8)
      {
        if MarkAt(text, p) {
          p := p + 3;
        } else if WhiteSpace(text[p]) {
          p := p + 1;
        } else {
          break;
        }
      }
    } else {
      while p < |text| && WhiteSpace(text[p])
        invariant p0 <= p <= |text| && Skip(text, p0, utf8) == Skip(text, p, utf8)
      {
        p := p + 1;
      }
    }
  }

  /** The part of Parse behind the equals sign. */
  method ReadValue(text: string, p0: nat, utf8: bool) returns (r: Reading)
    requires p0 < |text| && NulFree(text)
    ensures r == ParseValue(text, p0, utf8)
  {
    if Quote(text[p0]) {
      r := ReadText(text, p0 + 1, text[p0], utf8);
      if r.Got? {
        r := Got(r.value, r.used + 1);
      }
      return;
    }
    var p, value := p0, "";
    while p < |text| && !EndsBare(text[p])
      invariant p0 <= p <= |text| && value == text[p0..p] && BehindBare(text, p0) == BehindBare(text, p)
    {
      if Quote(text[p]) {
        return Fail;
      }
      value := value + [text[p]];
      p := p + 1;
    }
    return Got(value, p - p0);
  }

  class TiXmlAttribute {
    var name: string
    var value: string

    constructor (name: string, value: string)
      ensures this.name == name && this.value == value
    {
      this.name, this.value := name, value;
    }

    /** Print: single quotes are used when the value has a double quote. */
    method Write() returns (str: string)
      ensures str == Print(name, value)
    {
      var n := EncodeString(name);
      var v := EncodeString(value);
      if '\"' !in value {
        str := n + "=\"" + v + "\"";
      } else {
        str := n + "='" + v + "'";
      }
    }

    /** Parse up to the value. */
    method ReadHead(text: string, p0: nat, utf8: bool) returns (c: Option<nat>)
      requires p0 <= |text|
      modifies this`name
      ensures Head(text, p0, utf8) == match c case None => None case Some(k) => Some((name, k))
    {
      var start := SkipWhiteSpace(text, p0, utf8);
      var p;
      p, name := ReadName(text, start);
      if p == start {
        return None;
      }
      p := SkipWhiteSpace(text, p, utf8);
      if p == |text| || text[p] != '=' {
        return None;
      }
      p := SkipWhiteSpace(text, p + 1, utf8);
      return if p == |text| then None else Some(p);
    }

    /** Parse, from p0 on: where the pointer stands behind the attribute, whose fields are set. */
    method ParseFrom(text: string, p0: nat, utf8: bool) returns (r: Parsed)
      requires p0 <= |text| && NulFree(text)
      modifies this
      ensures r == Parse(text, p0, utf8) && (r.Attribute? ==> name == r.name && value == r.value)
    {
      var c := ReadHead(text, p0, utf8);
      if c.None? {
        return Bad;
      }
      var got := ReadValue(text, c.value, utf8);
      match got {
        case Fail => return Bad;
        case Wild => return Lost;
        case Got(v, used) =>
          value := v;
          return Attribute(name, v, c.value + used);
      }
    }
  }

  /** Writing an attribute and parsing what was written, in a text that goes on behind it. */
  method WriteAndParse(attribute: TiXmlAttribute, rest: string, utf8: bool) returns (copy: TiXmlAttribute, r: Parsed)
    requires ValidName(attribute.name, utf8) && NulFree(attribute.name) && NulFree(attribute.value) && NulFree(rest)
    requires Complete(attribute.value, utf8) && !HasReference(attribute.value)
    ensures copy.name == attribute.name && copy.value == attribute.value
    ensures r.Attribute? && r.next == |Print(attribute.name, attribute.value)|
  {
    var text := attribute.Write();
    EncodeNulFree(attribute.name);
    EncodeNulFree(attribute.value);
    copy := new TiXmlAttribute("", "");
    AlwaysComesBack(attribute.name, attribute.value, rest, utf8);
    r := copy.ParseFrom(text + rest, 0, utf8);
  }
}
