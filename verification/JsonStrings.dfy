/** Text as JavaScript sees it, and JSON.stringify on strings: the quoting of section 7 of
  RFC 8259 with the lone-surrogate escapes of ECMAScript, and a reader that undoes it. */
module JsonStrings {
  import opened Common

  /** A UTF-16 code unit. */
  type Unit = c: int | 0 <= c < 0x10000

  type Text = seq<Unit>

  /** A literal character of the basic plane as a code unit. */
  function UnitOf(c: char): Unit {
    if c as int < 0x10000 then c as int else 0xFFFD
  }

  function Units(s: string): (t: Text)
    ensures |t| == |s| && forall i :: 0 <= i < |s| ==> t[i] == UnitOf(s[i])
  {
    seq(|s|, i requires 0 <= i < |s| => UnitOf(s[i]))
  }

  const QUOTE: Unit := 34
  const BACKSLASH: Unit := 92
  const LOWER_U: Unit := 117

  predicate High(c: Unit) { 0xD800 <= c <= 0xDBFF }
  predicate Low(c: Unit) { 0xDC00 <= c <= 0xDFFF }

  function HexDigit(d: int): Unit
    requires 0 <= d < 16
  {
    if d < 10 then 48 + d else 87 + d
  }

  /** `\uXXXX` in lower case. */
  function UnicodeEscape(c: Unit): Text {
    [BACKSLASH, LOWER_U, HexDigit(c / 4096), HexDigit(c / 256 % 16), HexDigit(c / 16 % 16), HexDigit(c % 16)]
  }

  /** The letter after the backslash, for the units with a short escape. */
  function ShortEscape(c: Unit): Option<Unit> {
    match c
    case 8 => Some(98)
    case 9 => Some(116)
    case 10 => Some(110)
    case 12 => Some(102)
    case 13 => Some(114)
    case 34 => Some(34)
    case 92 => Some(92)
    case _ => None
  }

  function EscapeUnit(c: Unit): (t: Text)
    ensures t != []
  {
    if ShortEscape(c).Some? then [BACKSLASH, ShortEscape(c).value]
    else if c < 0x20 || High(c) || Low(c) then UnicodeEscape(c)
    else [c]
  }

  /** A surrogate pair is copied; a lone surrogate is escaped. */
  function Escape(s: Text): Text {
    if s == [] then []
    else if |s| >= 2 && High(s[0]) && Low(s[1]) then [s[0], s[1]] + Escape(s[2..])
    else EscapeUnit(s[0]) + Escape(s[1..])
  }

  function Quote(s: Text): Text {
    [QUOTE] + Escape(s) + [QUOTE]
  }

  // --- The reader -----------------------------------------------------------

  datatype Read = Read(text: Text, rest: Text)

  function HexValue(c: Unit): Option<int> {
    if 48 <= c <= 57 then Some(c - 48) else if 97 <= c <= 102 then Some(c - 87) else None
  }

  function ShortUnescape(c: Unit): Option<Unit> {
    match c
    case 98 => Some(8)
    case 116 => Some(9)
    case 110 => Some(10)
    case 102 => Some(12)
    case 114 => Some(13)
    case 34 => Some(34)
    case 92 => Some(92)
    case _ => None
  }

  function UnicodeUnescape(t: Text): Option<Unit>
    requires |t| >= 4
  {
    var a, b, c, d := HexValue(t[0]), HexValue(t[1]), HexValue(t[2]), HexValue(t[3]);
    if a.Some? && b.Some? && c.Some? && d.Some? then
      Some(((a.value * 16 + b.value) * 16 + c.value) * 16 + d.value)
    else None
  }

  /** One character of a string literal, and what follows it. */
  function ReadUnit(t: Text): (r: Option<Read>)
    ensures r.Some? ==> |r.value.rest| < |t| && |r.value.text| == 1
  {
    if t == [] || t[0] == QUOTE then None
    else if t[0] != BACKSLASH then Some(Read([t[0]], t[1..]))
    else if |t| >= 6 && t[1] == LOWER_U && UnicodeUnescape(t[2..]).Some? then
      Some(Read([UnicodeUnescape(t[2..]).value], t[6..]))
    else if |t| >= 2 && ShortUnescape(t[1]).Some? then Some(Read([ShortUnescape(t[1]).value], t[2..]))
    else None
  }

  /** Reads a string literal from just after its opening quote. */
  function Unquote(t: Text): (r: Option<Read>)
    ensures r.Some? ==> |r.value.rest| < |t|
    decreases |t|
  {
    if t == [] then None
    else if t[0] == QUOTE then Some(Read([], t[1..]))
    else
      match ReadUnit(t)
      case None => None
      case Some(u) =>
        match Unquote(u.rest)
        case None => None
        case Some(r) => Some(Read(u.text + r.text, r.rest))
  }

  lemma HexBack(d: int)
    requires 0 <= d < 16
    ensures HexValue(HexDigit(d)) == Some(d)
  {
  }

  lemma {:induction false} HexDigitsOf(c: int)
    requires 0 <= c < 0x10000
    ensures 0 <= c / 4096 < 16
    ensures ((c / 4096 * 16 + c / 256 % 16) * 16 + c / 16 % 16) * 16 + c % 16 == c
  {
    assert c / 16 / 16 == c / 256 && c / 256 / 16 == c / 4096;
  }

  lemma {:induction false} ReadUnicode(c: Unit, t: Text)
    ensures ReadUnit(UnicodeEscape(c) + t) == Some(Read([c], t))
  {
    var h := [HexDigit(c / 4096), HexDigit(c / 256 % 16), HexDigit(c / 16 % 16), HexDigit(c % 16)];
    var e := UnicodeEscape(c) + t;
    assert e == [BACKSLASH, LOWER_U] + h + t;
    assert e[2..] == h + t && e[6..] == t;
    assert UnicodeUnescape(e[2..]) == Some(c) by {
      HexDigitsOf(c);
      HexBack(c / 4096);
      HexBack(c / 256 % 16);
      HexBack(c / 16 % 16);
      HexBack(c % 16);
      hide HexValue, HexDigit;
    }
    hide UnicodeUnescape, UnicodeEscape;
  }

  lemma {:induction false} ReadEscaped(c: Unit, t: Text)
    ensures ReadUnit(EscapeUnit(c) + t) == Some(Read([c], t))
    ensures (EscapeUnit(c) + t)[0] != QUOTE
  {
    if ShortEscape(c).Some? {
      var e := [BACKSLASH, ShortEscape(c).value] + t;
      assert e[2..] == t;
      assert e[1] != LOWER_U;
    } else if c < 0x20 || High(c) || Low(c) {
      ReadUnicode(c, t);
      hide ReadUnit;
    } else {
      assert ([c] + t)[1..] == t;
    }
  }

  /** Reading goes one character at a time. */
  lemma {:induction false} UnquoteStep(x: Text, c: Unit, t: Text, s: Text, rest: Text)
    requires x != [] && x[0] != QUOTE && ReadUnit(x) == Some(Read([c], t))
    requires Unquote(t) == Some(Read(s, rest))
    ensures Unquote(x) == Some(Read([c] + s, rest))
  {
    hide ReadUnit;
  }

  lemma {:induction false} ReadPair(h: Unit, l: Unit, t: Text, s: Text, rest: Text)
    requires High(h) && Low(l) && Unquote(t) == Some(Read(s, rest))
    ensures Unquote([h, l] + t) == Some(Read([h, l] + s, rest))
  {
    assert ([l] + t)[1..] == t && ([h, l] + t)[1..] == [l] + t;
    assert ReadUnit([l] + t) == Some(Read([l], t)) && ReadUnit([h, l] + t) == Some(Read([h], [l] + t));
    hide ReadUnit;
    UnquoteStep([l] + t, l, t, s, rest);
    UnquoteStep([h, l] + t, h, [l] + t, [l] + s, rest);
    assert [h] + ([l] + s) == [h, l] + s;
    hide Unquote;
  }

  lemma {:induction false} UnquoteEnd(rest: Text)
    ensures Unquote([QUOTE] + rest) == Some(Read([], rest))
  {
    assert ([QUOTE] + rest)[1..] == rest;
  }

  /** Reading a quoted string gives back the string and everything after the closing quote. */
  lemma {:induction false} UnquoteQuote(s: Text, rest: Text)
    ensures Unquote(Escape(s) + [QUOTE] + rest) == Some(Read(s, rest))
    decreases |s|
  {
    hide Unquote, ReadUnit, EscapeUnit;
    if s == [] {
      UnquoteEnd(rest);
      assert Escape(s) + [QUOTE] + rest == [QUOTE] + rest;
    } else if |s| >= 2 && High(s[0]) && Low(s[1]) {
      UnquoteQuote(s[2..], rest);
      var tail := Escape(s[2..]) + [QUOTE] + rest;
      ReadPair(s[0], s[1], tail, s[2..], rest);
      assert Escape(s) == [s[0], s[1]] + Escape(s[2..]);
      hide Escape;
      assert Escape(s) + [QUOTE] + rest == [s[0], s[1]] + tail;
      assert [s[0], s[1]] + s[2..] == s;
    } else {
      UnquoteQuote(s[1..], rest);
      var tail := Escape(s[1..]) + [QUOTE] + rest;
      ReadEscaped(s[0], tail);
      UnquoteStep(EscapeUnit(s[0]) + tail, s[0], tail, s[1..], rest);
      assert Escape(s) == EscapeUnit(s[0]) + Escape(s[1..]);
      hide Escape;
      assert Escape(s) + [QUOTE] + rest == EscapeUnit(s[0]) + tail;
      assert [s[0]] + s[1..] == s;
    }
  }

  // --- Which escapes are used -----------------------------------------------------

  /** A unit stands for itself in a JSON string: no control character, quote, backslash or lone surrogate. */
  predicate Copied(s: Text, i: nat)
    requires i < |s|
  {
    && s[i] >= 0x20 && s[i] != 34 && s[i] != 92
    && (0xD800 <= s[i] <= 0xDBFF ==> i + 1 < |s| && 0xDC00 <= s[i + 1] <= 0xDFFF)
    && (0xDC00 <= s[i] <= 0xDFFF ==> i > 0 && 0xD800 <= s[i - 1] <= 0xDBFF)
  }

  /** A single unit is copied, or has its two-character escape, or six characters with lower-case digits. */
  lemma {:induction false} EscapeForm(c: Unit)
    ensures EscapeUnit(c) == [c] <==> c >= 0x20 && c != 34 && c != 92 && !(0xD800 <= c <= 0xDFFF)
    ensures |EscapeUnit(c)| == 2 <==> c in {8, 9, 10, 12, 13, 34, 92}
    ensures EscapeUnit(c) != [c] && |EscapeUnit(c)| != 2 ==>
      && |EscapeUnit(c)| == 6 && EscapeUnit(c)[0] == 92 && EscapeUnit(c)[1] == 117
      && forall i :: 2 <= i < 6 ==> 48 <= EscapeUnit(c)[i] <= 57 || 97 <= EscapeUnit(c)[i] <= 102
  {
    assert c / 4096 < 16;
  }

  /** A text is quoted as it is if and only if all its units are copied. */
  lemma {:induction false} CopiedIff(s: Text)
    ensures Escape(s) == s <==> forall i: nat :: i < |s| ==> Copied(s, i)
    ensures |Escape(s)| >= |s|
    decreases |s|
  {
    hide EscapeUnit;
    if s != [] {
      var n := if |s| >= 2 && High(s[0]) && Low(s[1]) then 2 else 1;
      var rest := s[n..];
      CopiedIff(rest);
      EscapeForm(s[0]);
      assert n == 2 ==> Escape(s) == s[..2] + Escape(rest);
      assert s == s[..n] + rest;
      CopiedRest(s, n);
      if Escape(s) == s {
        assert Escape(s)[n..] == s[n..];
      }
    }
  }

  lemma {:induction false} CopiedRest(s: Text, n: nat)
    requires s != [] && n == if |s| >= 2 && High(s[0]) && Low(s[1]) then 2 else 1
    ensures (forall i: nat :: i < |s| ==> Copied(s, i)) <==>
      && (forall i: nat :: i < |s| - n ==> Copied(s[n..], i))
      && (n == 2 || (s[0] >= 0x20 && s[0] != 34 && s[0] != 92 && !(0xD800 <= s[0] <= 0xDFFF)))
  {
    var rest := s[n..];
    if forall i: nat :: i < |s| ==> Copied(s, i) {
      assert Copied(s, 0);
      forall i: nat | i < |rest|
        ensures Copied(rest, i)
      {
        assert Copied(s, i + n) && (i == 0 ==> Copied(s, n - 1));
      }
    }
    if forall i: nat :: i < |rest| ==> Copied(rest, i) {
      forall i: nat | n <= i < |s|
        ensures Copied(s, i)
      {
        assert Copied(rest, i - n);
      }
    }
  }
}
