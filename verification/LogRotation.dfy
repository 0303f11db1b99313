/** When a poll of a rotated log returns what a poll from its start does: the reader notices rotation
  by the size alone, so an offset of the old log may fall anywhere in the new one. */
module LogRotation {
  import opened Common
  import opened Utf8
  import opened LogTail

  // --- Lines and their weight ---------------------------------------------------

  /** How many newlines stand in front. */
  function Leading(t: Text): (k: nat)
    ensures k <= |t| && (forall i :: 0 <= i < k ==> t[i] == NEWLINE) && (k < |t| ==> t[k] != NEWLINE)
  {
    if t != [] && t[0] == NEWLINE then 1 + Leading(t[1..]) else 0
  }

  function DropNewlines(t: Text): (r: Text)
    ensures |r| <= |t| && (r == [] || r[0] != NEWLINE)
  {
    t[Leading(t)..]
  }

  /** Leading newlines make no lines. */
  lemma {:induction false} LinesDrop(a: Text, rest: Text)
    ensures Lines(a + rest) == Lines(DropNewlines(a) + rest)
  {
    hide Split, NonEmpty;
    if a != [] && a[0] == NEWLINE {
      var all := a + rest;
      assert all == [NEWLINE] + (a[1..] + rest);
      LinesAppend([NEWLINE], a[1..] + rest);
      NewlineAlone();
      LinesDrop(a[1..], rest);
      assert DropNewlines(a) == DropNewlines(a[1..]);
    }
  }

  lemma {:induction false} NewlineAlone()
    ensures Lines([NEWLINE]) == []
  {
    var t: Text := [NEWLINE];
    assert t[1..] == [];
    NoLines();
    var two := [Line([])] + Split([]);
    assert Split(t) == two && two[1..] == Split([]);
  }

  function Letters(t: Text): nat {
    if t == [] then 0 else Letters(t[1..]) + if t[0] == NEWLINE then 0 else 1
  }

  function Weight(ls: seq<Line>): nat {
    if ls == [] then 0 else |ls[0].chars| + Weight(ls[1..])
  }

  lemma {:induction false} WeightNonEmpty(ls: seq<Line>)
    ensures Weight(NonEmpty(ls)) == Weight(ls)
  {
    if ls != [] {
      WeightNonEmpty(ls[1..]);
      assert NonEmpty(ls) == NonEmpty(ls[1..]) || NonEmpty(ls)[1..] == NonEmpty(ls[1..]);
    }
  }

  lemma {:induction false} WeightPrepend(c: Scalar, ls: seq<Line>)
    requires |ls| >= 1
    ensures Weight(Prepend(c, ls)) == Weight(ls) + if c == NEWLINE then 0 else 1
  {
    var r := Prepend(c, ls);
    if c == NEWLINE {
      assert r[1..] == ls;
    } else {
      assert r[1..] == ls[1..];
    }
  }

  /** The lines hold all characters that are no newlines. */
  lemma {:induction false} WeightLines(t: Text)
    ensures Weight(Lines(t)) == Weight(Split(t)) == Letters(t)
  {
    hide Prepend, NonEmpty;
    WeightNonEmpty(Split(t));
    if t != [] {
      WeightLines(t[1..]);
      WeightPrepend(t[0], Split(t[1..]));
    } else {
      assert Split(t)[1..] == [];
    }
  }

  lemma {:induction false} LettersAppend(a: Text, b: Text)
    ensures Letters(a + b) == Letters(a) + Letters(b)
  {
    if a == [] {
      assert a + b == b;
    } else {
      LettersAppend(a[1..], b);
      assert (a + b)[1..] == a[1..] + b;
    }
  }

  lemma {:induction false} LettersBound(t: Text)
    ensures Letters(t) <= |t|
    ensures NEWLINE !in t ==> Letters(t) == |t|
  {
    if t != [] {
      LettersBound(t[1..]);
      assert t == [t[0]] + t[1..];
    }
  }

  // --- The first line ------------------------------------------------------------

  function FirstNewline(t: Text): (k: nat)
    ensures k <= |t| && (k < |t| ==> t[k] == NEWLINE)
    ensures forall i :: 0 <= i < k ==> t[i] != NEWLINE
  {
    if t == [] || t[0] == NEWLINE then 0 else FirstNewline(t[1..]) + 1
  }

  lemma {:induction false} FirstSplit(t: Text)
    ensures Split(t)[0].chars == t[..FirstNewline(t)]
  {
    if t != [] && t[0] != NEWLINE {
      FirstSplit(t[1..]);
      assert t[..FirstNewline(t)] == [t[0]] + t[1..][..FirstNewline(t[1..])];
    }
  }

  lemma {:induction false} HeadLine(t: Text)
    requires t != [] && t[0] != NEWLINE
    ensures |Lines(t)| > 0 && Lines(t)[0].chars == t[..FirstNewline(t)]
  {
    hide Split;
    FirstSplit(t);
  }

  // --- Two beginnings of one text --------------------------------------------------

  /** Before the same complete rest, a beginning that ends inside a line (or is empty) makes the same lines
    as `copy`, which holds no newline, exactly if it is `copy` after newlines. */
  lemma {:induction false} SameBeginning(a: Text, copy: Text, rest: Text)
    requires NEWLINE !in copy && rest != []
    requires copy != [] ==> a != [] && a[|a| - 1] != NEWLINE
    ensures Lines(a + rest) == Lines(copy + rest) <==> DropNewlines(a) == copy
  {
    hide Split, NonEmpty, Lines, Letters, Weight, FirstNewline;
    var b := DropNewlines(a);
    LinesDrop(a, rest);
    if Lines(b + rest) == Lines(copy + rest) {
      WeightLines(b + rest);
      WeightLines(copy + rest);
      LettersAppend(b, rest);
      LettersAppend(copy, rest);
      LettersBound(copy);
      if copy == [] {
        NoLetters(b);
      } else {
        SameHead(a, b, copy, rest);
      }
    }
  }

  lemma {:induction false} NoLetters(b: Text)
    requires Letters(b) == 0 && (b == [] || b[0] != NEWLINE)
    ensures b == []
  {
  }

  lemma {:induction false} LastLetter(b: Text, x: nat)
    requires x < |b| && b[x] == NEWLINE && b[|b| - 1] != NEWLINE
    requires forall i :: 0 <= i < x ==> b[i] != NEWLINE
    ensures Letters(b) > x
  {
    var n := |b| - 1;
    assert b == b[..x] + b[x..] && b[x..] == b[x..n] + [b[n]];
    LettersAppend(b[..x], b[x..]);
    LettersAppend(b[x..n], [b[n]]);
    LettersBound(b[..x]);
    LettersBound([b[n]]);
  }

  lemma {:induction false} SameHead(a: Text, b: Text, copy: Text, rest: Text)
    requires b == DropNewlines(a) && a != [] && a[|a| - 1] != NEWLINE
    requires copy != [] && NEWLINE !in copy && Letters(b) == |copy|
    requires Lines(b + rest) == Lines(copy + rest)
    ensures b == copy
  {
    hide Split, NonEmpty, Lines, Letters, FirstNewline;
    assert b[|b| - 1] == a[|a| - 1];
    var f := FirstNewline(rest);
    HeadLine(b + rest);
    HeadLine(copy + rest);
    HeadOf(copy, rest);
    var x := FirstNewline(b);
    if x < |b| {
      assert FirstNewline(b + rest) == x;
      LastLetter(b, x);
    } else {
      assert b[..x] == b;
      HeadOf(b, rest);
      assert (b + rest)[..|b|] == (copy + rest)[..|copy|];
    }
  }

  lemma {:induction false} HeadOf(t: Text, rest: Text)
    requires NEWLINE !in t
    ensures FirstNewline(t + rest) == |t| + FirstNewline(rest)
  {
    if t == [] {
      assert t + rest == rest;
    } else {
      assert t[0] in t && forall c :: c in t[1..] ==> c in t;
      HeadOf(t[1..], rest);
      assert (t + rest)[1..] == t[1..] + rest;
    }
  }

  // --- Rotation --------------------------------------------------------------------

  /** How many bytes of a cut character an offset `k` bytes into character `q` leaves to read. */
  function Left(t: Text, q: nat, k: nat): (r: nat)
    requires q <= |t| && (k == 0 || (q < |t| && k < |Encode(t[q])|))
    ensures r == 0 <==> k == 0
  {
    if k == 0 then 0 else |Encode(t[q])| - k
  }

  /** The first character that the offset leaves whole. */
  function Past(q: nat, k: nat): nat {
    if k == 0 then q else q + 1
  }

  /** The beginning of the new log that the offset passes over, `k` bytes into character `q`, shows no
    line: it is all newlines, but that a cut character may stand for the replacement characters
    that its bytes decode to. Nothing below the last newline matters when the offset is past it. */
  predicate Spared(t: Text, q: nat, k: nat)
    requires q <= |t| && (k == 0 || (q < |t| && k < |Encode(t[q])|))
  {
    var last := LastNewline(t) + 1;
    if q >= last then DropNewlines(t[..last]) == []
    else DropNewlines(t[..Past(q, k)]) == Copies(Left(t, q, k))
  }

  lemma {:induction false} LastNewlineIs(t: Text, k: int)
    requires -1 <= k < |t| && (k >= 0 ==> t[k] == NEWLINE) && forall j :: k < j < |t| ==> t[j] != NEWLINE
    ensures LastNewline(t) == k
  {
  }

  lemma {:induction false} AtEnd(t: Text, offset: nat, q: nat, k: nat)
    requires offset == |EncodeAll(t)| && LiesAt(t, offset, q, k)
    ensures q == |t|
  {
    hide Encode;
    assert t == t[..q] + t[q..];
    EncodeAllAppends(t[..q], t[q..]);
    EncodeHead(t[q..]);
  }

  lemma {:induction false} CutIsNoNewline(t: Text, q: nat, k: nat)
    requires q <= |t| && (k == 0 || (q < |t| && k < |Encode(t[q])|))
    ensures Past(q, k) <= |t| && (Left(t, q, k) > 0 ==> Past(q, k) > 0 && t[Past(q, k) - 1] != NEWLINE)
    ensures q >= LastNewline(t) + 1 <==> Past(q, k) >= LastNewline(t) + 1
  {
    hide LastNewline;
  }

  lemma {:induction false} DecodeLeft(t: Text, offset: nat, q: nat, k: nat)
    requires offset <= |EncodeAll(t)| && LiesAt(t, offset, q, k)
    ensures Past(q, k) <= |t|
    ensures Decode(EncodeAll(t)[offset..]) == Copies(Left(t, q, k)) + t[Past(q, k)..]
  {
    hide EncodeAll, Decode, Encode;
    DecodeFrom(t, offset, q, k);
    assert Copies(0) + t[q..] == t[q..];
  }

  /** What a whole poll finds from an offset of the new log that is not past its end. */
  lemma {:induction false} PollFrom(t: Text, offset: nat, q: nat, k: nat)
    requires offset <= |EncodeAll(t)| && LiesAt(t, offset, q, k)
    ensures Past(q, k) <= |t|
    ensures var last := LastNewline(t) + 1;
      ReadFrom(Some(EncodeAll(t)), offset, |EncodeAll(t)|).lines
        == if q >= last then [] else Lines(Copies(Left(t, q, k)) + t[Past(q, k)..if Past(q, k) <= last then last else |t|])
  {
    hide EncodeAll, Decode, Encode, LastNewline, Lines, ReadFrom, LiesAt, Left, Past;
    ReadWhole(EncodeAll(t), offset);
    LiesWithin(t, offset, q, k);
    CutIsNoNewline(t, q, k);
    if |EncodeAll(t)| == offset {
      AtEnd(t, offset, q, k);
    } else {
      DecodeLeft(t, offset, q, k);
      CompletePart(t, Left(t, q, k), Past(q, k));
      NoLines();
    }
  }

  lemma {:induction false} LiesWithin(t: Text, offset: nat, q: nat, k: nat)
    requires LiesAt(t, offset, q, k)
    ensures q <= |t| && (k == 0 || (q < |t| && k < |Encode(t[q])|)) && (k == 0 <==> Left(t, q, k) == 0)
  {
  }

  /** With all bytes at hand a poll returns the lines of the complete part of what it decodes. */
  lemma {:induction false} ReadWhole(file: seq<Byte>, offset: nat)
    requires offset <= |file|
    ensures ReadFrom(Some(file), offset, |file|).lines
         == if offset == |file| then []
            else Lines(Decode(file[offset..])[..LastNewline(Decode(file[offset..])) + 1])
  {
    hide EncodeAll, Decode, LastNewline, Lines;
    assert file[offset..|file|] == file[offset..];
    NoLines();
    assert LastNewline(Decode(file[offset..])) == -1 ==> Decode(file[offset..])[..0] == [];
  }

  /** The complete part of the end of a text after `r` replacement characters. */
  lemma {:induction false} CompletePart(t: Text, r: nat, p: nat)
    requires p <= |t| && (r > 0 ==> p > 0 && t[p - 1] != NEWLINE)
    ensures var last, text := LastNewline(t) + 1, Copies(r) + t[p..];
      text[..LastNewline(text) + 1] == if p >= last then [] else Copies(r) + t[p..last]
  {
    hide LastNewline;
    var last, text := LastNewline(t) + 1, Copies(r) + t[p..];
    if p >= last {
      LastNewlineIs(text, -1);
    } else {
      LastNewlineIs(text, r + last - 1 - p);
    }
  }

  lemma {:induction false} FreshPoll(t: Text)
    ensures ReadFrom(Some(EncodeAll(t)), 0, |EncodeAll(t)|).lines == Lines(t[..LastNewline(t) + 1])
  {
    hide EncodeAll, Decode, Lines, ReadFrom, LastNewline;
    EncodeNothing();
    NoLines();
    assert t[..0] == [];
    PollFrom(t, 0, 0, 0);
    var done := t[0..LastNewline(t) + 1];
    assert Copies(0) + done == done == t[..LastNewline(t) + 1];
  }

  /** With all bytes at hand, a poll of any log from any old offset returns the lines that a poll from the
    start returns if and only if the log is shorter than the offset, or what the offset passes over
    shows no line. In every other case the rotation loses or cuts lines. */
  lemma {:induction false} RotationAgreesIff(t: Text, offset: nat) returns (q: nat, k: nat)
    ensures offset <= |EncodeAll(t)| ==> LiesAt(t, offset, q, k)
    ensures var file := EncodeAll(t);
      ReadFrom(Some(file), offset, |file|).lines == ReadFrom(Some(file), 0, |file|).lines
      <==> |file| < offset || Spared(t, q, k)
  {
    hide EncodeAll, Decode, Encode, Lines, ReadFrom, LastNewline, DropNewlines, Left, Past;
    if |EncodeAll(t)| < offset {
      q, k := 0, 0;
      ReadRestarts(EncodeAll(t), offset, |EncodeAll(t)|);
      return;
    }
    q, k := Locate(t, offset);
    PollFrom(t, offset, q, k);
    FreshPoll(t);
    CutIsNoNewline(t, q, k);
    var last := LastNewline(t) + 1;
    if q >= last {
      NoLinesIff(t[..last]);
    } else {
      SamePart(t, last, Past(q, k), Left(t, q, k));
    }
  }

  lemma {:induction false} SamePart(t: Text, last: nat, p: nat, r: nat)
    requires p < last <= |t| && (r > 0 ==> p > 0 && t[p - 1] != NEWLINE)
    ensures Lines(Copies(r) + t[p..last]) == Lines(t[..last]) <==> DropNewlines(t[..p]) == Copies(r)
  {
    hide Lines, DropNewlines;
    assert t[..last] == t[..p] + t[p..last];
    SameBeginning(t[..p], Copies(r), t[p..last]);
  }

  lemma {:induction false} NoLinesIff(t: Text)
    ensures Lines(t) == [] <==> DropNewlines(t) == []
  {
    hide Lines, DropNewlines;
    LinesDrop(t, []);
    var b := DropNewlines(t);
    assert t + [] == t && b + [] == b;
    if b == [] {
      NoLines();
    } else {
      HeadLine(b);
    }
  }
}
