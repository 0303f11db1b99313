/** The whole-file reader of the decision log, and when the incremental tail agrees with it. */
module LogBatch {
  import opened Common
  import opened Utf8
  import opened LogTail

  // --- The batch reader -----------------------------------------------------

  /** What String.prototype.trim removes: white space and line terminators. */
  predicate IsSpace(c: Scalar) {
    || 9 <= c <= 13 || c == 32 || c == 0xA0 || c == 0x1680 || 0x2000 <= c <= 0x200A
    || c == 0x2028 || c == 0x2029 || c == 0x202F || c == 0x205F || c == 0x3000 || c == 0xFEFF
  }

  function TrimStart(t: Text): Text {
    if t == [] || !IsSpace(t[0]) then t else TrimStart(t[1..])
  }

  function TrimEnd(t: Text): Text {
    if t == [] || !IsSpace(t[|t| - 1]) then t else TrimEnd(t[..|t| - 1])
  }

  function Trim(t: Text): Text {
    TrimEnd(TrimStart(t))
  }

  predicate AllParse<E>(lines: seq<Line>, parse: Line -> Option<E>) {
    forall i :: 0 <= i < |lines| ==> parse(lines[i]).Some?
  }

  /** The whole-file reader: one line that does not parse empties the result. */
  function Batch<E>(file: Option<seq<Byte>>, parse: Line -> Option<E>): seq<E> {
    if file.None? then []
    else
      var lines := Lines(Trim(Decode(file.value)));
      if AllParse(lines, parse) then Parsed(lines, parse) else []
  }

  lemma {:induction false} ParsedCount<E>(lines: seq<Line>, parse: Line -> Option<E>)
    ensures |Parsed(lines, parse)| <= |lines|
    ensures |Parsed(lines, parse)| == |lines| <==> AllParse(lines, parse)
  {
    if lines != [] {
      ParsedCount(lines[1..], parse);
      if AllParse(lines[1..], parse) && parse(lines[0]).Some? {
        forall i | 0 <= i < |lines| ensures parse(lines[i]).Some? {
          if i > 0 {
            assert lines[i] == lines[1..][i - 1];
          }
        }
      }
    }
  }

  lemma {:induction false} ParsedNone<E>(lines: seq<Line>, parse: Line -> Option<E>)
    ensures Parsed(lines, parse) == [] <==> forall i :: 0 <= i < |lines| ==> parse(lines[i]).None?
  {
    if lines != [] {
      ParsedNone(lines[1..], parse);
      assert forall i :: 0 < i < |lines| ==> lines[i] == lines[1..][i - 1];
    }
  }

  // --- Lines at the ends of a text ------------------------------------------------

  lemma {:induction false} SkipsEmpty(ls: seq<Line>)
    ensures NonEmpty([Line([])] + ls) == NonEmpty(ls)
  {
    assert ([Line([])] + ls)[1..] == ls;
  }

  lemma {:induction false} FirstLine(t: Text)
    requires t != [] && t[0] != NEWLINE
    ensures |Lines(t)| > 0 && |Lines(t)[0].chars| > 0 && Lines(t)[0].chars[0] == t[0]
  {
    var ls := Split(t);
    assert ls == [ls[0]] + ls[1..];
  }

  /** The lines of a text that gains one character, not a newline, at its end. */
  function Snoc(ls: seq<Line>, c: Scalar): (r: seq<Line>)
    requires |ls| >= 1
    ensures |r| >= 1
  {
    ls[..|ls| - 1] + [Line(ls[|ls| - 1].chars + [c])]
  }

  lemma {:induction false} PrependSnoc(d: Scalar, ls: seq<Line>, c: Scalar)
    requires |ls| >= 1
    ensures Prepend(d, Snoc(ls, c)) == Snoc(Prepend(d, ls), c)
  {
    if d != NEWLINE && |ls| == 1 {
      assert [d] + (ls[0].chars + [c]) == ([d] + ls[0].chars) + [c];
    }
  }

  lemma {:induction false} PrependOnly(c: Scalar)
    requires c != NEWLINE
    ensures Prepend(c, [Line([])]) == Snoc([Line([])], c)
  {
    var none: Text := [];
    assert [c] + none == [c] == none + [c];
  }

  lemma {:induction false} SplitSnoc(t: Text, c: Scalar)
    requires c != NEWLINE
    ensures Split(t + [c]) == Snoc(Split(t), c)
  {
    hide Prepend, Snoc;
    if t == [] {
      assert t + [c] == [c] && [c][1..] == [];
      PrependOnly(c);
    } else {
      SplitSnoc(t[1..], c);
      assert (t + [c])[1..] == t[1..] + [c] && (t + [c])[0] == t[0];
      PrependSnoc(t[0], Split(t[1..]), c);
    }
  }

  lemma {:induction false} OnlyLine(line: Line)
    requires |line.chars| > 0
    ensures NonEmpty([line]) == [line]
  {
    assert [line][1..] == [];
  }

  lemma {:induction false} LastLine(body: Text, c: Scalar)
    requires c != NEWLINE
    ensures var ls := Lines(body + [c]);
      |ls| > 0 && |ls[|ls| - 1].chars| > 0 && ls[|ls| - 1].chars[|ls[|ls| - 1].chars| - 1] == c
  {
    hide Split, NonEmpty;
    var ls := Split(body);
    var last := Line(ls[|ls| - 1].chars + [c]);
    SplitSnoc(body, c);
    NonEmptyAppends(ls[..|ls| - 1], [last]);
    OnlyLine(last);
  }

  // --- What trimming a text does to its lines ------------------------------------------

  ghost predicate AllSpace(t: Text) {
    forall i :: 0 <= i < |t| ==> IsSpace(t[i])
  }

  lemma {:induction false} TrimStartSpace(t: Text)
    ensures TrimStart(t) == [] <==> AllSpace(t)
    ensures AllSpace(TrimStart(t)) <==> AllSpace(t)
  {
    if t != [] && IsSpace(t[0]) {
      TrimStartSpace(t[1..]);
      assert t == [t[0]] + t[1..];
    }
  }

  lemma {:induction false} TrimEndSpace(t: Text)
    ensures TrimEnd(t) == [] <==> AllSpace(t)
  {
    if t != [] && IsSpace(t[|t| - 1]) {
      TrimEndSpace(t[..|t| - 1]);
      assert t == t[..|t| - 1] + [t[|t| - 1]];
    }
  }

  /** Blank lines in front are dropped, and the first line that is left loses its leading space. */
  function FrontTrimmed(ls: seq<Line>): seq<Line> {
    if ls == [] then []
    else if TrimStart(ls[0].chars) == [] then FrontTrimmed(ls[1..])
    else [Line(TrimStart(ls[0].chars))] + ls[1..]
  }

  function BackTrimmed(ls: seq<Line>): seq<Line> {
    if ls == [] then []
    else if TrimEnd(ls[|ls| - 1].chars) == [] then BackTrimmed(ls[..|ls| - 1])
    else ls[..|ls| - 1] + [Line(TrimEnd(ls[|ls| - 1].chars))]
  }

  function Trimmed(ls: seq<Line>): seq<Line> {
    BackTrimmed(FrontTrimmed(ls))
  }

  lemma {:induction false} LastOf(ls: seq<Line>)
    requires |ls| >= 1
    ensures var n := |ls| - 1;
      NonEmpty(ls) == NonEmpty(ls[..n]) + if |ls[n].chars| == 0 then [] else [ls[n]]
  {
    NonEmptySnoc(ls, |ls| - 1);
    assert ls[..|ls|] == ls;
  }

  /** A leading space changes only the first line, which loses it again. */
  lemma {:induction false} SpaceInFront(c: Scalar, first: Line, rest: seq<Line>)
    requires IsSpace(c)
    ensures FrontTrimmed([Line([c] + first.chars)] + rest)
         == FrontTrimmed((if |first.chars| == 0 then [] else [first]) + rest)
  {
    var t := [c] + first.chars;
    assert t[1..] == first.chars && TrimStart(t) == TrimStart(first.chars);
    var x := [Line(t)] + rest;
    assert x[0] == Line(t) && x[1..] == rest;
    if |first.chars| == 0 {
      assert [] + rest == rest;
    } else {
      var y := [first] + rest;
      assert y[0] == first && y[1..] == rest;
    }
  }

  lemma {:induction false} SpaceBehind(c: Scalar, last: Line, front: seq<Line>)
    requires IsSpace(c)
    ensures BackTrimmed(front + [Line(last.chars + [c])])
         == BackTrimmed(front + if |last.chars| == 0 then [] else [last])
  {
    var t := last.chars + [c];
    assert t[..|t| - 1] == last.chars && TrimEnd(t) == TrimEnd(last.chars);
    var x := front + [Line(t)];
    assert x[|x| - 1] == Line(t) && x[..|x| - 1] == front;
    if |last.chars| == 0 {
      assert front + [] == front;
    } else {
      var y := front + [last];
      assert y[|y| - 1] == last && y[..|y| - 1] == front;
    }
  }

  lemma {:induction false} FrontUntouched(ls: seq<Line>)
    requires ls == [] || (|ls[0].chars| > 0 && !IsSpace(ls[0].chars[0]))
    ensures FrontTrimmed(ls) == ls
  {
    if ls != [] {
      assert TrimStart(ls[0].chars) == ls[0].chars && Line(ls[0].chars) == ls[0];
      assert ls == [ls[0]] + ls[1..];
    }
  }

  lemma {:induction false} BackUntouched(ls: seq<Line>)
    requires ls == [] || (|ls[|ls| - 1].chars| > 0 && !IsSpace(ls[|ls| - 1].chars[|ls[|ls| - 1].chars| - 1]))
    ensures BackTrimmed(ls) == ls
  {
    if ls != [] {
      var last := ls[|ls| - 1];
      assert TrimEnd(last.chars) == last.chars && Line(last.chars) == last;
      assert ls == ls[..|ls| - 1] + [last];
    }
  }

  lemma {:induction false} LinesTrimStart(t: Text)
    ensures Lines(TrimStart(t)) == FrontTrimmed(Lines(t))
  {
    hide NonEmpty, FrontTrimmed;
    if t == [] {
      NoLines();
      FrontUntouched([]);
    } else if !IsSpace(t[0]) {
      FirstLine(t);
      FrontUntouched(Lines(t));
    } else {
      LinesTrimStart(t[1..]);
      var ls := Split(t[1..]);
      if t[0] == NEWLINE {
        SkipsEmpty(ls);
      } else {
        var whole := [Line([t[0]] + ls[0].chars)] + ls[1..];
        NonEmptyHead(whole);
        assert whole[0] == Line([t[0]] + ls[0].chars) && whole[1..] == ls[1..];
        NonEmptyHead(ls);
        SpaceInFront(t[0], ls[0], NonEmpty(ls[1..]));
      }
    }
  }

  lemma {:induction false} LinesTrimEnd(t: Text)
    ensures Lines(TrimEnd(t)) == BackTrimmed(Lines(t))
  {
    hide Split, NonEmpty, BackTrimmed;
    if t == [] {
      NoLines();
      BackUntouched([]);
    } else {
      var body, c := t[..|t| - 1], t[|t| - 1];
      assert t == body + [c];
      if !IsSpace(c) {
        LastLine(body, c);
        BackUntouched(Lines(t));
      } else {
        LinesTrimEnd(body);
        if c == NEWLINE {
          assert body + [NEWLINE] + [] == t;
          SplitAt(body, []);
          NonEmptyAppends(Split(body), Split([]));
          NoLines();
          assert Lines(t) == Lines(body);
        } else {
          SplitSnoc(body, c);
          var ls := Split(body);
          var n := |ls| - 1;
          var whole := ls[..n] + [Line(ls[n].chars + [c])];
          assert whole[..n] == ls[..n] && |whole| - 1 == n;
          LastOf(whole);
          LastOf(ls);
          SpaceBehind(c, ls[n], NonEmpty(ls[..n]));
        }
      }
    }
  }

  /** The lines of a trimmed text are the trimmed lines of the text. */
  lemma {:induction false} LinesTrim(t: Text)
    ensures Lines(Trim(t)) == Trimmed(Lines(t))
  {
    hide Lines, TrimStart, TrimEnd, FrontTrimmed, BackTrimmed;
    LinesTrimStart(t);
    LinesTrimEnd(TrimStart(t));
  }

  // --- The two readers ---------------------------------------------------------------

  /** A parser such as JSON.parse: a blank line does not parse, and a line that does is no different
    without the space around it. */
  ghost predicate Lenient<E(!new)>(parse: Line -> Option<E>) {
    && (forall l: Line :: AllSpace(l.chars) ==> parse(l).None?)
    && (forall l: Line :: parse(l).Some? ==>
          parse(Line(TrimStart(l.chars))) == parse(l) && parse(Line(TrimEnd(l.chars))) == parse(l))
  }

  lemma {:induction false} LenientAt<E(!new)>(parse: Line -> Option<E>, l: Line)
    requires Lenient(parse)
    ensures AllSpace(l.chars) ==> parse(l).None?
    ensures parse(l).Some? ==>
      parse(Line(TrimStart(l.chars))) == parse(l) && parse(Line(TrimEnd(l.chars))) == parse(l)
  {
    hide TrimStart, TrimEnd, AllSpace;
  }

  /** The lines between the blank ones at the two ends, as they stand. */
  function Inner(ls: seq<Line>): seq<Line> {
    BackDropped(FrontDropped(ls))
  }

  function FrontDropped(ls: seq<Line>): seq<Line> {
    if ls != [] && TrimStart(ls[0].chars) == [] then FrontDropped(ls[1..]) else ls
  }

  function BackDropped(ls: seq<Line>): seq<Line> {
    if ls != [] && TrimEnd(ls[|ls| - 1].chars) == [] then BackDropped(ls[..|ls| - 1]) else ls
  }

  /** Line by line, `a` is `b` but for space: what parses in `b` parses alike in `a`. */
  ghost predicate Tamed<E(!new)>(a: seq<Line>, b: seq<Line>, parse: Line -> Option<E>) {
    && |a| == |b|
    && forall i :: 0 <= i < |a| ==>
      (parse(b[i]).Some? ==> parse(a[i]) == parse(b[i])) && (AllSpace(a[i].chars) <==> AllSpace(b[i].chars))
  }

  lemma {:induction false} FrontTamed<E(!new)>(ls: seq<Line>, parse: Line -> Option<E>)
    requires Lenient(parse)
    ensures Tamed(FrontTrimmed(ls), FrontDropped(ls), parse)
    ensures Parsed(FrontDropped(ls), parse) == Parsed(ls, parse)
  {
    hide TrimStart, TrimEnd, AllSpace, Lenient;
    if ls != [] {
      TrimStartSpace(ls[0].chars);
      LenientAt(parse, ls[0]);
      if TrimStart(ls[0].chars) == [] {
        FrontTamed(ls[1..], parse);
      }
    }
  }

  lemma {:induction false} BackTamed<E(!new)>(a: seq<Line>, b: seq<Line>, parse: Line -> Option<E>)
    requires Lenient(parse) && Tamed(a, b, parse)
    ensures var c, d := BackTrimmed(a), BackDropped(b);
      && |c| == |d|
      && (forall i :: 0 <= i < |c| ==> parse(d[i]).Some? ==> parse(c[i]) == parse(d[i]))
      && Parsed(d, parse) == Parsed(b, parse)
  {
    hide TrimStart, AllSpace, TrimEnd, Lenient;
    if a != [] {
      var n := |a| - 1;
      LenientAt(parse, a[n]);
      LenientAt(parse, b[n]);
      TrimEndSpace(a[n].chars);
      TrimEndSpace(b[n].chars);
      if TrimEnd(b[n].chars) == [] {
        BackTamed(a[..n], b[..n], parse);
        assert b == b[..n] + [b[n]];
        ParsedAppends(b[..n], [b[n]], parse);
        assert [b[n]][1..] == [];
      }
    }
  }

  /** Trimming the ends of a log: the inner lines stay, and those that parse parse alike. */
  lemma {:induction false} TrimmedInner<E(!new)>(ls: seq<Line>, parse: Line -> Option<E>)
    requires Lenient(parse)
    ensures |Trimmed(ls)| == |Inner(ls)|
    ensures forall i :: 0 <= i < |Inner(ls)| ==>
      parse(Inner(ls)[i]).Some? ==> parse(Trimmed(ls)[i]) == parse(Inner(ls)[i])
    ensures Parsed(Inner(ls), parse) == Parsed(ls, parse)
  {
    hide Lenient, FrontTrimmed, FrontDropped, BackTrimmed, BackDropped;
    FrontTamed(ls, parse);
    BackTamed(FrontTrimmed(ls), FrontDropped(ls), parse);
  }

  lemma {:induction false} ParsedAlike<E(!new)>(a: seq<Line>, b: seq<Line>, parse: Line -> Option<E>)
    requires |a| == |b| && AllParse(b, parse)
    requires forall i :: 0 <= i < |b| ==> parse(a[i]) == parse(b[i])
    ensures AllParse(a, parse) && Parsed(a, parse) == Parsed(b, parse)
  {
    if a != [] {
      ParsedAlike(a[1..], b[1..], parse);
    }
  }

  /** For every log: the polls return what one reading of the bytes below the offset returns if and only if
    all lines between blank ends parse, or no line does and trimming the ends does not change that. */
  lemma {:induction false} TailEqualsBatch<E(!new)>(text: Text, polls: seq<Poll>, parse: Line -> Option<E>)
    requires Growing(text, polls) && Lenient(parse)
    ensures var w := Watched(text, polls);
      && w.next <= |EncodeAll(text)|
      && (Parsed(w.lines, parse) == Batch(Some(EncodeAll(text)[..w.next]), parse)
          <==> AllParse(Inner(w.lines), parse)
               || ((forall i :: 0 <= i < |w.lines| ==> parse(w.lines[i]).None?) && !AllParse(Trimmed(w.lines), parse)))
  {
    hide EncodeAll, Decode, Lines, Watched, Parsed, Trim, Trimmed, Inner, Lenient;
    var w := Watched(text, polls);
    TailTheorem(text, polls);
    var below := Decode(EncodeAll(text)[..w.next]);
    LinesTrim(below);
    TrimmedInner(w.lines, parse);
    ParsedNone(w.lines, parse);
    ParsedCount(Inner(w.lines), parse);
    ParsedCount(Trimmed(w.lines), parse);
    if AllParse(Inner(w.lines), parse) {
      ParsedAlike(Trimmed(w.lines), Inner(w.lines), parse);
    }
  }

  /** Neither end of the line is white space; so it is with every line that JSON.stringify writes. */
  ghost predicate Solid(line: Line) {
    && |line.chars| > 0
    && !IsSpace(line.chars[0])
    && !IsSpace(line.chars[|line.chars| - 1])
  }

  ghost predicate AllSolid(lines: seq<Line>) {
    forall i :: 0 <= i < |lines| ==> Solid(lines[i])
  }

  /** Of a log of solid lines nothing is trimmed: the readers agree if and only if all lines parse or none does. */
  lemma {:induction false} SolidTailEqualsBatch<E(!new)>(text: Text, polls: seq<Poll>, parse: Line -> Option<E>)
    requires Growing(text, polls) && Lenient(parse)
    requires AllSolid(Watched(text, polls).lines)
    ensures var w := Watched(text, polls);
      && w.next <= |EncodeAll(text)|
      && (Parsed(w.lines, parse) == Batch(Some(EncodeAll(text)[..w.next]), parse)
          <==> AllParse(w.lines, parse) || forall i :: 0 <= i < |w.lines| ==> parse(w.lines[i]).None?)
  {
    hide EncodeAll, Watched, Parsed, Batch, Lenient;
    var ls := Watched(text, polls).lines;
    TailEqualsBatch(text, polls, parse);
    FrontUntouched(ls);
    BackUntouched(ls);
    assert Inner(ls) == ls;
  }
}
