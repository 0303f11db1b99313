/** The decision log's readers: the whole-file one and the incremental tail. */
module LogTail {
  import opened Common
  import opened Utf8

  type Text = seq<Scalar>

  const NEWLINE: Scalar := 10

  datatype Line = Line(chars: Text)

  // --- Lines ----------------------------------------------------------------

  /** The lines of a text that gains one character in front. */
  function Prepend(c: Scalar, ls: seq<Line>): (r: seq<Line>)
    requires |ls| >= 1
    ensures |r| >= 1
  {
    if c == NEWLINE then [Line([])] + ls else [Line([c] + ls[0].chars)] + ls[1..]
  }

  function Split(t: Text): (ls: seq<Line>)
    ensures |ls| >= 1
  {
    if t == [] then [Line([])] else Prepend(t[0], Split(t[1..]))
  }

  function NonEmpty(ls: seq<Line>): seq<Line> {
    if ls == [] then []
    else if |ls[0].chars| == 0 then NonEmpty(ls[1..])
    else [ls[0]] + NonEmpty(ls[1..])
  }

  function Lines(t: Text): seq<Line> {
    NonEmpty(Split(t))
  }

  function LastNewline(t: Text): (k: int)
    ensures -1 <= k < |t|
    ensures k >= 0 ==> t[k] == NEWLINE
    ensures forall j :: k < j < |t| ==> t[j] != NEWLINE
  {
    if t == [] then -1
    else if t[|t| - 1] == NEWLINE then |t| - 1
    else LastNewline(t[..|t| - 1])
  }

  function Joined(ls: seq<Line>): Text
    requires ls != []
  {
    if |ls| == 1 then ls[0].chars else ls[0].chars + [NEWLINE] + Joined(ls[1..])
  }

  /** Splitting is the inverse of joining with newlines, and no line holds a newline. */
  lemma {:induction false} SplitJoins(t: Text)
    ensures Joined(Split(t)) == t
    ensures forall i :: 0 <= i < |Split(t)| ==> NEWLINE !in Split(t)[i].chars
  {
    if t != [] {
      SplitJoins(t[1..]);
      var ls := Split(t[1..]);
      assert t == [t[0]] + t[1..];
      if t[0] == NEWLINE {
        assert Split(t)[1..] == ls;
      } else {
        assert Split(t)[1..] == ls[1..];
        assert Split(t)[0].chars == [t[0]] + ls[0].chars;
      }
    }
  }

  lemma {:induction false} PrependAppends(c: Scalar, x: seq<Line>, y: seq<Line>)
    requires |x| >= 1
    ensures Prepend(c, x + y) == Prepend(c, x) + y
  {
    if c == NEWLINE {
      assert [Line([])] + (x + y) == ([Line([])] + x) + y;
    } else {
      assert (x + y)[1..] == x[1..] + y;
    }
  }

  lemma PrependNewline(ls: seq<Line>)
    requires |ls| >= 1
    ensures Prepend(NEWLINE, ls) == [Line([])] + ls
  {
  }

  lemma {:induction false} SplitAt(a: Text, b: Text)
    ensures Split(a + [NEWLINE] + b) == Split(a) + Split(b)
  {
    hide Prepend;
    var whole := a + [NEWLINE] + b;
    if a == [] {
      assert whole[1..] == b;
      PrependNewline(Split(b));
    } else {
      SplitAt(a[1..], b);
      assert whole[1..] == a[1..] + [NEWLINE] + b && whole[0] == a[0];
      PrependAppends(a[0], Split(a[1..]), Split(b));
    }
  }

  lemma {:induction false} NonEmptyHead(ls: seq<Line>)
    ensures ls == [] ==> NonEmpty(ls) == []
    ensures ls != [] ==> NonEmpty(ls) == (if |ls[0].chars| == 0 then [] else [ls[0]]) + NonEmpty(ls[1..])
  {
  }

  lemma {:induction false} NonEmptyAppends(a: seq<Line>, b: seq<Line>)
    ensures NonEmpty(a + b) == NonEmpty(a) + NonEmpty(b)
  {
    hide NonEmpty;
    if a == [] {
      assert a + b == b;
      NonEmptyHead(a);
    } else {
      NonEmptyAppends(a[1..], b);
      assert (a + b)[1..] == a[1..] + b && (a + b)[0] == a[0];
      NonEmptyHead(a);
      NonEmptyHead(a + b);
      var first, x, y := if |a[0].chars| == 0 then [] else [a[0]], NonEmpty(a[1..]), NonEmpty(b);
      assert first + (x + y) == (first + x) + y;
    }
  }

  /** Every line of the text has its newline. */
  predicate Complete(t: Text) {
    t == [] || t[|t| - 1] == NEWLINE
  }

  lemma NoLines()
    ensures Split([]) == [Line([])] && NonEmpty([]) == [] && NonEmpty(Split([])) == [] && Lines([]) == []
  {
  }

  lemma {:induction false} LinesAppend(a: Text, b: Text)
    requires Complete(a)
    ensures Lines(a + b) == Lines(a) + Lines(b)
  {
    hide Split, NonEmpty;
    if a == [] {
      assert a + b == b;
      NoLines();
    } else {
      var body := a[..|a| - 1];
      assert a == body + [NEWLINE] + [] && a + b == body + [NEWLINE] + b;
      SplitAt(body, b);
      SplitAt(body, []);
      NonEmptyAppends(Split(body), Split(b));
      NonEmptyAppends(Split(body), Split([]));
      NoLines();
    }
  }

  // --- One poll -------------------------------------------------------------

  datatype Reading = Reading(lines: seq<Line>, next: nat)

  /** One poll: `got` bytes arrive of those after the offset; None when opening or reading fails. */
  function ReadFrom(file: Option<seq<Byte>>, offset: nat, got: nat): Reading {
    if file.None? then Reading([], offset)
    else
      var size := |file.value|;
      var from := if size < offset then 0 else offset;
      if size == from then Reading([], from)
      else
        var text := Decode(file.value[from..if got <= size - from then from + got else size]);
        var last := LastNewline(text);
        if last == -1 then Reading([], from)
        else Reading(Lines(text[..last + 1]), from + |EncodeAll(text[..last + 1])|)
  }

  lemma {:induction false} EncodedLength(a: Text, b: Text)
    requires a <= b
    ensures EncodeAll(a) <= EncodeAll(b) && |EncodeAll(a)| <= |EncodeAll(b)|
  {
    assert b == a + b[|a|..];
    EncodeAllAppends(a, b[|a|..]);
  }

  lemma {:induction false} LastNewlineShort(t: Text, part: Text)
    requires part == [] || part == [REPLACEMENT]
    ensures LastNewline(t + part) == LastNewline(t)
  {
    if part != [] {
      assert (t + part)[..|t + part| - 1] == t;
    } else {
      assert t + part == t;
    }
  }

  lemma {:induction false} SliceBetween(a: seq<Byte>, b: seq<Byte>, size: nat, n: nat)
    requires |a| + n <= size <= |a + b|
    ensures (a + b)[..size][|a|..|a| + n] == b[..n]
  {
  }

  /** How many bytes after the offset a poll is handed. */
  function Handed(from: nat, size: nat, got: nat): (n: nat)
    requires from <= size
    ensures n <= size - from
  {
    if got <= size - from then got else size - from
  }

  lemma {:induction false} EncodedBoth(done: Text, later: Text, m: nat)
    requires m <= |later|
    ensures |EncodeAll(done + later[..m])| == |EncodeAll(done)| + |EncodeAll(later[..m])|
  {
    EncodeAllAppends(done, later[..m]);
  }

  /** The decoded bytes of a poll: whole characters, and at most one cut one. */
  lemma {:induction false} PollText(done: Text, later: Text, size: nat, got: nat) returns (j: nat, part: seq<Byte>)
    requires |EncodeAll(done)| <= size <= |EncodeAll(done + later)|
    ensures var from := |EncodeAll(done)|;
      var n := Handed(from, size, got);
      && j <= |later| && |EncodeAll(later[..j])| <= n
      && (forall m :: j < m <= |later| ==> |EncodeAll(later[..m])| > n)
      && (Decode(part) == [] || Decode(part) == [REPLACEMENT])
      && Decode(EncodeAll(done + later)[..size][from..from + n]) == later[..j] + Decode(part)
  {
    hide EncodeAll, Decode, Handed;
    var n := Handed(|EncodeAll(done)|, size, got);
    EncodeAllAppends(done, later);
    SliceBetween(EncodeAll(done), EncodeAll(later), size, n);
    j, part := Cut(later, n);
    DecodeEncoded(later[..j], part);
  }

  /** One poll in terms of the text it decodes. */
  lemma {:induction false} ReadText(file: seq<Byte>, from: nat, got: nat, text: Text)
    requires from <= |file| && text == Decode(file[from..from + Handed(from, |file|, got)])
    ensures ReadFrom(Some(file), from, got)
         == Reading(Lines(text[..LastNewline(text) + 1]), from + |EncodeAll(text[..LastNewline(text) + 1])|)
  {
    hide EncodeAll, LastNewline, Lines;
    NoLines();
    EncodeNothing();
    if from == |file| {
      assert file[from..from + Handed(from, |file|, got)] == [];
      assert text == [] && LastNewline(text) == -1;
    }
    assert text[..0] == [];
  }

  /** What a poll consumes of a valid log: whole lines from the offset on, with their own bytes. */
  lemma {:induction false} PollStep(done: Text, later: Text, size: nat, got: nat) returns (n: nat)
    requires Complete(done)
    requires |EncodeAll(done)| <= size <= |EncodeAll(done + later)|
    ensures n <= |later| && Complete(done + later[..n])
    ensures ReadFrom(Some(EncodeAll(done + later)[..size]), |EncodeAll(done)|, got)
         == Reading(Lines(later[..n]), |EncodeAll(done + later[..n])|)
    ensures |EncodeAll(done + later[..n])| <= size
    ensures |EncodeAll(done)| + got >= size ==>
      forall m :: n < m <= |later| && |EncodeAll(done + later[..m])| <= size ==> later[m - 1] != NEWLINE
  {
    hide EncodeAll, Decode, LastNewline, Lines, ReadFrom;
    var file, from := EncodeAll(done + later)[..size], |EncodeAll(done)|;
    var j, part := PollText(done, later, size, got);
    n := LastNewline(later[..j]) + 1;
    var text := later[..j] + Decode(part);
    LastNewlineShort(later[..j], Decode(part));
    ReadText(file, from, got, text);
    assert text[..n] == later[..n];
    EncodedLength(later[..n], later[..j]);
    EncodedBoth(done, later, n);
    assert n == 0 ==> done + later[..n] == done;
    forall m | n < m <= |later| && from + got >= size && |EncodeAll(done + later[..m])| <= size
      ensures later[m - 1] != NEWLINE
    {
      EncodedBoth(done, later, m);
    }
  }

  // --- All polls of a growing log -------------------------------------------

  /** A poll finds the file `size` bytes long; it may fail, or be handed only `got` bytes. */
  datatype Poll = Poll(size: nat, got: nat, failed: bool)

  ghost predicate Growing(text: Text, polls: seq<Poll>) {
    && (forall i :: 0 <= i < |polls| ==> polls[i].size <= |EncodeAll(text)|)
    && (forall i, j :: 0 <= i < j < |polls| ==> polls[i].size <= polls[j].size)
  }

  function Seen(text: Text, poll: Poll): Option<seq<Byte>>
    requires poll.size <= |EncodeAll(text)|
  {
    if poll.failed then None else Some(EncodeAll(text)[..poll.size])
  }

  /** The lines of all polls together and the offset after the last one. */
  ghost function Watched(text: Text, polls: seq<Poll>): Reading
    requires Growing(text, polls)
  {
    if polls == [] then Reading([], 0)
    else
      var last := polls[|polls| - 1];
      var before := Watched(text, polls[..|polls| - 1]);
      var r := ReadFrom(Seen(text, last), before.next, last.got);
      Reading(before.lines + r.lines, r.next)
  }

  /** After a poll that got all the bytes, no line below `size` is unread. */
  ghost predicate ReadUpTo(text: Text, p: nat, size: nat)
    requires p <= |text|
  {
    forall m :: p < m <= |text| && |EncodeAll(text[..m])| <= size ==> text[m - 1] != NEWLINE
  }

  lemma ReadFails(offset: nat, got: nat)
    ensures ReadFrom(None, offset, got) == Reading([], offset)
  {
  }

  lemma {:induction false} WatchedStep(text: Text, q: nat, poll: Poll) returns (p: nat)
    requires q <= |text| && Complete(text[..q])
    requires |EncodeAll(text[..q])| <= poll.size <= |EncodeAll(text)|
    ensures q <= p <= |text| && Complete(text[..p]) && |EncodeAll(text[..p])| <= poll.size
    ensures var r := ReadFrom(Seen(text, poll), |EncodeAll(text[..q])|, poll.got);
      Lines(text[..q]) + r.lines == Lines(text[..p]) && r.next == |EncodeAll(text[..p])|
    ensures !poll.failed && poll.got >= poll.size ==> ReadUpTo(text, p, poll.size)
  {
    hide EncodeAll, Decode, LastNewline, Lines, ReadFrom;
    if poll.failed {
      p := q;
      ReadFails(|EncodeAll(text[..q])|, poll.got);
    } else {
      var done, later := text[..q], text[q..];
      assert done + later == text;
      var n := PollStep(done, later, poll.size, poll.got);
      p := q + n;
      assert text[..p] == done + later[..n];
      LinesAppend(done, later[..n]);
      if poll.got >= poll.size {
        ShiftReadUpTo(text, q, p, poll.size);
      }
    }
  }

  lemma {:induction false} ShiftReadUpTo(text: Text, q: nat, p: nat, size: nat)
    requires q <= p <= |text|
    requires forall m :: p - q < m <= |text[q..]| && |EncodeAll(text[..q] + text[q..][..m])| <= size ==>
      text[q..][m - 1] != NEWLINE
    ensures ReadUpTo(text, p, size)
  {
    forall m | p < m <= |text| && |EncodeAll(text[..m])| <= size
      ensures text[m - 1] != NEWLINE
    {
      assert text[..q] + text[q..][..m - q] == text[..m];
      assert text[q..][m - q - 1] == text[m - 1];
    }
  }

  lemma {:induction false} WatchedState(text: Text, polls: seq<Poll>) returns (p: nat)
    requires Growing(text, polls)
    ensures p <= |text| && Complete(text[..p])
    ensures Watched(text, polls) == Reading(Lines(text[..p]), |EncodeAll(text[..p])|)
    ensures |EncodeAll(text[..p])| <= if polls == [] then 0 else polls[|polls| - 1].size
    ensures polls != [] && !polls[|polls| - 1].failed && polls[|polls| - 1].got >= polls[|polls| - 1].size ==>
      ReadUpTo(text, p, polls[|polls| - 1].size)
  {
    hide EncodeAll, Decode, LastNewline, Lines, ReadFrom, ReadUpTo;
    if polls == [] {
      p := 0;
      NoLines();
      EncodeNothing();
      assert text[..0] == [];
    } else {
      var q := WatchedState(text, polls[..|polls| - 1]);
      p := WatchedStep(text, q, polls[|polls| - 1]);
    }
  }

  lemma {:induction false} EndsInNewline(t: Text)
    requires Complete(t) && t != []
    ensures |EncodeAll(t)| >= 1 && EncodeAll(t)[|EncodeAll(t)| - 1] == 10
  {
    var body := t[..|t| - 1];
    assert t == body + [NEWLINE];
    EncodeAllAppends(body, [NEWLINE]);
    assert EncodeAll([NEWLINE]) == [10];
  }

  /** Over all polls the tail returns the non-empty lines below its offset, once each and in order;
    the offset is 0 or just past a newline, and a poll that gets all the bytes leaves no line behind. */
  lemma {:induction false} TailTheorem(text: Text, polls: seq<Poll>)
    requires Growing(text, polls)
    ensures Watched(text, polls).next <= |EncodeAll(text)|
    ensures var w, log := Watched(text, polls), EncodeAll(text);
      && (w.next == 0 || log[w.next - 1] == 10)
      && w.lines == Lines(Decode(log[..w.next]))
    ensures polls != [] ==>
      var w, log, last := Watched(text, polls), EncodeAll(text), polls[|polls| - 1];
      && w.next <= last.size
      && (!last.failed && last.got >= last.size ==> forall k :: w.next <= k < last.size ==> log[k] != 10)
  {
    hide EncodeAll, Decode, LastNewline, Lines, ReadFrom, Watched;
    var w, log := Watched(text, polls), EncodeAll(text);
    var p := WatchedState(text, polls);
    EncodedLength(text[..p], text);
    assert log[..w.next] == EncodeAll(text[..p]);
    RoundTrip(text[..p]);
    if p > 0 {
      EndsInNewline(text[..p]);
    } else {
      EncodeNothing();
      assert text[..0] == [];
    }
    if polls != [] && !polls[|polls| - 1].failed && polls[|polls| - 1].got >= polls[|polls| - 1].size {
      forall k | w.next <= k < polls[|polls| - 1].size
        ensures log[k] != 10
      {
        if log[k] == 10 {
          var m := AsciiByte(text, k);
          if m <= p {
            EncodedLength(text[..m], text[..p]);
          }
        }
      }
    }
  }

  lemma ReadRestarts(file: seq<Byte>, offset: nat, got: nat)
    requires |file| < offset
    ensures ReadFrom(Some(file), offset, got) == ReadFrom(Some(file), 0, got)
  {
  }

  /** A file shorter than the offset is read from its start. */
  lemma {:induction false} RestartsWhenTruncated(text: Text, size: nat, offset: nat, got: nat)
    requires size <= |EncodeAll(text)| && size < offset
    ensures ReadFrom(Some(EncodeAll(text)[..size]), offset, got)
         == Watched(text, [Poll(size, got, false)])
  {
    hide EncodeAll, Decode, LastNewline, Lines, ReadFrom;
    var poll := Poll(size, got, false);
    assert [poll][..0] == [];
    assert Watched(text, []) == Reading([], 0);
    ReadRestarts(Seen(text, poll).value, offset, got);
  }

  lemma {:induction false} AsciiBytes(t: Text)
    requires forall i :: 0 <= i < |t| ==> t[i] < 0x80
    ensures EncodeAll(t) == t
  {
    if t != [] {
      AsciiBytes(t[1..]);
    }
  }

  lemma {:induction false} OneLine(a: Text)
    requires a != [] && NEWLINE !in a
    ensures Split(a) == [Line(a)]
    ensures Lines(a + [NEWLINE]) == [Line(a)]
  {
    if |a| > 1 {
      OneLine(a[1..]);
    }
    assert a == [a[0]] + a[1..] && a + [NEWLINE] + [] == a + [NEWLINE];
    SplitAt(a, []);
    assert Split([]) == [Line([])];
    var ls := [Line(a)] + [Line([])];
    assert ls[1..] == [Line([])] && NonEmpty([Line([])]) == [];
  }

  /** Rotation is noticed by the size alone: a new log no shorter than the old offset loses lines. */
  lemma {:induction false} RotationMissed()
    ensures var rotated := EncodeAll([97, 10, 98, 10]);
      && ReadFrom(Some(rotated), 2, 2) == Reading([Line([98])], 4)
      && Lines(Decode(rotated)) == [Line([97]), Line([98])]
  {
    hide Lines, Split, NonEmpty, Decode;
    var a: Text, b: Text := [97, 10], [98, 10];
    OneLine([97]);
    OneLine([98]);
    assert [97] + [NEWLINE] == a && [98] + [NEWLINE] == b && a + b == [97, 10, 98, 10];
    LinesAppend(a, b);
    RoundTrip(a + b);
    RoundTrip(b);
    AsciiBytes(a);
    AsciiBytes(b);
    EncodeAllAppends(a, b);
    assert EncodeAll(a + b)[2..4] == EncodeAll(b);
    assert b[..2] == b;
  }

  // --- Entries ---------------------------------------------------------------

  function Parsed<E>(lines: seq<Line>, parse: Line -> Option<E>): seq<E> {
    if lines == [] then []
    else (match parse(lines[0]) case None => [] case Some(e) => [e]) + Parsed(lines[1..], parse)
  }

  lemma {:induction false} ParsedAppends<E>(a: seq<Line>, b: seq<Line>, parse: Line -> Option<E>)
    ensures Parsed(a + b, parse) == Parsed(a, parse) + Parsed(b, parse)
  {
    if a == [] {
      assert a + b == b;
    } else {
      ParsedAppends(a[1..], b, parse);
      assert (a + b)[1..] == a[1..] + b && (a + b)[0] == a[0];
      var e := match parse(a[0]) case None => [] case Some(e) => [e];
      var pa, pb := Parsed(a[1..], parse), Parsed(b, parse);
      assert e + (pa + pb) == (e + pa) + pb;
    }
  }

  // --- The poll as the source runs it ---------------------------------------

  method ReadShadowLogFrom<E>(file: Option<seq<Byte>>, offset: nat, got: nat, parse: Line -> Option<E>)
    returns (entries: seq<E>, nextOffset: nat)
    ensures var r := ReadFrom(file, offset, got);
      entries == Parsed(r.lines, parse) && nextOffset == r.next
  {
    hide EncodeAll, Decode, LastNewline, Split, NonEmpty;
    entries := [];
    assert Parsed([], parse) == [];
    if file.None? {
      return entries, offset;
    }
    var size := |file.value|;
    var from := offset;
    if size < from {
      from := 0;
    }
    if size == from {
      return entries, from;
    }
    var length := size - from;
    var bytesRead := if got <= length then got else length;
    var text := Decode(file.value[from..from + bytesRead]);
    var lastNewline := LastNewline(text);
    if lastNewline == -1 {
      return entries, from;
    }
    var consumed := text[..lastNewline + 1];
    var parts := Split(consumed);
    NoLines();
    assert parts[..0] == [];
    for i := 0 to |parts|
      invariant entries == Parsed(NonEmpty(parts[..i]), parse)
    {
      ParsedSnoc(parts, i, parse);
      assert entries + [] == entries;
      if |parts[i].chars| > 0 {
        match parse(parts[i]) {
          case Some(entry) => entries := entries + [entry];
          case None =>
        }
      }
    }
    assert parts[..|parts|] == parts;
    nextOffset := from + |EncodeAll(consumed)|;
  }

  lemma {:induction false} NonEmptySnoc(ls: seq<Line>, i: nat)
    requires i < |ls|
    ensures NonEmpty(ls[..i + 1]) == NonEmpty(ls[..i]) + (if |ls[i].chars| > 0 then [ls[i]] else [])
  {
    assert ls[..i + 1] == ls[..i] + [ls[i]];
    NonEmptyAppends(ls[..i], [ls[i]]);
    assert NonEmpty([ls[i]]) == if |ls[i].chars| > 0 then [ls[i]] else [];
  }

  lemma {:induction false} ParsedSnoc<E>(ls: seq<Line>, i: nat, parse: Line -> Option<E>)
    requires i < |ls|
    ensures Parsed(NonEmpty(ls[..i + 1]), parse) == Parsed(NonEmpty(ls[..i]), parse)
         + (if |ls[i].chars| == 0 then [] else match parse(ls[i]) case None => [] case Some(e) => [e])
  {
    NonEmptySnoc(ls, i);
    var line := if |ls[i].chars| > 0 then [ls[i]] else [];
    ParsedAppends(NonEmpty(ls[..i]), line, parse);
    assert line == [] || line[1..] == [];
  }
}
