/** The hook block that is spliced into a hand-edited TOML file between two marker comments. */
module TomlSplice {
  import opened Common
  import opened JsonStrings

  const NEWLINE: Unit := 10
  const HASH: Unit := 35

  // --- The block --------------------------------------------------------------

  // The verifier decides what occurs in a literal by going through it element by element, and gives
  // up on long ones; so the long literals are written as sums of short ones.

  const START_REST := " >>> spctre managed" + " hook (spctre install" + "-hook --kimi) >>>"
  const END_REST := " <<< spctre managed" + " hook <<<"
  const HEAD := "\n[[hooks]]\nevent = " + "\"PreToolUse\"\nmatcher" + " = \".*\"\ncommand = "
  const TAIL := "\ntimeout = 600\n"

  function Start(): Text { Units("#" + START_REST) }
  function End(): Text { Units("#" + END_REST) }
  function Head(): Text { Units(HEAD) }
  function Tail(): Text { Units(TAIL) }
  function Unmanaged(): Text { Units("@spctre/cli" + " pretooluse") }

  /** The lines of the block, joined; the command is quoted as JSON. */
  function Block(command: Text): Text {
    Start() + Head() + Quote(command) + Tail() + End()
  }

  // What the proofs need of the literals: markers are one line, and '#' only starts them.

  lemma {:induction false} StartLiteral()
    ensures |Start()| > 2 && Start()[0] == HASH && Start()[2] == 62
    ensures NEWLINE !in Start() && HASH !in Start()[1..]
  {
    assert '#' !in START_REST && '\n' !in START_REST;
    assert START_REST[1] == '>';
  }

  lemma {:induction false} EndLiteral()
    ensures |End()| > 2 && End()[0] == HASH && End()[2] == 60
    ensures NEWLINE !in End()
  {
    assert '\n' !in END_REST;
    assert END_REST[1] == '<';
  }

  lemma {:induction false} BodyLiterals()
    ensures HASH !in Head() && HASH !in Tail()
    ensures |Tail()| > 0 && Tail()[0] == NEWLINE
  {
    assert '#' !in HEAD && '#' !in TAIL;
  }

  // --- Searching ----------------------------------------------------------------

  predicate At(s: Text, p: Text, i: nat) {
    i + |p| <= |s| && s[i..i + |p|] == p
  }

  /** s.indexOf(p, from) */
  function IndexOf(s: Text, p: Text, from: nat): (r: int)
    ensures r >= 0 ==> from <= r && At(s, p, r)
    ensures forall i: nat :: from <= i && (r >= 0 ==> i < r) ==> !At(s, p, i)
    decreases |s| - from
  {
    if from + |p| > |s| then -1
    else if s[from..from + |p|] == p then from
    else IndexOf(s, p, from + 1)
  }

  predicate Contains(s: Text, p: Text) {
    IndexOf(s, p, 0) >= 0
  }

  lemma {:induction false} IndexIs(s: Text, p: Text, from: nat, i: nat)
    requires from <= i && At(s, p, i)
    requires forall j: nat :: from <= j < i ==> !At(s, p, j)
    ensures IndexOf(s, p, from) == i
  {
    hide At;
    var r := IndexOf(s, p, from);
    assert r == -1 ==> !At(s, p, i);
  }

  datatype Bounds = Bounds(start: nat, end: nat)

  function FindBlock(contents: Text): (b: Option<Bounds>)
    ensures b.Some? ==> b.value.start <= b.value.end <= |contents|
  {
    var start := IndexOf(contents, Start(), 0);
    if start < 0 then None
    else
      var end := IndexOf(contents, End(), start);
      if end < 0 then None else Some(Bounds(start, end + |End()|))
  }

  // --- The operations -------------------------------------------------------------

  datatype Outcome = Refused | Unchanged | Saved(contents: Text)

  function Separator(existing: Text): Text {
    if existing == [] || EndsWith(existing, 2) then []
    else if EndsWith(existing, 1) then [NEWLINE]
    else [NEWLINE, NEWLINE]
  }

  /** The last `k` characters are newlines. */
  predicate EndsWith(s: Text, k: nat) {
    |s| >= k && forall i :: |s| - k <= i < |s| ==> s[i] == NEWLINE
  }

  function Installed(existing: Text, command: Text): Outcome {
    var block := Block(command);
    var bounds := FindBlock(existing);
    if bounds.Some? then
      if existing[bounds.value.start..bounds.value.end] == block then Unchanged
      else Saved(existing[..bounds.value.start] + block + existing[bounds.value.end..])
    else if Contains(existing, Unmanaged()) then Refused
    else Saved(existing + Separator(existing) + block + [NEWLINE])
  }

  function StripNewlines(s: Text): (r: Text)
    ensures r <= s
  {
    if s != [] && s[|s| - 1] == NEWLINE then StripNewlines(s[..|s| - 1]) else s
  }

  /** replace(/\n{3,}$/, "\n"): a run of three or more newlines at the end becomes one. */
  function Collapse(s: Text): Text {
    if EndsWith(s, 3) then StripNewlines(s) + [NEWLINE] else s
  }

  function Removed(existing: Text): Outcome {
    var bounds := FindBlock(existing);
    if bounds.None? then Unchanged
    else
      var after := existing[bounds.value.end..];
      Saved(Collapse(existing[..bounds.value.start] + if after != [] && after[0] == NEWLINE then after[1..] else after))
  }

  /** The configuration file; None when there is none. */
  class ConfigFile {
    var contents: Option<Text>

    function Existing(): Text
      reads this
    {
      if contents.Some? then contents.value else []
    }

    constructor (contents: Option<Text>)
      ensures this.contents == contents
    {
      this.contents := contents;
    }

    method WriteTomlHook(command: Text) returns (outcome: Outcome)
      modifies this
      ensures outcome == Installed(old(Existing()), command)
      ensures contents == if outcome.Saved? then Some(outcome.contents) else old(contents)
    {
      var block := Block(command);
      var existing := Existing();
      var bounds := FindBlock(existing);
      if bounds.Some? {
        var start, end := bounds.value.start, bounds.value.end;
        if existing[start..end] == block {
          return Unchanged;
        }
        contents := Some(existing[..start] + block + existing[end..]);
        return Saved(contents.value);
      }
      if Contains(existing, Unmanaged()) {
        return Refused;
      }
      contents := Some(existing + Separator(existing) + block + [NEWLINE]);
      outcome := Saved(contents.value);
    }

    method RemoveTomlHook() returns (outcome: Outcome)
      modifies this
      ensures outcome == if old(contents).None? then Unchanged else Removed(old(contents).value)
      ensures contents == if outcome.Saved? then Some(outcome.contents) else old(contents)
    {
      if contents.None? {
        return Unchanged;
      }
      outcome := Removed(contents.value);
      if outcome.Saved? {
        contents := Some(outcome.contents);
      }
    }
  }

  // --- Where the block is found -----------------------------------------------------

  /** Before the block: no start marker, and not in the middle of a line. */
  ghost predicate Clear(pre: Text) {
    !Contains(pre, Start()) && (pre == [] || pre[|pre| - 1] == NEWLINE)
  }

  lemma {:induction false} Mismatch(s: Text, p: Text, i: nat, k: nat)
    requires k < |p| && (i + k < |s| ==> s[i + k] != p[k])
    ensures !At(s, p, i)
  {
    if i + |p| <= |s| {
      assert s[i..i + |p|][k] == s[i + k];
    }
  }

  lemma {:induction false} NoEarlierStart(pre: Text, rest: Text, i: nat)
    requires Clear(pre) && i < |pre|
    ensures !At(pre + rest, Start(), i)
  {
    hide Start, IndexOf;
    StartLiteral();
    var n := |Start()|;
    if i + n <= |pre| {
      assert (pre + rest)[i..i + n] == pre[i..i + n];
      assert !At(pre, Start(), i);
    } else {
      Mismatch(pre + rest, Start(), i, |pre| - 1 - i);
    }
  }

  lemma {:induction false} StartFound(pre: Text, command: Text, post: Text)
    requires Clear(pre)
    ensures IndexOf(pre + Block(command) + post, Start(), 0) == |pre|
  {
    hide Start, Head, Tail, End, Clear;
    var all := pre + Block(command) + post;
    assert all[|pre|..|pre| + |Start()|] == Start();
    forall i: nat | i < |pre| ensures !At(all, Start(), i) {
      assert all == pre + (Block(command) + post);
      NoEarlierStart(pre, Block(command) + post, i);
    }
    IndexIs(all, Start(), 0, |pre|);
  }

  /** A '#' of the block starts a marker or stands in the command. */
  lemma {:induction false} EndNotAt(command: Text, post: Text, j: nat)
    requires j < |Block(command)| - |End()|
    requires !Contains(Quote(command), End())
    ensures !At(Block(command) + post, End(), j)
  {
    hide Start, Head, Tail, End, Quote, IndexOf;
    StartLiteral();
    EndLiteral();
    BodyLiterals();
    var s, n := Block(command) + post, |End()|;
    var q, quoted := |Start()| + |Head()|, Quote(command);
    if j == 0 {
      assert s[2] == Start()[2];
      Mismatch(s, End(), j, 2);
    } else if j < q {
      assert j < |Start()| ==> s[j] == Start()[1..][j - 1];
      assert |Start()| <= j ==> s[j] == Head()[j - |Start()|];
      Mismatch(s, End(), j, 0);
    } else if j + n <= q + |quoted| {
      assert s[j..j + n] == quoted[j - q..j - q + n];
      assert !At(quoted, End(), j - q);
    } else if j < q + |quoted| {
      assert s[q + |quoted|] == Tail()[0];
      Mismatch(s, End(), j, q + |quoted| - j);
    } else {
      assert s[j] == Tail()[j - q - |quoted|];
      Mismatch(s, End(), j, 0);
    }
  }

  lemma {:induction false} AtShift(pre: Text, s: Text, p: Text, j: nat)
    ensures At(pre + s, p, |pre| + j) <==> At(s, p, j)
  {
    if j + |p| <= |s| {
      assert (pre + s)[|pre| + j..|pre| + j + |p|] == s[j..j + |p|];
    }
  }

  /** Wherever the block stands, it is located exactly if and only if the quoted command
    does not hold the end marker. */
  lemma {:induction false} LocatedIff(pre: Text, command: Text, post: Text)
    requires Clear(pre)
    ensures FindBlock(pre + Block(command) + post) == Some(Bounds(|pre|, |pre| + |Block(command)|))
      <==> !Contains(Quote(command), End())
  {
    hide Start, Head, Tail, End, Quote, Clear, IndexOf;
    var all, block := pre + Block(command) + post, Block(command);
    StartFound(pre, command, post);
    var e := |pre| + |block| - |End()|;
    assert all[e..e + |End()|] == End();
    assert all == pre + (block + post);
    if Contains(Quote(command), End()) {
      var k := IndexOf(Quote(command), End(), 0);
      var q := |Start()| + |Head()|;
      assert Quote(command)[k..k + |End()|] == all[|pre| + q + k..|pre| + q + k + |End()|];
      assert At(all, End(), |pre| + q + k);
      assert |Tail()| > 0 by { BodyLiterals(); }
    } else {
      forall j: nat | |pre| <= j < e ensures !At(all, End(), j) {
        EndNotAt(command, post, j - |pre|);
        AtShift(pre, block + post, End(), j - |pre|);
      }
      IndexIs(all, End(), |pre|, e);
    }
  }

  // --- Theorems ---------------------------------------------------------------------

  /** The command can be read back from the block. */
  lemma {:induction false} ReadBack(command: Text)
    ensures var pre, post := Start() + Head(), Tail() + End();
      |pre| < |Block(command)| && Unquote(Block(command)[|pre| + 1..]) == Some(Read(command, post))
  {
    hide Start, Head, Tail, End, Escape, Unquote;
    var pre, post := Start() + Head(), Tail() + End();
    assert Block(command) == pre + Quote(command) + post;
    assert Block(command)[|pre| + 1..] == Escape(command) + [QUOTE] + post;
    UnquoteQuote(command, post);
  }

  /** Different commands make different blocks. */
  lemma {:induction false} BlockInjective(a: Text, b: Text)
    requires Block(a) == Block(b)
    ensures a == b
  {
    hide Block, Unquote;
    ReadBack(a);
    ReadBack(b);
  }

  /** The end marker is not in the quoted command, so the block can be told from what follows it. */
  predicate Quotable(command: Text) {
    !Contains(Quote(command), End())
  }

  lemma {:induction false} Located(pre: Text, command: Text, post: Text)
    requires Clear(pre) && Quotable(command)
    ensures FindBlock(pre + Block(command) + post) == Some(Bounds(|pre|, |pre| + |Block(command)|))
  {
    hide Block, FindBlock, Clear, Contains;
    LocatedIff(pre, command, post);
  }

  /** With the block in place, installing the same command changes nothing, another command changes
    the block alone, and uninstalling takes out the block with its newline. */
  lemma {:induction false} ManagedTheorem(pre: Text, command: Text, other: Text, post: Text)
    requires Clear(pre) && Quotable(command)
    ensures var text := pre + Block(command) + post;
      && Installed(text, command) == Unchanged
      && (other != command ==> Installed(text, other) == Saved(pre + Block(other) + post))
      && Removed(text) == Saved(Collapse(pre + if post != [] && post[0] == NEWLINE then post[1..] else post))
  {
    hide Block, FindBlock, Clear, Contains, Collapse, Quote;
    var text := pre + Block(command) + post;
    LocatedIff(pre, command, post);
    assert text[|pre|..|pre| + |Block(command)|] == Block(command);
    assert text[..|pre|] == pre && text[|pre| + |Block(command)|..] == post;
    if Block(other) == Block(command) {
      BlockInjective(other, command);
    }
  }

  lemma {:induction false} SeparatorClears(existing: Text)
    requires !Contains(existing, Start())
    ensures Clear(existing + Separator(existing))
  {
    hide Start, IndexOf;
    StartLiteral();
    var pre := existing + Separator(existing);
    forall i: nat ensures !At(pre, Start(), i) {
      if i + |Start()| <= |existing| {
        assert pre[i..i + |Start()|] == existing[i..i + |Start()|];
        assert !At(existing, Start(), i);
      } else if i + |Start()| <= |pre| {
        assert pre[i + |Start()| - 1] == NEWLINE;
        Mismatch(pre, Start(), i, |Start()| - 1);
      }
    }
  }

  lemma {:induction false} NoBlock(existing: Text)
    requires !Contains(existing, Start())
    ensures FindBlock(existing) == None
  {
    hide Start, End;
  }

  lemma {:induction false} StripAppended(s: Text, k: nat)
    ensures StripNewlines(s + seq(k, i => NEWLINE)) == StripNewlines(s)
  {
    var t := s + seq(k, i => NEWLINE);
    if k == 0 {
      assert t == s;
    } else {
      assert t[..|t| - 1] == s + seq(k - 1, i => NEWLINE);
      StripAppended(s, k - 1);
    }
  }

  lemma {:induction false} StripIdempotent(s: Text)
    ensures StripNewlines(StripNewlines(s)) == StripNewlines(s)
    ensures EndsWith(s, 1) <==> StripNewlines(s) != s
    ensures |s| - |StripNewlines(s)| >= 3 <==> EndsWith(s, 3)
  {
    if s != [] && s[|s| - 1] == NEWLINE {
      StripIdempotent(s[..|s| - 1]);
      StripCount(s);
    }
  }

  lemma {:induction false} StripCount(s: Text)
    ensures EndsWith(s, |s| - |StripNewlines(s)|)
    ensures StripNewlines(s) == [] || StripNewlines(s)[|StripNewlines(s)| - 1] != NEWLINE
  {
    if s != [] && s[|s| - 1] == NEWLINE {
      StripCount(s[..|s| - 1]);
    }
  }

  function TrailingNewlines(s: Text): nat {
    |s| - |StripNewlines(s)|
  }

  lemma {:induction false} EndsWithCount(s: Text, k: nat)
    requires EndsWith(s, k)
    ensures TrailingNewlines(s) >= k
  {
    if k > 0 {
      assert s[|s| - 1] == NEWLINE;
      EndsWithCount(s[..|s| - 1], k - 1);
    }
  }

  /** What uninstalling leaves of `existing` plus the separator. */
  lemma {:induction false} Restored(existing: Text)
    ensures var left := Collapse(existing + Separator(existing));
      && StripNewlines(left) == StripNewlines(existing)
      && (left == existing <==> existing == [] || TrailingNewlines(existing) == 2)
  {
    hide StripNewlines;
    var pre, n := existing + Separator(existing), TrailingNewlines(existing);
    StripCount(existing);
    EndsWithIff(existing, 1);
    EndsWithIff(existing, 2);
    assert Separator(existing) == seq(|Separator(existing)|, i => NEWLINE);
    StripAppended(existing, |Separator(existing)|);
    assert |pre| == |existing| + |Separator(existing)|;
    EndsWithIff(pre, 3);
    assert existing == [] ==> n == 0;
    if EndsWith(pre, 3) {
      StripIdempotent(pre);
      StripOne(StripNewlines(pre));
    }
  }

  lemma {:induction false} EndsWithIff(s: Text, k: nat)
    ensures EndsWith(s, k) <==> TrailingNewlines(s) >= k
  {
    StripCount(s);
    if EndsWith(s, k) {
      EndsWithCount(s, k);
    }
  }

  lemma {:induction false} StripOne(s: Text)
    ensures StripNewlines(s + [NEWLINE]) == StripNewlines(s)
  {
    assert (s + [NEWLINE])[..|s|] == s;
  }

  /** On a text with no block, no dangling marker and no hook of its own, installing keeps the text
    as a prefix, adds exactly the block, is idempotent, and can be redone with another command;
    uninstalling gives the text back but for newlines at its end, and those too if there were two. */
  lemma {:induction false} InstallTheorem(existing: Text, command: Text, other: Text)
    requires !Contains(existing, Start()) && !Contains(existing, Unmanaged()) && Quotable(command)
    ensures Installed(existing, command).Saved?
    ensures var text := Installed(existing, command).contents;
      && existing <= text
      && FindBlock(text).Some?
      && text[FindBlock(text).value.start..FindBlock(text).value.end] == Block(command)
      && Installed(text, command) == Unchanged
      && (other != command ==> Installed(text, other) == Installed(existing, other))
      && Removed(text).Saved?
      && StripNewlines(Removed(text).contents) == StripNewlines(existing)
      && (Removed(text).contents == existing <==> existing == [] || TrailingNewlines(existing) == 2)
  {
    hide Block, FindBlock, Clear, Contains, Collapse, Quotable, Separator, Unmanaged, StripNewlines;
    var pre, post: Text := existing + Separator(existing), [NEWLINE];
    NoBlock(existing);
    SeparatorClears(existing);
    var text := pre + Block(command) + post;
    assert Installed(existing, command) == Saved(text);
    ManagedTheorem(pre, command, other, post);
    Located(pre, command, post);
    assert text[|pre|..|pre| + |Block(command)|] == Block(command);
    assert pre + post[1..] == pre;
    Restored(existing);
  }

  /** Installing is refused exactly where no block is found and the text names the hook's command itself; it
    does nothing exactly where the block found is the one to install; otherwise it saves. */
  lemma {:induction false} OutcomeIff(existing: Text, command: Text)
    ensures Installed(existing, command) == Refused <==>
      FindBlock(existing) == None && exists i: nat :: At(existing, Units("@spctre/cli" + " pretooluse"), i)
    ensures Installed(existing, command) == Unchanged <==>
      && FindBlock(existing).Some?
      && existing[FindBlock(existing).value.start..FindBlock(existing).value.end] == Block(command)
    ensures Removed(existing) == Unchanged <==> FindBlock(existing) == None
  {
    ContainsIff(existing, Unmanaged());
    hide FindBlock, Block, Contains, Collapse, Separator;
  }

  lemma {:induction false} ContainsIff(s: Text, p: Text)
    ensures Contains(s, p) <==> exists i: nat :: At(s, p, i)
  {
    hide At;
    if Contains(s, p) {
      assert At(s, p, IndexOf(s, p, 0));
    }
  }

  /** A block is found exactly where there is a start marker with an end marker somewhere after it. */
  lemma {:induction false} FoundIff(s: Text)
    ensures FindBlock(s).Some? <==> exists i: nat, j: nat :: i <= j && At(s, Start(), i) && At(s, End(), j)
  {
    hide At, Start, End;
    var start := IndexOf(s, Start(), 0);
    if FindBlock(s).Some? {
      assert At(s, Start(), start) && At(s, End(), IndexOf(s, End(), start));
    }
    if i: nat, j: nat :| i <= j && At(s, Start(), i) && At(s, End(), j) {
      assert start >= 0 && start <= i;
      assert IndexOf(s, End(), start) >= 0;
    }
  }

  // --- A start marker without an end ---------------------------------------------------

  /** After whole lines, an end marker that occurs in them or in the block is theirs or the block's own. */
  lemma {:induction false} EndFound(pre: Text, command: Text, post: Text, from: nat)
    requires from <= |pre| && Quotable(command) && (pre == [] || pre[|pre| - 1] == NEWLINE)
    requires forall i: nat :: from <= i ==> !At(pre, End(), i)
    ensures IndexOf(pre + Block(command) + post, End(), from) == |pre| + |Block(command)| - |End()|
  {
    hide Start, Head, Tail, End, Quote, IndexOf;
    EndLiteral();
    var block := Block(command);
    var all, e := pre + block + post, |pre| + |block| - |End()|;
    assert all[e..e + |End()|] == End();
    assert all == pre + (block + post);
    forall j: nat | from <= j < e ensures !At(all, End(), j) {
      if j >= |pre| {
        EndNotAt(command, post, j - |pre|);
        AtShift(pre, block + post, End(), j - |pre|);
      } else if j + |End()| <= |pre| {
        assert all[j..j + |End()|] == pre[j..j + |End()|];
        assert !At(pre, End(), j);
      } else {
        Mismatch(all, End(), j, |pre| - 1 - j);
      }
    }
    IndexIs(all, End(), from, e);
  }

  lemma {:induction false} SeparatorLines(existing: Text)
    ensures var pre := existing + Separator(existing);
      && (pre == [] || pre[|pre| - 1] == NEWLINE)
      && forall i: nat :: At(pre, End(), i) ==> At(existing, End(), i)
  {
    hide End;
    EndLiteral();
    var pre := existing + Separator(existing);
    forall i: nat
      ensures At(pre, End(), i) ==> At(existing, End(), i)
    {
      if i + |End()| > |existing| {
        Mismatch(pre, End(), i, |End()| - 1);
      } else {
        assert pre[i..i + |End()|] == existing[i..i + |End()|];
      }
    }
  }

  /** The first start marker of the text stays the first when the block is appended. */
  lemma {:induction false} StartStays(existing: Text, rest: Text)
    requires Contains(existing, Start())
    ensures IndexOf(existing + rest, Start(), 0) == IndexOf(existing, Start(), 0)
  {
    hide Start;
    var s, all := IndexOf(existing, Start(), 0), existing + rest;
    assert all[s..s + |Start()|] == existing[s..s + |Start()|];
    forall j: nat | j < s ensures !At(all, Start(), j) {
      assert all[j..j + |Start()|] == existing[j..j + |Start()|];
      assert !At(existing, Start(), j);
    }
    IndexIs(all, Start(), 0, s);
  }

  /** With a start marker that no end marker follows, the block that is found after installing reaches from
    that marker on; so uninstalling takes away everything the user had there. */
  lemma {:induction false} DanglingMarker(existing: Text, command: Text)
    requires FindBlock(existing) == None && Contains(existing, Start()) && !Contains(existing, Unmanaged())
    requires Quotable(command)
    ensures Installed(existing, command).Saved?
    ensures var start := IndexOf(existing, Start(), 0);
      && start >= 0 && start + |Start()| <= |existing|
      && Removed(Installed(existing, command).contents) == Saved(Collapse(existing[..start]))
  {
    hide Start, Unmanaged, Block, Collapse, End, Quotable, Separator, FindBlock, Contains, IndexOf;
    var start := IndexOf(existing, Start(), 0);
    ContainsAt(existing);
    var front := existing + Separator(existing) + Block(command);
    assert Installed(existing, command) == Saved(front + [NEWLINE]);
    DanglingFound(existing, command);
    var text := front + [NEWLINE];
    assert text[|front|..] == [NEWLINE] && text[..start] == existing[..start];
    assert text[|front|..][1..] == [] && existing[..start] + text[|front|..][1..] == existing[..start];
  }

  lemma {:induction false} DanglingFound(existing: Text, command: Text)
    requires FindBlock(existing) == None && Contains(existing, Start()) && Quotable(command)
    ensures var front := existing + Separator(existing) + Block(command);
      FindBlock(front + [NEWLINE]) == Some(Bounds(IndexOf(existing, Start(), 0), |front|))
  {
    hide Start, Block, End, Quotable, Separator, Contains, IndexOf;
    ContainsAt(existing);
    var start := IndexOf(existing, Start(), 0);
    var pre, post: Text := existing + Separator(existing), [NEWLINE];
    SeparatorLines(existing);
    var rest := Separator(existing) + Block(command) + post;
    assert pre + Block(command) + post == existing + rest;
    StartStays(existing, rest);
    assert forall i: nat :: start <= i ==> !At(existing, End(), i);
    EndFound(pre, command, post, start);
    BlockLength(command);
  }

  lemma {:induction false} BlockLength(command: Text)
    ensures |Block(command)| >= |End()|
  {
  }

  /** Uninstalling gives back the text, but for newlines at its end, if and only if the text had no start marker. */
  lemma {:induction false} RestoredIff(existing: Text, command: Text)
    requires FindBlock(existing) == None && !Contains(existing, Unmanaged()) && Quotable(command)
    ensures Installed(existing, command).Saved? && Removed(Installed(existing, command).contents).Saved?
    ensures StripNewlines(Removed(Installed(existing, command).contents).contents) == StripNewlines(existing)
      <==> !Contains(existing, Start())
  {
    hide FindBlock, Block, Start, Unmanaged, Quotable, Installed, Removed, StripNewlines, Contains;
    if Contains(existing, Start()) {
      DanglingMarker(existing, command);
      var start := IndexOf(existing, Start(), 0);
      hide IndexOf;
      CollapseShorter(existing[..start]);
      MarkerKept(existing, start) by {
        ContainsAt(existing);
      }
    } else {
      InstallTheorem(existing, command, command);
    }
  }

  lemma {:induction false} ContainsAt(s: Text)
    requires Contains(s, Start())
    ensures IndexOf(s, Start(), 0) >= 0 && At(s, Start(), IndexOf(s, Start(), 0))
  {
    hide Start;
  }

  lemma {:induction false} CollapseShorter(s: Text)
    ensures |StripNewlines(Collapse(s))| <= |s|
  {
    if EndsWith(s, 3) {
      StripOne(StripNewlines(s));
    }
  }

  /** The last character of the marker is no newline. */
  lemma {:induction false} MarkerKept(s: Text, start: nat)
    requires At(s, Start(), start)
    ensures |StripNewlines(s)| > start
  {
    StartLiteral();
    hide Start;
    StripCount(s);
    assert s[start] == s[start..start + |Start()|][0] == HASH;
  }

  // --- The commands that are installed -------------------------------------------------

  lemma EscapeNoHash(c: Unit)
    requires c != HASH
    ensures HASH !in EscapeUnit(c)
  {
  }

  lemma {:induction false} EscapedNoHash(s: Text)
    requires HASH !in s
    ensures HASH !in Escape(s)
    decreases |s|
  {
    hide EscapeUnit;
    if s == [] {
    } else if |s| >= 2 && High(s[0]) && Low(s[1]) {
      assert forall c :: c in s[2..] ==> c in s;
      EscapedNoHash(s[2..]);
    } else {
      assert forall c :: c in s[1..] ==> c in s;
      EscapedNoHash(s[1..]);
      EscapeNoHash(s[0]);
    }
  }

  lemma {:induction false} NoHashQuotable(command: Text)
    requires HASH !in command
    ensures Quotable(command)
  {
    hide End;
    EscapedNoHash(command);
    EndLiteral();
    var quoted := Quote(command);
    assert HASH !in quoted;
    forall i: nat ensures !At(quoted, End(), i) {
      Mismatch(quoted, End(), i, 0);
    }
  }

  function HookCommand(enforce: bool): Text {
    Units("npx @spctre/cli" + " pretooluse --harness" + " kimi --mode " + if enforce then "enforce" else "observe")
  }

  lemma {:induction false} HookCommandQuotable(enforce: bool)
    ensures Quotable(HookCommand(enforce))
  {
    assert '#' !in "npx @spctre/cli" && '#' !in " pretooluse --harness" && '#' !in " kimi --mode ";
    assert '#' !in "enforce" && '#' !in "observe";
    assert HASH !in HookCommand(enforce);
    NoHashQuotable(HookCommand(enforce));
  }
}
