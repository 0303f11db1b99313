/** Base32 with a 32-bit accumulator, and the one-time codes keyed by it. */
module Base32 {
  import opened Common
  import opened Bits

  const ALPHABET := "ABCDEFGHIJKLMNOPQRSTUVWXYZ234567"

  /** The position of `c` in the alphabet, or -1. */
  function IndexOf(c: char): (i: int)
    ensures -1 <= i < 32
    ensures i >= 0 ==> ALPHABET[i] == c
  {
    if 'A' <= c <= 'Z' then c as int - 'A' as int
    else if '2' <= c <= '7' then c as int - '2' as int + 26
    else -1
  }

  lemma AlphabetIndex(i: int)
    requires 0 <= i < 32
    ensures IndexOf(ALPHABET[i]) == i
  {
  }

  // --- What section 6 of RFC 4648 says, without padding characters -----------

  function Chars(ds: seq<nat>): (s: string)
    requires Fits(ds, 5)
    ensures |s| == |ds|
  {
    assert Pow2(5) == 32;
    seq(|ds|, i requires 0 <= i < |ds| => ALPHABET[ds[i]])
  }

  /** The alphabet's digits in a string; other characters have none. */
  function Digits(s: string): (ds: seq<nat>)
  {
    if s == "" then []
    else (if IndexOf(s[0]) < 0 then [] else [IndexOf(s[0])]) + Digits(s[1..])
  }

  /** The bytes as one bit string, in groups of five bits, the last filled up with zeros. */
  function Base32(bytes: seq<nat>): (s: string)
    requires Fits(bytes, 8)
  {
    var groups := Padded(Spread(bytes, 8), 5);
    SpreadPadded(Spread(bytes, 8), 5);
    Chars(groups)
  }

  /** The digits as one bit string, in whole bytes. */
  function Unbase32(s: string): (bytes: seq<nat>)
  {
    Whole(Spread(Digits(s), 5), 8)
  }

  lemma {:induction false} DigitsOfChars(ds: seq<nat>)
    requires Fits(ds, 5)
    ensures Digits(Chars(ds)) == ds
  {
    assert Pow2(5) == 32;
    if ds != [] {
      AlphabetIndex(ds[0]);
      assert Chars(ds)[1..] == Chars(ds[1..]);
      DigitsOfChars(ds[1..]);
    }
  }

  // --- toUpperCase and the stripping of other characters ----------------------

  /** Case conversion of the platform: characters outside ASCII may become anything, even several. */
  ghost predicate UpperCases(upper: char -> string) {
    && (forall c: char :: c < 128 as char && !('a' <= c <= 'z') ==> upper(c) == [c])
    && (forall c: char :: 'a' <= c <= 'z' ==> upper(c) == [c - 'a' + 'A'])
  }

  function Upper(s: string, upper: char -> string): string {
    if s == "" then "" else upper(s[0]) + Upper(s[1..], upper)
  }

  function Strip(s: string): string {
    if s == "" then ""
    else if IndexOf(s[0]) < 0 then Strip(s[1..])
    else [s[0]] + Strip(s[1..])
  }

  function Normalize(s: string, upper: char -> string): string {
    Strip(Upper(s, upper))
  }

  // --- 32-bit operations ------------------------------------------------------

  const WORD := 0x1_0000_0000

  /** value << k | low, where `low` has `k` bits: those are zero after the shift, so they add. */
  function ShlOr(value: nat, k: nat, low: nat): (r: nat)
    requires low < Pow2(k)
  {
    NonNegative(value, Pow2(k));
    (value * Pow2(k) + low) % WORD
  }

  /** (value >>> k) & (2^w - 1) */
  function Field(value: nat, k: nat, w: nat): (r: nat)
    ensures r < Pow2(w)
  {
    QuotientNonNegative(value, Pow2(k));
    value / Pow2(k) % Pow2(w)
  }

  lemma {:induction false} WordSize()
    ensures Pow2(32) == WORD
  {
    assert Pow2(8) == 256;
    assert Pow2(16) == 65536;
    assert Pow2(24) == 0x100_0000;
  }

  /** The overflow of the accumulator never reaches the bits still to be written. */
  lemma {:induction false} ShlOrBits(value: nat, k: nat, low: nat, n: nat)
    requires low < Pow2(k) && n + k <= 32
    ensures Of(ShlOr(value, k, low), n + k) == Of(value, n) + Of(low, k)
  {
    hide Of, Pow2;
    WordSize();
    Append(value, low, n, k);
    OfMod(value * Pow2(k) + low, 32, n + k);
  }

  lemma {:induction false} FieldBits(value: nat, k: nat, w: nat)
    ensures Of(value, w + k) == Of(Field(value, k, w), w) + Of(value, k)
  {
    Shift(value, w, k);
    OfMod(value / Pow2(k), w, w);
  }

  // --- The loops ----------------------------------------------------------------

  lemma {:induction false} TakeDigit(ds: seq<nat>, value: nat, bits: nat, w: nat, stream: seq<Bit>)
    requires w <= bits && Fits(ds, w)
    requires Spread(ds, w) + Of(value, bits) == stream
    ensures var d := Field(value, bits - w, w);
      Fits(ds + [d], w) && Spread(ds + [d], w) + Of(value, bits - w) == stream
  {
    hide Of;
    var d := Field(value, bits - w, w);
    FieldBits(value, bits - w, w);
    SpreadAppends(ds, [d], w);
    assert [d][1..] == [];
    assert Spread([d], w) == Of(d, w);
  }

  lemma {:induction false} PutDigit(ds: seq<nat>, value: nat, bits: nat, k: nat, d: nat, w: nat, digits: seq<nat>)
    requires d < Pow2(k) && bits + k <= 32
    requires Spread(ds, w) + Of(value, bits) == Spread(digits, k)
    ensures Spread(ds, w) + Of(ShlOr(value, k, d), bits + k) == Spread(digits + [d], k)
  {
    hide Of;
    ShlOrBits(value, k, d, bits);
    SpreadAppends(digits, [d], k);
    assert [d][1..] == [];
    assert Spread([d], k) == Of(d, k);
  }

  function Char(d: nat): (c: char)
    requires d < Pow2(5)
    ensures IndexOf(c) == d
  {
    assert Pow2(5) == 32;
    AlphabetIndex(d);
    ALPHABET[d]
  }

  method EncodeBase32(bytes: seq<nat>) returns (out: string)
    requires Fits(bytes, 8)
    ensures out == Base32(bytes)
  {
    hide Of, Spread, Padded, Field, ShlOr, Pow2, Chars, Char, Num;
    var bits, value := 0, 0;
    out := "";
    ghost var ds: seq<nat> := [];
    Empty();
    for i := 0 to |bytes|
      invariant bits < 5 && Fits(ds, 5) && out == Chars(ds)
      invariant Spread(ds, 5) + Of(value, bits) == Spread(bytes[..i], 8)
    {
      PutDigit(ds, value, bits, 8, bytes[i], 5, bytes[..i]);
      assert bytes[..i + 1] == bytes[..i] + [bytes[i]];
      value := ShlOr(value, 8, bytes[i]);
      bits := bits + 8;
      while bits >= 5
        invariant bits <= 12 && Fits(ds, 5) && out == Chars(ds)
        invariant Spread(ds, 5) + Of(value, bits) == Spread(bytes[..i + 1], 8)
      {
        TakeDigit(ds, value, bits, 5, Spread(bytes[..i + 1], 8));
        CharsAppend(ds, Field(value, bits - 5, 5));
        out := out + [Char(Field(value, bits - 5, 5))];
        ds := ds + [Field(value, bits - 5, 5)];
        bits := bits - 5;
      }
    }
    assert bytes[..|bytes|] == bytes;
    PaddedSpread(ds, 5, Of(value, bits));
    if bits > 0 {
      LastGroup(value, bits);
      CharsAppend(ds, Field(ShlOr(value, 5 - bits, 0), 0, 5));
      out := out + [Char(Field(ShlOr(value, 5 - bits, 0), 0, 5))];
    } else {
      assert ds + [] == ds;
    }
  }

  lemma Empty()
    ensures Chars([]) == "" && Digits("") == [] && Pow2(0) == 1 && Pow2(5) == 32
    ensures forall w: nat, k: nat :: Spread([], w) + Of(0, 0) == Spread([], k)
    ensures forall k: nat :: 0 < Pow2(k)
  {
  }

  lemma CharsAppend(ds: seq<nat>, d: nat)
    requires Fits(ds, 5) && d < Pow2(5)
    ensures Chars(ds + [d]) == Chars(ds) + [Char(d)]
  {
  }

  lemma {:induction false} LastGroup(value: nat, bits: nat)
    requires 0 < bits < 5
    ensures 0 < Pow2(5 - bits)
    ensures Field(ShlOr(value, 5 - bits, 0), 0, 5) == Num(Of(value, bits) + Zeros(5 - bits))
  {
    hide Of;
    var v := ShlOr(value, 5 - bits, 0);
    ShlOrBits(value, 5 - bits, 0, bits);
    ZeroBits(5 - bits);
    OfMod(v, 5, 5);
    OfSmall(v % Pow2(5), 5);
    assert Pow2(0) == 1;
  }

  method DecodeBase32(base32: string, upper: char -> string) returns (out: seq<nat>)
    ensures out == Unbase32(Normalize(base32, upper))
    ensures Fits(out, 8)
  {
    hide Of, Spread, Whole, Field, ShlOr, Pow2, Digits, Normalize, Num;
    var normalized := Normalize(base32, upper);
    var bits, value := 0, 0;
    out := [];
    Empty();
    for i := 0 to |normalized|
      invariant bits < 8 && Fits(out, 8)
      invariant Spread(out, 8) + Of(value, bits) == Spread(Digits(normalized[..i]), 5)
    {
      var idx := IndexOf(normalized[i]);
      DigitsAppend(normalized, i);
      if idx < 0 {
        continue;
      }
      PutDigit(out, value, bits, 5, idx, 8, Digits(normalized[..i]));
      value := ShlOr(value, 5, idx);
      bits := bits + 5;
      if bits >= 8 {
        TakeDigit(out, value, bits, 8, Spread(Digits(normalized[..i + 1]), 5));
        out := out + [Field(value, bits - 8, 8)];
        bits := bits - 8;
      }
    }
    assert normalized[..|normalized|] == normalized;
    WholeSpread(out, 8, Of(value, bits));
  }

  lemma {:induction false} DigitsConcat(a: string, b: string)
    ensures Digits(a + b) == Digits(a) + Digits(b)
  {
    hide IndexOf;
    if a == "" {
      assert a + b == b;
    } else {
      DigitsConcat(a[1..], b);
      assert (a + b)[1..] == a[1..] + b && (a + b)[0] == a[0];
      var d := if IndexOf(a[0]) < 0 then [] else [IndexOf(a[0])];
      assert d + (Digits(a[1..]) + Digits(b)) == (d + Digits(a[1..])) + Digits(b);
    }
  }

  lemma {:induction false} DigitsAppend(s: string, i: nat)
    requires i < |s|
    ensures Digits(s[..i + 1])
         == if IndexOf(s[i]) < 0 then Digits(s[..i]) else Digits(s[..i]) + [IndexOf(s[i])]
  {
    assert s[..i + 1] == s[..i] + [s[i]];
    DigitsConcat(s[..i], [s[i]]);
    assert [s[i]][1..] == "";
  }

  // --- Round trip -----------------------------------------------------------------

  /** The text has a character for every five bits begun, and the bits past the bytes are zero. */
  lemma {:induction false} Shape(bytes: seq<nat>)
    requires Fits(bytes, 8)
    ensures |Base32(bytes)| == (8 * |bytes| + 4) / 5
    ensures Spread(Digits(Base32(bytes)), 5)
         == Spread(bytes, 8) + Zeros(5 * |Base32(bytes)| - 8 * |bytes|)
  {
    hide Spread, Padded, Digits, Chars;
    SpreadPadded(Spread(bytes, 8), 5);
    SpreadLength(bytes, 8);
    DigitsOfChars(Padded(Spread(bytes, 8), 5));
  }

  lemma {:induction false} RoundTrip(bytes: seq<nat>)
    requires Fits(bytes, 8)
    ensures Unbase32(Base32(bytes)) == bytes
  {
    hide Spread, Padded, Digits, Chars, Whole, Base32;
    Shape(bytes);
    WholeSpread(bytes, 8, Zeros(5 * |Base32(bytes)| - 8 * |bytes|));
  }

  // --- What a user types ------------------------------------------------------------

  /** An ASCII character that is no letter and no digit of the alphabet, such as a blank or a dash. */
  predicate Foreign(c: char) {
    c < 128 as char && IndexOf(c) < 0 && !('a' <= c <= 'z')
  }

  predicate SameLetter(typed: char, c: char) {
    typed == c || ('a' <= typed <= 'z' && typed - 'a' + 'A' == c)
  }

  /** `typed` is `s` in either case, with foreign characters anywhere between. */
  predicate Retypes(typed: string, s: string) {
    if typed == "" then s == ""
    else
      || (Foreign(typed[0]) && Retypes(typed[1..], s))
      || (s != "" && SameLetter(typed[0], s[0]) && Retypes(typed[1..], s[1..]))
  }

  predicate InAlphabet(s: string) {
    forall i :: 0 <= i < |s| ==> IndexOf(s[i]) >= 0
  }

  lemma {:induction false} StripConcat(a: string, b: string)
    ensures Strip(a + b) == Strip(a) + Strip(b)
  {
    if a == "" {
      assert a + b == b;
    } else {
      StripConcat(a[1..], b);
      assert (a + b)[1..] == a[1..] + b && (a + b)[0] == a[0];
      assert [a[0]] + (Strip(a[1..]) + Strip(b)) == ([a[0]] + Strip(a[1..])) + Strip(b);
    }
  }

  lemma {:induction false} StripOne(c: char)
    ensures Strip([c]) == if IndexOf(c) < 0 then "" else [c]
  {
    assert [c][1..] == "" && Strip("") == "";
  }

  lemma UpperOne(typed: char, c: char, upper: char -> string)
    requires UpperCases(upper) && SameLetter(typed, c) && IndexOf(c) >= 0
    ensures upper(typed) == [c]
  {
  }

  lemma UpperForeign(c: char, upper: char -> string)
    requires UpperCases(upper) && Foreign(c)
    ensures upper(c) == [c]
  {
  }

  lemma NormalizeEmpty(upper: char -> string)
    ensures Normalize("", upper) == ""
  {
  }

  lemma {:induction false} NormalizeHead(typed: string, upper: char -> string, c: char)
    requires typed != "" && upper(typed[0]) == [c]
    ensures Normalize(typed, upper) == (if IndexOf(c) < 0 then "" else [c]) + Normalize(typed[1..], upper)
  {
    hide Strip, IndexOf;
    StripConcat([c], Upper(typed[1..], upper));
    StripOne(c);
  }

  lemma {:induction false} NormalizeRetyped(typed: string, s: string, upper: char -> string)
    requires UpperCases(upper) && InAlphabet(s) && Retypes(typed, s)
    ensures Normalize(typed, upper) == s
  {
    hide Normalize, UpperCases, IndexOf, SameLetter;
    if typed == "" {
      NormalizeEmpty(upper);
    } else if Foreign(typed[0]) && Retypes(typed[1..], s) {
      NormalizeRetyped(typed[1..], s, upper);
      UpperForeign(typed[0], upper);
      NormalizeHead(typed, upper, typed[0]);
    } else {
      NormalizeRetyped(typed[1..], s[1..], upper);
      UpperOne(typed[0], s[0], upper);
      NormalizeHead(typed, upper, s[0]);
    }
  }

  /** However the secret is typed in, it decodes to the bytes that were shown. */
  lemma {:induction false} RetypedRoundTrip(bytes: seq<nat>, typed: string, upper: char -> string)
    requires Fits(bytes, 8) && UpperCases(upper) && Retypes(typed, Base32(bytes))
    ensures Unbase32(Normalize(typed, upper)) == bytes
  {
    hide Normalize, Retypes, Unbase32, Spread, Padded;
    SpreadPadded(Spread(bytes, 8), 5);
    assert InAlphabet(Base32(bytes)) by {
      assert Pow2(5) == 32;
      forall i: int | 0 <= i < 32 ensures IndexOf(ALPHABET[i]) >= 0 {
        AlphabetIndex(i);
      }
    }
    NormalizeRetyped(typed, Base32(bytes), upper);
    RoundTrip(bytes);
  }
}
