/** Base64 as RFC 4648 defines it, and the unpadded URL form with its re-padding. */
module Base64Url {
  import opened Bits

  /** The digit a character stands for in either alphabet, or -1. */
  function IndexOf(c: char): (i: int)
    ensures -1 <= i < 64
  {
    if 'A' <= c <= 'Z' then c as int - 'A' as int
    else if 'a' <= c <= 'z' then c as int - 'a' as int + 26
    else if '0' <= c <= '9' then c as int - '0' as int + 52
    else if c == '+' || c == '-' then 62
    else if c == '/' || c == '_' then 63
    else -1
  }

  /** The alphabet of table 1 of RFC 4648. */
  function Char(d: nat): (c: char)
    requires d < Pow2(6)
    ensures IndexOf(c) == d && c != '=' && c != '.' && c != '-' && c != '_'
  {
    assert Pow2(6) == 64;
    if d < 26 then d as char + 'A'
    else if d < 52 then (d - 26) as char + 'a'
    else if d < 62 then (d - 52) as char + '0'
    else if d == 62 then '+' else '/'
  }

  function Chars(ds: seq<nat>): (s: string)
    requires Fits(ds, 6)
    ensures |s| == |ds| && forall i :: 0 <= i < |ds| ==> s[i] == Char(ds[i])
  {
    if ds == [] then "" else [Char(ds[0])] + Chars(ds[1..])
  }

  function Equals(k: nat): (s: string)
    ensures |s| == k
  {
    seq(k, i => '=')
  }

  /** The characters of the bytes' 6-bit groups, without padding characters. */
  function Body(bytes: seq<nat>): (s: string)
    requires Fits(bytes, 8)
  {
    SpreadPadded(Spread(bytes, 8), 6);
    Chars(Padded(Spread(bytes, 8), 6))
  }

  /** Section 4 of RFC 4648: three bytes make four characters; a last quantum of one or two bytes
    makes two or three, and '=' fills it up. */
  function Base64(bytes: seq<nat>): (s: string)
    requires Fits(bytes, 8)
  {
    if bytes == [] then ""
    else if |bytes| <= 3 then Body(bytes) + Equals(3 - |bytes|)
    else Body(bytes[..3]) + Base64(bytes[3..])
  }

  /** Decoding: characters outside the alphabets are skipped, and a last part of a byte is dropped. */
  function Digits(s: string): (ds: seq<nat>) {
    if s == "" then []
    else (if IndexOf(s[0]) < 0 then [] else [IndexOf(s[0])]) + Digits(s[1..])
  }

  function Unbase64(s: string): (bytes: seq<nat>) {
    Whole(Spread(Digits(s), 6), 8)
  }

  // --- The URL form -----------------------------------------------------------

  function Replace(s: string, a: char, b: char): (r: string)
    ensures |r| == |s|
    ensures forall i :: 0 <= i < |s| ==> r[i] == if s[i] == a then b else s[i]
  {
    if s == "" then "" else [if s[0] == a then b else s[0]] + Replace(s[1..], a, b)
  }

  function StripEquals(s: string): string {
    if s != "" && s[|s| - 1] == '=' then StripEquals(s[..|s| - 1]) else s
  }

  function ToBase64Url(bytes: seq<nat>): string
    requires Fits(bytes, 8)
  {
    StripEquals(Replace(Replace(Base64(bytes), '+', '-'), '/', '_'))
  }

  /** "=".repeat((4 - (length % 4 || 4)) % 4) */
  function Missing(length: nat): nat {
    (4 - (if length % 4 == 0 then 4 else length % 4)) % 4
  }

  function Repad(s: string): string {
    var base64 := Replace(Replace(s, '-', '+'), '_', '/');
    base64 + Equals(Missing(|base64|))
  }

  function FromBase64Url(s: string): (bytes: seq<nat>) {
    Unbase64(Repad(s))
  }

  // --- Base64 as one run of 6-bit groups --------------------------------------

  lemma {:induction false} PaddedAppends(s: seq<Bit>, t: seq<Bit>, w: nat)
    requires w > 0 && Pad(|s|, w) == 0
    ensures Padded(s + t, w) == Padded(s, w) + Padded(t, w)
    decreases |s|
  {
    hide Num;
    if s == [] {
      assert s + t == t;
    } else {
      PaddedAppends(s[w..], t, w);
      assert (s + t)[..w] == s[..w] && (s + t)[w..] == s[w..] + t;
      var d, x, y := [Num(s[..w])], Padded(s[w..], w), Padded(t, w);
      assert d + (x + y) == (d + x) + y;
    }
  }

  lemma {:induction false} CharsAppend(a: seq<nat>, b: seq<nat>)
    requires Fits(a, 6) && Fits(b, 6)
    ensures Fits(a + b, 6) && Chars(a + b) == Chars(a) + Chars(b)
  {
    hide Char;
  }

  lemma {:induction false} BodyAppends(quantum: seq<nat>, rest: seq<nat>)
    requires Fits(quantum, 8) && Fits(rest, 8) && |quantum| == 3
    ensures Body(quantum + rest) == Body(quantum) + Body(rest) && |Body(quantum)| == 4
  {
    hide Spread, Padded, Chars;
    SpreadAppends(quantum, rest, 8);
    SpreadLength(quantum, 8);
    assert Pad(24, 6) == 0;
    PaddedAppends(Spread(quantum, 8), Spread(rest, 8), 6);
    SpreadPadded(Spread(quantum, 8), 6);
    SpreadPadded(Spread(rest, 8), 6);
    CharsAppend(Padded(Spread(quantum, 8), 6), Padded(Spread(rest, 8), 6));
  }

  lemma {:induction false} BodyLength(bytes: seq<nat>)
    requires Fits(bytes, 8)
    ensures |Body(bytes)| == (8 * |bytes| + 5) / 6
  {
    hide Spread, Padded, Chars;
    SpreadLength(bytes, 8);
    SpreadPadded(Spread(bytes, 8), 6);
  }

  /** A last quantum of one or two bytes is padded as the formula pads its characters. */
  lemma {:induction false} QuantumPadding(bytes: seq<nat>)
    requires Fits(bytes, 8) && 1 <= |bytes| <= 3
    ensures Missing(|Body(bytes)|) == 3 - |bytes| && |Body(bytes)| % 4 != 1
  {
    hide Body;
    BodyLength(bytes);
  }

  lemma MissingPeriod(n: nat)
    ensures Missing(n + 4) == Missing(n) && (n + 4) % 4 == n % 4
  {
  }

  lemma Quanta(bytes: seq<nat>)
    requires Fits(bytes, 8)
    ensures bytes == [] ==> Base64(bytes) == Body(bytes) == "" && Missing(0) == 0
    ensures 1 <= |bytes| <= 3 ==> Base64(bytes) == Body(bytes) + Equals(3 - |bytes|)
    ensures |bytes| > 3 ==> Base64(bytes) == Body(bytes[..3]) + Base64(bytes[3..])
  {
  }

  /** Base64 is the 6-bit groups of all bytes, then as many '=' as a multiple of four wants. */
  lemma {:induction false} Base64Form(bytes: seq<nat>)
    requires Fits(bytes, 8)
    ensures Base64(bytes) == Body(bytes) + Equals(Missing(|Body(bytes)|))
    ensures |Body(bytes)| % 4 != 1
  {
    hide Body, Missing, Base64;
    Quanta(bytes);
    if bytes == [] {
    } else if |bytes| <= 3 {
      QuantumPadding(bytes);
    } else {
      var quantum, rest := bytes[..3], bytes[3..];
      assert quantum + rest == bytes;
      Base64Form(rest);
      BodyAppends(quantum, rest);
      MissingPeriod(|Body(rest)|);
      var fill := Equals(Missing(|Body(rest)|));
      assert Body(quantum) + (Body(rest) + fill) == (Body(quantum) + Body(rest)) + fill;
    }
  }

  // --- The URL form keeps the bytes -------------------------------------------

  /** The characters that Base64 uses, '=' aside. */
  ghost predicate Plain(s: string) {
    forall i :: 0 <= i < |s| ==> s[i] != '=' && s[i] != '.' && s[i] != '-' && s[i] != '_'
  }

  lemma {:induction false} CharsPlain(ds: seq<nat>)
    requires Fits(ds, 6)
    ensures Plain(Chars(ds)) && Digits(Chars(ds)) == ds
  {
    if ds != [] {
      CharsPlain(ds[1..]);
      assert Chars(ds)[1..] == Chars(ds[1..]);
    }
  }

  lemma {:induction false} BodyDigits(bytes: seq<nat>)
    requires Fits(bytes, 8)
    ensures Plain(Body(bytes))
    ensures Spread(Digits(Body(bytes)), 6) == Spread(bytes, 8) + Zeros(Pad(|Spread(bytes, 8)|, 6))
  {
    hide Spread, Padded, Chars, Digits;
    SpreadPadded(Spread(bytes, 8), 6);
    CharsPlain(Padded(Spread(bytes, 8), 6));
  }

  lemma {:induction false} DigitsConcat(a: string, b: string)
    ensures Digits(a + b) == Digits(a) + Digits(b)
  {
    hide IndexOf;
    if a == "" {
      assert a + b == b;
    } else {
      DigitsConcat(a[1..], b);
      assert (a + b)[1..] == a[1..] + b && (a + b)[0] == a[0];
      var d := if IndexOf(a[0]) < 0 then [] else [IndexOf(a[0])];
      assert d + (Digits(a[1..]) + Digits(b)) == (d + Digits(a[1..])) + Digits(b);
    }
  }

  lemma {:induction false} NoDigits(k: nat)
    ensures Digits(Equals(k)) == []
  {
    if k > 0 {
      assert Equals(k)[1..] == Equals(k - 1);
      NoDigits(k - 1);
    }
  }

  /** Decoding inverts section 4 of RFC 4648. */
  lemma {:induction false} Base64RoundTrip(bytes: seq<nat>)
    requires Fits(bytes, 8)
    ensures Unbase64(Base64(bytes)) == bytes
  {
    hide Spread, Whole, Digits, Body, Base64;
    Base64Form(bytes);
    BodyDigits(bytes);
    DigitsConcat(Body(bytes), Equals(Missing(|Body(bytes)|)));
    NoDigits(Missing(|Body(bytes)|));
    assert Digits(Body(bytes)) + [] == Digits(Body(bytes));
    WholeSpread(bytes, 8, Zeros(Pad(|Spread(bytes, 8)|, 6)));
  }

  function UrlChar(c: char): char {
    if c == '+' then '-' else if c == '/' then '_' else c
  }

  /** The URL form: the 6-bit groups over the URL alphabet, and nothing else. */
  lemma {:induction false} UrlForm(bytes: seq<nat>)
    requires Fits(bytes, 8)
    ensures var url, body := ToBase64Url(bytes), Body(bytes);
      && |url| == |body| == (8 * |bytes| + 5) / 6
      && forall i :: 0 <= i < |url| ==>
        && url[i] == UrlChar(body[i])
        && url[i] != '.' && url[i] != '=' && url[i] != '+' && url[i] != '/'
  {
    hide Body, Base64, StripEquals, Replace;
    Base64Form(bytes);
    BodyDigits(bytes);
    BodyLength(bytes);
    var body := Body(bytes);
    var k := Missing(|body|);
    var swapped := Replace(Replace(body, '+', '-'), '/', '_');
    var whole := Replace(Replace(Base64(bytes), '+', '-'), '/', '_');
    assert whole == swapped + Equals(k);
    forall i | 0 <= i < |swapped| ensures swapped[i] != '=' && swapped[i] == UrlChar(body[i]) {
    }
    StripsAt(swapped, k);
  }

  lemma {:induction false} StripsAt(s: string, k: nat)
    requires s == "" || s[|s| - 1] != '='
    ensures StripEquals(s + Equals(k)) == s
  {
    if k == 0 {
      assert s + Equals(0) == s;
    } else {
      StripsAt(s, k - 1);
      assert (s + Equals(k))[..|s| + k - 1] == s + Equals(k - 1);
    }
  }

  /** The re-padding formula rebuilds exactly the padded text that was stripped. */
  lemma {:induction false} RepadRestores(bytes: seq<nat>)
    requires Fits(bytes, 8)
    ensures Repad(ToBase64Url(bytes)) == Base64(bytes)
  {
    hide Body, Base64, ToBase64Url, Replace;
    UrlForm(bytes);
    BodyDigits(bytes);
    Base64Form(bytes);
    var back := Replace(Replace(ToBase64Url(bytes), '-', '+'), '_', '/');
    assert back == Body(bytes);
  }

  lemma {:induction false} UrlRoundTrip(bytes: seq<nat>)
    requires Fits(bytes, 8)
    ensures FromBase64Url(ToBase64Url(bytes)) == bytes
  {
    RepadRestores(bytes);
    Base64RoundTrip(bytes);
  }
}
