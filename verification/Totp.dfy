/** Time-based one-time codes over the decoded secret: truncation, six digits, and the window. */
module Totp {
  import opened Common
  import opened Bits
  import Base32

  /** An HMAC: twenty bytes for a key and a message (SHA-1's digest size). */
  ghost predicate IsHmac(hmac: (seq<nat>, seq<nat>) -> seq<nat>) {
    forall k, m :: |hmac(k, m)| == 20 && Fits(hmac(k, m), 8)
  }

  // --- Six decimal digits -----------------------------------------------------

  function DigitChar(d: nat): (c: char)
    requires d < 10
    ensures '0' <= c <= '9' && c as int - '0' as int == d
  {
    d as char + '0'
  }

  function Decimal(n: nat): (s: string)
    ensures s != ""
  {
    if n < 10 then [DigitChar(n)] else Decimal(n / 10) + [DigitChar(n % 10)]
  }

  function Zeros(k: nat): (s: string)
    ensures |s| == k
  {
    seq(k, i => '0')
  }

  function PadStart(s: string, width: nat): (r: string)
    ensures |r| == if |s| < width then width else |s|
  {
    if |s| < width then Zeros(width - |s|) + s else s
  }

  predicate AllDigits(s: string) {
    forall i :: 0 <= i < |s| ==> '0' <= s[i] <= '9'
  }

  function Value(s: string): (n: nat)
    requires AllDigits(s)
  {
    if s == "" then 0 else 10 * Value(s[..|s| - 1]) + (s[|s| - 1] as int - '0' as int)
  }

  function Pow10(k: nat): nat {
    if k == 0 then 1 else 10 * Pow10(k - 1)
  }

  lemma {:induction false} DecimalValue(n: nat, zeros: nat)
    ensures AllDigits(Zeros(zeros) + Decimal(n)) && Value(Zeros(zeros) + Decimal(n)) == n
  {
    var s := Zeros(zeros) + Decimal(n);
    if n < 10 {
      ZerosValue(zeros);
      assert s[..|s| - 1] == Zeros(zeros);
    } else {
      DecimalValue(n / 10, zeros);
      assert s[..|s| - 1] == Zeros(zeros) + Decimal(n / 10);
    }
  }

  lemma {:induction false} ZerosValue(k: nat)
    ensures AllDigits(Zeros(k)) && Value(Zeros(k)) == 0
  {
    if k > 0 {
      ZerosValue(k - 1);
      assert Zeros(k)[..k - 1] == Zeros(k - 1);
    }
  }

  lemma {:induction false} DecimalLength(n: nat, k: nat)
    requires n < Pow10(k) && k > 0
    ensures |Decimal(n)| <= k
  {
    if n >= 10 {
      DecimalLength(n / 10, k - 1);
    }
  }

  lemma {:induction false} SameValue(a: string, b: string)
    requires |a| == |b| && AllDigits(a) && AllDigits(b) && Value(a) == Value(b)
    ensures a == b
  {
    if a != "" {
      SameValue(a[..|a| - 1], b[..|b| - 1]);
      assert a == a[..|a| - 1] + [a[|a| - 1]] && b == b[..|b| - 1] + [b[|b| - 1]];
    }
  }

  predicate SixDigits(s: string) {
    |s| == 6 && AllDigits(s)
  }

  /** otp.toString().padStart(6, "0") is the one string of six digits with that value. */
  lemma {:induction false} SixDigitText(n: nat, code: string)
    requires n < 1_000_000 && SixDigits(code)
    ensures SixDigits(PadStart(Decimal(n), 6))
    ensures PadStart(Decimal(n), 6) == code <==> Value(code) == n
  {
    hide Decimal, Value;
    assert Pow10(3) == 1000 && Pow10(6) == 1_000_000;
    DecimalLength(n, 6);
    var zeros := 6 - |Decimal(n)|;
    DecimalValue(n, zeros);
    var text := PadStart(Decimal(n), 6);
    assert text == Zeros(zeros) + Decimal(n);
    if Value(code) == n {
      SameValue(text, code);
    }
  }

  // --- One code ------------------------------------------------------------------

  /** Dynamic truncation, section 5.3 of RFC 4226, to six decimal digits. */
  function Otp(digest: seq<nat>): (n: nat)
    requires |digest| == 20 && Fits(digest, 8)
    ensures n < 1_000_000
  {
    assert Pow2(8) == 256;
    var o := digest[19] % 16;
    (digest[o] % 128 * 0x100_0000 + digest[o + 1] * 0x1_0000 + digest[o + 2] * 0x100 + digest[o + 3]) % 1_000_000
  }

  /** The offset is the low four bits of the last byte, and the number is the four bytes from there on as
    one bit string, without its first bit. */
  lemma {:induction false} OtpTruncates(digest: seq<nat>) returns (o: nat, word: nat)
    requires |digest| == 20 && Fits(digest, 8)
    ensures o < 16 && Of(o, 4) == Of(digest[19], 8)[4..]
    ensures word < 0x8000_0000 && Of(word, 31) == Spread(digest[o..o + 4], 8)[1..]
    ensures Otp(digest) == word % 1_000_000
  {
    hide Of, Spread;
    o := digest[19] % 16;
    assert Pow2(8) == 256;
    LowNibble(digest[19]);
    var four := digest[o..o + 4];
    word := WordBits(four[0], four[1], four[2], four[3]);
    FourBytes(four);
    var rest := Of(four[1], 8) + Of(four[2], 8) + Of(four[3], 8);
    assert Spread(four, 8) == Of(four[0], 8) + rest;
    assert Spread(four, 8)[1..] == Of(four[0], 8)[1..] + rest;
  }

  lemma {:induction false} LowNibble(b: nat)
    ensures Of(b % 16, 4) == Of(b, 8)[4..]
  {
    assert Pow2(4) == 16;
    Shift(b, 4, 4);
    OfMod(b, 4, 4);
  }

  lemma {:induction false} WithoutTopBit(a: nat)
    ensures Of(a % 128, 7) == Of(a, 8)[1..]
  {
    assert Pow2(7) == 128;
    Shift(a, 1, 7);
    OfMod(a, 7, 7);
  }

  lemma {:induction false} AppendByte(v: nat, b: nat, n: nat)
    requires b < 256
    ensures Of(v * 256 + b, n + 8) == Of(v, n) + Of(b, 8)
  {
    assert Pow2(8) == 256;
    Append(v, b, n, 8);
  }

  lemma {:induction false} WordBits(a: nat, b: nat, c: nat, d: nat) returns (word: nat)
    requires a < 256 && b < 256 && c < 256 && d < 256
    ensures word == a % 128 * 0x100_0000 + b * 0x1_0000 + c * 0x100 + d < 0x8000_0000
    ensures Of(word, 31) == Of(a, 8)[1..] + (Of(b, 8) + Of(c, 8) + Of(d, 8))
  {
    hide Of;
    var high := a % 128;
    WithoutTopBit(a);
    AppendByte(high, b, 7);
    AppendByte(high * 256 + b, c, 15);
    AppendByte((high * 256 + b) * 256 + c, d, 23);
    word := ((high * 256 + b) * 256 + c) * 256 + d;
  }

  lemma {:induction false} FourBytes(bs: seq<nat>)
    requires |bs| == 4
    ensures Spread(bs, 8) == Of(bs[0], 8) + Of(bs[1], 8) + Of(bs[2], 8) + Of(bs[3], 8)
  {
    hide Of;
    assert bs == [bs[0]] + ([bs[1]] + ([bs[2]] + [bs[3]]));
    SpreadAppends([bs[0]], [bs[1]] + ([bs[2]] + [bs[3]]), 8);
    SpreadAppends([bs[1]], [bs[2]] + [bs[3]], 8);
    SpreadAppends([bs[2]], [bs[3]], 8);
    OneByte(bs[0]);
    OneByte(bs[1]);
    OneByte(bs[2]);
    OneByte(bs[3]);
    hide Spread;
  }

  lemma {:induction false} OneByte(b: nat)
    ensures Spread([b], 8) == Of(b, 8)
  {
    assert [b][1..] == [];
  }

  /** The example of section 5.4 of RFC 4226. */
  lemma {:induction false} RfcExample()
    ensures var digest := [0x1f, 0x86, 0x98, 0x69, 0x0e, 0x02, 0xca, 0x16, 0x61, 0x85,
                           0x50, 0xef, 0x7f, 0x19, 0xda, 0x8e, 0x94, 0x5b, 0x55, 0x5a];
            Fits(digest, 8) && Otp(digest) == 872921
  {
    assert Pow2(8) == 256;
  }

  /** The counter of a time in milliseconds; negative before the epoch. */
  function Counter(time: int, stepSeconds: nat): int
    requires stepSeconds > 0
  {
    time / (1000 * stepSeconds)
  }

  /** The number a code at that counter must have. */
  function OtpAt(key: seq<nat>, counter: nat, hmac: (seq<nat>, seq<nat>) -> seq<nat>): (n: nat)
    requires IsHmac(hmac)
    ensures n < 1_000_000
  {
    Otp(hmac(key, Whole(Of(counter, 64), 8)))
  }

  /** Moving the clock by whole steps moves the counter by as many. */
  lemma {:induction false} CounterShift(time: int, stepSeconds: nat, delta: int)
    requires stepSeconds > 0
    ensures Counter(time + delta * stepSeconds * 1000, stepSeconds) == Counter(time, stepSeconds) + delta
  {
    var p := 1000 * stepSeconds;
    var q, r := time / p, time % p;
    assert time == q * p + r;
    Distribute(q, delta, p);
    assert delta * stepSeconds * 1000 == delta * p;
    Remainder(q + delta, p, r);
  }

  /** A counter lasts from its own multiple of the step to the next. */
  lemma {:induction false} CounterSpan(time: int, stepSeconds: nat)
    requires stepSeconds > 0
    ensures var c, step := Counter(time, stepSeconds), 1000 * stepSeconds; c * step <= time < c * step + step
  {
    var step := 1000 * stepSeconds;
    assert time == time / step * step + time % step;
  }

  /** The message is the counter as eight bytes, the most significant first. */
  lemma {:induction false} OtpMessage(key: seq<nat>, counter: nat, hmac: (seq<nat>, seq<nat>) -> seq<nat>)
    returns (message: seq<nat>)
    requires IsHmac(hmac) && counter < Pow2(64)
    ensures |message| == 8 && Fits(message, 8) && Num(Spread(message, 8)) == counter
    ensures OtpAt(key, counter, hmac) == Otp(hmac(key, message))
  {
    hide Of, Num, Otp, Whole, Spread, Pow2;
    message := Whole(Of(counter, 64), 8);
    SpreadWhole(Of(counter, 64), 8, 8);
    OfSmall(counter, 64);
  }

  lemma Distribute(a: int, b: int, p: int)
    ensures (a + b) * p == a * p + b * p
  {
  }

  const RANGE := 0x1_0000_0000_0000_0000

  /** None when the counter does not fit eight unsigned bytes: writing it throws. */
  method GenerateTotpCode(secretBase32: string, time: int, stepSeconds: nat,
      upper: char -> string, hmac: (seq<nat>, seq<nat>) -> seq<nat>)
    returns (code: Option<string>)
    requires stepSeconds > 0 && IsHmac(hmac)
    ensures code.None? <==> !(0 <= Counter(time, stepSeconds) < RANGE)
    ensures code.Some? ==>
      var otp := OtpAt(Base32.Unbase32(Base32.Normalize(secretBase32, upper)), Counter(time, stepSeconds), hmac);
      forall s :: SixDigits(s) ==> (code.value == s <==> Value(s) == otp)
    ensures code.Some? ==> SixDigits(code.value)
  {
    hide Value, Decimal, Otp;
    var secret := Base32.DecodeBase32(secretBase32, upper);
    var counter := Counter(time, stepSeconds);
    if counter < 0 || counter >= RANGE {
      return None;
    }
    var digest := hmac(secret, Whole(Of(counter, 64), 8));
    var otp := Otp(digest);
    forall s | SixDigits(s)
      ensures PadStart(Decimal(otp), 6) == s <==> Value(s) == otp
    {
      SixDigitText(otp, s);
    }
    SixDigitText(otp, "000000");
    code := Some(PadStart(Decimal(otp), 6));
  }

  // --- The window ------------------------------------------------------------------

  predicate IsSpace(c: char) {
    || 9 as char <= c <= 13 as char || c == ' ' || c == 0xA0 as char || c == 0x1680 as char
    || 0x2000 as char <= c <= 0x200A as char || c == 0x2028 as char || c == 0x2029 as char
    || c == 0x202F as char || c == 0x205F as char || c == 0x3000 as char || c == 0xFEFF as char
  }

  function Trim(s: string): (r: string)
    ensures AllDigits(s) ==> r == s
  {
    if s == "" then s
    else if IsSpace(s[0]) then Trim(s[1..])
    else if IsSpace(s[|s| - 1]) then Trim(s[..|s| - 1])
    else s
  }

  /** Trimming takes white space off both ends and leaves none there. */
  lemma {:induction false} TrimEnds(s: string) returns (from: nat, to: nat)
    ensures from <= to <= |s| && Trim(s) == s[from..to]
    ensures forall i :: 0 <= i < from || to <= i < |s| ==> IsSpace(s[i])
    ensures from < to ==> !IsSpace(s[from]) && !IsSpace(s[to - 1])
    decreases |s|
  {
    hide IsSpace;
    if s != "" && IsSpace(s[0]) {
      var rest := s[1..];
      from, to := TrimEnds(rest);
      Inner(s, 1, |s|, from, to);
      assert forall i :: 0 <= i < |rest| ==> rest[i] == s[i + 1];
      assert forall i :: 1 <= i < |s| ==> s[i] == rest[i - 1];
      from, to := from + 1, to + 1;
    } else if s != "" && IsSpace(s[|s| - 1]) {
      var rest := s[..|s| - 1];
      from, to := TrimEnds(rest);
      Inner(s, 0, |s| - 1, from, to);
      assert forall i :: 0 <= i < |rest| ==> rest[i] == s[i];
    } else {
      from, to := 0, |s|;
    }
  }

  lemma {:induction false} Inner(s: string, a: nat, b: nat, from: nat, to: nat)
    requires a <= b <= |s| && from <= to <= b - a
    ensures s[a..b][from..to] == s[a + from..a + to]
  {
    assert forall k :: 0 <= k < to - from ==> s[a..b][from..to][k] == s[a + from..a + to][k];
  }

  /** A code is accepted exactly when its number is the one of a counter at most `windowSteps` away;
    the check throws when the window reaches below the epoch (or past 64 bits). */
  method VerifyTotpCode(typed: string, secretBase32: string, now: int, stepSeconds: nat, windowSteps: nat,
      upper: char -> string, hmac: (seq<nat>, seq<nat>) -> seq<nat>)
    returns (matched: Option<bool>)
    requires stepSeconds > 0 && IsHmac(hmac)
    ensures var key, c := Base32.Unbase32(Base32.Normalize(secretBase32, upper)), Counter(now, stepSeconds);
      if !SixDigits(Trim(typed)) then matched == Some(false)
      else if c - windowSteps < 0 || c + windowSteps >= RANGE then matched == None
      else
        && matched.Some?
        && (matched.value <==>
            exists k :: c - windowSteps <= k <= c + windowSteps && Value(Trim(typed)) == OtpAt(key, k, hmac))
  {
    hide Value, OtpAt, Trim, Counter, Base32.Unbase32, Base32.Normalize;
    var code := Trim(typed);
    if !SixDigits(code) {
      return Some(false);
    }
    ghost var key := Base32.Unbase32(Base32.Normalize(secretBase32, upper));
    ghost var c := Counter(now, stepSeconds);
    matched := Some(false);
    var delta: int := 0 - windowSteps;
    while delta <= windowSteps
      invariant 0 - windowSteps <= delta <= windowSteps + 1
      invariant delta > 0 - windowSteps ==> 0 <= c - windowSteps && c + delta - 1 < RANGE
      invariant matched.Some?
      invariant matched.value <==>
        exists k :: 0 <= k && c - windowSteps <= k < c + delta && Value(code) == OtpAt(key, k, hmac)
    {
      CounterShift(now, stepSeconds, delta);
      var candidate := GenerateTotpCode(secretBase32, now + delta * stepSeconds * 1000, stepSeconds, upper, hmac);
      if candidate.None? {
        return None;
      }
      if candidate.value == code {
        assert Value(code) == OtpAt(key, c + delta, hmac);
        matched := Some(true);
      }
      delta := delta + 1;
    }
  }
}
