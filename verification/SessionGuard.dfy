/** The signed session-guard token: payload and signature as unpadded base64url, joined by a dot. */
module SessionGuard {
  import opened Common
  import opened Bits
  import opened Base64Url

  datatype Claims = Claims(sid: string, tid: string, pid: string, sub: string, mfa: bool, exp: real)

  /** A member of the parsed payload, as far as the type checks tell members apart. */
  datatype Member = Text(text: string) | Flag(flag: bool) | Number(number: real) | Other

  /** What JSON.parse makes of the payload: it throws, or gives null, or a value with members. */
  datatype Payload =
    | Malformed
    | Null
    | Members(sid: Member, tid: Member, pid: Member, sub: Member, mfa: Member, exp: Member)

  /** Reading a member of null throws, outside the handler. */
  datatype Verdict = Rejected | Accepted(claims: Claims) | Thrown

  /** JSON over bytes, the HMAC, and which reals are numbers: the parts that come from the platform. */
  datatype Platform = Platform(
    isNumber: real -> bool,
    stringify: Claims -> seq<nat>,
    parse: seq<nat> -> Payload,
    hmac: (string, string) -> seq<nat>)

  function AsPayload(c: Claims): Payload {
    Members(Text(c.sid), Text(c.tid), Text(c.pid), Text(c.sub), Flag(c.mfa), Number(c.exp))
  }

  /** Parsing inverts printing, on bytes, for claims with a numeric expiry; a signature is 32 bytes. */
  ghost predicate Works(p: Platform) {
    && (forall c: Claims :: p.isNumber(c.exp) ==>
          p.stringify(c) != [] && Fits(p.stringify(c), 8) && p.parse(p.stringify(c)) == AsPayload(c))
    && (forall text, secret :: |p.hmac(text, secret)| == 32 && Fits(p.hmac(text, secret), 8))
  }

  // --- The comparison --------------------------------------------------------------

  /** a ^ b, bit by bit. */
  function Xor(a: nat, b: nat): nat
  {
    if a == 0 && b == 0 then 0 else 2 * Xor(a / 2, b / 2) + if a % 2 == b % 2 then 0 else 1
  }

  /** a | b, bit by bit. */
  function Or(a: nat, b: nat): nat
  {
    if a == 0 && b == 0 then 0 else 2 * Or(a / 2, b / 2) + if a % 2 == 0 && b % 2 == 0 then 0 else 1
  }

  lemma {:induction false} XorZero(a: nat, b: nat)
    ensures Xor(a, b) == 0 <==> a == b
  {
    if a != 0 || b != 0 {
      XorZero(a / 2, b / 2);
    }
  }

  lemma {:induction false} OrZero(a: nat, b: nat)
    ensures Or(a, b) == 0 <==> a == 0 && b == 0
  {
    if a != 0 || b != 0 {
      OrZero(a / 2, b / 2);
    }
  }

  /** The accumulated differences are zero exactly for equal byte sequences. */
  method TimingSafeEqual(a: seq<nat>, b: seq<nat>) returns (equal: bool)
    ensures equal <==> a == b
  {
    if |a| != |b| {
      return false;
    }
    var diff := 0;
    for i := 0 to |a|
      invariant diff == 0 <==> a[..i] == b[..i]
    {
      XorZero(a[i], b[i]);
      OrZero(diff, Xor(a[i], b[i]));
      assert a[..i + 1] == a[..i] + [a[i]] && b[..i + 1] == b[..i] + [b[i]];
      diff := Or(diff, Xor(a[i], b[i]));
    }
    assert a[..|a|] == a && b[..|b|] == b;
    equal := diff == 0;
  }

  // --- Creating ---------------------------------------------------------------------

  /** Seconds since the epoch, rounded down. */
  function Seconds(nowMs: int): real {
    (nowMs / 1000) as real
  }

  function Expiry(nowMs: int, ttlSeconds: real): real {
    Seconds(nowMs) + if ttlSeconds > 1.0 then ttlSeconds else 1.0
  }

  function Sign(p: Platform, text: string, secret: string): string
    requires Works(p)
  {
    ToBase64Url(p.hmac(text, secret))
  }

  function CreateToken(p: Platform, secret: string, nowMs: int,
      sid: string, tid: string, pid: string, sub: string, mfaVerified: bool, ttlSeconds: real): string
    requires Works(p) && p.isNumber(Expiry(nowMs, ttlSeconds))
  {
    var claims := Claims(sid, tid, pid, sub, mfaVerified, Expiry(nowMs, ttlSeconds));
    var encodedPayload := ToBase64Url(p.stringify(claims));
    encodedPayload + "." + Sign(p, encodedPayload, secret)
  }

  // --- Verifying ----------------------------------------------------------------------

  function SplitDots(s: string): (parts: seq<string>)
    ensures |parts| >= 1
  {
    if s == "" then [""]
    else
      var rest := SplitDots(s[1..]);
      if s[0] == '.' then [""] + rest else [[s[0]] + rest[0]] + rest[1..]
  }

  function Checked(payload: Payload, nowMs: int, expected: Option<string>): Verdict {
    match payload
    case Malformed => Rejected
    case Null => Thrown
    case Members(sid, tid, pid, sub, mfa, exp) =>
      if !(sid.Text? && tid.Text? && pid.Text? && sub.Text? && mfa.Flag? && exp.Number?) then Rejected
      else if exp.number <= Seconds(nowMs) then Rejected
      else if expected.Some? && expected.value != "" && sid.text != expected.value then Rejected
      else Accepted(Claims(sid.text, tid.text, pid.text, sub.text, mfa.flag, exp.number))
  }

  method VerifyToken(p: Platform, secret: string, token: string, nowMs: int, expected: Option<string>)
    returns (verdict: Verdict)
    requires Works(p)
    ensures verdict == Verify(p, secret, token, nowMs, expected)
  {
    var parts := SplitDots(token);
    if |parts| != 2 || parts[0] == "" || parts[1] == "" {
      return Rejected;
    }
    var expectedSig := Sign(p, parts[0], secret);
    UrlRoundTrip(p.hmac(parts[0], secret));
    var expectedBytes := FromBase64Url(expectedSig);
    var actualBytes := FromBase64Url(parts[1]);
    var same := TimingSafeEqual(expectedBytes, actualBytes);
    if !same {
      return Rejected;
    }
    verdict := Checked(p.parse(FromBase64Url(parts[0])), nowMs, expected);
  }

  /** The verdict as one expression: the signature part decodes to the HMAC of the payload part. */
  function Verify(p: Platform, secret: string, token: string, nowMs: int, expected: Option<string>): Verdict
    requires Works(p)
  {
    var parts := SplitDots(token);
    if |parts| != 2 || parts[0] == "" || parts[1] == "" then Rejected
    else if FromBase64Url(parts[1]) != p.hmac(parts[0], secret) then Rejected
    else Checked(p.parse(FromBase64Url(parts[0])), nowMs, expected)
  }

  // --- Theorems -------------------------------------------------------------------------

  lemma {:induction false} SplitNoDot(s: string)
    requires '.' !in s
    ensures SplitDots(s) == [s]
  {
    if s != "" {
      SplitNoDot(s[1..]);
      assert s == [s[0]] + s[1..];
    }
  }

  lemma {:induction false} SplitOneDot(a: string, b: string)
    requires '.' !in a && '.' !in b
    ensures SplitDots(a + "." + b) == [a, b]
  {
    var s := a + "." + b;
    if a == "" {
      assert s[1..] == b;
      SplitNoDot(b);
    } else {
      assert s[1..] == a[1..] + "." + b;
      SplitOneDot(a[1..], b);
      assert a == [a[0]] + a[1..];
    }
  }

  lemma {:induction false} SplitBack(s: string)
    ensures '.' !in SplitDots(s)[0]
    ensures |SplitDots(s)| == 2 ==> '.' !in SplitDots(s)[1] && s == SplitDots(s)[0] + "." + SplitDots(s)[1]
    ensures |SplitDots(s)| == 1 ==> s == SplitDots(s)[0]
  {
    if s != "" {
      SplitBack(s[1..]);
      assert s == [s[0]] + s[1..];
    }
  }

  /** Verifying a fresh token gives its own claims back, exactly when it has not expired
    and a session id, if one is expected, is the token's. */
  lemma {:induction false} GuardRoundTrip(p: Platform, secret: string, createdMs: int, verifiedMs: int,
      expected: Option<string>,
      sid: string, tid: string, pid: string, sub: string, mfaVerified: bool, ttlSeconds: real)
    requires Works(p) && p.isNumber(Expiry(createdMs, ttlSeconds))
    ensures
      var token := CreateToken(p, secret, createdMs, sid, tid, pid, sub, mfaVerified, ttlSeconds);
      var expiry := (createdMs / 1000) as real + if ttlSeconds > 1.0 then ttlSeconds else 1.0;
      var live := (verifiedMs / 1000) as real < expiry;
      var matches := expected == None || expected == Some("") || expected == Some(sid);
      Verify(p, secret, token, verifiedMs, expected)
        == if live && matches then Accepted(Claims(sid, tid, pid, sub, mfaVerified, expiry)) else Rejected
  {
    hide ToBase64Url, FromBase64Url, SplitDots;
    var claims := Claims(sid, tid, pid, sub, mfaVerified, Expiry(createdMs, ttlSeconds));
    var body := p.stringify(claims);
    var payload := ToBase64Url(body);
    var mac := p.hmac(payload, secret);
    UrlForm(body);
    UrlForm(mac);
    UrlRoundTrip(body);
    UrlRoundTrip(mac);
    SplitOneDot(payload, ToBase64Url(mac));
  }

  /** Two dot-free parts, the second decoding to the HMAC of the first. */
  ghost predicate Signed(p: Platform, secret: string, token: string, payload: string, sig: string) {
    && token == payload + "." + sig && '.' !in payload && '.' !in sig && payload != ""
    && FromBase64Url(sig) == p.hmac(payload, secret)
  }

  lemma NothingDecoded()
    ensures FromBase64Url("") == []
  {
  }

  lemma {:induction false} SignedVerdict(p: Platform, secret: string, token: string, payload: string, sig: string,
      nowMs: int, expected: Option<string>)
    requires Works(p) && Signed(p, secret, token, payload, sig)
    ensures Verify(p, secret, token, nowMs, expected)
         == Checked(p.parse(FromBase64Url(payload)), nowMs, expected)
  {
    hide FromBase64Url, SplitDots, Checked;
    SplitOneDot(payload, sig);
    NothingDecoded();
  }

  /** Which payloads are accepted: those with five typed claims and a numeric expiry in the future, of the
    expected session if one is named; a payload that is null throws. */
  lemma {:induction false} CheckedIs(nowMs: int, expected: Option<string>)
    ensures forall payload: Payload, c: Claims :: Checked(payload, nowMs, expected) == Accepted(c) <==>
      && payload == Members(Text(c.sid), Text(c.tid), Text(c.pid), Text(c.sub), Flag(c.mfa), Number(c.exp))
      && (nowMs / 1000) as real < c.exp
      && (expected == None || expected == Some("") || expected == Some(c.sid))
    ensures forall payload: Payload :: Checked(payload, nowMs, expected) == Thrown <==> payload == Null
  {
  }

  lemma {:induction false} ThrownParts(p: Platform, secret: string, token: string, nowMs: int, expected: Option<string>)
    returns (payload: string, sig: string)
    requires Works(p) && Verify(p, secret, token, nowMs, expected).Thrown?
    ensures Signed(p, secret, token, payload, sig)
  {
    hide FromBase64Url, SplitDots, Checked;
    SplitBack(token);
    payload, sig := SplitDots(token)[0], SplitDots(token)[1];
  }

  lemma {:induction false} AcceptedParts(p: Platform, secret: string, token: string, nowMs: int, expected: Option<string>)
    returns (payload: string, sig: string)
    requires Works(p) && Verify(p, secret, token, nowMs, expected).Accepted?
    ensures Signed(p, secret, token, payload, sig)
  {
    hide FromBase64Url, SplitDots, Checked;
    SplitBack(token);
    payload, sig := SplitDots(token)[0], SplitDots(token)[1];
  }

  /** A token is accepted if and only if it is signed and its payload has the claims,
    has not expired, and names the expected session. */
  lemma {:induction false} AcceptedIffSigned(p: Platform, secret: string, token: string, nowMs: int,
                                             expected: Option<string>)
    requires Works(p)
    ensures Verify(p, secret, token, nowMs, expected).Accepted? <==>
      exists payload: string, sig: string ::
        && Signed(p, secret, token, payload, sig)
        && Checked(p.parse(FromBase64Url(payload)), nowMs, expected).Accepted?
    ensures forall c: Claims :: Verify(p, secret, token, nowMs, expected) == Accepted(c) <==>
      exists payload: string, sig: string ::
        && Signed(p, secret, token, payload, sig)
        && p.parse(FromBase64Url(payload))
           == Members(Text(c.sid), Text(c.tid), Text(c.pid), Text(c.sub), Flag(c.mfa), Number(c.exp))
        && (nowMs / 1000) as real < c.exp
        && (expected == None || expected == Some("") || expected == Some(c.sid))
    ensures Verify(p, secret, token, nowMs, expected) == Thrown <==>
      exists payload: string, sig: string ::
        Signed(p, secret, token, payload, sig) && p.parse(FromBase64Url(payload)) == Null
  {
    CheckedIs(nowMs, expected);
    hide Signed, Verify, FromBase64Url, Checked;
    if Verify(p, secret, token, nowMs, expected).Thrown? {
      var payload, sig := ThrownParts(p, secret, token, nowMs, expected);
      SignedVerdict(p, secret, token, payload, sig, nowMs, expected);
    }
    if Verify(p, secret, token, nowMs, expected).Accepted? {
      var payload, sig := AcceptedParts(p, secret, token, nowMs, expected);
      SignedVerdict(p, secret, token, payload, sig, nowMs, expected);
    }
    forall payload: string, sig: string | Signed(p, secret, token, payload, sig)
      ensures Verify(p, secret, token, nowMs, expected) == Checked(p.parse(FromBase64Url(payload)), nowMs, expected)
    {
      SignedVerdict(p, secret, token, payload, sig, nowMs, expected);
    }
  }

  // --- Such a platform exists -------------------------------------------------------------

  function CharBytes(c: char): (bs: seq<nat>)
    ensures |bs| == 3 && bs[0] < 255
  {
    [c as int / 0x1_0000, c as int / 0x100 % 0x100, c as int % 0x100]
  }

  lemma {:induction false} CharFromBytes(c: char, d: char)
    requires CharBytes(c) == CharBytes(d)
    ensures c == d
  {
    var x, y := c as int, d as int;
    assert CharBytes(c)[0] == CharBytes(d)[0] && CharBytes(c)[1] == CharBytes(d)[1] && CharBytes(c)[2] == CharBytes(d)[2];
    assert x == x / 0x1_0000 * 0x1_0000 + x / 0x100 % 0x100 * 0x100 + x % 0x100;
    assert y == y / 0x1_0000 * 0x1_0000 + y / 0x100 % 0x100 * 0x100 + y % 0x100;
  }

  /** Three bytes a character, and a byte that no character starts with at the end. */
  function Bytes(s: string): (bs: seq<nat>)
    ensures bs != []
  {
    if s == "" then [255] else CharBytes(s[0]) + Bytes(s[1..])
  }

  function Unary(n: nat): (bs: seq<nat>)
    ensures |bs| == n && forall i :: 0 <= i < n ==> bs[i] == 1
  {
    seq(n, i => 1)
  }

  function FlagAndExpiry(mfa: bool, n: int): (bs: seq<nat>)
    ensures |bs| >= 2
  {
    [if mfa then 1 else 0, if n < 0 then 1 else 0] + Unary(if n < 0 then -n else n)
  }

  function Printed(c: Claims): (bs: seq<nat>)
    ensures bs != []
  {
    Bytes(c.sid) + (Bytes(c.tid) + (Bytes(c.pid) + (Bytes(c.sub) + FlagAndExpiry(c.mfa, c.exp.Floor))))
  }

  lemma {:induction false} BytesFit(s: string)
    ensures Fits(Bytes(s), 8)
  {
    assert Pow2(8) == 256;
    if s != "" {
      BytesFit(s[1..]);
    }
  }

  lemma {:induction false} BytesSplit(s: string, t: string, x: seq<nat>, y: seq<nat>)
    requires Bytes(s) + x == Bytes(t) + y
    ensures s == t && x == y
  {
    hide CharBytes;
    var a, b := Bytes(s) + x, Bytes(t) + y;
    assert a[0] == Bytes(s)[0] && b[0] == Bytes(t)[0];
    if s == "" || t == "" {
      assert a[1..] == b[1..];
    } else {
      assert a[..3] == CharBytes(s[0]) && b[..3] == CharBytes(t[0]);
      assert a[3..] == Bytes(s[1..]) + x && b[3..] == Bytes(t[1..]) + y;
      CharFromBytes(s[0], t[0]);
      BytesSplit(s[1..], t[1..], x, y);
    }
  }

  predicate IsWhole(x: real) {
    x == x.Floor as real
  }

  lemma {:induction false} PrintedFits(c: Claims)
    ensures Fits(Printed(c), 8)
  {
    hide Bytes, Fits;
    var tail := FlagAndExpiry(c.mfa, c.exp.Floor);
    FewFit(tail);
    BytesFitBefore(c.sub, tail);
    BytesFitBefore(c.pid, Bytes(c.sub) + tail);
    BytesFitBefore(c.tid, Bytes(c.pid) + (Bytes(c.sub) + tail));
    BytesFitBefore(c.sid, Bytes(c.tid) + (Bytes(c.pid) + (Bytes(c.sub) + tail)));
  }

  lemma {:induction false} FewFit(bs: seq<nat>)
    requires forall i :: 0 <= i < |bs| ==> bs[i] <= 1
    ensures Fits(bs, 8)
  {
    assert Pow2(8) == 256;
  }

  lemma {:induction false} BytesFitBefore(s: string, rest: seq<nat>)
    requires Fits(rest, 8)
    ensures Fits(Bytes(s) + rest, 8)
  {
    BytesFit(s);
  }

  /** Claims with whole expiries can be told from their bytes. */
  lemma {:induction false} PrintedInjective(a: Claims, b: Claims)
    requires Printed(a) == Printed(b) && IsWhole(a.exp) && IsWhole(b.exp)
    ensures a == b
  {
    hide Bytes, FlagAndExpiry;
    var endA, endB := FlagAndExpiry(a.mfa, a.exp.Floor), FlagAndExpiry(b.mfa, b.exp.Floor);
    var subA, subB := Bytes(a.sub) + endA, Bytes(b.sub) + endB;
    var pidA, pidB := Bytes(a.pid) + subA, Bytes(b.pid) + subB;
    BytesSplit(a.sid, b.sid, Bytes(a.tid) + pidA, Bytes(b.tid) + pidB);
    BytesSplit(a.tid, b.tid, pidA, pidB);
    BytesSplit(a.pid, b.pid, subA, subB);
    BytesSplit(a.sub, b.sub, endA, endB);
    FlagAndExpiryInjective(a.mfa, a.exp.Floor, b.mfa, b.exp.Floor);
  }

  lemma {:induction false} FlagAndExpiryInjective(f: bool, m: int, g: bool, n: int)
    requires FlagAndExpiry(f, m) == FlagAndExpiry(g, n)
    ensures f == g && m == n
  {
    var x, y := FlagAndExpiry(f, m), FlagAndExpiry(g, n);
    assert x[0] == y[0] && x[1] == y[1] && |x| == |y|;
  }

  ghost function Reparsed(bs: seq<nat>): Payload {
    if exists c: Claims :: IsWhole(c.exp) && Printed(c) == bs then
      var c: Claims :| IsWhole(c.exp) && Printed(c) == bs;
      AsPayload(c)
    else Malformed
  }

  /** The assumptions on the platform can be met, with every whole second as an expiry. */
  lemma {:induction false} PlatformExists() returns (p: Platform)
    ensures Works(p) && forall x: real :: IsWhole(x) ==> p.isNumber(x)
  {
    p := Platform(IsWhole, Printed, bs => Reparsed(bs), (text, secret) => Unary(32));
    hide Printed;
    assert Pow2(8) == 256;
    forall c: Claims | IsWhole(c.exp)
      ensures Fits(Printed(c), 8) && Reparsed(Printed(c)) == AsPayload(c)
    {
      PrintedFits(c);
      var d: Claims :| IsWhole(d.exp) && Printed(d) == Printed(c) && Reparsed(Printed(c)) == AsPayload(d);
      PrintedInjective(c, d);
    }
  }
}
