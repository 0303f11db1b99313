/** UTF-8 as section 3 of RFC 3629 defines it, and the decoder behind Buffer.toString("utf8"),
  which replaces each maximal ill-formed prefix by U+FFFD. */
module Utf8 {

  type Byte = b: int | 0 <= b < 256

  /** A Unicode scalar value. */
  type Scalar = c: int | 0 <= c < 0x110000 && !(0xD800 <= c < 0xE000)

  const REPLACEMENT: Scalar := 0xFFFD

  function Encode(c: Scalar): (bs: seq<Byte>)
    ensures 1 <= |bs| <= 4
    ensures c < 0x80 <==> |bs| == 1
  {
    if c < 0x80 then [c]
    else if c < 0x800 then [0xC0 + c / 64, 0x80 + c % 64]
    else if c < 0x10000 then [0xE0 + c / 4096, 0x80 + c / 64 % 64, 0x80 + c % 64]
    else [0xF0 + c / 262144, 0x80 + c / 4096 % 64, 0x80 + c / 64 % 64, 0x80 + c % 64]
  }

  function EncodeAll(cs: seq<Scalar>): (bs: seq<Byte>)
    ensures |bs| >= |cs|
  {
    if cs == [] then [] else Encode(cs[0]) + EncodeAll(cs[1..])
  }

  // --- The decoder ----------------------------------------------------------

  /** How many continuation bytes a lead byte announces; None for a byte that cannot lead. */
  function Needed(b: Byte): (n: int)
    ensures -1 <= n <= 3
  {
    if b < 0x80 then 0
    else if 0xC2 <= b <= 0xDF then 1
    else if 0xE0 <= b <= 0xEF then 2
    else if 0xF0 <= b <= 0xF4 then 3
    else -1
  }

  /** The first continuation byte excludes overlong forms, surrogates and values past U+10FFFF. */
  predicate FirstOk(lead: Byte, b: Byte) {
    && (if lead == 0xE0 then 0xA0 else if lead == 0xF0 then 0x90 else 0x80) <= b
    && b <= (if lead == 0xED then 0x9F else if lead == 0xF4 then 0x8F else 0xBF)
  }

  predicate Continues(b: Byte) { 0x80 <= b <= 0xBF }

  /** How many of the needed continuation bytes follow the lead byte. */
  function Present(bs: seq<Byte>): (n: nat)
    requires bs != []
    ensures n < |bs| && n <= 3
  {
    var need := Needed(bs[0]);
    if need < 1 || |bs| < 2 || !FirstOk(bs[0], bs[1]) then 0
    else if need < 2 || |bs| < 3 || !Continues(bs[2]) then 1
    else if need < 3 || |bs| < 4 || !Continues(bs[3]) then 2
    else 3
  }

  function Value(bs: seq<Byte>): (c: int)
    requires bs != [] && Present(bs) == Needed(bs[0])
    ensures 0 <= c < 0x110000 && !(0xD800 <= c < 0xE000)
  {
    var b: seq<int> := bs;
    var need := Needed(bs[0]);
    if need == 0 then b[0]
    else if need == 1 then (b[0] - 0xC0) * 64 + (b[1] - 0x80)
    else if need == 2 then ((b[0] - 0xE0) * 64 + (b[1] - 0x80)) * 64 + (b[2] - 0x80)
    else (((b[0] - 0xF0) * 64 + (b[1] - 0x80)) * 64 + (b[2] - 0x80)) * 64 + (b[3] - 0x80)
  }

  datatype Step = Step(c: Scalar, length: nat)

  function DecodeStep(bs: seq<Byte>): (s: Step)
    requires bs != []
    ensures 1 <= s.length <= |bs|
  {
    if Present(bs) == Needed(bs[0]) then Step(Value(bs), Needed(bs[0]) + 1)
    else Step(REPLACEMENT, Present(bs) + 1)
  }

  function Decode(bs: seq<Byte>): seq<Scalar>
    decreases |bs|
  {
    if bs == [] then [] else [DecodeStep(bs).c] + Decode(bs[DecodeStep(bs).length..])
  }

  // --- Decoding what was encoded --------------------------------------------

  lemma {:induction false} StepEncoded(c: Scalar, rest: seq<Byte>)
    ensures DecodeStep(Encode(c) + rest) == Step(c, |Encode(c)|)
  {
    assert c / 4096 == c / 64 / 64 && c / 262144 == c / 4096 / 64;
  }

  /** A character cut short decodes to a single replacement character. */
  lemma {:induction false} StepTruncated(c: Scalar, k: nat)
    requires 0 < k < |Encode(c)|
    ensures Decode(Encode(c)[..k]) == [REPLACEMENT]
  {
    var bs := Encode(c)[..k];
    assert c / 4096 == c / 64 / 64 && c / 262144 == c / 4096 / 64;
    assert DecodeStep(bs) == Step(REPLACEMENT, k);
    assert bs[k..] == [];
  }

  lemma {:induction false} DecodeHead(c: Scalar, rest: seq<Byte>)
    ensures Decode(Encode(c) + rest) == [c] + Decode(rest)
  {
    hide DecodeStep, Encode;
    StepEncoded(c, rest);
    assert (Encode(c) + rest)[|Encode(c)|..] == rest;
  }

  lemma {:induction false} DecodeEncoded(cs: seq<Scalar>, rest: seq<Byte>)
    ensures Decode(EncodeAll(cs) + rest) == cs + Decode(rest)
  {
    hide Decode, Encode;
    if cs == [] {
      assert EncodeAll(cs) + rest == rest && cs + Decode(rest) == Decode(rest);
    } else {
      DecodeEncoded(cs[1..], rest);
      var tail := EncodeAll(cs[1..]) + rest;
      DecodeHead(cs[0], tail);
      assert EncodeAll(cs) + rest == Encode(cs[0]) + tail;
      assert [cs[0]] + (cs[1..] + Decode(rest)) == cs + Decode(rest);
    }
  }

  lemma {:induction false} NothingEncoded()
    ensures EncodeAll([]) == []
  {
  }

  lemma {:induction false} EncodeAllAppends(a: seq<Scalar>, b: seq<Scalar>)
    ensures EncodeAll(a + b) == EncodeAll(a) + EncodeAll(b)
  {
    hide Encode, EncodeAll;
    if a == [] {
      assert a + b == b && EncodeAll(a) == [] by {
        NothingEncoded();
      }
    } else {
      EncodeHead(a);
      EncodeHead(a + b);
      EncodeAllAppends(a[1..], b);
      assert (a + b)[1..] == a[1..] + b && (a + b)[0] == a[0];
      var e, ea, eb := Encode(a[0]), EncodeAll(a[1..]), EncodeAll(b);
      assert e + (ea + eb) == (e + ea) + eb;
    }
  }

  /** Any prefix of an encoded text is the encoding of a prefix, then part of one character. */
  lemma {:induction false} Cut(cs: seq<Scalar>, n: nat) returns (j: nat, part: seq<Byte>)
    requires n <= |EncodeAll(cs)|
    ensures j <= |cs|
    ensures EncodeAll(cs)[..n] == EncodeAll(cs[..j]) + part
    ensures Decode(part) == [] || Decode(part) == [REPLACEMENT]
    ensures forall m :: j < m <= |cs| ==> |EncodeAll(cs[..m])| > n
  {
    hide Encode;
    forall m | 1 <= m <= |cs|
      ensures EncodeAll(cs[..m]) == Encode(cs[0]) + EncodeAll(cs[1..][..m - 1])
    {
      assert cs[..m][1..] == cs[1..][..m - 1];
    }
    if cs == [] {
      j, part := 0, [];
    } else {
      var e := Encode(cs[0]);
      if n < |e| {
        j, part := 0, e[..n];
        assert EncodeAll(cs)[..n] == part;
        if n > 0 {
          StepTruncated(cs[0], n);
        }
      } else {
        j, part := Cut(cs[1..], n - |e|);
        j := j + 1;
        assert EncodeAll(cs)[..n] == e + EncodeAll(cs[1..])[..n - |e|];
      }
    }
  }

  /** A text of scalar values survives encoding and decoding. */
  lemma {:induction false} RoundTrip(cs: seq<Scalar>)
    ensures Decode(EncodeAll(cs)) == cs
  {
    DecodeEncoded(cs, []);
    assert EncodeAll(cs) + [] == EncodeAll(cs) && cs + [] == cs;
  }

  lemma EncodeNothing()
    ensures EncodeAll([]) == []
  {
  }

  lemma EncodeHead(cs: seq<Scalar>)
    ensures cs == [] || EncodeAll(cs) == Encode(cs[0]) + EncodeAll(cs[1..])
  {
  }

  /** A byte below 0x80 is always a whole character. */
  lemma {:induction false} AsciiByte(cs: seq<Scalar>, k: nat) returns (m: nat)
    requires k < |EncodeAll(cs)| && EncodeAll(cs)[k] < 0x80
    ensures 1 <= m <= |cs| && cs[m - 1] == EncodeAll(cs)[k]
    ensures |EncodeAll(cs[..m])| == k + 1
  {
    hide EncodeAll;
    EncodeNothing();
    EncodeHead(cs);
    var e := Encode(cs[0]);
    hide Encode;
    if k < |e| {
      m := 1;
      EncodeHead(cs[..1]);
      assert cs[..1][1..] == [];
    } else {
      m := AsciiByte(cs[1..], k - |e|);
      assert cs[..m + 1][1..] == cs[1..][..m];
      EncodeHead(cs[..m + 1]);
      m := m + 1;
    }
  }

  function Copies(r: nat): (t: seq<Scalar>)
    ensures |t| == r && forall i :: 0 <= i < r ==> t[i] == REPLACEMENT
  {
    seq(r, i => REPLACEMENT)
  }

  lemma {:induction false} DecodeLone(b: Byte, rest: seq<Byte>)
    requires Continues(b)
    ensures Decode([b] + rest) == [REPLACEMENT] + Decode(rest)
  {
    var all := [b] + rest;
    assert DecodeStep(all) == Step(REPLACEMENT, 1);
    hide DecodeStep;
    assert all[1..] == rest;
  }

  /** Every continuation byte without its lead byte decodes to a replacement character of its own. */
  lemma {:induction false} DecodeContinuations(bs: seq<Byte>, rest: seq<Byte>)
    requires forall i :: 0 <= i < |bs| ==> Continues(bs[i])
    ensures Decode(bs + rest) == Copies(|bs|) + Decode(rest)
  {
    hide Decode, Continues;
    if bs == [] {
      assert bs + rest == rest && Copies(0) + Decode(rest) == Decode(rest);
    } else {
      DecodeContinuations(bs[1..], rest);
      DecodeLone(bs[0], bs[1..] + rest);
      assert bs + rest == [bs[0]] + (bs[1..] + rest);
      assert [REPLACEMENT] + (Copies(|bs| - 1) + Decode(rest)) == Copies(|bs|) + Decode(rest);
    }
  }

  lemma {:induction false} EncodedContinues(c: Scalar)
    ensures forall k :: 1 <= k < |Encode(c)| ==> Continues(Encode(c)[k])
  {
  }

  /** Offset `n` lies `k` bytes into character `q`, or at its start. */
  ghost predicate LiesAt(cs: seq<Scalar>, n: nat, q: nat, k: nat) {
    && q <= |cs| && n == |EncodeAll(cs[..q])| + k
    && (k == 0 || (q < |cs| && k < |Encode(cs[q])|))
  }

  lemma {:induction false} Locate(cs: seq<Scalar>, n: nat) returns (q: nat, k: nat)
    requires n <= |EncodeAll(cs)|
    ensures LiesAt(cs, n, q, k)
  {
    hide Encode;
    if cs == [] || n < |Encode(cs[0])| {
      q, k := 0, n;
    } else {
      q, k := Locate(cs[1..], n - |Encode(cs[0])|);
      assert cs[..q + 1][1..] == cs[1..][..q];
      q := q + 1;
    }
  }

  /** Decoding from any offset: the rest of a character cut short, then the characters after it. */
  lemma {:induction false} DecodeFrom(cs: seq<Scalar>, n: nat, q: nat, k: nat)
    requires LiesAt(cs, n, q, k) && n <= |EncodeAll(cs)|
    ensures Decode(EncodeAll(cs)[n..])
         == if k == 0 then cs[q..] else Copies(|Encode(cs[q])| - k) + cs[q + 1..]
  {
    hide Decode, Encode, Continues, EncodeAll;
    assert cs == cs[..q] + cs[q..];
    EncodeAllAppends(cs[..q], cs[q..]);
    assert EncodeAll(cs)[n..] == EncodeAll(cs[q..])[k..];
    if k == 0 {
      RoundTrip(cs[q..]);
    } else {
      DecodeCut(cs[q], k, cs[q..][1..]);
      EncodeHead(cs[q..]);
      assert cs[q..][1..] == cs[q + 1..];
    }
  }

  lemma {:induction false} DecodeCut(c: Scalar, k: nat, rest: seq<Scalar>)
    requires 0 < k < |Encode(c)|
    ensures Decode((Encode(c) + EncodeAll(rest))[k..]) == Copies(|Encode(c)| - k) + rest
  {
    hide Decode, Encode, Continues, EncodeAll;
    var e := Encode(c);
    assert (e + EncodeAll(rest))[k..] == e[k..] + EncodeAll(rest);
    EncodedContinues(c);
    DecodeContinuations(e[k..], EncodeAll(rest));
    RoundTrip(rest);
  }
}
