/** Bit strings, most significant bit first, and their regrouping into digits of a fixed width. */
module Bits {

  type Bit = b: int | 0 <= b < 2

  function Pow2(n: nat): (p: int)
    ensures p >= 1
  {
    if n == 0 then 1 else 2 * Pow2(n - 1)
  }

  /** The `n` low bits of `v`. */
  function Of(v: nat, n: nat): (s: seq<Bit>)
    ensures |s| == n
  {
    if n == 0 then [] else Of(v / 2, n - 1) + [v % 2]
  }

  function Num(s: seq<Bit>): (v: int)
    ensures 0 <= v < Pow2(|s|)
  {
    if s == [] then 0 else 2 * Num(s[..|s| - 1]) + s[|s| - 1]
  }

  function Zeros(n: nat): (s: seq<Bit>)
    ensures |s| == n
  {
    seq(n, i => 0)
  }

  // --- Shifts and masks -----------------------------------------------------

  lemma {:induction false} Halve(v: int, p: int, b: int)
    requires p > 0 && b >= 0
    ensures (v * (2 * p) + b) / 2 == v * p + b / 2
    ensures (v * (2 * p) + b) % 2 == b % 2
  {
    assert v * (2 * p) == 2 * (v * p);
  }

  /** Shifting left by `k` and adding `k` new bits appends them. */
  lemma {:induction false} Append(v: nat, b: nat, n: nat, k: nat)
    requires b < Pow2(k)
    ensures v * Pow2(k) + b >= 0
    ensures Of(v * Pow2(k) + b, n + k) == Of(v, n) + Of(b, k)
  {
    NonNegative(v, Pow2(k));
    if k > 0 {
      Halve(v, Pow2(k - 1), b);
      Append(v, b / 2, n, k - 1);
      assert Of(v, n) + Of(b, k) == (Of(v, n) + Of(b / 2, k - 1)) + [b % 2];
    }
  }

  lemma NonNegative(a: int, b: int)
    requires a >= 0 && b >= 0
    ensures a * b >= 0
  {
  }

  lemma {:induction false} HalveMod(v: nat, p: int)
    requires p > 0
    ensures (v % (2 * p)) / 2 == (v / 2) % p
    ensures (v % (2 * p)) % 2 == v % 2
  {
    var q, r := v / (2 * p), v % (2 * p);
    assert v == q * (2 * p) + r;
    Halve(q, p, r);
    assert v / 2 == q * p + r / 2;
    Remainder(q, p, r / 2);
  }

  lemma {:induction false} Remainder(q: int, p: int, r: int)
    requires 0 <= r < p
    ensures (q * p + r) % p == r && (q * p + r) / p == q
  {
    var x := q * p + r;
    var d, m := x / p, x % p;
    assert x == d * p + m;
    assert (d - q) * p == r - m;
    if d > q {
      Grows(d - q, p);
    } else if d < q {
      Grows(q - d, p);
    }
  }

  lemma Grows(k: int, p: int)
    requires k >= 1 && p > 0
    ensures k * p >= p
  {
  }

  /** Dropping high bits by a remainder leaves the low bits alone. */
  lemma {:induction false} OfMod(v: nat, m: nat, n: nat)
    requires n <= m
    ensures Of(v % Pow2(m), n) == Of(v, n)
  {
    if n > 0 {
      HalveMod(v, Pow2(m - 1));
      OfMod(v / 2, m - 1, n - 1);
    }
  }

  lemma {:induction false} OfSmall(v: nat, n: nat)
    requires v < Pow2(n)
    ensures Num(Of(v, n)) == v
  {
    if n > 0 {
      OfSmall(v / 2, n - 1);
      assert Of(v, n)[..n - 1] == Of(v / 2, n - 1);
    }
  }

  lemma {:induction false} OfNum(s: seq<Bit>)
    ensures Of(Num(s), |s|) == s
  {
    if s != [] {
      OfNum(s[..|s| - 1]);
    }
  }

  /** The high `j` of `j + k` bits are what a right shift by `k` leaves. */
  lemma {:induction false} Shift(v: nat, j: nat, k: nat)
    ensures v / Pow2(k) >= 0
    ensures Of(v, j + k) == Of(v / Pow2(k), j) + Of(v, k)
  {
    var p := Pow2(k);
    var q, r := v / p, v % p;
    assert v == q * p + r;
    QuotientNonNegative(v, p);
    Append(q, r, j, k);
    OfMod(v, k, k);
  }

  lemma QuotientNonNegative(v: nat, p: int)
    requires p > 0
    ensures v / p >= 0
  {
  }

  // --- Regrouping -----------------------------------------------------------

  /** All digits' bits, `w` bits each. */
  function Spread(ds: seq<nat>, w: nat): (s: seq<Bit>)
  {
    if ds == [] then [] else Of(ds[0], w) + Spread(ds[1..], w)
  }

  /** The groups of `w` bits; what is left over is filled up with zero bits on the right. */
  function Padded(s: seq<Bit>, w: nat): (ds: seq<nat>)
    requires w > 0
    decreases |s|
  {
    if s == [] then []
    else if |s| < w then [Num(s + Zeros(w - |s|))]
    else [Num(s[..w])] + Padded(s[w..], w)
  }

  /** The groups of `w` bits; what is left over is dropped. */
  function Whole(s: seq<Bit>, w: nat): (ds: seq<nat>)
    requires w > 0
    decreases |s|
  {
    if |s| < w then [] else [Num(s[..w])] + Whole(s[w..], w)
  }

  predicate Fits(ds: seq<nat>, w: nat) {
    forall i :: 0 <= i < |ds| ==> ds[i] < Pow2(w)
  }

  lemma {:induction false} SpreadLength(ds: seq<nat>, w: nat)
    ensures |Spread(ds, w)| == |ds| * w
  {
    if ds != [] {
      SpreadLength(ds[1..], w);
      Times(|ds|, w);
    }
  }

  lemma Times(k: int, w: int)
    ensures k * w == w + (k - 1) * w
  {
  }

  lemma {:induction false} SpreadAppends(a: seq<nat>, b: seq<nat>, w: nat)
    ensures Spread(a + b, w) == Spread(a, w) + Spread(b, w)
  {
    if a == [] {
      assert a + b == b;
    } else {
      SpreadAppends(a[1..], b, w);
      assert (a + b)[1..] == a[1..] + b && (a + b)[0] == a[0];
      var x, y, z := Of(a[0], w), Spread(a[1..], w), Spread(b, w);
      assert x + (y + z) == (x + y) + z;
    }
  }

  /** How many zeros fill up the last group of `n` bits. */
  function Pad(n: nat, w: nat): (k: nat)
    requires w > 0
    ensures k < w
  {
    if n == 0 then 0 else if n < w then w - n else Pad(n - w, w)
  }

  lemma {:induction false} SpreadPadded(s: seq<Bit>, w: nat)
    requires w > 0
    ensures Fits(Padded(s, w), w)
    ensures Spread(Padded(s, w), w) == s + Zeros(Pad(|s|, w))
    ensures |Padded(s, w)| * w == |s| + Pad(|s|, w)
    decreases |s|
  {
    hide Num;
    var pad := Pad(|s|, w);
    if s == [] {
    } else if |s| < w {
      OfNum(s + Zeros(pad));
      assert Padded(s, w)[1..] == [];
    } else {
      SpreadPadded(s[w..], w);
      OfNum(s[..w]);
      var rest := Padded(s[w..], w);
      assert Padded(s, w)[1..] == rest;
      Times(|rest| + 1, w);
      assert s[..w] + (s[w..] + Zeros(pad)) == s + Zeros(pad);
    }
  }

  lemma {:induction false} WholeSpread(ds: seq<nat>, w: nat, rest: seq<Bit>)
    requires w > 0 && |rest| < w && Fits(ds, w)
    ensures Whole(Spread(ds, w) + rest, w) == ds
  {
    hide Num;
    var s := Spread(ds, w) + rest;
    if ds == [] {
      assert s == rest;
    } else {
      var tail := Spread(ds[1..], w) + rest;
      OfSmall(ds[0], w);
      assert s[..w] == Of(ds[0], w) && s[w..] == tail;
      WholeSpread(ds[1..], w, rest);
    }
  }

  lemma {:induction false} PaddedSpread(ds: seq<nat>, w: nat, rest: seq<Bit>)
    requires w > 0 && |rest| < w && Fits(ds, w)
    ensures Padded(Spread(ds, w) + rest, w)
         == ds + (if rest == [] then [] else [Num(rest + Zeros(w - |rest|))])
  {
    hide Num;
    var s := Spread(ds, w) + rest;
    if ds == [] {
      assert s == rest;
    } else {
      var tail := Spread(ds[1..], w) + rest;
      OfSmall(ds[0], w);
      assert s[..w] == Of(ds[0], w) && s[w..] == tail;
      PaddedSpread(ds[1..], w, rest);
    }
  }

  lemma {:induction false} ZeroBits(n: nat)
    ensures Of(0, n) == Zeros(n)
  {
    if n > 0 {
      ZeroBits(n - 1);
    }
  }

  lemma {:induction false} SpreadWhole(s: seq<Bit>, w: nat, k: nat)
    requires w > 0 && |s| == k * w
    ensures |Whole(s, w)| == k && Fits(Whole(s, w), w) && Spread(Whole(s, w), w) == s
    decreases k
  {
    hide Num;
    if k > 0 {
      Times(k, w);
      NonNegative(k - 1, w);
      SpreadWhole(s[w..], w, k - 1);
      OfNum(s[..w]);
      assert Whole(s, w)[1..] == Whole(s[w..], w);
    }
  }
}
