// The fixed-point arithmetic of the bilinear resizer (hardware/libcamera/Resize.cpp):
// 16.16 stepping in 32-bit unsigned arithmetic and 7-bit interpolation weights.
module ResizeArithmetic {
  import opened FixedWidth

  function Add32(a: u32, b: nat): u32 { (a + b) % U32 }

  // ((c - 2) << 16) / (o - 1) in 32-bit unsigned arithmetic: the shift drops high bits.
  function Step(c: nat, o: nat): nat
    requires 2 <= c && 2 <= o
  {
    ((c - 2) * 65536 % U32) / (o - 1)
  }

  // The coefficient at output index k, and its two readings.
  function Coef(c: nat, o: nat, k: nat): nat
    requires 2 <= c && 2 <= o
  {
    k * Step(c, o)
  }

  function Offset(coef: nat): nat { coef / 65536 }

  function Weight(coef: nat): (w: nat)
    ensures w < 128
  {
    (coef / 512) % 128
  }

  lemma DivMul(x: nat, d: nat)
    requires d > 0
    ensures (x / d) * d <= x < (x / d) * d + d
  {
  }

  lemma StepSum(x: nat, n: nat, k: nat)
    requires 0 < n && k <= n
    ensures 0 <= k * (x / n) <= x
  {
    DivMul(x, n);
    MulMono(k, n, x / n);
  }

  lemma StepNext(k: nat, s: nat)
    ensures (k + 1) * s == k * s + s
  {
  }

  // For every index the loop uses, the coefficient has not wrapped, and the 2-sample window
  // it selects lies inside the crop, overflow or not.
  lemma CoefInside(c: nat, o: nat, k: nat)
    requires 2 <= c && 2 <= o && k < o
    ensures 0 <= Coef(c, o, k) < U32
    ensures Offset(Coef(c, o, k)) + 1 < c
  {
    var x := (c - 2) * 65536 % U32;
    StepSum(x, o - 1, k);
    assert Coef(c, o, k) <= x <= (c - 2) * 65536;
    hide Coef;
  }

  // Short of the last index the window also stays clear of the last sample of the crop.
  lemma CoefShortOfEnd(c: nat, o: nat, k: nat)
    requires 2 <= c && 2 <= o && k + 1 < o
    ensures c == 2 || Offset(Coef(c, o, k)) + 2 < c
  {
    var x, s := (c - 2) * 65536 % U32, Step(c, o);
    StepSum(x, o - 1, k + 1);
    StepNext(k, s);
    assert Coef(c, o, k) + s <= x <= (c - 2) * 65536;
    assert s == 0 ==> Coef(c, o, k) == 0;
    hide Coef, Step;
  }

  lemma MulMono(a: int, b: int, m: nat)
    requires a <= b
    ensures a * m <= b * m
  {
  }

  // The shift keeps all its bits.
  predicate NoOverflow(c: nat) { c - 2 < 65536 }

  // The last output index reads up to the very last sample of the crop.
  predicate ReachesEnd(c: nat, o: nat)
    requires 2 <= c && 2 <= o
  {
    NoOverflow(c) && (c - 2) * 65536 % (o - 1) == 0
  }

  lemma CoefEnd(c: nat, o: nat)
    requires 2 <= c && 2 <= o
    ensures Offset(Coef(c, o, o - 1)) == c - 2 <==> ReachesEnd(c, o)
  {
    var full, x := (c - 2) * 65536, (c - 2) * 65536 % U32;
    var q := x / (o - 1);
    assert x == full <==> NoOverflow(c);
    assert x <= full && (x < full ==> x <= full - U32);
    assert q * (o - 1) + x % (o - 1) == x;
    assert Coef(c, o, o - 1) == q * (o - 1) by { assert (o - 1) * q == q * (o - 1); }
    EndOffset(c, Coef(c, o, o - 1), x, x % (o - 1));
  }

  lemma EndOffset(c: nat, coef: nat, x: nat, rest: nat)
    requires 2 <= c && coef + rest == x && (x == (c - 2) * 65536 || x <= (c - 2) * 65536 - U32)
    ensures Offset(coef) == c - 2 <==> x == (c - 2) * 65536 && rest == 0
  {
  }

  // The fixed-point position never passes the exact position k * (c - 2) / (o - 1) and lags
  // it by less than k / 65536 of a sample (both sides scaled by 65536 * (o - 1)).
  ghost predicate Tracks(c: nat, o: nat, k: nat)
    requires 2 <= c && 2 <= o
  {
    var exact := k * (c - 2) * 65536;
    var fixed := Coef(c, o, k) * (o - 1);
    fixed <= exact && (if k == 0 then fixed == exact else exact - fixed < k * (o - 1))
  }

  lemma TracksWithoutOverflow(c: nat, o: nat, k: nat)
    requires 2 <= c && 2 <= o && NoOverflow(c)
    ensures Tracks(c, o, k)
  {
    var x := (c - 2) * 65536;
    var s := Step(c, o);
    assert x % U32 == x;
    DivMul(x, o - 1);
    assert Coef(c, o, k) * (o - 1) == k * (s * (o - 1)) by { MulAssoc(k, s, o - 1); }
    assert k * (c - 2) * 65536 == k * x by { MulAssoc(k, c - 2, 65536); }
    MulMono(s * (o - 1), x, k);
    if k > 0 {
      MulStrict(k, x - s * (o - 1), o - 1);
      MulSub(k, x, s * (o - 1));
    }
  }

  lemma MulAssoc(a: int, b: int, c: int)
    ensures (a * b) * c == a * (b * c)
  {
  }

  lemma MulSub(k: int, a: int, b: int)
    ensures k * (a - b) == k * a - k * b
  {
  }

  lemma MulStrict(k: nat, a: int, b: int)
    requires k > 0 && a < b
    ensures k * a < k * b
  {
  }

  // The tracking bound holds at every output index exactly when the shift does not overflow.
  // (o < U32 is the width of the output-size field.)
  lemma TracksIffNoOverflow(c: nat, o: nat)
    requires 2 <= c && 2 <= o < U32
    ensures (forall k :: 0 <= k < o ==> Tracks(c, o, k)) <==> NoOverflow(c)
  {
    if NoOverflow(c) {
      forall k | 0 <= k < o ensures Tracks(c, o, k) { TracksWithoutOverflow(c, o, k); }
    } else {
      var k, x, s := o - 1, (c - 2) * 65536, Step(c, o);
      DivMul(x % U32, o - 1);
      assert x % U32 <= x - U32;
      assert Coef(c, o, k) * (o - 1) == k * (s * (o - 1)) by { MulAssoc(k, s, o - 1); }
      assert k * (c - 2) * 65536 == k * x by { MulAssoc(k, c - 2, 65536); }
      MulStrict(k, o - 1, x - s * (o - 1));
      MulSub(k, x, s * (o - 1));
      assert !Tracks(c, o, k);
    }
  }

  // ----- Interpolation -----

  function Mix(a: int, b: int, w: nat): int { a * (128 - w) + b * w }

  lemma MixBetween(a: int, b: int, w: nat, lo: int, hi: int)
    requires w <= 128 && lo <= a <= hi && lo <= b <= hi
    ensures lo * 128 <= Mix(a, b, w) <= hi * 128
  {
    MulMono(lo, a, 128 - w);
    MulMono(a, hi, 128 - w);
    MulMono(lo, b, w);
    MulMono(b, hi, w);
    assert lo * 128 == lo * (128 - w) + lo * w;
    assert hi * 128 == hi * (128 - w) + hi * w;
  }

  // The interpolated value before truncation to 8 bits.
  function Blend(p1: int, p2: int, p3: int, p4: int, hc2: nat, wc2: nat): int {
    Mix(Mix(p1, p2, hc2), Mix(p3, p4, hc2), wc2) / 16384
  }

  // A convex combination: the result lies between the smallest and the largest sample.
  lemma BlendBetween(p1: int, p2: int, p3: int, p4: int, hc2: nat, wc2: nat, lo: int, hi: int)
    requires hc2 <= 128 && wc2 <= 128
    requires lo <= p1 <= hi && lo <= p2 <= hi && lo <= p3 <= hi && lo <= p4 <= hi
    ensures lo <= Blend(p1, p2, p3, p4, hc2, wc2) <= hi
  {
    MixBetween(p1, p2, hc2, lo, hi);
    MixBetween(p3, p4, hc2, lo, hi);
    MixBetween(Mix(p1, p2, hc2), Mix(p3, p4, hc2), wc2, lo * 128, hi * 128);
  }

  // The bilinear formula: of the four samples p1 and p2 are apart vertically, p1 and p3
  // horizontally; h is the vertical weight and w the horizontal one, in 128ths.
  function Bilinear(p1: int, p2: int, p3: int, p4: int, h: int, w: int): int {
    p1 * (128 - h) * (128 - w) + p2 * h * (128 - w) + p3 * (128 - h) * w + p4 * h * w
  }

  lemma BlendIsBilinear(p1: int, p2: int, p3: int, p4: int, h: nat, w: nat)
    ensures 16384 * Blend(p1, p2, p3, p4, h, w) <= Bilinear(p1, p2, p3, p4, h, w)
            < 16384 * (Blend(p1, p2, p3, p4, h, w) + 1)
  {
    var a, b := p1 * (128 - h) + p2 * h, p3 * (128 - h) + p4 * h;
    assert a * (128 - w) == p1 * (128 - h) * (128 - w) + p2 * h * (128 - w) by {
      Distribute(p1 * (128 - h), p2 * h, 128 - w);
    }
    assert b * w == p3 * (128 - h) * w + p4 * h * w by { Distribute(p3 * (128 - h), p4 * h, w); }
  }

  lemma Distribute(a: int, b: int, c: int)
    ensures (a + b) * c == a * c + b * c
  {
  }

  // Where the rows are equal only the horizontal weight counts, where the columns are equal
  // only the vertical one.
  lemma BlendOneWay(p: int, q: int, h: nat, w: nat)
    ensures Blend(p, p, q, q, h, w) == (p * (128 - w) + q * w) / 128
    ensures Blend(p, q, p, q, h, w) == (p * (128 - h) + q * h) / 128
  {
    MixSame(p, h);
    MixSame(q, h);
    MixScaled(p, q, w);
    MixSame(Mix(p, q, h), w);
  }

  lemma MixSame(a: int, w: nat)
    ensures Mix(a, a, w) == 128 * a
  {
    assert a * (128 - w) + a * w == a * 128;
  }

  lemma MixScaled(a: int, b: int, w: nat)
    ensures Mix(128 * a, 128 * b, w) == 128 * Mix(a, b, w)
  {
    assert (128 * a) * (128 - w) == 128 * (a * (128 - w)) && (128 * b) * w == 128 * (b * w);
  }

  // x is the bilinear mean of the four values; where rows or columns are equal, one weight counts.
  predicate MeanOf(x: int, a: int, b: int, c: int, d: int, h: nat, w: nat) {
    && 16384 * x <= Bilinear(a, b, c, d, h, w) < 16384 * (x + 1)
    && (a == b && c == d ==> x == (a * (128 - w) + c * w) / 128)
    && (a == c && b == d ==> x == (a * (128 - h) + b * h) / 128)
  }

  lemma BlendMean(a: int, b: int, c: int, d: int, h: nat, w: nat)
    ensures MeanOf(Blend(a, b, c, d, h, w), a, b, c, d, h, w)
  {
    hide Blend, Bilinear;
    BlendIsBilinear(a, b, c, d, h, w);
    BlendOneWay(a, c, h, w);
    BlendOneWay(a, b, h, w);
  }

  // Offset and weight are the coefficient to the nearest 128th below.
  lemma OffsetAndWeight(coef: nat)
    ensures 512 * (128 * Offset(coef) + Weight(coef)) <= coef < 512 * (128 * Offset(coef) + Weight(coef)) + 512
  {
    var q := coef / 512;
    assert 512 * q <= coef < 512 * q + 512;
    assert q / 128 == coef / 65536;
    assert q == 128 * (q / 128) + q % 128;
  }

  // The sample stored by the resizer; 8-bit truncation never bites.
  function Sample(p1: byte, p2: byte, p3: byte, p4: byte, hc2: nat, wc2: nat): byte
    requires hc2 <= 128 && wc2 <= 128
  {
    BlendBetween(p1, p2, p3, p4, hc2, wc2, 0, 255);
    Blend(p1, p2, p3, p4, hc2, wc2)
  }

  // When o - 1 divides c - 2 (and the shift fits), every position is a whole sample.
  lemma WholeSteps(c: nat, o: nat, k: nat)
    requires 2 <= c && 2 <= o && NoOverflow(c) && (c - 2) % (o - 1) == 0
    ensures Weight(Coef(c, o, k)) == 0
    ensures Offset(Coef(c, o, k)) == k * ((c - 2) / (o - 1))
  {
    var q := (c - 2) / (o - 1);
    assert c - 2 == q * (o - 1);
    assert (c - 2) * 65536 == (q * 65536) * (o - 1);
    DivExact(q * 65536, o - 1);
    assert Step(c, o) == q * 65536;
    assert Coef(c, o, k) == (k * q) * 65536 by { MulAssoc(k, q, 65536); }
    var m := k * q;
    assert (m * 65536) / 512 == m * 128;
  }

  lemma DivExact(a: nat, d: nat)
    requires d > 0
    ensures (a * d) / d == a
  {
    DivMul(a * d, d);
    var q := (a * d) / d;
    if q < a { MulMono(q + 1, a, d); }
  }
}
