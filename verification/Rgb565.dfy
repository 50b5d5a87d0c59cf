// RGB565Resize (hardware/libcamera/Resize.cpp): the same interpolation on packed pixels.
module Rgb565 {
  import opened FixedWidth
  import opened ResizeArithmetic
  import opened Resize

  type pixel = x: int | 0 <= x < 65536

  function Red(p: pixel): int { (p / 2048) % 32 }
  function Green(p: pixel): int { (p / 32) % 64 }
  function Blue(p: pixel): int { p % 32 }

  // (r << 11) + (g << 5) + b before it is stored in 16 bits.
  function Pack(r: int, g: int, b: int): int { r * 2048 + g * 32 + b }

  // Packing carries between channels for no in-range triple, and is undone by unpacking.
  lemma PackExact(r: int, g: int, b: int)
    requires 0 <= r < 32 && 0 <= g < 64 && 0 <= b < 32
    ensures 0 <= Pack(r, g, b) < 65536
    ensures Red(Pack(r, g, b)) == r && Green(Pack(r, g, b)) == g && Blue(Pack(r, g, b)) == b
  {
    hide Red, Green, Blue;
    PackRed(r, g * 32 + b);
    PackGreen(r, g, b);
    PackBlue(r * 64 + g, b);
  }

  lemma PackRed(r: int, low: int)
    requires 0 <= r < 32 && 0 <= low < 2048
    ensures Red(r * 2048 + low) == r
  {
    assert (r * 2048 + low) / 2048 == r;
  }

  lemma PackGreen(r: int, g: int, b: int)
    requires 0 <= r < 32 && 0 <= g < 64 && 0 <= b < 32
    ensures Green(r * 2048 + g * 32 + b) == g
  {
    assert (r * 2048 + g * 32 + b) / 32 == r * 64 + g;
    assert (r * 64 + g) % 64 == g;
  }

  lemma PackBlue(high: int, b: int)
    requires 0 <= high < 2048 && 0 <= b < 32
    ensures Blue(high * 32 + b) == b
  {
    assert (high * 32 + b) % 32 == b;
  }

  // The input as one plane of packed pixels without row padding.
  function Packed(job: Job): Plane { Plane(0, job.inW, 1) }

  function PixelAt(src: seq<pixel>, job: Job, r: nat, c: nat): pixel
    requires r < job.inH && c < job.inW && Packed(job).Fits(job.inH, job.inW, |src|)
  {
    Packed(job).Inside(job.inH, job.inW, |src|, r, c);
    src[Packed(job).At(r, c)]
  }

  // The four pixels read for output position (row, col).
  function Window(src: seq<pixel>, job: Job, row: nat, col: nat): (pixel, pixel, pixel, pixel)
    requires job.Cropped() && row < job.outH && col < job.outW && Packed(job).Fits(job.inH, job.inW, |src|)
  {
    LumaReadInside(job, row, col);
    var r, c := job.cy + Offset(Coef(job.ch, job.outH, row)), job.cx + Offset(Coef(job.cw, job.outW, col));
    (PixelAt(src, job, r, c), PixelAt(src, job, r + 1, c), PixelAt(src, job, r, c + 1), PixelAt(src, job, r + 1, c + 1))
  }

  function BlendPixels(p1: pixel, p2: pixel, p3: pixel, p4: pixel, hc2: nat, wc2: nat): int {
    Pack(Blend(Red(p1), Red(p2), Red(p3), Red(p4), hc2, wc2),
         Blend(Green(p1), Green(p2), Green(p3), Green(p4), hc2, wc2),
         Blend(Blue(p1), Blue(p2), Blue(p3), Blue(p4), hc2, wc2))
  }

  predicate Between(x: int, a: int, b: int, c: int, d: int) {
    && (a <= x || b <= x || c <= x || d <= x)
    && (x <= a || x <= b || x <= c || x <= d)
  }

  lemma BlendBetweenSome(p1: int, p2: int, p3: int, p4: int, hc2: nat, wc2: nat)
    requires hc2 <= 128 && wc2 <= 128
    ensures Between(Blend(p1, p2, p3, p4, hc2, wc2), p1, p2, p3, p4)
  {
    hide Blend;
    var lo1, hi1 := if p1 < p2 then p1 else p2, if p1 < p2 then p2 else p1;
    var lo2, hi2 := if p3 < p4 then p3 else p4, if p3 < p4 then p4 else p3;
    BlendBetween(p1, p2, p3, p4, hc2, wc2, if lo1 < lo2 then lo1 else lo2, if hi1 < hi2 then hi2 else hi1);
  }

  // The stored word is a pixel, and each of its channels lies between the smallest and the
  // largest of that channel in the four source pixels: no channel leaks into another.
  lemma ChannelsBetween(p1: pixel, p2: pixel, p3: pixel, p4: pixel, hc2: nat, wc2: nat)
    requires hc2 <= 128 && wc2 <= 128
    ensures 0 <= BlendPixels(p1, p2, p3, p4, hc2, wc2) < 65536
    ensures var q := BlendPixels(p1, p2, p3, p4, hc2, wc2);
            && Between(Red(q), Red(p1), Red(p2), Red(p3), Red(p4))
            && Between(Green(q), Green(p1), Green(p2), Green(p3), Green(p4))
            && Between(Blue(q), Blue(p1), Blue(p2), Blue(p3), Blue(p4))
  {
    BlendBetweenSome(Red(p1), Red(p2), Red(p3), Red(p4), hc2, wc2);
    BlendBetweenSome(Green(p1), Green(p2), Green(p3), Green(p4), hc2, wc2);
    BlendBetweenSome(Blue(p1), Blue(p2), Blue(p3), Blue(p4), hc2, wc2);
    hide Blend;
    PackExact(Blend(Red(p1), Red(p2), Red(p3), Red(p4), hc2, wc2),
              Blend(Green(p1), Green(p2), Green(p3), Green(p4), hc2, wc2),
              Blend(Blue(p1), Blue(p2), Blue(p3), Blue(p4), hc2, wc2));
  }

  function RgbAt(src: seq<pixel>, job: Job, row: nat, col: nat): pixel
    requires job.Cropped() && row < job.outH && col < job.outW && Packed(job).Fits(job.inH, job.inW, |src|)
  {
    var h, w := Weight(Coef(job.ch, job.outH, row)), Weight(Coef(job.cw, job.outW, col));
    var (p1, p2, p3, p4) := Window(src, job, row, col);
    ChannelsBetween(p1, p2, p3, p4, h, w);
    BlendPixels(p1, p2, p3, p4, h, w)
  }

  // Where the k-th word of an output of width w belongs.
  function RowOf(w: nat, k: nat): nat
    requires w > 0
  {
    k / w
  }

  function ColumnOf(w: nat, k: nat): (c: nat)
    requires w > 0
    ensures c < w
  {
    k % w
  }

  // The first n words of the output hold the resized pixels in row order; the rest is as it was.
  ghost predicate Filled(out: seq<pixel>, out0: seq<pixel>, src: seq<pixel>, job: Job, n: nat)
    requires job.Cropped() && Packed(job).Fits(job.inH, job.inW, |src|)
  {
    && |out| == |out0|
    && (forall k :: 0 <= k < |out| && k < n ==>
          && RowOf(job.outW, k) < job.outH
          && out[k] == RgbAt(src, job, RowOf(job.outW, k), ColumnOf(job.outW, k)))
    && (forall k :: n <= k < |out| ==> out[k] == out0[k])
  }

  lemma FillNone(out: seq<pixel>, src: seq<pixel>, job: Job)
    requires job.Cropped() && Packed(job).Fits(job.inH, job.inW, |src|)
    ensures Filled(out, out, src, job, 0)
  {
  }

  lemma FillOne(out: seq<pixel>, out0: seq<pixel>, src: seq<pixel>, job: Job, row: nat, col: nat)
    requires job.Cropped() && Packed(job).Fits(job.inH, job.inW, |src|) && row < job.outH && col < job.outW
    requires row * job.outW + col < |out| && Filled(out, out0, src, job, row * job.outW + col)
    ensures Filled(out[row * job.outW + col := RgbAt(src, job, row, col)], out0, src, job, row * job.outW + col + 1)
  {
    hide RgbAt, RowOf, ColumnOf, Plane.Fits;
    RowColumn(job.outW, row, col);
  }

  method Rgb565Row(out: array<pixel>, src: seq<pixel>, job: Job, row: nat, start: nat, inRgb: nat, hCoef: u32,
                   ghost out0: seq<pixel>)
    requires job.Cropped() && Packed(job).Fits(job.inH, job.inW, |src|) && row < job.outH
    requires start == row * job.outW && start + job.outW <= out.Length && inRgb == job.cy * job.inW + job.cx
    requires hCoef == Coef(job.ch, job.outH, row)
    requires Filled(out[..], out0, src, job, start)
    modifies out
    ensures Filled(out[..], out0, src, job, start + job.outW)
  {
    hide RgbAt, Coef, Step, Add32, Filled, Plane.Fits;
    var wStep := Step(job.cw, job.outW);
    var at: nat, wCoef: u32 := start, 0;
    CoefStart(job.cw, job.outW);
    for col := 0 to job.outW
      invariant at == start + col
      invariant col < job.outW ==> wCoef == Coef(job.cw, job.outW, col)
      invariant Filled(out[..], out0, src, job, start + col)
    {
      var q := Interpolate(src, job, row, col, inRgb, hCoef, wCoef);
      FillOne(out[..], out0, src, job, row, col);
      ghost var before := out[..];
      out[at] := q;
      assert out[..] == before[at := q];
      at := at + 1;
      NextCoef(job.cw, job.outW, col);
      wCoef := Add32(wCoef, wStep);
    }
  }

  // Fills the first outW * outH words of the output in row order; the rest is untouched.
  method Rgb565Resize(out: array<pixel>, src: seq<pixel>, job: Job)
    requires job.inW >= 1 && job.inH >= 1 ==>
               job.Cropped() && Packed(job).Fits(job.inH, job.inW, |src|) && job.outH * job.outW <= out.Length
    modifies out
    ensures job.inW < 1 || job.inH < 1 ==> out[..] == old(out[..])
    ensures job.inW >= 1 && job.inH >= 1 ==> Filled(out[..], old(out[..]), src, job, job.outH * job.outW)
  {
    if job.inW < 1 || job.inH < 1 {
      return;
    }
    hide Filled, Plane.Fits;
    Rgb565Rows(out, src, job);
  }

  method Rgb565Rows(out: array<pixel>, src: seq<pixel>, job: Job)
    requires job.Cropped() && Packed(job).Fits(job.inH, job.inW, |src|) && job.outH * job.outW <= out.Length
    modifies out
    ensures Filled(out[..], old(out[..]), src, job, job.outH * job.outW)
  {
    hide RgbAt, Coef, Step, Add32, Filled, Plane.Fits;
    var hStep, inRgb := Step(job.ch, job.outH), job.cy * job.inW + job.cx;
    var at: nat, hCoef: u32 := 0, 0;
    CoefStart(job.ch, job.outH);
    FillNone(out[..], src, job);
    for row := 0 to job.outH
      invariant at == row * job.outW
      invariant row < job.outH ==> hCoef == Coef(job.ch, job.outH, row)
      invariant Filled(out[..], old(out[..]), src, job, at)
    {
      StepNext(row, job.outW);
      MulMono(row + 1, job.outH, job.outW);
      Rgb565Row(out, src, job, row, at, inRgb, hCoef, old(out[..]));
      at := at + job.outW;
      NextCoef(job.ch, job.outH, row);
      hCoef := Add32(hCoef, hStep);
    }
  }

  lemma RowColumn(w: nat, row: nat, col: nat)
    requires col < w
    ensures RowOf(w, row * w + col) == row && ColumnOf(w, row * w + col) == col
  {
    var n := row * w + col;
    var q := n / w;
    DivMul(n, w);
    StepNext(q, w);
    StepNext(row, w);
    if q < row {
      MulMono(q + 1, row, w);
    } else if row < q {
      MulMono(row + 1, q, w);
    }
  }

  // One output word, from the pointer and the coefficients the loops carry.
  method Interpolate(src: seq<pixel>, job: Job, row: nat, col: nat, inRgb: nat, hCoef: nat, wCoef: nat)
    returns (q: pixel)
    requires job.Cropped() && row < job.outH && col < job.outW && Packed(job).Fits(job.inH, job.inW, |src|)
    requires inRgb == job.cy * job.inW + job.cx
    requires hCoef == Coef(job.ch, job.outH, row) && wCoef == Coef(job.cw, job.outW, col)
    ensures q == RgbAt(src, job, row, col)
  {
    hide Window, Plane.Fits, Packed, Coef, BlendPixels, Weight, Offset;
    var offsetY, offsetX, stride := Offset(hCoef), Offset(wCoef), job.inW;
    var hc2, wc2 := Weight(hCoef), Weight(wCoef);
    ReachWindow(src, job, row, col, inRgb, offsetY, offsetX);
    var pixel1 := src[inRgb + offsetY * stride + offsetX];
    var pixel2 := src[inRgb + (offsetY + 1) * stride + offsetX];
    var pixel3 := src[inRgb + offsetY * stride + offsetX + 1];
    var pixel4 := src[inRgb + (offsetY + 1) * stride + offsetX + 1];
    ChannelsBetween(pixel1, pixel2, pixel3, pixel4, hc2, wc2);
    q := BlendPixels(pixel1, pixel2, pixel3, pixel4, hc2, wc2);
  }

  lemma ReachWindow(src: seq<pixel>, job: Job, row: nat, col: nat, inRgb: nat, y: nat, x: nat)
    requires job.Cropped() && row < job.outH && col < job.outW && Packed(job).Fits(job.inH, job.inW, |src|)
    requires inRgb == job.cy * job.inW + job.cx
    requires y == Offset(Coef(job.ch, job.outH, row)) && x == Offset(Coef(job.cw, job.outW, col))
    ensures 0 <= inRgb + y * job.inW + x && inRgb + y * job.inW + x + 1 < |src|
    ensures 0 <= inRgb + (y + 1) * job.inW + x && inRgb + (y + 1) * job.inW + x + 1 < |src|
    ensures Window(src, job, row, col) ==
              (src[inRgb + y * job.inW + x], src[inRgb + (y + 1) * job.inW + x],
               src[inRgb + y * job.inW + x + 1], src[inRgb + (y + 1) * job.inW + x + 1])
  {
    LumaReadInside(job, row, col);
    Reach(src, job, y, x, inRgb);
    Reach(src, job, y + 1, x, inRgb);
    Reach(src, job, y, x + 1, inRgb);
    Reach(src, job, y + 1, x + 1, inRgb);
    hide PixelAt, Plane.At, Plane.Fits, Packed, Coef;
  }

  lemma Reach(src: seq<pixel>, job: Job, r: nat, c: nat, inRgb: nat)
    requires job.cy + r < job.inH && job.cx + c < job.inW && Packed(job).Fits(job.inH, job.inW, |src|)
    requires inRgb == job.cy * job.inW + job.cx
    ensures 0 <= inRgb + r * job.inW + c < |src|
    ensures src[inRgb + r * job.inW + c] == PixelAt(src, job, job.cy + r, job.cx + c)
  {
    Gather(Packed(job), job.cy, job.cx, r, c, inRgb);
    Packed(job).Inside(job.inH, job.inW, |src|, job.cy + r, job.cx + c);
    hide Plane.At, Plane.Fits;
  }

  // Each channel of an output pixel is the bilinear mean of that channel in the four
  // neighbours, rounded down: the vertical weight comes from the row, the horizontal one from
  // the column.
  lemma ChannelsAreBilinear(src: seq<pixel>, job: Job, row: nat, col: nat, r: nat, c: nat)
    requires job.Cropped() && row < job.outH && col < job.outW && Packed(job).Fits(job.inH, job.inW, |src|)
    requires r == job.cy + Offset(Coef(job.ch, job.outH, row)) && c == job.cx + Offset(Coef(job.cw, job.outW, col))
    ensures r + 1 < job.inH && c + 1 < job.inW
    ensures var h, w := Weight(Coef(job.ch, job.outH, row)), Weight(Coef(job.cw, job.outW, col));
            var p1, p2 := PixelAt(src, job, r, c), PixelAt(src, job, r + 1, c);
            var p3, p4 := PixelAt(src, job, r, c + 1), PixelAt(src, job, r + 1, c + 1);
            var q := RgbAt(src, job, row, col);
            && MeanOf(Red(q), Red(p1), Red(p2), Red(p3), Red(p4), h, w)
            && MeanOf(Green(q), Green(p1), Green(p2), Green(p3), Green(p4), h, w)
            && MeanOf(Blue(q), Blue(p1), Blue(p2), Blue(p3), Blue(p4), h, w)
  {
    hide Coef, Offset, Weight, Plane.Fits, MeanOf, Red, Green, Blue, PixelAt, BlendPixels, Packed;
    LumaReadInside(job, row, col);
    BlendPixelsMeans(PixelAt(src, job, r, c), PixelAt(src, job, r + 1, c), PixelAt(src, job, r, c + 1),
                     PixelAt(src, job, r + 1, c + 1),
                     Weight(Coef(job.ch, job.outH, row)), Weight(Coef(job.cw, job.outW, col)));
  }

  lemma BlendPixelsMeans(p1: pixel, p2: pixel, p3: pixel, p4: pixel, h: nat, w: nat)
    requires h < 128 && w < 128
    ensures var q := BlendPixels(p1, p2, p3, p4, h, w);
      && 0 <= q < 65536
      && MeanOf(Red(q), Red(p1), Red(p2), Red(p3), Red(p4), h, w)
      && MeanOf(Green(q), Green(p1), Green(p2), Green(p3), Green(p4), h, w)
      && MeanOf(Blue(q), Blue(p1), Blue(p2), Blue(p3), Blue(p4), h, w)
  {
    hide Blend, MeanOf, Pack;
    BlendMean(Red(p1), Red(p2), Red(p3), Red(p4), h, w);
    BlendMean(Green(p1), Green(p2), Green(p3), Green(p4), h, w);
    BlendMean(Blue(p1), Blue(p2), Blue(p3), Blue(p4), h, w);
    BlendBetween(Red(p1), Red(p2), Red(p3), Red(p4), h, w, 0, 31);
    BlendBetween(Green(p1), Green(p2), Green(p3), Green(p4), h, w, 0, 63);
    BlendBetween(Blue(p1), Blue(p2), Blue(p3), Blue(p4), h, w, 0, 31);
    PackExact(Blend(Red(p1), Red(p2), Red(p3), Red(p4), h, w),
              Blend(Green(p1), Green(p2), Green(p3), Green(p4), h, w),
              Blend(Blue(p1), Blue(p2), Blue(p3), Blue(p4), h, w));
  }
}
