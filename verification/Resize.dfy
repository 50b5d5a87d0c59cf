// _YUV420Resize (hardware/libcamera/Resize.cpp): bilinear scaling of a 4:2:0 frame, planar
// or interleaved, by pointer walks over planes of different strides.
module Resize {
  import opened FixedWidth
  import opened ResizeArithmetic

  // One plane of a frame held in a flat buffer: first sample, row stride, sample distance.
  datatype Plane = Plane(base: nat, stride: nat, delta: nat) {
    function At(row: nat, col: nat): nat { base + row * stride + col * delta }

    predicate Fits(rows: nat, cols: nat, size: nat) {
      rows > 0 && cols > 0 ==> At(rows - 1, cols - 1) < size
    }

    lemma Inside(rows: nat, cols: nat, size: nat, row: nat, col: nat)
      requires Fits(rows, cols, size) && row < rows && col < cols
      ensures At(row, col) < size
    {
      MulMono(row, rows - 1, stride);
      MulMono(col, cols - 1, delta);
    }
  }

  datatype Frame = Frame(y: Plane, u: Plane, v: Plane)

  datatype Job = Job(inW: nat, inH: nat, cx: nat, cy: nat, cw: nat, ch: nat, outW: nat, outH: nat) {
    // A 4:2:0 job whose chroma reads stay inside the input both ways.
    predicate Valid() {
      Cropped() && ChromaFits(inW, cx, cw, outW) && ChromaFits(inH, cy, ch, outH)
    }

    // A crop inside the input, and an output, of at least two samples each way.
    predicate Cropped() {
      && 2 <= cw && 2 <= ch && cx + cw <= inW < U32 && cy + ch <= inH < U32
      && 2 <= outW < U32 && 2 <= outH < U32
    }
  }

  // One dimension: the input has n samples, the crop c of them from x0 on, the output o. Only
  // an odd input read to its very end by an odd output needs a chroma sample that is not there.
  predicate ChromaFits(n: nat, x0: nat, c: nat, o: nat)
    requires 2 <= c && 2 <= o
  {
    !(n % 2 == 1 && o % 2 == 1 && x0 % 2 == 0 && x0 + c == n && ReachesEnd(c, o))
  }

  // A sample of the output frame.
  datatype Site = Y(row: nat, col: nat) | U(row: nat, col: nat) | V(row: nat, col: nat)

  predicate Visible(job: Job, s: Site) {
    match s
    case Y(r, c) => r < job.outH && c < job.outW
    case U(r, c) => r < (job.outH + 1) / 2 && c < (job.outW + 1) / 2
    case V(r, c) => r < (job.outH + 1) / 2 && c < (job.outW + 1) / 2
  }

  function Address(f: Frame, s: Site): nat {
    match s
    case Y(r, c) => f.y.At(r, c)
    case U(r, c) => f.u.At(r, c)
    case V(r, c) => f.v.At(r, c)
  }

  // The input frame holds every sample of its three planes.
  predicate Readable(f: Frame, job: Job, size: nat) {
    && f.y.delta == 1
    && f.y.Fits(job.inH, job.inW, size)
    && f.u.Fits(job.inH / 2, job.inW / 2, size)
    && f.v.Fits(job.inH / 2, job.inW / 2, size)
  }

  // The output frame has room for every visible sample, each at an address of its own.
  ghost predicate Writable(f: Frame, job: Job, size: nat) {
    && f.y.delta == 1
    && (forall s :: Visible(job, s) ==> Address(f, s) < size)
    && (forall s, t :: Visible(job, s) && Visible(job, t) && s != t ==> Address(f, s) != Address(f, t))
  }

  // ----- Where a sample reads -----

  // Every luma read of output position (row, col) is a sample of the input's luma plane,
  // inside the crop.
  lemma LumaReadInside(job: Job, row: nat, col: nat)
    requires job.Cropped() && row < job.outH && col < job.outW
    ensures var oy, ox := Offset(Coef(job.ch, job.outH, row)), Offset(Coef(job.cw, job.outW, col));
            && oy + 1 < job.ch && ox + 1 < job.cw
            && job.cy + oy + 1 < job.inH && job.cx + ox + 1 < job.inW
  {
    CoefInside(job.ch, job.outH, row);
    CoefInside(job.cw, job.outW, col);
  }

  // One dimension of a chroma read at output index k.
  predicate ChromaInside(n: nat, x0: nat, c: nat, o: nat, k: nat)
    requires 2 <= c && 2 <= o
  {
    var x := Offset(Coef(c, o, k));
    x0 / 2 + x / 2 <= x0 / 2 + (x + 1) / 2 < n / 2
  }

  lemma ChromaIndexInside(n: nat, x0: nat, c: nat, o: nat, k: nat)
    requires 2 <= c && x0 + c <= n && 2 <= o && k < o && k % 2 == 0 && ChromaFits(n, x0, c, o)
    ensures ChromaInside(n, x0, c, o, k)
  {
    hide Coef, Offset, ReachesEnd;
    CoefInside(c, o, k);
    if k == o - 1 {
      CoefEnd(c, o);
    } else {
      CoefShortOfEnd(c, o, k);
    }
  }

  // The chroma reads of all output indices stay inside if and only if ChromaFits.
  lemma ChromaIndexIff(n: nat, x0: nat, c: nat, o: nat)
    requires 2 <= c && x0 + c <= n && 2 <= o
    ensures (forall k :: 0 <= k < o && k % 2 == 0 ==> ChromaInside(n, x0, c, o, k)) <==> ChromaFits(n, x0, c, o)
  {
    if ChromaFits(n, x0, c, o) {
      forall k | 0 <= k < o && k % 2 == 0 ensures ChromaInside(n, x0, c, o, k) {
        ChromaIndexInside(n, x0, c, o, k);
      }
    } else {
      CoefEnd(c, o);
      assert !ChromaInside(n, x0, c, o, o - 1);
    }
  }

  // An even input or an even output is always enough; three samples scaled to three are not.
  lemma ChromaFitsEven(n: nat, x0: nat, c: nat, o: nat)
    requires 2 <= c && 2 <= o
    ensures n % 2 == 0 || o % 2 == 0 ==> ChromaFits(n, x0, c, o)
    ensures !ChromaFits(3, 0, 3, 3) && !ChromaInside(3, 0, 3, 3, 2)
  {
    CoefEnd(3, 3);
  }

  // Every chroma read is a sample of the input's chroma planes.
  lemma ChromaReadInside(job: Job, row: nat, col: nat)
    requires job.Valid() && row < job.outH && col < job.outW && row % 2 == 0 && col % 2 == 0
    ensures var oy, ox := Offset(Coef(job.ch, job.outH, row)), Offset(Coef(job.cw, job.outW, col));
            && job.cy / 2 + oy / 2 <= job.cy / 2 + (oy + 1) / 2 < job.inH / 2
            && job.cx / 2 + ox / 2 <= job.cx / 2 + (ox + 1) / 2 < job.inW / 2
  {
    ChromaIndexInside(job.inH, job.cy, job.ch, job.outH, row);
    ChromaIndexInside(job.inW, job.cx, job.cw, job.outW, col);
  }

  function Texel(src: seq<byte>, p: Plane, rows: nat, cols: nat, row: nat, col: nat): byte
    requires p.Fits(rows, cols, |src|) && row < rows && col < cols
  {
    p.Inside(rows, cols, |src|, row, col);
    src[p.At(row, col)]
  }

  function LumaAt(src: seq<byte>, p: Plane, job: Job, row: nat, col: nat): byte
    requires job.Cropped() && row < job.outH && col < job.outW && p.Fits(job.inH, job.inW, |src|)
  {
    LumaReadInside(job, row, col);
    var h, w := Coef(job.ch, job.outH, row), Coef(job.cw, job.outW, col);
    var r, c := job.cy + Offset(h), job.cx + Offset(w);
    Sample(Texel(src, p, job.inH, job.inW, r, c), Texel(src, p, job.inH, job.inW, r + 1, c),
           Texel(src, p, job.inH, job.inW, r, c + 1), Texel(src, p, job.inH, job.inW, r + 1, c + 1),
           Weight(h), Weight(w))
  }

  // Chroma for the 2x2 block whose top-left luma position is (row, col).
  function ChromaAt(src: seq<byte>, p: Plane, job: Job, row: nat, col: nat): byte
    requires job.Valid() && row < job.outH && col < job.outW && row % 2 == 0 && col % 2 == 0
    requires p.Fits(job.inH / 2, job.inW / 2, |src|)
  {
    ChromaReadInside(job, row, col);
    var h, w := Coef(job.ch, job.outH, row), Coef(job.cw, job.outW, col);
    var r, c := job.cy / 2 + Offset(h) / 2, job.cx / 2 + Offset(w) / 2;
    var r', c' := job.cy / 2 + (Offset(h) + 1) / 2, job.cx / 2 + (Offset(w) + 1) / 2;
    Sample(Texel(src, p, job.inH / 2, job.inW / 2, r, c), Texel(src, p, job.inH / 2, job.inW / 2, r', c),
           Texel(src, p, job.inH / 2, job.inW / 2, r, c'), Texel(src, p, job.inH / 2, job.inW / 2, r', c'),
           Weight(h), Weight(w))
  }

  function Value(src: seq<byte>, f: Frame, job: Job, s: Site): byte
    requires job.Valid() && Visible(job, s) && Readable(f, job, |src|)
  {
    match s
    case Y(r, c) => LumaAt(src, f.y, job, r, c)
    case U(r, c) => ChromaOf(src, f.u, job, r, c)
    case V(r, c) => ChromaOf(src, f.v, job, r, c)
  }

  // Chroma sample (r, c) belongs to luma position (2r, 2c).
  function ChromaOf(src: seq<byte>, p: Plane, job: Job, r: nat, c: nat): byte
    requires job.Valid() && 2 * r < job.outH && 2 * c < job.outW && p.Fits(job.inH / 2, job.inW / 2, |src|)
  {
    ChromaAt(src, p, job, 2 * r, 2 * c)
  }

  // ----- What has been written -----

  // `hits` counts the stores made to each site so far. Each hit site was stored once and
  // holds its value; every other byte is still as it was.
  ghost predicate Written(out: seq<byte>, out0: seq<byte>, src: seq<byte>, fin: Frame, fout: Frame, job: Job,
                          hits: multiset<Site>)
    requires job.Valid() && Readable(fin, job, |src|) && Writable(fout, job, |out0|)
  {
    && |out| == |out0|
    && (forall s :: s in hits ==> Visible(job, s) && hits[s] == 1 && out[Address(fout, s)] == Value(src, fin, job, s))
    && (forall a :: 0 <= a < |out| && out[a] != out0[a] ==> exists s :: s in hits && Address(fout, s) == a)
  }

  lemma WriteOne(out: seq<byte>, out0: seq<byte>, src: seq<byte>, fin: Frame, fout: Frame, job: Job,
                 hits: multiset<Site>, s: Site)
    requires job.Valid() && Readable(fin, job, |src|) && Writable(fout, job, |out0|)
    requires Written(out, out0, src, fin, fout, job, hits)
    requires Visible(job, s) && s !in hits
    ensures Written(out[Address(fout, s) := Value(src, fin, job, s)], out0, src, fin, fout, job, hits + multiset{s})
  {
    hide Value, Address, Visible;
    var out' := out[Address(fout, s) := Value(src, fin, job, s)];
    var hits' := hits + multiset{s};
    forall t | t in hits'
      ensures Visible(job, t) && hits'[t] == 1 && out'[Address(fout, t)] == Value(src, fin, job, t)
    {
    }
    forall a | 0 <= a < |out'| && out'[a] != out0[a]
      ensures exists t :: t in hits' && Address(fout, t) == a
    {
      if a == Address(fout, s) {
        assert s in hits';
      } else {
        var t :| t in hits && Address(fout, t) == a;
        assert t in hits';
      }
    }
  }

  // The sites stored before the loops reach (row, col).
  predicate Before(s: Site, row: nat, col: nat) {
    match s
    case Y(r, c) => r < row || (r == row && c < col)
    case U(r, c) => 2 * r < row || (2 * r == row && 2 * c < col)
    case V(r, c) => 2 * r < row || (2 * r == row && 2 * c < col)
  }

  ghost predicate HitsBefore(hits: multiset<Site>, job: Job, row: nat, col: nat) {
    forall s :: s in hits <==> Visible(job, s) && Before(s, row, col)
  }

  // The sites stored by the loop body at (row, col).
  function Stored(row: nat, col: nat): multiset<Site> {
    if row % 2 == 0 && col % 2 == 0
    then multiset{Y(row, col)} + multiset{U(row / 2, col / 2)} + multiset{V(row / 2, col / 2)}
    else multiset{Y(row, col)}
  }

  lemma HitsAdvance(hits: multiset<Site>, job: Job, row: nat, col: nat)
    requires row < job.outH && col < job.outW && HitsBefore(hits, job, row, col)
    ensures forall s :: s in Stored(row, col) ==> Visible(job, s) && s !in hits
    ensures HitsBefore(hits + Stored(row, col), job, row, col + 1)
  {
  }

  lemma HitsNextRow(hits: multiset<Site>, job: Job, row: nat)
    requires HitsBefore(hits, job, row, job.outW)
    ensures HitsBefore(hits, job, row + 1, 0)
  {
  }

  // base + (r0 + r, c0 + c) reached in two hops.
  lemma Gather(p: Plane, r0: nat, c0: nat, r: nat, c: nat, start: int)
    requires start == p.base + r0 * p.stride + c0 * p.delta
    ensures start + r * p.stride + c * p.delta == p.At(r0 + r, c0 + c)
  {
    assert (r0 + r) * p.stride == r0 * p.stride + r * p.stride;
    assert (c0 + c) * p.delta == c0 * p.delta + c * p.delta;
  }

  // The sample read through a pointer that stands at (r0, c0) is the texel at that offset.
  lemma ReadTexel(src: seq<byte>, p: Plane, rows: nat, cols: nat, r0: nat, c0: nat, r: nat, c: nat, start: int)
    requires p.Fits(rows, cols, |src|) && r0 + r < rows && c0 + c < cols
    requires start == p.base + r0 * p.stride + c0 * p.delta
    ensures 0 <= start + r * p.stride + c * p.delta < |src|
    ensures src[start + r * p.stride + c * p.delta] == Texel(src, p, rows, cols, r0 + r, c0 + c)
  {
    hide Plane.At, Plane.Fits;
    Gather(p, r0, c0, r, c, start);
    p.Inside(rows, cols, |src|, r0 + r, c0 + c);
  }

  // The four reads of one output sample, through a pointer that stands at (r0, c0).
  method Fetch(src: seq<byte>, p: Plane, rows: nat, cols: nat, r0: nat, c0: nat, start: nat,
               r: nat, r': nat, c: nat, c': nat, hc2: nat, wc2: nat) returns (x: byte)
    requires p.Fits(rows, cols, |src|) && start == p.base + r0 * p.stride + c0 * p.delta
    requires r0 + r < rows && r0 + r' < rows && c0 + c < cols && c0 + c' < cols && hc2 <= 128 && wc2 <= 128
    ensures x == Sample(Texel(src, p, rows, cols, r0 + r, c0 + c), Texel(src, p, rows, cols, r0 + r', c0 + c),
                        Texel(src, p, rows, cols, r0 + r, c0 + c'), Texel(src, p, rows, cols, r0 + r', c0 + c'),
                        hc2, wc2)
  {
    hide Texel, Plane.Fits, Sample;
    ReadTexel(src, p, rows, cols, r0, c0, r, c, start);
    ReadTexel(src, p, rows, cols, r0, c0, r', c, start);
    ReadTexel(src, p, rows, cols, r0, c0, r, c', start);
    ReadTexel(src, p, rows, cols, r0, c0, r', c', start);
    var pixel1 := src[start + r * p.stride + c * p.delta];
    var pixel2 := src[start + r' * p.stride + c * p.delta];
    var pixel3 := src[start + r * p.stride + c' * p.delta];
    var pixel4 := src[start + r' * p.stride + c' * p.delta];
    x := Sample(pixel1, pixel2, pixel3, pixel4, hc2, wc2);
  }

  method FetchLuma(src: seq<byte>, p: Plane, job: Job, row: nat, col: nat, inY: nat, hCoef: nat, wCoef: nat)
    returns (y: byte)
    requires job.Cropped() && row < job.outH && col < job.outW && p.Fits(job.inH, job.inW, |src|) && p.delta == 1
    requires inY == p.base + job.cy * p.stride + job.cx
    requires hCoef == Coef(job.ch, job.outH, row) && wCoef == Coef(job.cw, job.outW, col)
    ensures y == LumaAt(src, p, job, row, col)
  {
    hide Texel, Plane.Fits, Coef, Sample, Offset, Weight;
    LumaReadInside(job, row, col);
    var offsetY, offsetX := Offset(hCoef), Offset(wCoef);
    y := Fetch(src, p, job.inH, job.inW, job.cy, job.cx, inY,
               offsetY, offsetY + 1, offsetX, offsetX + 1, Weight(hCoef), Weight(wCoef));
  }

  method FetchChroma(src: seq<byte>, p: Plane, job: Job, row: nat, col: nat, start: nat, hCoef: nat, wCoef: nat)
    returns (x: byte)
    requires job.Valid() && row < job.outH && col < job.outW && row % 2 == 0 && col % 2 == 0
    requires p.Fits(job.inH / 2, job.inW / 2, |src|)
    requires start == p.base + (job.cy / 2) * p.stride + (job.cx / 2) * p.delta
    requires hCoef == Coef(job.ch, job.outH, row) && wCoef == Coef(job.cw, job.outW, col)
    ensures x == ChromaAt(src, p, job, row, col)
  {
    hide Texel, Plane.Fits, Coef, Sample, Offset, Weight, ChromaFits;
    ChromaReadInside(job, row, col);
    var offsetY, offsetX := Offset(hCoef), Offset(wCoef);
    x := Fetch(src, p, job.inH / 2, job.inW / 2, job.cy / 2, job.cx / 2, start,
               offsetY / 2, (offsetY + 1) / 2, offsetX / 2, (offsetX + 1) / 2, Weight(hCoef), Weight(wCoef));
  }

  // A store through an output pointer that stands at site s.
  method Store(out: array<byte>, at: nat, x: byte, s: Site, src: seq<byte>, fin: Frame, fout: Frame, job: Job,
               ghost out0: seq<byte>, ghost hits: multiset<Site>) returns (ghost hits': multiset<Site>)
    requires job.Valid() && Readable(fin, job, |src|) && |out0| == out.Length && Writable(fout, job, |out0|)
    requires Written(out[..], out0, src, fin, fout, job, hits)
    requires Visible(job, s) && s !in hits && at == Address(fout, s) && x == Value(src, fin, job, s)
    modifies out
    ensures hits' == hits + multiset{s} && Written(out[..], out0, src, fin, fout, job, hits')
  {
    WriteOne(out[..], out0, src, fin, fout, job, hits, s);
    ghost var before := out[..];
    out[at] := x;
    assert out[..] == before[at := x];
    hits' := hits + multiset{s};
  }

  // The value and the address of the sites stored at (row, col), and the planes they read.
  lemma ValueAt(src: seq<byte>, fin: Frame, fout: Frame, job: Job, row: nat, col: nat)
    requires job.Valid() && Readable(fin, job, |src|) && row < job.outH && col < job.outW
    ensures job.Cropped() && fin.y.delta == 1 && fin.y.Fits(job.inH, job.inW, |src|)
    ensures fin.u.Fits(job.inH / 2, job.inW / 2, |src|) && fin.v.Fits(job.inH / 2, job.inW / 2, |src|)
    ensures Visible(job, Y(row, col)) && Y(row, col) in Stored(row, col)
    ensures Address(fout, Y(row, col)) == fout.y.At(row, col)
    ensures Value(src, fin, job, Y(row, col)) == LumaAt(src, fin.y, job, row, col)
    ensures row % 2 == 0 && col % 2 == 0 ==>
      var u, v := U(row / 2, col / 2), V(row / 2, col / 2);
      && Stored(row, col) == multiset{Y(row, col)} + multiset{u} + multiset{v}
      && Visible(job, u) && Visible(job, v)
      && Address(fout, u) == fout.u.At(row / 2, col / 2) && Address(fout, v) == fout.v.At(row / 2, col / 2)
      && Value(src, fin, job, u) == ChromaAt(src, fin.u, job, row, col)
      && Value(src, fin, job, v) == ChromaAt(src, fin.v, job, row, col)
    ensures row % 2 != 0 || col % 2 != 0 ==> Stored(row, col) == multiset{Y(row, col)}
  {
    hide Plane.At, LumaAt, ChromaAt;
    if row % 2 == 0 && col % 2 == 0 {
      assert 2 * (row / 2) == row && 2 * (col / 2) == col;
    }
  }

  // The chroma half of the loop body, on even rows and columns.
  method ResizeChroma(out: array<byte>, src: seq<byte>, fin: Frame, fout: Frame, job: Job, row: nat, col: nat,
                      hCoef: nat, wCoef: nat, outU: nat, outV: nat,
                      ghost out0: seq<byte>, ghost hits: multiset<Site>) returns (ghost hits': multiset<Site>)
    requires job.Valid() && Readable(fin, job, |src|) && |out0| == out.Length && Writable(fout, job, |out0|)
    requires row < job.outH && col < job.outW && row % 2 == 0 && col % 2 == 0
    requires hCoef == Coef(job.ch, job.outH, row) && wCoef == Coef(job.cw, job.outW, col)
    requires outU == fout.u.At(row / 2, col / 2) && outV == fout.v.At(row / 2, col / 2)
    requires Written(out[..], out0, src, fin, fout, job, hits)
    requires U(row / 2, col / 2) !in hits && V(row / 2, col / 2) !in hits
    modifies out
    ensures hits' == hits + multiset{U(row / 2, col / 2)} + multiset{V(row / 2, col / 2)}
    ensures Written(out[..], out0, src, fin, fout, job, hits')
  {
    hide *;
    ValueAt(src, fin, fout, job, row, col);
    var inU := fin.u.base + (job.cy / 2) * fin.u.stride + (job.cx / 2) * fin.u.delta;
    var u := FetchChroma(src, fin.u, job, row, col, inU, hCoef, wCoef);
    hits' := Store(out, outU, u, U(row / 2, col / 2), src, fin, fout, job, out0, hits);
    var inV := fin.v.base + (job.cy / 2) * fin.v.stride + (job.cx / 2) * fin.v.delta;
    var v := FetchChroma(src, fin.v, job, row, col, inV, hCoef, wCoef);
    hits' := Store(out, outV, v, V(row / 2, col / 2), src, fin, fout, job, out0, hits');
  }

  // The body of the column loop: luma, and on even rows and columns both chroma samples.
  method ResizePixel(out: array<byte>, src: seq<byte>, fin: Frame, fout: Frame, job: Job, row: nat, col: nat,
                     hCoef: nat, wCoef: nat, outY: nat, outU: nat, outV: nat,
                     ghost out0: seq<byte>, ghost hits: multiset<Site>) returns (ghost hits': multiset<Site>)
    requires job.Valid() && Readable(fin, job, |src|) && |out0| == out.Length && Writable(fout, job, |out0|)
    requires row < job.outH && col < job.outW
    requires hCoef == Coef(job.ch, job.outH, row) && wCoef == Coef(job.cw, job.outW, col)
    requires outY == fout.y.At(row, col)
    requires row % 2 == 0 && col % 2 == 0 ==> outU == fout.u.At(row / 2, col / 2) && outV == fout.v.At(row / 2, col / 2)
    requires Written(out[..], out0, src, fin, fout, job, hits)
    requires HitsBefore(hits, job, row, col)
    modifies out
    ensures Written(out[..], out0, src, fin, fout, job, hits')
    ensures HitsBefore(hits', job, row, col + 1)
  {
    hide *;
    HitsAdvance(hits, job, row, col);
    ValueAt(src, fin, fout, job, row, col);
    var inY := fin.y.base + job.cy * fin.y.stride + job.cx;
    var y := FetchLuma(src, fin.y, job, row, col, inY, hCoef, wCoef);
    hits' := Store(out, outY, y, Y(row, col), src, fin, fout, job, out0, hits);
    if row % 2 == 0 && col % 2 == 0 {
      hits' := ResizeChroma(out, src, fin, fout, job, row, col, hCoef, wCoef, outU, outV, out0, hits');
    }
    assert hits' == hits + Stored(row, col);
  }

  // The column loop.
  method ResizeRow(out: array<byte>, src: seq<byte>, fin: Frame, fout: Frame, job: Job, row: nat,
                   hCoef: nat, headY: nat, headU: nat, headV: nat,
                   ghost out0: seq<byte>, ghost hits: multiset<Site>) returns (ghost hits': multiset<Site>)
    requires job.Valid() && Readable(fin, job, |src|) && |out0| == out.Length && Writable(fout, job, |out0|)
    requires row < job.outH && hCoef == Coef(job.ch, job.outH, row)
    requires headY == fout.y.At(row, 0)
    requires ChromaAtRow(fout, row, headU, headV)
    requires Written(out[..], out0, src, fin, fout, job, hits)
    requires HitsBefore(hits, job, row, 0)
    modifies out
    ensures Written(out[..], out0, src, fin, fout, job, hits')
    ensures HitsBefore(hits', job, row + 1, 0)
  {
    hide *;
    RowStart(fout, job, |out0|);
    hits' := hits;
    var wStep := Step(job.cw, job.outW);
    var wCoef: u32, outY: nat, outU: nat, outV: nat := 0, headY, headU, headV;
    ChromaRowStart(fout, row, headU, headV);
    for col := 0 to job.outW
      invariant col < job.outW ==> wCoef == Coef(job.cw, job.outW, col)
      invariant outY == fout.y.At(row, col) && ChromaAtColumn(fout, row, col, outU, outV)
      invariant Written(out[..], out0, src, fin, fout, job, hits') && HitsBefore(hits', job, row, col)
    {
      NextPixel(fout, job, row, col, outU, outV);
      hits' := ResizePixel(out, src, fin, fout, job, row, col, hCoef, wCoef, outY, outU, outV, out0, hits');
      outY := outY + 1;
      if row % 2 == 0 && col % 2 == 0 {
        outU := outU + fout.u.delta;
        outV := outV + fout.v.delta;
      }
      wCoef := Add32(wCoef, wStep);
    }
    HitsNextRow(hits', job, row);
  }

  lemma RowStart(fout: Frame, job: Job, size: nat)
    requires job.Valid() && Writable(fout, job, size)
    ensures fout.y.delta == 1 && 2 <= job.cw && 2 <= job.outW && Coef(job.cw, job.outW, 0) == 0
  {
    CoefStart(job.cw, job.outW);
  }

  // The pointers and the coefficient after the column loop's updates.
  lemma NextPixel(f: Frame, job: Job, row: nat, col: nat, outU: nat, outV: nat)
    requires job.Valid() && col < job.outW && f.y.delta == 1 && ChromaAtColumn(f, row, col, outU, outV)
    ensures f.y.At(row, col) + 1 == f.y.At(row, col + 1)
    ensures row % 2 == 0 && col % 2 == 0 ==>
      && outU == f.u.At(row / 2, col / 2) && outV == f.v.At(row / 2, col / 2)
      && ChromaAtColumn(f, row, col + 1, outU + f.u.delta, outV + f.v.delta)
    ensures row % 2 != 0 || col % 2 != 0 ==> ChromaAtColumn(f, row, col + 1, outU, outV)
    ensures 2 <= job.cw && 2 <= job.outW && Coef(job.cw, job.outW, col) < U32
    ensures col + 1 < job.outW ==>
      Add32(Coef(job.cw, job.outW, col), Step(job.cw, job.outW)) == Coef(job.cw, job.outW, col + 1)
  {
    hide Coef, Step, Add32, Plane.At, ChromaAtColumn, ChromaFits;
    NextColumn(f.y, row, col);
    ChromaColumn(f, row, col, outU, outV);
    CoefInside(job.cw, job.outW, col);
    NextCoef(job.cw, job.outW, col);
  }

  lemma NextColumn(p: Plane, row: nat, col: nat)
    ensures p.At(row, col) + p.delta == p.At(row, col + 1)
  {
    assert (col + 1) * p.delta == col * p.delta + p.delta;
  }

  lemma NextRow(p: Plane, row: nat)
    ensures p.At(row, 0) + p.stride == p.At(row + 1, 0)
  {
    assert (row + 1) * p.stride == row * p.stride + p.stride;
  }

  // On an even row the chroma pointers stand at the next chroma column to store.
  predicate ChromaAtColumn(f: Frame, row: nat, col: nat, outU: nat, outV: nat) {
    row % 2 == 0 ==> outU == f.u.At(row / 2, (col + 1) / 2) && outV == f.v.At(row / 2, (col + 1) / 2)
  }

  // At the start of a row they stand at the next chroma row to store.
  predicate ChromaAtRow(f: Frame, row: nat, headU: nat, headV: nat) {
    headU == f.u.At((row + 1) / 2, 0) && headV == f.v.At((row + 1) / 2, 0)
  }

  lemma ChromaRowStart(f: Frame, row: nat, headU: nat, headV: nat)
    requires ChromaAtRow(f, row, headU, headV)
    ensures ChromaAtColumn(f, row, 0, headU, headV)
  {
    hide Plane.At;
  }

  lemma ChromaNextRow(f: Frame, row: nat, headU: nat, headV: nat)
    requires ChromaAtRow(f, row, headU, headV)
    ensures row % 2 == 0 ==> ChromaAtRow(f, row + 1, headU + f.u.stride, headV + f.v.stride)
    ensures row % 2 != 0 ==> ChromaAtRow(f, row + 1, headU, headV)
  {
    hide Plane.At;
    NextRow(f.u, (row + 1) / 2);
    NextRow(f.v, (row + 1) / 2);
  }

  lemma ChromaColumn(f: Frame, row: nat, col: nat, outU: nat, outV: nat)
    requires ChromaAtColumn(f, row, col, outU, outV)
    ensures row % 2 == 0 && col % 2 == 0 ==>
      && outU == f.u.At(row / 2, col / 2) && outV == f.v.At(row / 2, col / 2)
      && ChromaAtColumn(f, row, col + 1, outU + f.u.delta, outV + f.v.delta)
    ensures row % 2 != 0 || col % 2 != 0 ==> ChromaAtColumn(f, row, col + 1, outU, outV)
  {
    hide Plane.At;
    if row % 2 == 0 && col % 2 == 0 {
      NextColumn(f.u, row / 2, col / 2);
      NextColumn(f.v, row / 2, col / 2);
      assert (col + 2) / 2 == col / 2 + 1;
    }
  }

  // The running coefficient does not wrap before the last index.
  lemma NextCoef(c: nat, o: nat, k: nat)
    requires 2 <= c && 2 <= o && k < o
    ensures k + 1 < o ==> Coef(c, o, k) < U32 && Add32(Coef(c, o, k), Step(c, o)) == Coef(c, o, k + 1)
  {
    if k + 1 < o {
      assert (k + 1) * Step(c, o) == k * Step(c, o) + Step(c, o);
      CoefInside(c, o, k);
      CoefInside(c, o, k + 1);
    }
  }

  lemma CoefStart(c: nat, o: nat)
    requires 2 <= c && 2 <= o
    ensures Coef(c, o, 0) == 0
  {
  }

  lemma StartWritten(out0: seq<byte>, src: seq<byte>, fin: Frame, fout: Frame, job: Job)
    requires job.Valid() && Readable(fin, job, |src|) && Writable(fout, job, |out0|)
    ensures Written(out0, out0, src, fin, fout, job, multiset{}) && HitsBefore(multiset{}, job, 0, 0)
    ensures fout.y.At(0, 0) == fout.y.base && ChromaAtRow(fout, 0, fout.u.base, fout.v.base)
  {
  }

  // When the loops have ended, the sites stored are the visible ones.
  lemma FinishWritten(out: seq<byte>, out0: seq<byte>, src: seq<byte>, fin: Frame, fout: Frame, job: Job,
                      hits: multiset<Site>)
    requires job.Valid() && Readable(fin, job, |src|) && Writable(fout, job, |out0|)
    requires Written(out, out0, src, fin, fout, job, hits) && HitsBefore(hits, job, job.outH, 0)
    ensures Complete(out, out0, src, fin, fout, job, hits)
  {
  }

  // Every visible sample was stored exactly once and holds its interpolated value; every
  // other byte is as it was.
  ghost predicate Complete(out: seq<byte>, out0: seq<byte>, src: seq<byte>, fin: Frame, fout: Frame, job: Job,
                           hits: multiset<Site>)
    requires job.Valid() && Readable(fin, job, |src|) && Writable(fout, job, |out0|)
  {
    && |out| == |out0|
    && (forall s :: hits[s] == if Visible(job, s) then 1 else 0)
    && (forall s :: Visible(job, s) ==> out[Address(fout, s)] == Value(src, fin, job, s))
    && (forall a :: 0 <= a < |out| && (forall s :: Visible(job, s) ==> Address(fout, s) != a) ==> out[a] == out0[a])
  }

  // The row loop.
  method ResizeRows(out: array<byte>, src: seq<byte>, fin: Frame, fout: Frame, job: Job)
    returns (ghost hits: multiset<Site>)
    requires job.Valid() && Readable(fin, job, |src|) && Writable(fout, job, out.Length)
    modifies out
    ensures Complete(out[..], old(out[..]), src, fin, fout, job, hits)
  {
    ghost var out0 := out[..];
    StartWritten(out0, src, fin, fout, job);
    CoefStart(job.ch, job.outH);
    hide *;
    hits := multiset{};
    var hStep := Step(job.ch, job.outH);
    var hCoef: u32, headY: nat, headU: nat, headV: nat := 0, fout.y.base, fout.u.base, fout.v.base;
    for row := 0 to job.outH
      invariant row < job.outH ==> hCoef == Coef(job.ch, job.outH, row)
      invariant headY == fout.y.At(row, 0)
      invariant ChromaAtRow(fout, row, headU, headV)
      invariant Written(out[..], out0, src, fin, fout, job, hits) && HitsBefore(hits, job, row, 0)
    {
      hits := ResizeRow(out, src, fin, fout, job, row, hCoef, headY, headU, headV, out0, hits);
      NextCoef(job.ch, job.outH, row);
      hCoef := Add32(hCoef, hStep);
      NextRow(fout.y, row);
      headY := headY + fout.y.stride;
      ChromaNextRow(fout, row, headU, headV);
      if row % 2 == 0 {
        headU := headU + fout.u.stride;
        headV := headV + fout.v.stride;
      }
    }
    FinishWritten(out[..], out0, src, fin, fout, job, hits);
  }

  // The whole resizer. Every visible sample is stored exactly once, with its interpolated
  // value, and every other byte of the output buffer is untouched.
  method Yuv420Resize(out: array<byte>, src: seq<byte>, fin: Frame, fout: Frame, job: Job)
    returns (ghost hits: multiset<Site>)
    requires job.inW >= 1 && job.inH >= 1 ==>
               job.Valid() && Readable(fin, job, |src|) && Writable(fout, job, out.Length)
    modifies out
    ensures job.inW < 1 || job.inH < 1 ==> out[..] == old(out[..])
    ensures job.inW >= 1 && job.inH >= 1 ==> Complete(out[..], old(out[..]), src, fin, fout, job, hits)
  {
    hits := multiset{};
    if job.inW < 1 || job.inH < 1 {
      return;
    }
    hits := ResizeRows(out, src, fin, fout, job);
  }

  // ----- What the samples mean -----

  // The 2x2 window of input samples that output position (row, col) reads.
  predicate InWindow(job: Job, row: nat, col: nat, r: nat, c: nat)
    requires job.Cropped()
  {
    && 0 <= r - job.cy - Offset(Coef(job.ch, job.outH, row)) <= 1
    && 0 <= c - job.cx - Offset(Coef(job.cw, job.outW, col)) <= 1
  }

  // No overshoot: a luma sample lies between the extremes of the four samples it reads, so
  // in particular between any bounds on the crop.
  lemma LumaBetween(src: seq<byte>, p: Plane, job: Job, row: nat, col: nat, lo: int, hi: int)
    requires job.Cropped() && row < job.outH && col < job.outW && p.Fits(job.inH, job.inW, |src|)
    requires forall r: nat, c: nat | r < job.inH && c < job.inW :: InWindow(job, row, col, r, c) ==>
               lo <= Texel(src, p, job.inH, job.inW, r, c) <= hi
    ensures lo <= LumaAt(src, p, job, row, col) <= hi
  {
    LumaReadInside(job, row, col);
    var h, w := Coef(job.ch, job.outH, row), Coef(job.cw, job.outW, col);
    var r, c := job.cy + Offset(h), job.cx + Offset(w);
    assert InWindow(job, row, col, r, c) && InWindow(job, row, col, r + 1, c)
        && InWindow(job, row, col, r, c + 1) && InWindow(job, row, col, r + 1, c + 1);
    hide Blend, Texel, Coef, InWindow;
    BlendBetween(Texel(src, p, job.inH, job.inW, r, c), Texel(src, p, job.inH, job.inW, r + 1, c),
                 Texel(src, p, job.inH, job.inW, r, c + 1), Texel(src, p, job.inH, job.inW, r + 1, c + 1),
                 Weight(h), Weight(w), lo, hi);
  }

  predicate InChromaWindow(job: Job, row: nat, col: nat, r: nat, c: nat)
    requires job.Cropped()
  {
    var oy, ox := Offset(Coef(job.ch, job.outH, row)), Offset(Coef(job.cw, job.outW, col));
    && (r == job.cy / 2 + oy / 2 || r == job.cy / 2 + (oy + 1) / 2)
    && (c == job.cx / 2 + ox / 2 || c == job.cx / 2 + (ox + 1) / 2)
  }

  lemma ChromaBetween(src: seq<byte>, p: Plane, job: Job, row: nat, col: nat, lo: int, hi: int)
    requires job.Valid() && row < job.outH && col < job.outW && row % 2 == 0 && col % 2 == 0
    requires p.Fits(job.inH / 2, job.inW / 2, |src|)
    requires forall r: nat, c: nat | r < job.inH / 2 && c < job.inW / 2 :: InChromaWindow(job, row, col, r, c) ==>
               lo <= Texel(src, p, job.inH / 2, job.inW / 2, r, c) <= hi
    ensures lo <= ChromaAt(src, p, job, row, col) <= hi
  {
    hide Blend, Texel, Coef, Offset, Weight, Plane.Fits, ChromaFits;
    ChromaReadInside(job, row, col);
    var h, w := Coef(job.ch, job.outH, row), Coef(job.cw, job.outW, col);
    var r, c := job.cy / 2 + Offset(h) / 2, job.cx / 2 + Offset(w) / 2;
    var r', c' := job.cy / 2 + (Offset(h) + 1) / 2, job.cx / 2 + (Offset(w) + 1) / 2;
    assert InChromaWindow(job, row, col, r, c) && InChromaWindow(job, row, col, r', c)
        && InChromaWindow(job, row, col, r, c') && InChromaWindow(job, row, col, r', c');
    BlendBetween(Texel(src, p, job.inH / 2, job.inW / 2, r, c), Texel(src, p, job.inH / 2, job.inW / 2, r', c),
                 Texel(src, p, job.inH / 2, job.inW / 2, r, c'), Texel(src, p, job.inH / 2, job.inW / 2, r', c'),
                 Weight(h), Weight(w), lo, hi);
  }

  // The k-th point of the whole-step grid over a crop of c samples at x0.
  function Grid(x0: nat, c: nat, o: nat, k: nat): nat
    requires 2 <= c && 2 <= o
  {
    x0 + k * ((c - 2) / (o - 1))
  }

  // When both steps are whole, resizing is subsampling: the output is a grid of crop samples.
  lemma LumaSubsamples(src: seq<byte>, p: Plane, job: Job, row: nat, col: nat)
    requires job.Cropped() && row < job.outH && col < job.outW && p.Fits(job.inH, job.inW, |src|)
    requires NoOverflow(job.cw) && NoOverflow(job.ch)
    requires (job.cw - 2) % (job.outW - 1) == 0 && (job.ch - 2) % (job.outH - 1) == 0
    ensures var r, c := Grid(job.cy, job.ch, job.outH, row), Grid(job.cx, job.cw, job.outW, col);
            && r < job.inH && c < job.inW
            && LumaAt(src, p, job, row, col) == Texel(src, p, job.inH, job.inW, r, c)
  {
    LumaReadInside(job, row, col);
    WholeSteps(job.cw, job.outW, col);
    WholeSteps(job.ch, job.outH, row);
    hide Coef, Offset, Weight, Step, Plane.Fits, Plane.At;
  }

  // ----- The bilinear formula -----

  // The luma sample is the bilinear mean of its four neighbours, rounded down: the vertical
  // weight comes from the row, the horizontal one from the column.
  lemma LumaIsBilinear(src: seq<byte>, p: Plane, job: Job, row: nat, col: nat, r: nat, c: nat)
    requires job.Cropped() && row < job.outH && col < job.outW && p.Fits(job.inH, job.inW, |src|)
    requires r == job.cy + Offset(Coef(job.ch, job.outH, row)) && c == job.cx + Offset(Coef(job.cw, job.outW, col))
    ensures r + 1 < job.inH && c + 1 < job.inW
    ensures var h, w := Weight(Coef(job.ch, job.outH, row)), Weight(Coef(job.cw, job.outW, col));
            var p1, p2 := Texel(src, p, job.inH, job.inW, r, c), Texel(src, p, job.inH, job.inW, r + 1, c);
            var p3, p4 := Texel(src, p, job.inH, job.inW, r, c + 1), Texel(src, p, job.inH, job.inW, r + 1, c + 1);
            MeanOf(LumaAt(src, p, job, row, col), p1, p2, p3, p4, h, w)
  {
    hide MeanOf, Blend, Texel, Coef, Offset, Weight, Plane.Fits;
    LumaReadInside(job, row, col);
    var h, w := Weight(Coef(job.ch, job.outH, row)), Weight(Coef(job.cw, job.outW, col));
    var p1, p2 := Texel(src, p, job.inH, job.inW, r, c), Texel(src, p, job.inH, job.inW, r + 1, c);
    var p3, p4 := Texel(src, p, job.inH, job.inW, r, c + 1), Texel(src, p, job.inH, job.inW, r + 1, c + 1);
    BlendMean(p1, p2, p3, p4, h, w);
  }

  // The same for a chroma sample: rows and columns of the half-size planes, weights as in luma.
  lemma ChromaIsBilinear(src: seq<byte>, p: Plane, job: Job, row: nat, col: nat, r: nat, r': nat, c: nat, c': nat)
    requires job.Valid() && row < job.outH && col < job.outW && row % 2 == 0 && col % 2 == 0
    requires p.Fits(job.inH / 2, job.inW / 2, |src|)
    requires var y, x := Offset(Coef(job.ch, job.outH, row)), Offset(Coef(job.cw, job.outW, col));
             && r == job.cy / 2 + y / 2 && r' == job.cy / 2 + (y + 1) / 2
             && c == job.cx / 2 + x / 2 && c' == job.cx / 2 + (x + 1) / 2
    ensures r <= r' < job.inH / 2 && c <= c' < job.inW / 2
    ensures var h, w := Weight(Coef(job.ch, job.outH, row)), Weight(Coef(job.cw, job.outW, col));
            var rows, cols := job.inH / 2, job.inW / 2;
            var p1, p2 := Texel(src, p, rows, cols, r, c), Texel(src, p, rows, cols, r', c);
            var p3, p4 := Texel(src, p, rows, cols, r, c'), Texel(src, p, rows, cols, r', c');
            MeanOf(ChromaAt(src, p, job, row, col), p1, p2, p3, p4, h, w)
  {
    hide MeanOf, Blend, Texel, Coef, Offset, Weight, Plane.Fits, ChromaFits;
    ChromaReadInside(job, row, col);
    var h, w := Weight(Coef(job.ch, job.outH, row)), Weight(Coef(job.cw, job.outW, col));
    var rows, cols := job.inH / 2, job.inW / 2;
    var p1, p2 := Texel(src, p, rows, cols, r, c), Texel(src, p, rows, cols, r', c);
    var p3, p4 := Texel(src, p, rows, cols, r, c'), Texel(src, p, rows, cols, r', c');
    BlendMean(p1, p2, p3, p4, h, w);
  }
}
