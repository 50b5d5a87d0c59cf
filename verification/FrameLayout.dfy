// The stride wrappers of hardware/libcamera/Resize.cpp and the plane offsets and buffer sizes
// their callers use (CameraUtils.cpp, AppCallbackNotifier.cpp).
module FrameLayout {
  import opened FixedWidth
  import opened ResizeArithmetic
  import opened Resize

  function Align16(n: nat): nat { (n + 15) / 16 * 16 }

  // Semi-planar: chroma samples interleaved in rows as wide as the luma rows.
  function NvFrame(y: nat, u: nat, v: nat, stride: nat): Frame {
    Frame(Plane(y, stride, 1), Plane(u, stride, 2), Plane(v, stride, 2))
  }

  // Planar: separate half-width chroma planes.
  function YxFrame(y: nat, u: nat, v: nat, stride: nat, chroma: nat): Frame {
    Frame(Plane(y, stride, 1), Plane(u, chroma, 1), Plane(v, chroma, 1))
  }

  function NvInput(w: nat, h: nat): Frame { NvFrame(0, w * h, w * h + 1, w) }
  function YxInput(w: nat, h: nat): Frame { YxFrame(0, w * h, w * h + (w * h) / 4, w, w / 2) }

  // NV21 output: V first, U one byte later.
  function Nv21Output(w: nat, h: nat): Frame {
    NvFrame(0, Align16(w) * h + 1, Align16(w) * h, Align16(w))
  }

  // YV12 output: the V plane, then the U plane.
  function Yv12Output(w: nat, h: nat): Frame {
    YxFrame(0, Align16(w) * h + Align16(w / 2) * (h / 2), Align16(w) * h, Align16(w), Align16(w / 2))
  }

  // What AppCallbackNotifier allocates per callback frame.
  function Yuv420spSize(w: nat, h: nat): nat { Align16(w) * h + Align16(w) * (h / 2) }
  function Yuv420pSize(w: nat, h: nat): nat { Align16(w) * h + Align16(w / 2) * h }

  // What the NV21 output takes up: for an odd height the loops write one more chroma row.
  function Nv21Span(w: nat, h: nat): nat { Align16(w) * h + Align16(w) * ((h + 1) / 2) }

  // The chroma planes of the YV12 output keep apart: whole chroma rows, no wider than their stride.
  predicate PlanarApart(w: nat, h: nat) { h % 2 == 0 && ChromaRowFits(w) }

  predicate ChromaRowFits(w: nat) { (w + 1) / 2 <= Align16(w / 2) }

  // ----- Row-major arithmetic -----

  lemma RowBound(rows: nat, stride: nat, row: nat, x: nat)
    requires row < rows && x < stride
    ensures row * stride + x < rows * stride
  {
    MulMono(row + 1, rows, stride);
  }

  lemma RowMajorDistinct(stride: nat, r1: nat, x1: nat, r2: nat, x2: nat)
    requires x1 < stride && x2 < stride && (r1 != r2 || x1 != x2)
    ensures r1 * stride + x1 != r2 * stride + x2
  {
    if r1 < r2 { RowBound(r2, stride, r1, x1); }
    if r2 < r1 { RowBound(r1, stride, r2, x2); }
  }

  // ----- The two output layouts keep every visible sample apart and inside the buffer -----

  // Plane index, row and byte column of a site, for either layout.
  datatype Cell = Cell(plane: nat, row: nat, x: nat)

  function NvCell(s: Site): Cell {
    match s
    case Y(r, c) => Cell(0, r, c)
    case U(r, c) => Cell(1, r, 2 * c + 1)
    case V(r, c) => Cell(1, r, 2 * c)
  }

  function YxCell(s: Site): Cell {
    match s
    case Y(r, c) => Cell(0, r, c)
    case U(r, c) => Cell(2, r, c)
    case V(r, c) => Cell(1, r, c)
  }

  // Where a cell lies when the luma plane has rows of a bytes and ta bytes in all, followed by
  // chroma planes with rows of b bytes and tb bytes each.
  function Position(a: nat, b: nat, ta: nat, tb: nat, c: Cell): nat {
    if c.plane == 0 then c.row * a + c.x
    else ta + (if c.plane == 1 then 0 else tb) + (c.row * b + c.x)
  }

  predicate InPlane(a: nat, b: nat, ta: nat, tb: nat, c: Cell) {
    c.plane < 3 && if c.plane == 0 then c.x < a && c.row * a + c.x < ta else c.x < b && c.row * b + c.x < tb
  }

  lemma CellsApart(a: nat, b: nat, ta: nat, tb: nat, c: Cell, d: Cell)
    requires c != d && InPlane(a, b, ta, tb, c) && InPlane(a, b, ta, tb, d)
    ensures Position(a, b, ta, tb, c) != Position(a, b, ta, tb, d)
  {
    if c.plane == d.plane {
      RowMajorDistinct(if c.plane == 0 then a else b, c.row, c.x, d.row, d.x);
    }
  }

  lemma CellsInjective(s: Site, t: Site)
    requires s != t
    ensures NvCell(s) != NvCell(t) && YxCell(s) != YxCell(t)
  {
  }

  lemma Nv21Inside(job: Job, s: Site)
    requires job.Cropped() && Visible(job, s)
    ensures var a, rows := Align16(job.outW), (job.outH + 1) / 2;
      && InPlane(a, a, a * job.outH, a * rows, NvCell(s)) && NvCell(s).plane < 2
      && Address(Nv21Output(job.outW, job.outH), s) == Position(a, a, a * job.outH, a * rows, NvCell(s))
  {
    var a, cell := Align16(job.outW), NvCell(s);
    RowBound(if cell.plane == 0 then job.outH else (job.outH + 1) / 2, a, cell.row, cell.x);
  }

  lemma Nv21Apart(job: Job, s: Site, t: Site)
    requires job.Cropped() && Visible(job, s) && Visible(job, t) && s != t
    ensures Address(Nv21Output(job.outW, job.outH), s) != Address(Nv21Output(job.outW, job.outH), t)
  {
    hide *;
    Nv21Inside(job, s);
    Nv21Inside(job, t);
    CellsInjective(s, t);
    var a := Align16(job.outW);
    CellsApart(a, a, a * job.outH, a * ((job.outH + 1) / 2), NvCell(s), NvCell(t));
  }

  lemma Nv21Writable(job: Job, size: nat)
    requires job.Cropped() && Nv21Span(job.outW, job.outH) <= size
    ensures Writable(Nv21Output(job.outW, job.outH), job, size)
  {
    hide Align16, Address, Visible;
    forall s | Visible(job, s) ensures Address(Nv21Output(job.outW, job.outH), s) < Nv21Span(job.outW, job.outH) {
      Nv21Inside(job, s);
    }
    forall s, t | Visible(job, s) && Visible(job, t) && s != t
      ensures Address(Nv21Output(job.outW, job.outH), s) != Address(Nv21Output(job.outW, job.outH), t)
    {
      Nv21Apart(job, s, t);
    }
  }

  // The semi-planar output fits the callback buffer if and only if its height is even: the
  // last chroma row of an odd height starts right behind the buffer.
  lemma Nv21WritableIff(job: Job)
    requires job.Cropped()
    ensures Writable(Nv21Output(job.outW, job.outH), job, Yuv420spSize(job.outW, job.outH)) <==> job.outH % 2 == 0
  {
    hide Align16;
    var h, size := job.outH, Yuv420spSize(job.outW, job.outH);
    if h % 2 == 0 {
      assert (h + 1) / 2 == h / 2;
      Nv21Writable(job, size);
    } else {
      var s := V(h / 2, 0);
      assert (h / 2) * Align16(job.outW) == Align16(job.outW) * (h / 2);
      assert Visible(job, s) && Address(Nv21Output(job.outW, h), s) == size;
    }
  }

  lemma Yv12Inside(job: Job, s: Site)
    requires job.Cropped() && PlanarApart(job.outW, job.outH) && Visible(job, s)
    ensures var a, b := Align16(job.outW), Align16(job.outW / 2);
      && InPlane(a, b, a * job.outH, b * (job.outH / 2), YxCell(s))
      && Address(Yv12Output(job.outW, job.outH), s) == Position(a, b, a * job.outH, b * (job.outH / 2), YxCell(s))
  {
    var cell := YxCell(s);
    if cell.plane == 0 {
      RowBound(job.outH, Align16(job.outW), cell.row, cell.x);
    } else {
      RowBound(job.outH / 2, Align16(job.outW / 2), cell.row, cell.x);
    }
  }

  lemma Yv12Apart(job: Job, s: Site, t: Site)
    requires job.Cropped() && PlanarApart(job.outW, job.outH) && Visible(job, s) && Visible(job, t) && s != t
    ensures Address(Yv12Output(job.outW, job.outH), s) != Address(Yv12Output(job.outW, job.outH), t)
  {
    hide *;
    Yv12Inside(job, s);
    Yv12Inside(job, t);
    CellsInjective(s, t);
    var a, b := Align16(job.outW), Align16(job.outW / 2);
    CellsApart(a, b, a * job.outH, b * (job.outH / 2), YxCell(s), YxCell(t));
  }

  lemma Yv12Writable(job: Job, size: nat)
    requires job.Cropped() && PlanarApart(job.outW, job.outH) && Yuv420pSize(job.outW, job.outH) <= size
    ensures Writable(Yv12Output(job.outW, job.outH), job, size)
  {
    hide Address, Visible, ChromaRowFits, Align16;
    forall s | Visible(job, s) ensures Address(Yv12Output(job.outW, job.outH), s) < Yuv420pSize(job.outW, job.outH) {
      Yv12Inside(job, s);
      TwoHalves(job.outH, Align16(job.outW / 2));
    }
    forall s, t | Visible(job, s) && Visible(job, t) && s != t
      ensures Address(Yv12Output(job.outW, job.outH), s) != Address(Yv12Output(job.outW, job.outH), t)
    {
      Yv12Apart(job, s, t);
    }
  }

  lemma TwoHalves(h: nat, b: nat)
    ensures h % 2 == 0 ==> b * h == b * (h / 2) + b * (h / 2)
    ensures h % 2 == 1 ==> b * h == b * (h / 2) + b * (h / 2) + b
  {
    var k := h / 2;
    assert h == k + k || h == k + k + 1;
    assert b * (k + k) == b * k + b * k;
    assert b * (k + k + 1) == b * k + b * k + b;
  }

  // The planar output keeps every sample, in a buffer of the callback size or larger, if and
  // only if its height is even and a chroma row fits its stride. Otherwise two samples share
  // an address and one of them is lost.
  lemma Yv12WritableIff(job: Job, size: nat)
    requires job.Cropped() && Yuv420pSize(job.outW, job.outH) <= size
    ensures Writable(Yv12Output(job.outW, job.outH), job, size) <==> PlanarApart(job.outW, job.outH)
  {
    if PlanarApart(job.outW, job.outH) {
      Yv12Writable(job, size);
    } else if job.outH % 2 == 1 {
      Yv12OddHeight(job);
      assert V(job.outH / 2, 0) != U(0, 0);
    } else {
      Yv12WideRow(job);
      var s := if job.outH == 2 then U(0, 0) else V(1, 0);
      assert V(0, Align16(job.outW / 2)) != s;
    }
  }

  // The last V row of an odd height is the first U row.
  lemma Yv12OddHeight(job: Job)
    requires job.Cropped() && job.outH % 2 == 1
    ensures Visible(job, V(job.outH / 2, 0)) && Visible(job, U(0, 0))
    ensures var f := Yv12Output(job.outW, job.outH); Address(f, V(job.outH / 2, 0)) == Address(f, U(0, 0))
  {
    hide Align16;
    var b := Align16(job.outW / 2);
    assert (job.outH / 2) * b == b * (job.outH / 2);
  }

  // A chroma row wider than its stride runs into the next one.
  lemma Yv12WideRow(job: Job)
    requires job.Cropped() && !ChromaRowFits(job.outW) && job.outH % 2 == 0
    ensures var b, f := Align16(job.outW / 2), Yv12Output(job.outW, job.outH);
      var s := if job.outH == 2 then U(0, 0) else V(1, 0);
      Visible(job, V(0, b)) && Visible(job, s) && Address(f, V(0, b)) == Address(f, s)
  {
    var b := Align16(job.outW / 2);
    assert b == job.outW / 2;
    assert b * 1 == b;
  }

  // Whether the planes overlap or not, the planar output stays inside the callback buffer if
  // and only if a chroma row fits its stride.
  lemma Yv12RoomIff(job: Job)
    requires job.Cropped()
    ensures (forall s :: Visible(job, s) ==>
               Address(Yv12Output(job.outW, job.outH), s) < Yuv420pSize(job.outW, job.outH))
       <==> ChromaRowFits(job.outW)
  {
    var f, size := Yv12Output(job.outW, job.outH), Yuv420pSize(job.outW, job.outH);
    if ChromaRowFits(job.outW) {
      forall s | Visible(job, s) ensures Address(f, s) < size {
        Yv12Room(job, s);
      }
    } else {
      Yv12LastSample(job);
      assert Visible(job, U((job.outH + 1) / 2 - 1, (job.outW + 1) / 2 - 1));
    }
  }

  lemma Yv12Room(job: Job, s: Site)
    requires job.Cropped() && ChromaRowFits(job.outW) && Visible(job, s)
    ensures Address(Yv12Output(job.outW, job.outH), s) < Yuv420pSize(job.outW, job.outH)
  {
    hide Align16;
    var a, b, h := Align16(job.outW), Align16(job.outW / 2), job.outH;
    AlignUp(job.outW);
    match s
    case Y(r, c) => LumaRoom(h, a, r, c);
    case U(r, c) => ChromaRoom(h, b, r, c);
    case V(r, c) => ChromaRoom(h, b, r, c);
  }

  lemma LumaRoom(h: nat, a: nat, r: nat, c: nat)
    requires r < h && c < a
    ensures r * a + c < a * h
  {
    RowBound(h, a, r, c);
    assert h * a == a * h;
  }

  lemma ChromaRoom(h: nat, b: nat, r: nat, c: nat)
    requires r < (h + 1) / 2 && c < b
    ensures r * b + c <= b * (h / 2) + (r * b + c) < b * h
  {
    RowBound((h + 1) / 2, b, r, c);
    RowsOf(h, b);
    TwoHalves(h, b);
  }

  lemma AlignUp(n: nat)
    ensures n <= Align16(n)
  {
  }

  lemma RowsOf(h: nat, b: nat)
    ensures ((h + 1) / 2) * b == if h % 2 == 0 then b * (h / 2) else b * (h / 2) + b
  {
    var k := h / 2;
    assert (h + 1) / 2 == if h % 2 == 0 then k else k + 1;
    assert (k + 1) * b == b * k + b && k * b == b * k;
  }

  lemma Yv12LastSample(job: Job)
    requires job.Cropped() && !ChromaRowFits(job.outW)
    ensures Address(Yv12Output(job.outW, job.outH), U((job.outH + 1) / 2 - 1, (job.outW + 1) / 2 - 1))
         >= Yuv420pSize(job.outW, job.outH)
  {
    hide Align16;
    var b, h, rows := Align16(job.outW / 2), job.outH, (job.outH + 1) / 2;
    TwoHalves(h, b);
    RowsOf(h, b);
    assert (rows - 1) * b == rows * b - b;
  }

  // ----- The input frames -----

  // A plane whose rows, counted from `start`, hold its samples and end inside the buffer.
  lemma FitsRows(p: Plane, start: nat, rows: nat, cols: nat, size: nat)
    requires rows > 0 && cols > 0 && start <= p.base
    requires (p.base - start) + (cols - 1) * p.delta < p.stride && start + rows * p.stride <= size
    ensures p.Fits(rows, cols, size)
  {
    RowBound(rows, p.stride, rows - 1, (p.base - start) + (cols - 1) * p.delta);
  }

  lemma NvReadable(job: Job, size: nat)
    requires job.Cropped() && job.inW * job.inH * 3 / 2 <= size
    ensures Readable(NvInput(job.inW, job.inH), job, size)
  {
    var w, h, f := job.inW, job.inH, NvInput(job.inW, job.inH);
    Half(w, h);
    FitsRows(f.y, 0, h, w, size);
    FitsRows(f.u, w * h, h / 2, w / 2, size);
    FitsRows(f.v, w * h, h / 2, w / 2, size);
    hide Plane.Fits;
  }

  lemma YxReadable(job: Job, size: nat)
    requires job.Cropped() && job.inW * job.inH * 3 / 2 <= size
    ensures Readable(YxInput(job.inW, job.inH), job, size)
  {
    var w, h, f := job.inW, job.inH, YxInput(job.inW, job.inH);
    Quarter(w, h);
    FitsRows(f.y, 0, h, w, size);
    FitsRows(f.u, f.u.base, h / 2, w / 2, size);
    FitsRows(f.v, f.v.base, h / 2, w / 2, size);
    hide Plane.Fits;
  }

  lemma Half(w: nat, h: nat)
    ensures 2 * ((h / 2) * w) <= w * h && h * w == w * h
  {
    var k := h / 2;
    MulMono(2 * k, h, w);
    assert (2 * k) * w == 2 * (k * w);
  }

  lemma Quarter(w: nat, h: nat)
    ensures 4 * ((h / 2) * (w / 2)) <= w * h
  {
    var a, b := w / 2, h / 2;
    MulMono(2 * b, h, w);
    MulMono(2 * a, w, 2 * b);
    assert (2 * a) * (2 * b) == 4 * (b * a);
  }

  // ----- Which plane goes where, byte by byte -----

  // Every byte of a region of rows at `base` lies between lo and hi.
  ghost predicate Range(bytes: seq<byte>, base: int, stride: int, delta: int, rows: int, cols: int, lo: int, hi: int) {
    forall i: nat, j: nat :: i < rows && j < cols ==> InRange(bytes, base + i * stride + j * delta, lo, hi)
  }

  predicate InRange(bytes: seq<byte>, k: int, lo: int, hi: int) { 0 <= k < |bytes| && lo <= bytes[k] <= hi }

  lemma TexelRange(src: seq<byte>, p: Plane, rows: nat, cols: nat, r: nat, c: nat, lo: int, hi: int)
    requires Range(src, p.base, p.stride, p.delta, rows, cols, lo, hi)
    requires p.Fits(rows, cols, |src|) && r < rows && c < cols
    ensures lo <= Texel(src, p, rows, cols, r, c) <= hi
  {
    assert InRange(src, p.base + r * p.stride + c * p.delta, lo, hi);
  }

  // A range of an input plane is a range of the plane it is resized into.
  lemma LumaRange(job: Job, src: seq<byte>, out: seq<byte>, out0: seq<byte>, fin: Frame, fout: Frame,
                  hits: multiset<Site>, lo: int, hi: int, r: nat, c: nat)
    requires job.Valid() && Readable(fin, job, |src|) && Writable(fout, job, |out0|)
    requires Complete(out, out0, src, fin, fout, job, hits) && r < job.outH && c < job.outW
    requires Range(src, fin.y.base, fin.y.stride, fin.y.delta, job.inH, job.inW, lo, hi)
    ensures InRange(out, fout.y.At(r, c), lo, hi)
  {
    hide Range, LumaAt, Plane.At, Plane.Fits, InWindow, ChromaFits;
    assert Visible(job, Y(r, c)) && Address(fout, Y(r, c)) == fout.y.At(r, c);
    forall i: nat, j: nat | i < job.inH && j < job.inW ensures lo <= Texel(src, fin.y, job.inH, job.inW, i, j) <= hi {
      TexelRange(src, fin.y, job.inH, job.inW, i, j, lo, hi);
    }
    LumaBetween(src, fin.y, job, r, c, lo, hi);
  }

  lemma ChromaRange(job: Job, src: seq<byte>, p: Plane, lo: int, hi: int, r: nat, c: nat)
    requires job.Valid() && p.Fits(job.inH / 2, job.inW / 2, |src|) && 2 * r < job.outH && 2 * c < job.outW
    requires Range(src, p.base, p.stride, p.delta, job.inH / 2, job.inW / 2, lo, hi)
    ensures lo <= ChromaAt(src, p, job, 2 * r, 2 * c) <= hi
  {
    hide Range, ChromaAt, Plane.At, Plane.Fits, InChromaWindow, ChromaFits;
    forall i: nat, j: nat | i < job.inH / 2 && j < job.inW / 2
      ensures lo <= Texel(src, p, job.inH / 2, job.inW / 2, i, j) <= hi
    {
      TexelRange(src, p, job.inH / 2, job.inW / 2, i, j, lo, hi);
    }
    ChromaBetween(src, p, job, 2 * r, 2 * c, lo, hi);
  }

  lemma UvRange(job: Job, src: seq<byte>, out: seq<byte>, out0: seq<byte>, fin: Frame, fout: Frame,
                hits: multiset<Site>, ulo: int, uhi: int, vlo: int, vhi: int, r: nat, c: nat)
    requires job.Valid() && Readable(fin, job, |src|) && Writable(fout, job, |out0|)
    requires Complete(out, out0, src, fin, fout, job, hits) && 2 * r < job.outH && 2 * c < job.outW
    requires Range(src, fin.u.base, fin.u.stride, fin.u.delta, job.inH / 2, job.inW / 2, ulo, uhi)
    requires Range(src, fin.v.base, fin.v.stride, fin.v.delta, job.inH / 2, job.inW / 2, vlo, vhi)
    ensures InRange(out, fout.u.At(r, c), ulo, uhi) && InRange(out, fout.v.At(r, c), vlo, vhi)
  {
    hide Range, ChromaAt, LumaAt, Plane.At, Plane.Fits, ChromaFits;
    assert Visible(job, U(r, c)) && Address(fout, U(r, c)) == fout.u.At(r, c);
    assert Visible(job, V(r, c)) && Address(fout, V(r, c)) == fout.v.At(r, c);
    ChromaRange(job, src, fin.u, ulo, uhi, r, c);
    ChromaRange(job, src, fin.v, vlo, vhi, r, c);
  }

  // NV12 to NV21, in bytes. In the input U comes first in each pair, in the output V.
  lemma Nv12ToNv21Bytes(job: Job, src: seq<byte>, out: seq<byte>, out0: seq<byte>, hits: multiset<Site>,
                        ulo: int, uhi: int, vlo: int, vhi: int, r: nat, c: nat)
    requires job.Valid() && job.inW * job.inH * 3 / 2 <= |src| && Nv21Span(job.outW, job.outH) <= |out0|
    requires Readable(NvInput(job.inW, job.inH), job, |src|) && Writable(Nv21Output(job.outW, job.outH), job, |out0|)
    requires Complete(out, out0, src, NvInput(job.inW, job.inH), Nv21Output(job.outW, job.outH), job, hits)
    requires 2 * r < job.outH && 2 * c < job.outW
    requires Range(src, job.inW * job.inH, job.inW, 2, job.inH / 2, job.inW / 2, ulo, uhi)
    requires Range(src, job.inW * job.inH + 1, job.inW, 2, job.inH / 2, job.inW / 2, vlo, vhi)
    ensures var a := (job.outW + 15) / 16 * 16;
      InRange(out, a * job.outH + r * a + 2 * c, vlo, vhi) && InRange(out, a * job.outH + 1 + r * a + 2 * c, ulo, uhi)
  {
    hide Range, Complete, Readable, Writable, Align16, InRange, ChromaFits;
    AlignMeans(job.outW);
    UvRange(job, src, out, out0, NvInput(job.inW, job.inH), Nv21Output(job.outW, job.outH), hits,
            ulo, uhi, vlo, vhi, r, c);
  }

  // YU12 to YV12, in bytes. In the input the U plane comes before the V plane, in the output after it.
  lemma Yu12ToYv12Bytes(job: Job, src: seq<byte>, out: seq<byte>, out0: seq<byte>, hits: multiset<Site>,
                        ulo: int, uhi: int, vlo: int, vhi: int, r: nat, c: nat)
    requires job.Valid() && job.inW * job.inH * 3 / 2 <= |src|
    requires Readable(YxInput(job.inW, job.inH), job, |src|) && Writable(Yv12Output(job.outW, job.outH), job, |out0|)
    requires Complete(out, out0, src, YxInput(job.inW, job.inH), Yv12Output(job.outW, job.outH), job, hits)
    requires 2 * r < job.outH && 2 * c < job.outW
    requires Range(src, job.inW * job.inH, job.inW / 2, 1, job.inH / 2, job.inW / 2, ulo, uhi)
    requires Range(src, job.inW * job.inH + (job.inW * job.inH) / 4, job.inW / 2, 1, job.inH / 2, job.inW / 2, vlo, vhi)
    ensures var a, b := (job.outW + 15) / 16 * 16, (job.outW / 2 + 15) / 16 * 16;
      InRange(out, a * job.outH + r * b + c, vlo, vhi) &&
      InRange(out, a * job.outH + b * (job.outH / 2) + r * b + c, ulo, uhi)
  {
    hide Range, Complete, Readable, Writable, Align16, InRange, ChromaFits;
    AlignMeans(job.outW);
    AlignMeans(job.outW / 2);
    UvRange(job, src, out, out0, YxInput(job.inW, job.inH), Yv12Output(job.outW, job.outH), hits,
            ulo, uhi, vlo, vhi, r, c);
  }

  lemma AlignMeans(n: nat)
    ensures Align16(n) == (n + 15) / 16 * 16
  {
  }

  // ----- The callers -----

  datatype Source = NullBuffer | Bytes(data: seq<byte>)

  method ResizeNv12ToNv21(dst: array?<byte>, src: Source, job: Job) returns (ok: bool, ghost hits: multiset<Site>)
    requires dst != null && src.Bytes? ==>
               job.Valid() && job.inW * job.inH * 3 / 2 <= |src.data| && Nv21Span(job.outW, job.outH) <= dst.Length
    modifies dst
    ensures ok == (dst != null && src.Bytes?)
    ensures dst != null && !ok ==> dst[..] == old(dst[..])
    ensures ok ==>
      && Readable(NvInput(job.inW, job.inH), job, |src.data|)
      && Writable(Nv21Output(job.outW, job.outH), job, dst.Length)
      && Complete(dst[..], old(dst[..]), src.data, NvInput(job.inW, job.inH), Nv21Output(job.outW, job.outH), job, hits)
  {
    hits := multiset{};
    if dst == null || src.NullBuffer? {
      return false, hits;
    }
    NvReadable(job, |src.data|);
    Nv21Writable(job, dst.Length);
    hide *;
    hits := Yuv420Resize(dst, src.data, NvInput(job.inW, job.inH), Nv21Output(job.outW, job.outH), job);
    ok := true;
  }

  method ResizeYu12ToYv12(dst: array?<byte>, src: Source, job: Job) returns (ok: bool, ghost hits: multiset<Site>)
    requires dst != null && src.Bytes? ==>
               && job.Valid() && job.inW * job.inH * 3 / 2 <= |src.data|
               && PlanarApart(job.outW, job.outH) && Yuv420pSize(job.outW, job.outH) <= dst.Length
    modifies dst
    ensures ok == (dst != null && src.Bytes?)
    ensures dst != null && !ok ==> dst[..] == old(dst[..])
    ensures ok ==>
      && Readable(YxInput(job.inW, job.inH), job, |src.data|)
      && Writable(Yv12Output(job.outW, job.outH), job, dst.Length)
      && Complete(dst[..], old(dst[..]), src.data, YxInput(job.inW, job.inH), Yv12Output(job.outW, job.outH), job, hits)
  {
    hits := multiset{};
    if dst == null || src.NullBuffer? {
      return false, hits;
    }
    YxReadable(job, |src.data|);
    Yv12Writable(job, dst.Length);
    hide *;
    hits := Yuv420Resize(dst, src.data, YxInput(job.inW, job.inH), Yv12Output(job.outW, job.outH), job);
    ok := true;
  }
}
