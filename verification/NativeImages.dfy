/** `NativeImageUtil`: images of several planes in one flat allocation, copied plane by plane or row
    by row. Sizes are unbounded integers. */
module NativeImages {
  import opened Utf8

  const RGBA := 1
  const NV21 := 2
  const NV12 := 3
  const I420 := 4

  // ---------------------------------------------------------------- rows and planes

  function RowStart(base: int, line: int, i: int): (r: int) { base + i * line }

  predicate SameBytes(a: seq<Byte>, x: int, b: seq<Byte>, y: int, n: int)
  {
    && 0 <= x && 0 <= y && 0 <= n && x + n <= |a| && y + n <= |b|
    && a[x..x + n] == b[y..y + n]
  }

  /** Every visible byte of a plane of `rows` rows of `width` bytes is the same on both sides. */
  predicate SamePlane(a: seq<Byte>, aBase: int, aLine: int, b: seq<Byte>, bBase: int, bLine: int, rows: int, width: int)
  {
    forall i :: 0 <= i < rows ==> SameBytes(a, RowStart(aBase, aLine, i), b, RowStart(bBase, bLine, i), width)
  }

  /** `b` agrees with `a` outside [lo, hi). */
  predicate SameOutside(a: seq<Byte>, b: seq<Byte>, lo: int, hi: int)
  {
    |a| == |b| && forall k :: 0 <= k < |a| && !(lo <= k < hi) ==> a[k] == b[k]
  }

  lemma RowOrder(line: int, i: int, j: int)
    requires line >= 0 && i <= j
    ensures i * line <= j * line
  {
  }

  /** Row `i` ends before row `i + 1` begins, and row `rows - 1` ends before the plane does. */
  lemma RowFits(base: int, line: int, rows: int, width: int, i: int)
    requires 0 <= width <= line && 0 <= i < rows
    ensures base <= RowStart(base, line, i) && RowStart(base, line, i) + width <= RowStart(base, line, i + 1)
    ensures RowStart(base, line, i + 1) <= RowStart(base, line, rows)
  {
  }

  method Memcpy(dst: array<Byte>, d: int, src: array<Byte>, s: int, n: int)
    requires dst != src // the regions do not overlap
    requires 0 <= n && 0 <= d && d + n <= dst.Length && 0 <= s && s + n <= src.Length
    modifies dst
    ensures SameBytes(dst[..], d, src[..], s, n)
    ensures SameOutside(old(dst[..]), dst[..], d, d + n)
  {
    for k := 0 to n
      invariant forall j :: d <= j < d + k ==> dst[j] == src[s + (j - d)]
      invariant forall j :: 0 <= j < dst.Length && !(d <= j < d + k) ==> dst[j] == old(dst[j])
    {
      dst[d + k] := src[s + k];
    }
    assert dst[..][d..d + n] == src[..][s..s + n];
  }

  /** A plane that was the same stays the same when the rest of the buffer changes. */
  lemma PlaneKept(a: seq<Byte>, a': seq<Byte>, aBase: int, aLine: int, b: seq<Byte>,
                  bBase: int, bLine: int, rows: int, width: int,
                  lo: int, hi: int)
    requires SamePlane(a, aBase, aLine, b, bBase, bLine, rows, width) && SameOutside(a, a', lo, hi)
    requires 0 <= width <= aLine && (RowStart(aBase, aLine, rows) <= lo || hi <= aBase)
    ensures SamePlane(a', aBase, aLine, b, bBase, bLine, rows, width)
  {
    forall i | 0 <= i < rows
      ensures SameBytes(a', RowStart(aBase, aLine, i), b, RowStart(bBase, bLine, i), width)
    {
      RowFits(aBase, aLine, rows, width, i);
      var x := RowStart(aBase, aLine, i);
      assert SameBytes(a, x, b, RowStart(bBase, bLine, i), width);
      assert a'[x..x + width] == a[x..x + width];
    }
  }

  /** The per-row branch. */
  method CopyRows(dst: array<Byte>, d: int, dLine: int, src: array<Byte>, s: int, sLine: int, rows: int, width: int)
    requires dst != src && 0 <= rows && 0 <= width <= dLine && width <= sLine && 0 <= d && 0 <= s
    requires RowStart(d, dLine, rows) <= dst.Length
    requires rows > 0 ==> RowStart(s, sLine, rows - 1) + width <= src.Length
    modifies dst
    ensures SamePlane(dst[..], d, dLine, src[..], s, sLine, rows, width)
    ensures SameOutside(old(dst[..]), dst[..], d, RowStart(d, dLine, rows))
  {
    hide SameBytes, RowStart, SameOutside;
    ghost var before := dst[..];
    Unchanged(before, d, RowStart(d, dLine, rows));
    for i := 0 to rows
      invariant SamePlane(dst[..], d, dLine, src[..], s, sLine, i, width)
      invariant SameOutside(before, dst[..], d, RowStart(d, dLine, rows))
    {
      ghost var was := dst[..];
      RowFits(d, dLine, rows, width, i);
      SourceRowFits(s, sLine, rows, width, i);
      Memcpy(dst, RowStart(d, dLine, i), src, RowStart(s, sLine, i), width);
      PlaneKept(was, dst[..], d, dLine, src[..], s, sLine, i, width,
                RowStart(d, dLine, i), RowStart(d, dLine, i) + width);
      OutsideChain(before, was, dst[..], d, RowStart(d, dLine, rows),
                   RowStart(d, dLine, i), RowStart(d, dLine, i) + width);
    }
  }

  lemma Unchanged(a: seq<Byte>, lo: int, hi: int)
    ensures SameOutside(a, a, lo, hi)
  {
  }

  lemma SourceRowFits(base: int, line: int, rows: int, width: int, i: int)
    requires 0 <= width <= line && 0 <= i < rows
    ensures base <= RowStart(base, line, i) <= RowStart(base, line, rows - 1)
  {
  }

  lemma OutsideChain(a: seq<Byte>, b: seq<Byte>, c: seq<Byte>, lo: int, hi: int, lo': int, hi': int)
    requires SameOutside(a, b, lo, hi) && SameOutside(b, c, lo', hi') && lo <= lo' && hi' <= hi
    ensures SameOutside(a, c, lo, hi)
  {
  }

  lemma SliceOfSlice(a: seq<Byte>, base: int, n: int, o: int, width: int)
    requires 0 <= base && 0 <= o && 0 <= width && o + width <= n && base + n <= |a|
    ensures a[base + o..base + o + width] == a[base..base + n][o..o + width]
  {
    var x, s := a[base + o..base + o + width], a[base..base + n];
    assert forall k :: 0 <= k < width ==> x[k] == s[o + k];
    assert x == s[o..o + width];
  }

  /** The whole-plane branch: one copy of `bytes` bytes covers every row. */
  lemma WholeCoversRows(a: seq<Byte>, aBase: int, b: seq<Byte>, bBase: int, line: int,
                        rows: int, width: int, bytes: int)
    requires SameBytes(a, aBase, b, bBase, bytes) && 0 <= width <= line && rows * line <= bytes
    ensures SamePlane(a, aBase, line, b, bBase, line, rows, width)
  {
    forall i | 0 <= i < rows
      ensures SameBytes(a, RowStart(aBase, line, i), b, RowStart(bBase, line, i), width)
    {
      RowFits(0, line, rows, width, i);
      var o := i * line;
      assert 0 <= o && o + width <= bytes;
      SliceOfSlice(a, aBase, bytes, o, width);
      SliceOfSlice(b, bBase, bytes, o, width);
    }
  }

  /** The copy of one plane: from line size `sLine` at `s` to line size `dLine` at `d`. */
  datatype PlaneCopy = PlaneCopy(d: int, dLine: int, s: int, sLine: int, rows: int, width: int, bytes: int)

  /** Where it ends in the destination, as far as its rows go. */
  function RowsEnd(c: PlaneCopy): (r: int) { RowStart(c.d, c.dLine, c.rows) }

  /** Whatever either branch touches lies inside the two buffers. */
  predicate InBuffers(c: PlaneCopy, dLength: int, sLength: int)
  {
    && 0 <= c.rows && 0 <= c.width <= c.dLine && c.width <= c.sLine && 0 <= c.d && 0 <= c.s
    && RowsEnd(c) <= c.d + c.bytes <= dLength
    && if c.sLine == c.dLine then c.s + c.bytes <= sLength
       else c.rows > 0 ==> RowStart(c.s, c.sLine, c.rows - 1) + c.width <= sLength
  }

  predicate Copied(a: seq<Byte>, b: seq<Byte>, c: PlaneCopy)
  {
    SamePlane(a, c.d, c.dLine, b, c.s, c.sLine, c.rows, c.width)
  }

  /** One plane of `CopyNativeImage`: row by row when the line sizes differ, else `bytes` bytes at once. */
  method CopyPlane(dst: array<Byte>, src: array<Byte>, c: PlaneCopy)
    requires dst != src && InBuffers(c, dst.Length, src.Length)
    modifies dst
    ensures Copied(dst[..], src[..], c)
    ensures SameOutside(old(dst[..]), dst[..], c.d, c.d + c.bytes)
  {
    if c.sLine != c.dLine {
      CopyRows(dst, c.d, c.dLine, src, c.s, c.sLine, c.rows, c.width);
    } else {
      RowOrder(c.dLine, 0, c.rows);
      Memcpy(dst, c.d, src, c.s, c.bytes);
      WholeCoversRows(dst[..], c.d, src[..], c.s, c.dLine, c.rows, c.width, c.bytes);
    }
  }

  lemma CopiedKept(a: seq<Byte>, a': seq<Byte>, b: seq<Byte>, c: PlaneCopy, lo: int, hi: int)
    requires Copied(a, b, c) && SameOutside(a, a', lo, hi) && 0 <= c.width <= c.dLine && RowsEnd(c) <= lo
    ensures Copied(a', b, c)
  {
    PlaneKept(a, a', c.d, c.dLine, b, c.s, c.sLine, c.rows, c.width, lo, hi);
  }

  /** Three planes in order. The copy of one may run past its rows into the next, which is then
      overwritten; none touches the rows of an earlier one. */
  method CopyThree(dst: array<Byte>, src: array<Byte>, x: PlaneCopy, y: PlaneCopy, z: PlaneCopy)
    requires dst != src
    requires InBuffers(x, dst.Length, src.Length) && InBuffers(y, dst.Length, src.Length)
             && InBuffers(z, dst.Length, src.Length)
    requires RowsEnd(x) <= y.d && RowsEnd(y) <= z.d && RowsEnd(x) <= z.d
    modifies dst
    ensures Copied(dst[..], src[..], x) && Copied(dst[..], src[..], y) && Copied(dst[..], src[..], z)
  {
    hide Copied, SameOutside, RowsEnd;
    CopyPlane(dst, src, x);
    ghost var first := dst[..];
    CopyPlane(dst, src, y);
    CopiedKept(first, dst[..], src[..], x, y.d, y.d + y.bytes);
    ghost var second := dst[..];
    CopyPlane(dst, src, z);
    CopiedKept(second, dst[..], src[..], x, z.d, z.d + z.bytes);
    CopiedKept(second, dst[..], src[..], y, z.d, z.d + z.bytes);
  }

  // ---------------------------------------------------------------- images

  /** An image whose planes lie in one allocation: plane `k` starts at byte `plane[k]` of `data`. A null
      `data` is an image that has not been allocated. */
  class NativeImage {
    var width: int
    var height: int
    var format: int
    var data: array?<Byte>
    var plane: seq<int>
    var lineSize: seq<int>
  }

  predicate Supported(format: int) { format in {RGBA, NV21, NV12, I420} }

  /** `malloc(width * height * 1.5)` for the planar formats: the fraction is cut off. */
  function AllocSize(format: int, w: int, h: int): (n: int)
  {
    if format == RGBA then w * h * 4 else 3 * (w * h) / 2
  }

  function AllocPlanes(format: int, w: int, h: int): (p: seq<int>)
  {
    if format == RGBA then [0, 0, 0]
    else if format == I420 then [0, w * h, w * h + (w / 2) * (h / 2)]
    else [0, w * h, 0]
  }

  function AllocLines(format: int, w: int): (l: seq<int>)
  {
    if format == RGBA then [w * 4, 0, 0] else if format == I420 then [w, w / 2, w / 2] else [w, w, 0]
  }

  /** Laid out as `AllocNativeImage` does. */
  predicate Allocated(img: NativeImage)
    reads img
  {
    && img.data != null && Supported(img.format) && img.width > 0 && img.height > 0
    && img.data.Length == AllocSize(img.format, img.width, img.height)
    && img.plane == AllocPlanes(img.format, img.width, img.height)
    && img.lineSize == AllocLines(img.format, img.width)
  }

  function PlaneCount(format: int): (n: nat)
  {
    if format == RGBA then 1 else if format == I420 then 3 else if Supported(format) then 2 else 0
  }

  /** Visible rows and visible bytes in a row of plane `k`. */
  function Rows(format: int, h: int, k: int): (n: int) { if k == 0 then h else h / 2 }

  function VisibleWidth(format: int, w: int, k: int): (n: int)
  {
    if format == RGBA then w * 4 else if format == I420 && k > 0 then w / 2 else w
  }

  /** How many bytes the whole-plane branch copies; for an odd height that is half a line more than the
      rows of a chroma plane take. */
  function WholeBytes(format: int, line: int, h: int, k: int): (n: int)
  {
    if k == 0 then line * h else line * h / 2
  }

  /** Plane `k` of a source image can be read: lines are no narrower than what is visible; where they are
      exactly the destination's, the whole-plane copy stays inside, and where they are wider, the rows
      do. */
  predicate ReadablePlane(format: int, w: int, h: int, length: int, base: int, line: int, k: int)
  {
    var dLine := if k < |AllocLines(format, w)| && k >= 0 then AllocLines(format, w)[k] else 0;
    && 0 <= base && line >= dLine
    && if line == dLine then base + WholeBytes(format, line, h, k) <= length
       else
         var last := RowStart(base, line, Rows(format, h, k) - 1);
         Rows(format, h, k) > 0 ==> last + VisibleWidth(format, w, k) <= length
  }

  predicate Readable(img: NativeImage)
    reads img
  {
    && img.data != null && img.width > 0 && img.height > 0 && |img.plane| == 3 && |img.lineSize| == 3
    && forall k :: 0 <= k < PlaneCount(img.format) ==>
         ReadablePlane(img.format, img.width, img.height, img.data.Length, img.plane[k], img.lineSize[k], k)
  }

  /** Every visible byte of plane `k` is the same in both images. */
  predicate SameVisible(dst: NativeImage, src: NativeImage, k: nat)
    requires dst.data != null && src.data != null && k < |dst.plane| && k < |src.plane|
             && k < |dst.lineSize| && k < |src.lineSize|
    reads dst, src, dst.data, src.data
  {
    SamePlane(dst.data[..], dst.plane[k], dst.lineSize[k], src.data[..], src.plane[k], src.lineSize[k],
              Rows(src.format, src.height, k), VisibleWidth(src.format, src.width, k))
  }

  method AllocNativeImage(img: NativeImage)
    requires img.width >= 0 && img.height >= 0
    modifies img
    ensures img.width == old(img.width) && img.height == old(img.height) && img.format == old(img.format)
    ensures if img.width == 0 || img.height == 0 || !Supported(img.format) then
              img.data == old(img.data) && img.plane == old(img.plane) && img.lineSize == old(img.lineSize)
            else Allocated(img) && fresh(img.data)
  {
    var w, h := img.width, img.height;
    if h == 0 || w == 0 {
      return;
    }
    SizesNonNegative(w, h);
    if img.format == RGBA {
      img.data := new Byte[w * h * 4];
      img.plane := [0, 0, 0];
      img.lineSize := [w * 4, 0, 0];
    } else if img.format == NV12 || img.format == NV21 {
      img.data := new Byte[3 * (w * h) / 2];
      img.plane := [0, w * h, 0];
      img.lineSize := [w, w, 0];
    } else if img.format == I420 {
      img.data := new Byte[3 * (w * h) / 2];
      img.plane := [0, w * h, w * h + (w / 2) * (h / 2)];
      img.lineSize := [w, w / 2, w / 2];
    }
  }

  lemma SizesNonNegative(w: int, h: int)
    requires w >= 0 && h >= 0
    ensures w * h >= 0
  {
  }

  // ---------------------------------------------------------------- bounds

  /** Halving an odd size rounds down: two quarter planes and the half lines beyond them still fit. */
  lemma QuarterPlanesFit(w: int, h: int)
    requires w > 0 && h > 0
    ensures (h / 2) * (w / 2) == (w / 2) * (h / 2) <= (w / 2) * h / 2
    ensures (w / 2) * (h / 2) >= 0
    ensures w * h + (w / 2) * (h / 2) + (w / 2) * h / 2 <= 3 * (w * h) / 2
  {
  }

  /** How far the whole-plane copy of a chroma plane runs past its rows: half a line, rounded down, when
      the height is odd. */
  lemma HalfLineMore(format: int, line: int, h: int)
    requires line >= 0 && h > 0
    ensures WholeBytes(format, line, h, 1) == Rows(format, h, 1) * line + if h % 2 == 1 then line / 2 else 0
  {
    var b := h / 2;
    assert line * h == 2 * (b * line) + line * (h - 2 * b) by {
      assert line * h == line * (2 * b) + line * (h - 2 * b);
    }
    assert h % 2 == 1 ==> line * (h - 2 * b) == line;
  }

  /** A source with the destination's line size whose chroma plane ends the buffer, just behind its rows:
      the whole-plane copy stays inside exactly when the height is even or a line is shorter than two bytes. */
  lemma TightPlane(format: int, w: int, h: int, base: int, k: nat)
    requires w > 0 && h > 0 && base >= 0 && 0 < k < PlaneCount(format)
    ensures var line := AllocLines(format, w)[k];
            ReadablePlane(format, w, h, base + Rows(format, h, k) * line, base, line, k) <==> h % 2 == 0 || line < 2
  {
    HalfLineMore(format, AllocLines(format, w)[k], h);
  }

  /** One such plane that is read beyond its end: I420, four by three. */
  lemma TightPlaneOverrun()
    ensures !ReadablePlane(I420, 4, 3, 2, 0, 2, 1)
    ensures WholeBytes(I420, 2, 3, 1) == 3 && Rows(I420, 3, 1) * 2 == 2
  {
  }

  lemma HalfPlaneFits(w: int, h: int)
    requires w > 0 && h > 0
    ensures (h / 2) * w <= w * h / 2 && w * h + w * h / 2 <= 3 * (w * h) / 2
    ensures (h / 2) * w >= 0
  {
  }

  /** Every image that `AllocNativeImage` laid out can be read by both branches, for odd sizes too. */
  lemma AllocatedIsReadable(img: NativeImage)
    requires Allocated(img)
    ensures Readable(img)
  {
    var w, h := img.width, img.height;
    QuarterPlanesFit(w, h);
    HalfPlaneFits(w, h);
    assert w * 4 * h == w * h * 4;
  }

  /** The planes lie one behind the other, with no byte between them, and for even sizes none is left over. */
  lemma PlanesTile(img: NativeImage)
    requires Allocated(img)
    ensures var w, h, p, l := img.width, img.height, img.plane, img.lineSize;
            && p[0] == 0
            && (img.format == 1 ==> l[0] == 4 * w && img.data.Length == h * l[0])
            && (img.format != 1 ==> l[0] == w && p[1] == h * l[0])
            && (img.format == 4 ==> l[1] == l[2] == w / 2 && p[2] == p[1] + h / 2 * l[1])
            && (img.format == 4 && w % 2 == 0 && h % 2 == 0 ==> img.data.Length == p[2] + h / 2 * l[2])
            && (img.format in {2, 3} ==> l[1] == w)
            && (img.format in {2, 3} && h % 2 == 0 ==> img.data.Length == p[1] + h / 2 * l[1])
  {
    var w, h := img.width, img.height;
    var a, b := w / 2, h / 2;
    assert w * h == h * w && b * a == a * b && w * 4 * h == w * h * 4;
    if h % 2 == 0 {
      assert h * w == 2 * (b * w);
      if w % 2 == 0 {
        assert b * w == 2 * (b * a);
      }
    }
  }

  // ---------------------------------------------------------------- the copy

  predicate Matches(src: NativeImage, dst: NativeImage)
    reads src, dst
  {
    src.format == dst.format && src.width == dst.width && src.height == dst.height
  }

  /** The copy that `CopyNativeImage` makes of plane `k`. */
  function CopyOf(src: NativeImage, dst: NativeImage, k: nat): (c: PlaneCopy)
    requires |src.plane| == |dst.plane| == |src.lineSize| == |dst.lineSize| == 3 && k < 3
    reads src, dst
  {
    PlaneCopy(dst.plane[k], dst.lineSize[k], src.plane[k], src.lineSize[k], Rows(src.format, src.height, k),
              VisibleWidth(src.format, src.width, k), WholeBytes(src.format, dst.lineSize[k], src.height, k))
  }

  lemma PlanarFits(src: NativeImage, dst: NativeImage)
    requires Allocated(dst) && Readable(src) && Matches(src, dst) && src.format == I420
    ensures InBuffers(CopyOf(src, dst, 0), dst.data.Length, src.data.Length)
    ensures InBuffers(CopyOf(src, dst, 1), dst.data.Length, src.data.Length)
    ensures InBuffers(CopyOf(src, dst, 2), dst.data.Length, src.data.Length)
    ensures RowsEnd(CopyOf(src, dst, 0)) == dst.plane[1] && RowsEnd(CopyOf(src, dst, 1)) == dst.plane[2]
    ensures dst.plane[1] <= dst.plane[2]
  {
    var w, h := src.width, src.height;
    QuarterPlanesFit(w, h);
    assert h * w == w * h;
    assert ReadablePlane(I420, w, h, src.data.Length, src.plane[0], src.lineSize[0], 0);
    assert ReadablePlane(I420, w, h, src.data.Length, src.plane[1], src.lineSize[1], 1);
    assert ReadablePlane(I420, w, h, src.data.Length, src.plane[2], src.lineSize[2], 2);
  }

  method CopyPlanar(src: NativeImage, dst: NativeImage)
    requires Allocated(dst) && Readable(src) && Matches(src, dst) && src.data != dst.data && src.format == I420
    modifies dst.data
    ensures forall k :: 0 <= k < 3 ==> SameVisible(dst, src, k)
  {
    PlanarFits(src, dst);
    hide InBuffers, RowsEnd, SamePlane;
    CopyThree(dst.data, src.data, CopyOf(src, dst, 0), CopyOf(src, dst, 1), CopyOf(src, dst, 2));
  }

  lemma SemiPlanarFits(src: NativeImage, dst: NativeImage)
    requires Allocated(dst) && Readable(src) && Matches(src, dst) && (src.format == NV12 || src.format == NV21)
    ensures InBuffers(CopyOf(src, dst, 0), dst.data.Length, src.data.Length)
    ensures InBuffers(CopyOf(src, dst, 1), dst.data.Length, src.data.Length)
    ensures RowsEnd(CopyOf(src, dst, 0)) == dst.plane[1]
  {
    var w, h := src.width, src.height;
    HalfPlaneFits(w, h);
    assert h * w == w * h;
    assert ReadablePlane(src.format, w, h, src.data.Length, src.plane[0], src.lineSize[0], 0);
    assert ReadablePlane(src.format, w, h, src.data.Length, src.plane[1], src.lineSize[1], 1);
  }

  method CopySemiPlanar(src: NativeImage, dst: NativeImage)
    requires Allocated(dst) && Readable(src) && Matches(src, dst) && src.data != dst.data
    requires src.format == NV12 || src.format == NV21
    modifies dst.data
    ensures forall k :: 0 <= k < 2 ==> SameVisible(dst, src, k)
  {
    SemiPlanarFits(src, dst);
    hide RowsEnd, SamePlane, SameOutside;
    ghost var x, y := CopyOf(src, dst, 0), CopyOf(src, dst, 1);
    CopyPlane(dst.data, src.data, CopyOf(src, dst, 0));
    ghost var first := dst.data[..];
    CopyPlane(dst.data, src.data, CopyOf(src, dst, 1));
    CopiedKept(first, dst.data[..], src.data[..], x, y.d, y.d + y.bytes);
  }

  method CopyPacked(src: NativeImage, dst: NativeImage)
    requires Allocated(dst) && Readable(src) && Matches(src, dst) && src.data != dst.data && src.format == RGBA
    modifies dst.data
    ensures SameVisible(dst, src, 0)
  {
    var w, h := src.width, src.height;
    assert h * (w * 4) == w * 4 * h == w * h * 4;
    assert ReadablePlane(RGBA, w, h, src.data.Length, src.plane[0], src.lineSize[0], 0);
    hide SamePlane, SameOutside;
    CopyPlane(dst.data, src.data, CopyOf(src, dst, 0));
  }

  // ---------------------------------------------------------------- pixels

  /** Byte `c` of the `x`-th sample in line `y`, with `size` bytes a sample, is the same on both sides. */
  predicate SameSample(a: seq<Byte>, aBase: int, aLine: int, b: seq<Byte>, bBase: int, bLine: int,
                       y: int, size: int, x: int, c: int)
  {
    var i, j := aBase + y * aLine + (size * x + c), bBase + y * bLine + (size * x + c);
    0 <= i < |a| && 0 <= j < |b| && a[i] == b[j]
  }

  /** The samples of `size` bytes from `first` up to `last` in the lines `y < rows` of plane `k`. */
  ghost predicate SameSamples(dst: NativeImage, src: NativeImage, k: nat, rows: int, first: int, last: int, size: int)
    requires dst.data != null && src.data != null && k < |dst.plane| == |dst.lineSize|
    requires k < |src.plane| == |src.lineSize|
    reads dst, src, dst.data, src.data
  {
    forall y, x, c :: 0 <= y < rows && first <= x < last && 0 <= c < size ==>
      SameSample(dst.data[..], dst.plane[k], dst.lineSize[k], src.data[..], src.plane[k], src.lineSize[k],
                 y, size, x, c)
  }

  /** The pixels of an image: four bytes each for RGBA; else a luma byte each, and for each two by two pixels one
      chroma byte in each of two planes for I420, or two bytes in one plane for NV12 and NV21, where an odd
      width leaves one more byte in the line. */
  ghost predicate SamePixels(dst: NativeImage, src: NativeImage)
    requires dst.data != null && src.data != null && |dst.plane| == |dst.lineSize| == 3
    requires |src.plane| == |src.lineSize| == 3
    reads dst, src, dst.data, src.data
  {
    var w, h := src.width, src.height;
    if src.format == 1 then SameSamples(dst, src, 0, h, 0, w, 4)
    else
      && SameSamples(dst, src, 0, h, 0, w, 1)
      && if src.format == 4 then
           SameSamples(dst, src, 1, h / 2, 0, w / 2, 1) && SameSamples(dst, src, 2, h / 2, 0, w / 2, 1)
         else
           SameSamples(dst, src, 1, h / 2, 0, w / 2, 2) && SameSamples(dst, src, 1, h / 2, w - 1, w, 1)
  }

  lemma PlaneSample(a: seq<Byte>, aBase: int, aLine: int, b: seq<Byte>, bBase: int, bLine: int,
                    rows: int, width: int, y: int, size: int, x: int, c: int)
    requires SamePlane(a, aBase, aLine, b, bBase, bLine, rows, width)
    requires 0 <= y < rows && 0 <= size * x + c < width
    ensures SameSample(a, aBase, aLine, b, bBase, bLine, y, size, x, c)
  {
    var i, j, o := RowStart(aBase, aLine, y), RowStart(bBase, bLine, y), size * x + c;
    assert SameBytes(a, i, b, j, width);
    assert a[i..i + width][o] == a[i + o] && b[j..j + width][o] == b[j + o];
  }

  lemma SampleInLine(width: int, columns: int, size: int, x: int, c: int)
    requires 0 <= x < columns && 0 <= c < size && columns * size <= width
    ensures 0 <= size * x + c < width
  {
    assert size * x + size == size * (x + 1) <= size * columns;
  }

  lemma VisibleSamples(dst: NativeImage, src: NativeImage, k: nat, first: int, last: int, size: int)
    requires dst.data != null && src.data != null && k < |dst.plane| == |dst.lineSize|
    requires k < |src.plane| == |src.lineSize| && SameVisible(dst, src, k)
    requires 0 <= first && last * size <= VisibleWidth(src.format, src.width, k)
    ensures SameSamples(dst, src, k, Rows(src.format, src.height, k), first, last, size)
  {
    hide SamePlane, SameSample;
    var rows, width := Rows(src.format, src.height, k), VisibleWidth(src.format, src.width, k);
    forall y, x, c | 0 <= y < rows && first <= x < last && 0 <= c < size
      ensures SameSample(dst.data[..], dst.plane[k], dst.lineSize[k], src.data[..], src.plane[k], src.lineSize[k],
                         y, size, x, c)
    {
      SampleInLine(width, last, size, x, c);
      PlaneSample(dst.data[..], dst.plane[k], dst.lineSize[k], src.data[..], src.plane[k], src.lineSize[k],
                  rows, width, y, size, x, c);
    }
  }

  lemma VisiblePixels(dst: NativeImage, src: NativeImage)
    requires Supported(src.format) && src.width > 0
    requires dst.data != null && src.data != null && |dst.plane| == |dst.lineSize| == 3
    requires |src.plane| == |src.lineSize| == 3
    requires forall k :: 0 <= k < PlaneCount(src.format) ==> SameVisible(dst, src, k)
    ensures SamePixels(dst, src)
  {
    hide SamePlane, SameSample, SameSamples, SameVisible;
    var w, h := src.width, src.height;
    if src.format == RGBA {
      VisibleSamples(dst, src, 0, 0, w, 4);
    } else {
      VisibleSamples(dst, src, 0, 0, w, 1);
      if src.format == I420 {
        VisibleSamples(dst, src, 1, 0, w / 2, 1);
        VisibleSamples(dst, src, 2, 0, w / 2, 1);
      } else {
        VisibleSamples(dst, src, 1, 0, w / 2, 2);
        VisibleSamples(dst, src, 1, w - 1, w, 1);
      }
    }
  }

  /** `CopyNativeImage`. A missing source, a mismatch or an unknown format changes nothing; otherwise the
      destination is allocated if need be, every access stays inside its allocation, and every pixel is the
      source's, for odd sizes and on both branches. */
  method CopyNativeImage(src: NativeImage, dst: NativeImage)
    requires src != dst && (src.data != null ==> Readable(src) && src.data != dst.data)
    requires dst.data != null && Matches(src, dst) && Supported(dst.format) ==> Allocated(dst)
    modifies dst, if dst.data != null then {dst.data} else {}
    ensures Matches(src, dst) == old(Matches(src, dst))
    ensures src.data == null || !Matches(src, dst) || !Supported(src.format) ==>
              dst.data == old(dst.data) && (dst.data != null ==> dst.data[..] == old(dst.data[..]))
              && dst.plane == old(dst.plane) && dst.lineSize == old(dst.lineSize)
    ensures src.data != null && Matches(src, dst) && Supported(src.format) ==>
              && Allocated(dst) && Readable(src) && (old(dst.data) != null ==> dst.data == old(dst.data))
              && src.data[..] == old(src.data[..]) && SamePixels(dst, src)
  {
    if src.data == null {
      return;
    }
    if src.format != dst.format || src.width != dst.width || src.height != dst.height {
      return;
    }
    if dst.data == null {
      AllocNativeImage(dst);
    }
    if src.format == I420 {
      CopyPlanar(src, dst);
      VisiblePixels(dst, src);
    } else if src.format == NV21 || src.format == NV12 {
      CopySemiPlanar(src, dst);
      VisiblePixels(dst, src);
    } else if src.format == RGBA {
      CopyPacked(src, dst);
      VisiblePixels(dst, src);
    }
  }
}
