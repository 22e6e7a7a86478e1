/** Three converters into planar YUV 4:2:0. */
module I420 {
  import opened Common
  import opened Bytes
  import opened Bt601

  /** n * k by repeated addition: index arithmetic without products for the solver. */
  function Times(n: nat, k: nat): nat {
    if n == 0 then 0 else Times(n - 1, k) + k
  }

  lemma {:induction false} TimesIsProduct(n: nat, k: nat)
    ensures Times(n, k) == n * k
  {
    if n > 0 { TimesIsProduct(n - 1, k); }
  }

  lemma {:induction false} TimesMonotone(m: nat, n: nat, k: nat)
    requires m <= n
    ensures Times(m, k) <= Times(n, k)
  {
    if m < n { TimesMonotone(m, n - 1, k); }
  }

  // ---- Planes ----

  type Rows = seq<seq<byte>>

  ghost predicate Sized(rows: Rows, height: nat, width: nat) {
    |rows| == height && forall row | 0 <= row < height :: |rows[row]| == width
  }

  /** The rows one after the other. */
  function Flat(rows: Rows): seq<byte> {
    if rows == [] then [] else Flat(rows[..|rows| - 1]) + rows[|rows| - 1]
  }

  lemma {:induction false} FlatLength(rows: Rows, width: nat)
    requires forall row | 0 <= row < |rows| :: |rows[row]| == width
    ensures |Flat(rows)| == Times(|rows|, width)
  {
    if rows != [] { FlatLength(rows[..|rows| - 1], width); }
  }

  lemma TakeNext(s: seq<byte>, n: nat)
    requires n < |s|
    ensures s[..n + 1] == s[..n] + [s[n]]
  {
  }

  lemma FlatNext(rows: Rows, n: nat)
    requires n < |rows|
    ensures Flat(rows[..n + 1]) == Flat(rows[..n]) + rows[n]
  {
    assert rows[..n + 1][..n] == rows[..n];
  }

  /** A plane with one more row behind it. */
  lemma RowAppended(out: seq<byte>, at: nat, rows: Rows, n: nat)
    requires n < |rows| && at + |rows[n]| <= |out|
    requires out[..at] == Flat(rows[..n]) && out[at..at + |rows[n]|] == rows[n]
    ensures out[..at + |rows[n]|] == Flat(rows[..n + 1])
  {
    FlatNext(rows, n);
    assert out[..at + |rows[n]|] == out[..at] + out[at..at + |rows[n]|];
  }

  /** A flat plane holds row r, column c at r * width + c. */
  lemma {:induction false} FlatAt(rows: Rows, width: nat, r: nat, c: nat)
    requires (forall row | 0 <= row < |rows| :: |rows[row]| == width) && r < |rows| && c < width
    ensures Times(r, width) + c < |Flat(rows)| && Flat(rows)[Times(r, width) + c] == rows[r][c]
  {
    var n := |rows| - 1;
    FlatLength(rows[..n], width);
    if r < n { FlatAt(rows[..n], width, r, c); }
  }

  // ---- Pictures ----

  datatype Picture = Picture(width: nat, height: nat, rows: seq<seq<Rgb>>) {
    ghost predicate Valid() {
      |rows| == height && forall row | 0 <= row < height :: |rows[row]| == width
    }

    function At(col: nat, row: nat): Rgb
      requires Valid() && col < width && row < height
    {
      rows[row][col]
    }

    /** The average of the four pixels at two columns and two rows. */
    function Corners(x0: nat, x1: nat, y0: nat, y1: nat): Rgb
      requires Valid() && x0 < width && x1 < width && y0 < height && y1 < height
    {
      var a, b, c, d := At(x0, y0), At(x1, y0), At(x0, y1), At(x1, y1);
      Rgb(Average(a.r, b.r, c.r, d.r), Average(a.g, b.g, c.g, d.g), Average(a.b, b.b, c.b, d.b))
    }

    function Block(col: nat, row: nat): Rgb
      requires Valid() && 2 * col + 1 < width && 2 * row + 1 < height
    {
      Corners(2 * col, 2 * col + 1, 2 * row, 2 * row + 1)
    }

    function LumaRow(row: nat): seq<byte>
      requires Valid() && row < height
    {
      seq(width, col requires 0 <= col < width => Luma(At(col, row)))
    }

    function CbRow(row: nat): seq<byte>
      requires Valid() && row < height / 2
    {
      seq(width / 2, col requires 0 <= col < width / 2 => Cb(Block(col, row)))
    }

    function CrRow(row: nat): seq<byte>
      requires Valid() && row < height / 2
    {
      seq(width / 2, col requires 0 <= col < width / 2 => Cr(Block(col, row)))
    }

    function LumaRows(): Rows
      requires Valid()
    {
      seq(height, row requires 0 <= row < height => LumaRow(row))
    }

    function CbRows(): Rows
      requires Valid()
    {
      seq(height / 2, row requires 0 <= row < height / 2 => CbRow(row))
    }

    function CrRows(): Rows
      requires Valid()
    {
      seq(height / 2, row requires 0 <= row < height / 2 => CrRow(row))
    }
  }

  function Average(a: byte, b: byte, c: byte, d: byte): byte {
    ((a as int) + (b as int) + (c as int) + (d as int)) / 4
  }

  // ---- From an RGB image ----

  method AppendLumaRow(p: Picture, row: nat, before: seq<byte>) returns (y: seq<byte>)
    requires p.Valid() && row < p.height
    ensures y == before + p.LumaRow(row)
  {
    y := before;
    ghost var want := p.LumaRow(row);
    for col := 0 to p.width
      invariant y == before + want[..col]
    {
      y := y + [Luma(p.At(col, row))];
      TakeNext(want, col);
    }
  }

  /** What a chroma row holds. */
  ghost predicate ChromaOf(p: Picture, row: nat, u: seq<byte>, v: seq<byte>)
    requires p.Valid() && row < p.height / 2
  {
    && |u| == p.width / 2 && |v| == p.width / 2
    && forall c: nat {:trigger p.Block(c, row)} | c < p.width / 2 ::
         u[c] == Cb(p.Block(c, row)) && v[c] == Cr(p.Block(c, row))
  }

  lemma ChromaRowsAre(p: Picture, row: nat)
    requires p.Valid() && row < p.height / 2
    ensures ChromaOf(p, row, p.CbRow(row), p.CrRow(row))
  {
  }

  method AppendChromaRows(p: Picture, row: nat, beforeU: seq<byte>, beforeV: seq<byte>, ghost wantU: seq<byte>,
                          ghost wantV: seq<byte>)
    returns (u: seq<byte>, v: seq<byte>)
    requires p.Valid() && row < p.height / 2 && ChromaOf(p, row, wantU, wantV)
    ensures u == beforeU + wantU && v == beforeV + wantV
  {
    u, v := beforeU, beforeV;
    for col := 0 to p.width / 2
      invariant u == beforeU + wantU[..col] && v == beforeV + wantV[..col]
    {
      var x0, y0 := col * 2, row * 2;
      var x1, y1 := Min(x0 + 1, p.width - 1), Min(y0 + 1, p.height - 1);
      assert x1 == x0 + 1 && y1 == y0 + 1;
      var block := p.Corners(x0, x1, y0, y1);
      var cb, cr := Cb(block), Cr(block);
      assert block == p.Block(col, row);
      assert wantU[col] == cb && wantV[col] == cr;
      TakeNext(wantU, col);
      TakeNext(wantV, col);
      u, v := u + [cb], v + [cr];
    }
  }

  method RgbToI420(p: Picture) returns (y: seq<byte>, u: seq<byte>, v: seq<byte>)
    requires p.Valid()
    ensures y == Flat(p.LumaRows()) && u == Flat(p.CbRows()) && v == Flat(p.CrRows())
  {
    y, u, v := [], [], [];
    ghost var lumas, cbs, crs := p.LumaRows(), p.CbRows(), p.CrRows();
    for row := 0 to p.height
      invariant y == Flat(lumas[..row])
    {
      y := AppendLumaRow(p, row, y);
      FlatNext(lumas, row);
    }
    for row := 0 to p.height / 2
      invariant u == Flat(cbs[..row]) && v == Flat(crs[..row])
    {
      ChromaRowsAre(p, row);
      u, v := AppendChromaRows(p, row, u, v, cbs[row], crs[row]);
      FlatNext(cbs, row);
      FlatNext(crs, row);
    }
    assert lumas[..p.height] == lumas && cbs[..p.height / 2] == cbs && crs[..p.height / 2] == crs;
  }

  // ---- From a packed 32-bit frame ----

  datatype Frame = Frame(width: nat, height: nat, stride: nat, data: seq<byte>)

  /** Byte offsets of the colours in a pixel. */
  datatype Order = Order(r: nat, g: nat, b: nat)

  const BGRA := Order(2, 1, 0)
  const RGBA := Order(0, 1, 2)

  /** The data reaches to the last pixel. */
  ghost predicate Packed(f: Frame) {
    f.width > 0 && f.height > 0 ==> Times(f.height - 1, f.stride) + 4 * f.width <= |f.data|
  }

  lemma InFrame(f: Frame, col: nat, row: nat)
    requires Packed(f) && col < f.width && row < f.height
    ensures Times(row, f.stride) + col * 4 + 4 <= |f.data|
  {
    TimesMonotone(row, f.height - 1, f.stride);
  }

  /** The j-th pixel byte of a row. */
  function ByteAt(f: Frame, row: nat, j: nat): byte
    requires Packed(f) && row < f.height && j < 4 * f.width
  {
    InFrame(f, j / 4, row);
    f.data[Times(row, f.stride) + j]
  }

  function PixelAt(f: Frame, o: Order, col: nat, row: nat): Rgb
    requires Packed(f) && o in {BGRA, RGBA} && col < f.width && row < f.height
  {
    Rgb(ByteAt(f, row, col * 4 + o.r), ByteAt(f, row, col * 4 + o.g), ByteAt(f, row, col * 4 + o.b))
  }

  /** Where the bytes of a pixel are: four of them from row * stride + 4 * col on, in the order
      blue, green, red or red, green, blue. */
  lemma PixelBytes(f: Frame, col: nat, row: nat)
    requires Packed(f) && col < f.width && row < f.height
    ensures row * f.stride + 4 * col + 3 < |f.data|
    ensures var at := row * f.stride + 4 * col;
            && PixelAt(f, BGRA, col, row) == Rgb(f.data[at + 2], f.data[at + 1], f.data[at])
            && PixelAt(f, RGBA, col, row) == Rgb(f.data[at], f.data[at + 1], f.data[at + 2])
  {
    TimesIsProduct(row, f.stride);
    InFrame(f, col, row);
  }

  /** The mean of four bytes, rounded down. */
  lemma AverageIs(a: byte, b: byte, c: byte, d: byte)
    ensures 4 * Average(a, b, c, d) <= (a as int) + (b as int) + (c as int) + (d as int) < 4 * Average(a, b, c, d) + 4
  {
  }

  function PictureRow(f: Frame, o: Order, row: nat): seq<Rgb>
    requires Packed(f) && o in {BGRA, RGBA} && row < f.height
  {
    seq(f.width, col requires 0 <= col < f.width => PixelAt(f, o, col, row))
  }

  /** The picture a frame shows. */
  function PictureOf(f: Frame, o: Order): (p: Picture)
    requires Packed(f) && o in {BGRA, RGBA}
    ensures p.Valid()
  {
    Picture(f.width, f.height, seq(f.height, row requires 0 <= row < f.height => PictureRow(f, o, row)))
  }

  /** Dimensions for which every chroma sample has a place in its plane. */
  predicate ChromaFits(width: nat, height: nat) {
    width == 0 || height == 0 || (width % 2 == 0 && height % 2 == 0)
  }

  ghost predicate AllChromaInBounds(width: nat, height: nat) {
    forall row: nat, col: nat | row < height && col < width && row % 2 == 0 && col % 2 == 0 ::
      ChromaIndex(width, row, col) < Times(height / 2, width / 2)
  }

  lemma EvenInBounds(width: nat, height: nat)
    requires ChromaFits(width, height)
    ensures AllChromaInBounds(width, height)
  {
    forall row: nat, col: nat | row < height && col < width && row % 2 == 0 && col % 2 == 0
      ensures ChromaIndex(width, row, col) < Times(height / 2, width / 2)
    {
      IndexInPlane(width / 2, height / 2, row / 2, col / 2);
    }
  }

  /** The chroma pass visits every other row and column and writes at (row / 2) * (width / 2)
      + col / 2. All of these are inside the plane exactly for even (or empty) frames: any
      other frame makes it write past the end. */
  lemma ChromaInBoundsIff(width: nat, height: nat)
    ensures ChromaFits(width, height) <==> AllChromaInBounds(width, height)
  {
    if ChromaFits(width, height) {
      EvenInBounds(width, height);
    } else if height % 2 == 1 {
      assert (height - 1) / 2 == height / 2;
      assert ChromaIndex(width, height - 1, 0) == Times(height / 2, width / 2);
    } else {
      assert (height - 2) / 2 == height / 2 - 1 && (width - 1) / 2 == width / 2;
      assert ChromaIndex(width, height - 2, width - 1) == Times(height / 2 - 1, width / 2) + width / 2;
    }
  }

  function ChromaIndex(width: nat, row: nat, col: nat): nat {
    Times(row / 2, width / 2) + col / 2
  }

  lemma IndexInPlane(width: nat, height: nat, row: nat, col: nat)
    requires row < height && col < width
    ensures Times(row, width) + col < Times(height, width)
  {
    TimesMonotone(row + 1, height, width);
  }

  /** The frame's bytes are the picture's pixels. */
  ghost predicate Shows(f: Frame, o: Order, p: Picture) {
    && Packed(f) && o in {BGRA, RGBA} && p.Valid() && p.width == f.width && p.height == f.height
    && forall col: nat, row: nat {:trigger PixelAt(f, o, col, row)} | col < f.width && row < f.height ::
         PixelAt(f, o, col, row) == p.At(col, row)
  }

  lemma ShowsItsPicture(f: Frame, o: Order)
    requires Packed(f) && o in {BGRA, RGBA}
    ensures Shows(f, o, PictureOf(f, o))
  {
  }

  lemma SamePicture(f: Frame, o: Order, p: Picture)
    requires Shows(f, o, p)
    ensures PictureOf(f, o) == p
  {
    var q := PictureOf(f, o);
    forall row | 0 <= row < p.height ensures q.rows[row] == p.rows[row] {
      forall col | 0 <= col < p.width ensures q.rows[row][col] == p.rows[row][col] {
        assert q.rows[row][col] == PixelAt(f, o, col, row) == p.At(col, row);
      }
    }
  }

  method WriteLumaRow(f: Frame, o: Order, row: nat, out: array<byte>, at: nat, ghost p: Picture, ghost want: seq<byte>)
    requires Shows(f, o, p) && row < f.height && want == p.LumaRow(row) && at + f.width <= out.Length
    modifies out
    ensures out[..at] == old(out[..at]) && out[at..at + f.width] == want
    ensures out[at + f.width..] == old(out[at + f.width..])
  {
    for col := 0 to f.width
      invariant out[..at] == old(out[..at]) && out[at..at + col] == want[..col]
      invariant out[at + f.width..] == old(out[at + f.width..])
    {
      var i := col * 4;
      var px := Rgb(ByteAt(f, row, i + o.r), ByteAt(f, row, i + o.g), ByteAt(f, row, i + o.b));
      assert px == PixelAt(f, o, col, row);
      out[at + col] := Luma(px);
      TakeNext(want, col);
    }
  }

  method LumaPass(f: Frame, o: Order, out: array<byte>, ghost p: Picture)
    requires Shows(f, o, p) && Times(f.height, f.width) <= out.Length
    modifies out
    ensures out[..Times(f.height, f.width)] == Flat(p.LumaRows())
  {
    ghost var lumas := p.LumaRows();
    for row := 0 to f.height
      invariant Times(row, f.width) <= out.Length && out[..Times(row, f.width)] == Flat(lumas[..row])
    {
      TimesMonotone(row + 1, f.height, f.width);
      WriteLumaRow(f, o, row, out, Times(row, f.width), p, lumas[row]);
      RowAppended(out[..], Times(row, f.width), lumas, row);
    }
    assert lumas[..f.height] == lumas;
  }

  /** The average of one colour over the four pixels of a block. */
  function AverageAt(f: Frame, off: nat, r0: nat, r1: nat, c0: nat, c1: nat): byte
    requires Packed(f) && off < 4 && r0 < f.height && r1 < f.height && c0 < f.width && c1 < f.width
  {
    Average(
      ByteAt(f, r0, c0 * 4 + off),
      ByteAt(f, r0, c1 * 4 + off),
      ByteAt(f, r1, c0 * 4 + off),
      ByteAt(f, r1, c1 * 4 + off)
    )
  }

  lemma AverageIsCorners(f: Frame, o: Order, p: Picture, r0: nat, r1: nat, c0: nat, c1: nat)
    requires Shows(f, o, p) && r0 < f.height && r1 < f.height && c0 < f.width && c1 < f.width
    ensures Rgb(AverageAt(f, o.r, r0, r1, c0, c1), AverageAt(f, o.g, r0, r1, c0, c1), AverageAt(f, o.b, r0, r1, c0, c1))
      == p.Corners(c0, c1, r0, r1)
  {
    assert PixelAt(f, o, c0, r0) == p.At(c0, r0);
    assert PixelAt(f, o, c1, r0) == p.At(c1, r0);
    assert PixelAt(f, o, c0, r1) == p.At(c0, r1);
    assert PixelAt(f, o, c1, r1) == p.At(c1, r1);
  }

  /** The block of an even frame at even coordinates. */
  method AverageBlock(f: Frame, o: Order, row: nat, col: nat, ghost p: Picture) returns (block: Rgb)
    requires Shows(f, o, p) && f.width % 2 == 0 && f.height % 2 == 0
    requires row < f.height && row % 2 == 0 && col < f.width && col % 2 == 0
    ensures block == p.Block(col / 2, row / 2)
  {
    var r1, c1 := Min(row + 1, f.height - 1), Min(col + 1, f.width - 1);
    assert r1 == row + 1 && c1 == col + 1;
    block := Rgb(
      AverageAt(f, o.r, row, r1, col, c1),
      AverageAt(f, o.g, row, r1, col, c1),
      AverageAt(f, o.b, row, r1, col, c1)
    );
    AverageIsCorners(f, o, p, row, r1, col, c1);
  }

  method SampleBlock(f: Frame, o: Order, row: nat, col: nat, ghost p: Picture, ghost u: seq<byte>, ghost v: seq<byte>)
    returns (cb: byte, cr: byte)
    requires Shows(f, o, p) && f.width % 2 == 0 && f.height % 2 == 0
    requires row < f.height && row % 2 == 0 && col < f.width && col % 2 == 0 && ChromaOf(p, row / 2, u, v)
    ensures cb == u[col / 2] && cr == v[col / 2]
  {
    var block := AverageBlock(f, o, row, col, p);
    return Cb(block), Cr(block);
  }

  /** `pre` with the first n bytes of two rows written at two places. */
  function Written(pre: seq<byte>, u: seq<byte>, atU: nat, v: seq<byte>, atV: nat, n: nat): (s: seq<byte>)
    requires n <= |u| == |v| && atU + |u| <= atV && atV + |v| <= |pre|
    ensures |s| == |pre|
  {
    if n == 0 then pre
    else Written(pre, u, atU, v, atV, n - 1)[atU + n - 1 := u[n - 1]][atV + n - 1 := v[n - 1]]
  }

  lemma {:induction false} WrittenAt(pre: seq<byte>, u: seq<byte>, atU: nat, v: seq<byte>, atV: nat, n: nat, k: nat)
    requires n <= |u| == |v| && atU + |u| <= atV && atV + |v| <= |pre| && k < |pre|
    ensures Written(pre, u, atU, v, atV, n)[k] ==
      if atU <= k < atU + n then u[k - atU] else if atV <= k < atV + n then v[k - atV] else pre[k]
  {
    if n > 0 { WrittenAt(pre, u, atU, v, atV, n - 1, k); }
  }

  /** `post` is `pre` with two rows of one length written at two places. */
  ghost predicate Wrote(pre: seq<byte>, post: seq<byte>, u: seq<byte>, atU: nat, v: seq<byte>, atV: nat) {
    && |u| == |v| && atU + |u| <= atV && atV + |v| <= |pre| == |post|
    && forall k | 0 <= k < |pre| ::
         post[k] == if atU <= k < atU + |u| then u[k - atU] else if atV <= k < atV + |v| then v[k - atV] else pre[k]
  }

  lemma WrittenWrote(pre: seq<byte>, u: seq<byte>, atU: nat, v: seq<byte>, atV: nat)
    requires |u| == |v| && atU + |u| <= atV && atV + |v| <= |pre|
    ensures Wrote(pre, Written(pre, u, atU, v, atV, |u|), u, atU, v, atV)
  {
    forall k | 0 <= k < |pre|
      ensures Written(pre, u, atU, v, atV, |u|)[k] ==
        if atU <= k < atU + |u| then u[k - atU] else if atV <= k < atV + |v| then v[k - atV] else pre[k]
    {
      WrittenAt(pre, u, atU, v, atV, |u|, k);
    }
  }

  method WritePair(out: array<byte>, i: nat, x: byte, j: nat, y: byte)
    requires i < j < out.Length
    modifies out
    ensures out[..] == old(out[..])[i := x][j := y]
  {
    out[i] := x;
    out[j] := y;
  }

  method WriteChromaRows(f: Frame, o: Order, row: nat, out: array<byte>, atU: nat, atV: nat,
                         ghost p: Picture, ghost u: seq<byte>, ghost v: seq<byte>)
    requires Shows(f, o, p) && f.width % 2 == 0 && f.height % 2 == 0 && row < f.height && row % 2 == 0
    requires ChromaOf(p, row / 2, u, v) && atU + f.width / 2 <= atV && atV + f.width / 2 <= out.Length
    modifies out
    ensures Wrote(old(out[..]), out[..], u, atU, v, atV)
  {
    ghost var pre := out[..];
    var col := 0;
    while col < f.width
      invariant col % 2 == 0 && col <= f.width
      invariant out[..] == Written(pre, u, atU, v, atV, col / 2)
    {
      var cb, cr := SampleBlock(f, o, row, col, p, u, v);
      var uvIndex := col / 2;
      WritePair(out, atU + uvIndex, cb, atV + uvIndex, cr);
      col := col + 2;
      assert col / 2 == uvIndex + 1;
    }
    WrittenWrote(pre, u, atU, v, atV);
  }

  ghost predicate Has(out: seq<byte>, at: nat, s: seq<byte>) {
    at + |s| <= |out| && forall k | 0 <= k < |s| :: out[at + k] == s[k]
  }

  /** The planes after some chroma rows: what lies before them is `luma`. */
  ghost predicate ChromaDone(out: seq<byte>, luma: seq<byte>, size: nat, u: seq<byte>, v: seq<byte>) {
    && |out| == |luma| + size + size && |u| == |v| <= size
    && Has(out, 0, luma) && Has(out, |luma|, u) && Has(out, |luma| + size, v)
  }

  /** Writing two rows keeps what lies before the first, */
  lemma WriteKeeps(pre: seq<byte>, post: seq<byte>, u: seq<byte>, atU: nat, v: seq<byte>, atV: nat,
                   at: nat, s: seq<byte>)
    requires Wrote(pre, post, u, atU, v, atV) && Has(pre, at, s) && at + |s| <= atU
    ensures Has(post, at, s)
  {
  }

  /** extends what ends there, */
  lemma WriteExtendsU(pre: seq<byte>, post: seq<byte>, u: seq<byte>, atU: nat, v: seq<byte>, atV: nat,
                      at: nat, s: seq<byte>)
    requires Wrote(pre, post, u, atU, v, atV) && Has(pre, at, s) && at + |s| == atU
    ensures Has(post, at, s + u)
  {
  }

  /** and extends what lies between and ends at the second. */
  lemma WriteExtendsV(pre: seq<byte>, post: seq<byte>, u: seq<byte>, atU: nat, v: seq<byte>, atV: nat,
                      at: nat, s: seq<byte>)
    requires Wrote(pre, post, u, atU, v, atV) && Has(pre, at, s) && atU + |u| <= at && at + |s| == atV
    ensures Has(post, at, s + v)
  {
  }

  lemma ChromaNext(pre: seq<byte>, post: seq<byte>, luma: seq<byte>, size: nat, u: seq<byte>, v: seq<byte>,
                   rowU: seq<byte>, rowV: seq<byte>)
    requires ChromaDone(pre, luma, size, u, v) && |u| + |rowU| <= size
    requires Wrote(pre, post, rowU, |luma| + |u|, rowV, |luma| + size + |u|)
    ensures ChromaDone(post, luma, size, u + rowU, v + rowV)
  {
    var atU, atV := |luma| + |u|, |luma| + size + |u|;
    WriteKeeps(pre, post, rowU, atU, rowV, atV, 0, luma);
    WriteExtendsU(pre, post, rowU, atU, rowV, atV, |luma|, u);
    WriteExtendsV(pre, post, rowU, atU, rowV, atV, |luma| + size, v);
  }

  lemma ChromaComplete(out: seq<byte>, luma: seq<byte>, size: nat, u: seq<byte>, v: seq<byte>)
    requires ChromaDone(out, luma, size, u, v) && |u| == size
    ensures out == luma + u + v
  {
  }

  method ChromaStep(f: Frame, o: Order, row: nat, out: array<byte>, ySize: nat, uvSize: nat,
                    ghost p: Picture, ghost luma: seq<byte>, ghost u: seq<byte>, ghost v: seq<byte>)
    requires Shows(f, o, p) && f.width % 2 == 0 && f.height % 2 == 0 && row < f.height && row % 2 == 0
    requires uvSize == Times(f.height / 2, f.width / 2) && |luma| == ySize
    requires ChromaDone(out[..], luma, uvSize, u, v) && |u| == Times(row / 2, f.width / 2)
    modifies out
    ensures ChromaDone(out[..], luma, uvSize, u + p.CbRow(row / 2), v + p.CrRow(row / 2))
  {
    ghost var pre, rowU, rowV := out[..], p.CbRow(row / 2), p.CrRow(row / 2);
    ChromaRowsAre(p, row / 2);
    TimesMonotone(row / 2 + 1, f.height / 2, f.width / 2);
    var at := Times(row / 2, f.width / 2);
    WriteChromaRows(f, o, row, out, ySize + at, ySize + uvSize + at, p, rowU, rowV);
    ChromaNext(pre, out[..], luma, uvSize, u, v, rowU, rowV);
  }

  method ChromaPass(f: Frame, o: Order, out: array<byte>, ySize: nat, uvSize: nat, ghost p: Picture)
    requires Shows(f, o, p) && f.width % 2 == 0 && f.height % 2 == 0
    requires uvSize == Times(f.height / 2, f.width / 2) && out.Length == ySize + uvSize + uvSize
    modifies out
    ensures out[..] == old(out[..ySize]) + Flat(p.CbRows()) + Flat(p.CrRows())
  {
    ghost var luma, cbs, crs, u, v := out[..ySize], p.CbRows(), p.CrRows(), [], [];
    var row := 0;
    while row < f.height
      invariant row % 2 == 0 && row <= f.height
      invariant u == Flat(cbs[..row / 2]) && v == Flat(crs[..row / 2])
      invariant |u| == Times(row / 2, f.width / 2)
      invariant ChromaDone(out[..], luma, uvSize, u, v)
    {
      ghost var n := row / 2;
      ChromaStep(f, o, row, out, ySize, uvSize, p, luma, u, v);
      FlatNext(cbs, n);
      FlatNext(crs, n);
      u, v := u + cbs[n], v + crs[n];
      row := row + 2;
      assert row / 2 == n + 1;
    }
    assert cbs[..f.height / 2] == cbs && crs[..f.height / 2] == crs;
    ChromaComplete(out[..], luma, uvSize, u, v);
  }

  lemma EmptyPlanes(p: Picture)
    requires p.Valid() && (p.width == 0 || p.height == 0)
    ensures Flat(p.CbRows()) == [] && Flat(p.CrRows()) == [] && Times(p.height / 2, p.width / 2) == 0
  {
    FlatLength(p.CbRows(), p.width / 2);
    FlatLength(p.CrRows(), p.width / 2);
    TimesIsProduct(p.height / 2, p.width / 2);
  }

  /** A frame with even sides becomes the three planes of the picture it shows. With an empty
      side there is no chroma sample to visit. */
  method Packed32ToI420(f: Frame, o: Order) returns (out: array<byte>)
    requires Packed(f) && o in {BGRA, RGBA} && ChromaFits(f.width, f.height)
    ensures var p := PictureOf(f, o); out[..] == Flat(p.LumaRows()) + Flat(p.CbRows()) + Flat(p.CrRows())
  {
    var ySize, uvSize := Times(f.height, f.width), Times(f.height / 2, f.width / 2);
    out := new byte[ySize + uvSize * 2](_ => 0);
    ghost var p := PictureOf(f, o);
    ShowsItsPicture(f, o);
    LumaPass(f, o, out, p);
    if f.width > 0 && f.height > 0 {
      ChromaPass(f, o, out, ySize, uvSize, p);
    } else {
      EmptyPlanes(p);
      assert out[..] == out[..ySize];
    }
  }

  // ---- Agreement ----

  /** The two converters agree: on an even frame and an image that show the same picture they
      give the same planes. */
  method ConvertersAgree(f: Frame, o: Order, image: Picture) returns (same: bool)
    requires Packed(f) && o in {BGRA, RGBA} && ChromaFits(f.width, f.height) && Shows(f, o, image)
    ensures same
  {
    var out := Packed32ToI420(f, o);
    var y, u, v := RgbToI420(image);
    SamePicture(f, o, image);
    same := out[..] == y + u + v;
  }

  /** Row padding is never read: frames that agree on all pixel bytes show the same picture. */
  lemma PaddingNeverRead(f: Frame, g: Frame, o: Order)
    requires Packed(f) && Packed(g) && o in {BGRA, RGBA}
    requires f.width == g.width && f.height == g.height && f.stride == g.stride
    requires forall row: nat, j: nat | row < f.height && j < 4 * f.width :: ByteAt(f, row, j) == ByteAt(g, row, j)
    ensures PictureOf(f, o) == PictureOf(g, o)
  {
    forall row: nat, col: nat | row < f.height && col < f.width
      ensures PixelAt(f, o, col, row) == PixelAt(g, o, col, row)
    {
    }
    forall row: nat | row < f.height ensures PictureRow(f, o, row) == PictureRow(g, o, row) {
      assert forall col: nat | col < f.width :: PictureRow(f, o, row)[col] == PixelAt(f, o, col, row);
    }
  }

  /** What the flat planes hold, sample by sample. */
  lemma SamplesAt(p: Picture, col: nat, row: nat)
    requires p.Valid()
    ensures col < p.width && row < p.height ==>
      var k := row * p.width + col; k < |Flat(p.LumaRows())| && Flat(p.LumaRows())[k] == Luma(p.At(col, row))
    ensures col < p.width / 2 && row < p.height / 2 ==>
      var k := row * (p.width / 2) + col;
      && k < |Flat(p.CbRows())| && Flat(p.CbRows())[k] == Cb(p.Block(col, row))
      && k < |Flat(p.CrRows())| && Flat(p.CrRows())[k] == Cr(p.Block(col, row))
  {
    if col < p.width && row < p.height {
      TimesIsProduct(row, p.width);
      FlatAt(p.LumaRows(), p.width, row, col);
    }
    if col < p.width / 2 && row < p.height / 2 {
      TimesIsProduct(row, p.width / 2);
      FlatAt(p.CbRows(), p.width / 2, row, col);
      FlatAt(p.CrRows(), p.width / 2, row, col);
    }
  }

  // ---- From an NV12 frame ----

  /** The data reaches to the last luma byte and the last chroma pair. */
  ghost predicate Nv12Fits(f: Frame) {
    && (f.height > 0 ==> Times(f.height - 1, f.stride) + f.width <= |f.data|)
    && Times(f.height, f.stride) <= |f.data|
    && (f.height / 2 > 0 ==>
          Times(f.height, f.stride) + Times(f.height / 2 - 1, f.stride) + 2 * (f.width / 2) <= |f.data|)
  }

  function Nv12Luma(f: Frame, row: nat): seq<byte>
    requires Nv12Fits(f) && row < f.height
  {
    TimesMonotone(row, f.height - 1, f.stride);
    f.data[Times(row, f.stride)..Times(row, f.stride) + f.width]
  }

  /** Byte j of a row of interleaved chroma. */
  function Nv12Byte(f: Frame, row: nat, j: nat): byte
    requires Nv12Fits(f) && row < f.height / 2 && j < 2 * (f.width / 2)
  {
    TimesMonotone(row, f.height / 2 - 1, f.stride);
    f.data[Times(f.height, f.stride) + Times(row, f.stride) + j]
  }

  function Nv12LumaRows(f: Frame): Rows
    requires Nv12Fits(f)
  {
    seq(f.height, row requires 0 <= row < f.height => Nv12Luma(f, row))
  }

  /** The even bytes, or the odd ones. */
  function Nv12Chroma(f: Frame, row: nat, odd: nat): seq<byte>
    requires Nv12Fits(f) && row < f.height / 2 && odd < 2
  {
    seq(f.width / 2, col requires 0 <= col < f.width / 2 => Nv12Byte(f, row, 2 * col + odd))
  }

  function Nv12ChromaRows(f: Frame, odd: nat): Rows
    requires Nv12Fits(f) && odd < 2
  {
    seq(f.height / 2, row requires 0 <= row < f.height / 2 => Nv12Chroma(f, row, odd))
  }

  method CopyRow(src: seq<byte>, srcOff: nat, out: array<byte>, dstOff: nat, n: nat)
    requires srcOff + n <= |src| && dstOff + n <= out.Length
    modifies out
    ensures out[..dstOff] == old(out[..dstOff]) && out[dstOff..dstOff + n] == src[srcOff..srcOff + n]
  {
    forall k | 0 <= k < n {
      out[dstOff + k] := src[srcOff + k];
    }
  }

  method CopyLumaRow(f: Frame, row: nat, out: array<byte>, at: nat)
    requires Nv12Fits(f) && row < f.height && at + f.width <= out.Length
    modifies out
    ensures out[..at] == old(out[..at]) && out[at..at + f.width] == Nv12Luma(f, row)
  {
    TimesMonotone(row, f.height - 1, f.stride);
    CopyRow(f.data, Times(row, f.stride), out, at, f.width);
  }

  method Nv12LumaPass(f: Frame, out: array<byte>)
    requires Nv12Fits(f) && Times(f.height, f.width) <= out.Length
    modifies out
    ensures out[..Times(f.height, f.width)] == Flat(Nv12LumaRows(f))
  {
    ghost var lumas := Nv12LumaRows(f);
    for row := 0 to f.height
      invariant Times(row, f.width) <= out.Length && out[..Times(row, f.width)] == Flat(lumas[..row])
    {
      TimesMonotone(row + 1, f.height, f.width);
      CopyLumaRow(f, row, out, Times(row, f.width));
      RowAppended(out[..], Times(row, f.width), lumas, row);
    }
    assert lumas[..f.height] == lumas;
  }

  method SplitChromaRow(f: Frame, row: nat, out: array<byte>, atU: nat, atV: nat, ghost u: seq<byte>,
                        ghost v: seq<byte>)
    requires Nv12Fits(f) && row < f.height / 2 && u == Nv12Chroma(f, row, 0) && v == Nv12Chroma(f, row, 1)
    requires atU + f.width / 2 <= atV && atV + f.width / 2 <= out.Length
    modifies out
    ensures Wrote(old(out[..]), out[..], u, atU, v, atV)
  {
    ghost var pre := out[..];
    for col := 0 to f.width / 2
      invariant out[..] == Written(pre, u, atU, v, atV, col)
    {
      WritePair(out, atU + col, Nv12Byte(f, row, col * 2), atV + col, Nv12Byte(f, row, col * 2 + 1));
    }
    WrittenWrote(pre, u, atU, v, atV);
  }

  method SplitStep(f: Frame, row: nat, out: array<byte>, ySize: nat, uvSize: nat, ghost luma: seq<byte>,
                   ghost u: seq<byte>, ghost v: seq<byte>)
    requires Nv12Fits(f) && row < f.height / 2
    requires uvSize == Times(f.height / 2, f.width / 2) && |luma| == ySize
    requires ChromaDone(out[..], luma, uvSize, u, v) && |u| == Times(row, f.width / 2)
    modifies out
    ensures ChromaDone(out[..], luma, uvSize, u + Nv12Chroma(f, row, 0), v + Nv12Chroma(f, row, 1))
  {
    ghost var pre, rowU, rowV := out[..], Nv12Chroma(f, row, 0), Nv12Chroma(f, row, 1);
    TimesMonotone(row + 1, f.height / 2, f.width / 2);
    var at := Times(row, f.width / 2);
    SplitChromaRow(f, row, out, ySize + at, ySize + uvSize + at, rowU, rowV);
    ChromaNext(pre, out[..], luma, uvSize, u, v, rowU, rowV);
  }

  method SplitPass(f: Frame, out: array<byte>, ySize: nat, uvSize: nat)
    requires Nv12Fits(f) && uvSize == Times(f.height / 2, f.width / 2) && out.Length == ySize + uvSize + uvSize
    modifies out
    ensures out[..] == old(out[..ySize]) + Flat(Nv12ChromaRows(f, 0)) + Flat(Nv12ChromaRows(f, 1))
  {
    ghost var luma, cbs, crs, u, v := out[..ySize], Nv12ChromaRows(f, 0), Nv12ChromaRows(f, 1), [], [];
    for row := 0 to f.height / 2
      invariant u == Flat(cbs[..row]) && v == Flat(crs[..row])
      invariant |u| == Times(row, f.width / 2)
      invariant ChromaDone(out[..], luma, uvSize, u, v)
    {
      SplitStep(f, row, out, ySize, uvSize, luma, u, v);
      FlatNext(cbs, row);
      FlatNext(crs, row);
      u, v := u + cbs[row], v + crs[row];
    }
    assert cbs[..f.height / 2] == cbs && crs[..f.height / 2] == crs;
    ChromaComplete(out[..], luma, uvSize, u, v);
  }

  method Nv12ToI420(f: Frame) returns (out: array<byte>)
    requires Nv12Fits(f)
    ensures out[..] == Flat(Nv12LumaRows(f)) + Flat(Nv12ChromaRows(f, 0)) + Flat(Nv12ChromaRows(f, 1))
  {
    var ySize, uvSize := Times(f.height, f.width), Times(f.height / 2, f.width / 2);
    out := new byte[ySize + uvSize * 2](_ => 0);
    Nv12LumaPass(f, out);
    SplitPass(f, out, ySize, uvSize);
  }

  /** A frame that lays out three planes as NV12, padded to any stride. */
  ghost predicate LaysOut(f: Frame, y: Rows, u: Rows, v: Rows) {
    && Nv12Fits(f)
    && Sized(y, f.height, f.width) && Sized(u, f.height / 2, f.width / 2) && Sized(v, f.height / 2, f.width / 2)
    && (forall row: nat, col: nat | row < f.height && col < f.width ::
          HasByte(f, Times(row, f.stride) + col, y[row][col]))
    && (forall row: nat, col: nat | row < f.height / 2 && col < f.width / 2 ::
          var at := Times(f.height, f.stride) + Times(row, f.stride) + 2 * col;
          HasByte(f, at, u[row][col]) && HasByte(f, at + 1, v[row][col]))
  }

  predicate HasByte(f: Frame, k: nat, x: byte) {
    k < |f.data| && f.data[k] == x
  }

  /** The conversion undoes the layout: the planes come back, whatever the padding holds. */
  lemma Nv12GivesBackPlanes(f: Frame, y: Rows, u: Rows, v: Rows)
    requires LaysOut(f, y, u, v)
    ensures Nv12LumaRows(f) == y && Nv12ChromaRows(f, 0) == u && Nv12ChromaRows(f, 1) == v
  {
    forall row: nat | row < f.height ensures Nv12Luma(f, row) == y[row] {
      TimesMonotone(row, f.height - 1, f.stride);
      assert |Nv12Luma(f, row)| == f.width;
      forall col: nat | col < f.width ensures Nv12Luma(f, row)[col] == y[row][col] {
        assert HasByte(f, Times(row, f.stride) + col, y[row][col]);
      }
    }
    forall row: nat | row < f.height / 2 ensures Nv12Chroma(f, row, 0) == u[row] && Nv12Chroma(f, row, 1) == v[row] {
      forall col: nat | col < f.width / 2
        ensures Nv12Chroma(f, row, 0)[col] == u[row][col] && Nv12Chroma(f, row, 1)[col] == v[row][col]
      {
        var at := Times(f.height, f.stride) + Times(row, f.stride) + 2 * col;
        assert HasByte(f, at, u[row][col]) && HasByte(f, at + 1, v[row][col]);
      }
    }
  }
}
