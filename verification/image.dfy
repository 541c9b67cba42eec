/** Board images as numpy arrays of pixels: slicing and slice assignment,
    the 64-cell segmentation of `preprocess_input_image`, the square
    regions of `get_square_image` / `put_square_image`, the plain fill of
    `get_empty_square`, and the region writes of `apply_move_to_image`. */
module Image {
  import opened Wrappers
  import opened Chess

  type Byte = x: int | 0 <= x < 256

  /** Three 8-bit channels, in whatever order the array holds them. */
  datatype Pixel = Pixel(c0: Byte, c1: Byte, c2: Byte)

  /** An image as a sequence of pixel rows. */
  type Image = seq<seq<Pixel>>

  function Width(img: Image): nat
  {
    if |img| == 0 then 0 else |img[0]|
  }

  /** Every row has the same length, as in a numpy array. */
  predicate Rect(img: Image)
  {
    forall y | 0 <= y < |img| :: |img[y]| == Width(img)
  }

  predicate Shaped(img: Image, h: nat, w: nat)
  {
    |img| == h && forall y | 0 <= y < h :: |img[y]| == w
  }

  // ---------------------------------------------------------------------
  // Slices.

  /** A rectangle of pixels: rows top..top+rows, columns left..left+cols. */
  datatype Region = Region(top: nat, left: nat, rows: nat, cols: nat)

  predicate InRegion(g: Region, y: int, x: int)
  {
    g.top <= y < g.top + g.rows && g.left <= x < g.left + g.cols
  }

  predicate Fits(img: Image, g: Region)
  {
    g.top + g.rows <= |img| && g.left + g.cols <= Width(img)
  }

  function Clip(k: nat, n: nat): nat
  {
    if k < n then k else n
  }

  /** The region numpy selects for `img[y0:y1, x0:x1]` with non-negative
      bounds: each bound is cut to the array's extent, and an upper bound
      below the lower one gives an empty range. */
  function Clamped(img: Image, y0: nat, y1: nat, x0: nat, x1: nat): (g: Region)
    ensures Fits(img, g)
    ensures y0 <= y1 <= |img| && x0 <= x1 <= Width(img) ==> g == Region(y0, x0, y1 - y0, x1 - x0)
  {
    var top, bottom := Clip(y0, |img|), Clip(y1, |img|);
    var left, right := Clip(x0, Width(img)), Clip(x1, Width(img));
    Region(top, left, if bottom <= top then 0 else bottom - top, if right <= left then 0 else right - left)
  }

  /** Reading a region. */
  function Slice(img: Image, g: Region): (r: Image)
    requires Rect(img) && Fits(img, g)
    ensures Shaped(r, g.rows, g.cols)
    ensures forall i, j | 0 <= i < g.rows && 0 <= j < g.cols :: r[i][j] == img[g.top + i][g.left + j]
  {
    var r := seq(g.rows, i requires 0 <= i < g.rows => img[g.top + i][g.left..g.left + g.cols]);
    assert forall i | 0 <= i < g.rows :: r[i] == img[g.top + i][g.left..g.left + g.cols];
    r
  }

  /** Slice assignment `img[region] = block`: the block must have the
      region's shape (otherwise numpy raises). */
  function Write(img: Image, g: Region, block: Image): (r: Option<Image>)
    requires Rect(img) && Fits(img, g)
    ensures r.Some? <==> Shaped(block, g.rows, g.cols)
    ensures r.Some? ==> Shaped(r.value, |img|, Width(img)) && Rect(r.value)
  {
    if !Shaped(block, g.rows, g.cols) then None
    else
      var out := seq(|img|, y requires 0 <= y < |img| =>
        if g.top <= y < g.top + g.rows then img[y][..g.left] + block[y - g.top] + img[y][g.left + g.cols..]
        else img[y]);
      assert Width(out) == Width(img);
      Some(out)
  }

  /** Reading back a region just written gives the block written. */
  lemma ReadAfterWrite(img: Image, g: Region, block: Image)
    requires Rect(img) && Fits(img, g)
    requires Write(img, g, block).Some?
    ensures Slice(Write(img, g, block).value, g) == block
  {
    var r := Slice(Write(img, g, block).value, g);
    forall i | 0 <= i < g.rows
      ensures r[i] == block[i]
    {
      ReadRow(img, g, block, i);
    }
  }

  /** One row of `ReadAfterWrite`. */
  lemma ReadRow(img: Image, g: Region, block: Image, i: nat)
    requires Rect(img) && Fits(img, g) && Write(img, g, block).Some?
    requires i < g.rows
    ensures Slice(Write(img, g, block).value, g)[i] == block[i]
  {
    var out := Write(img, g, block).value;
    var y := g.top + i;
    var a, b, c := img[y][..g.left], block[i], img[y][g.left + g.cols..];
    WrittenRow(img, g, block, i);
    SliceRow(out, g, i);
    Middle(a, b, c);
  }

  lemma WrittenRow(img: Image, g: Region, block: Image, i: nat)
    requires Rect(img) && Fits(img, g) && Write(img, g, block).Some?
    requires i < g.rows
    ensures Write(img, g, block).value[g.top + i]
         == img[g.top + i][..g.left] + block[i] + img[g.top + i][g.left + g.cols..]
  {
  }

  lemma SliceRow(img: Image, g: Region, i: nat)
    requires Rect(img) && Fits(img, g) && i < g.rows
    ensures Slice(img, g)[i] == img[g.top + i][g.left..g.left + g.cols]
  {
  }

  lemma Middle<T>(a: seq<T>, b: seq<T>, c: seq<T>)
    ensures (a + b + c)[|a|..|a| + |b|] == b
  {
  }

  /** Writing a region twice keeps only the second block. */
  lemma WriteTwice(img: Image, g: Region, first: Image, second: Image)
    requires Rect(img) && Fits(img, g)
    requires Write(img, g, first).Some?
    ensures Write(Write(img, g, first).value, g, second) == Write(img, g, second)
  {
    var mid := Write(img, g, first).value;
    if Shaped(second, g.rows, g.cols) {
      var a := Write(mid, g, second).value;
      var b := Write(img, g, second).value;
      forall y | 0 <= y < |img|
        ensures a[y] == b[y]
      {
        forall x | 0 <= x < Width(img) ensures a[y][x] == b[y][x] { }
      }
      assert a == b;
    }
  }

  // ---------------------------------------------------------------------
  // Segmentation.

  /** `square_size = height // 8`; the width is not consulted. */
  function SquareSize(img: Image): nat
  {
    |img| / 8
  }

  /** Cell k of the segmentation: row block k / 8, column block k % 8. */
  function CellRegion(img: Image, k: nat): Region
    requires k < 64
  {
    var s := SquareSize(img);
    Clamped(img, (k / 8) * s, (k / 8 + 1) * s, (k % 8) * s, (k % 8 + 1) * s)
  }

  function Cell(img: Image, k: nat): Image
    requires Rect(img) && k < 64
  {
    Slice(img, CellRegion(img, k))
  }

  /** The nested loop of `preprocess_input_image`: 64 blocks, row-major. */
  method Segment(img: Image) returns (blocks: seq<Image>)
    requires Rect(img)
    ensures |blocks| == 64
    ensures forall k | 0 <= k < 64 :: blocks[k] == Cell(img, k)
  {
    var s := SquareSize(img);
    blocks := [];
    var i := 0;
    while i < 8
      invariant 0 <= i <= 8
      invariant |blocks| == 8 * i
      invariant forall k | 0 <= k < |blocks| :: blocks[k] == Cell(img, k)
    {
      var j := 0;
      while j < 8
        invariant 0 <= j <= 8
        invariant |blocks| == 8 * i + j
        invariant forall k | 0 <= k < |blocks| :: blocks[k] == Cell(img, k)
      {
        var square := Slice(img, Clamped(img, i * s, (i + 1) * s, j * s, (j + 1) * s));
        assert (8 * i + j) / 8 == i && (8 * i + j) % 8 == j;
        blocks := blocks + [square];
        j := j + 1;
      }
      i := i + 1;
    }
  }

  /** On an image at least 8s wide, every cell is an s-by-s block and the
      cells tile the top-left 8s-by-8s square: pixel (y, x) there lies in
      cell (y / s) * 8 + x / s at offset (y % s, x % s). */
  lemma CellsTile(img: Image, y: nat, x: nat)
    requires Rect(img) && Width(img) >= 8 * SquareSize(img)
    requires y < 8 * SquareSize(img) && x < 8 * SquareSize(img)
    ensures
      var s := SquareSize(img);
      var k := (y / s) * 8 + x / s;
      k < 64 && Shaped(Cell(img, k), s, s) && Cell(img, k)[y % s][x % s] == img[y][x]
  {
    var s := SquareSize(img);
    var qy, ry, qx, rx := y / s, y % s, x / s, x % s;
    DivBelow(y, s);
    DivBelow(x, s);
    DivMod(y, s);
    DivMod(x, s);
    CellAt(img, qy, qx);
    assert Cell(img, qy * 8 + qx)[ry][rx] == img[qy * s + ry][qx * s + rx];
  }

  /** The cell in row block q, column block r is the full s-by-s block. */
  lemma CellAt(img: Image, q: nat, r: nat)
    requires Rect(img) && Width(img) >= 8 * SquareSize(img) && q < 8 && r < 8
    ensures
      var s := SquareSize(img);
      CellRegion(img, q * 8 + r) == Region(q * s, r * s, s, s)
  {
    BlockIndex(q, r);
    CellFull(img, q * 8 + r);
  }

  lemma BlockIndex(q: nat, r: nat)
    requires q < 8 && r < 8
    ensures (q * 8 + r) / 8 == q && (q * 8 + r) % 8 == r
  {
  }

  lemma DivMod(a: nat, s: nat)
    requires s > 0
    ensures (a / s) * s + a % s == a
  {
  }

  lemma DivBelow(a: nat, s: nat)
    requires s > 0 && a < 8 * s
    ensures a / s < 8
  {
  }

  lemma RowBlockBound(b: nat, s: nat)
    requires b < 8
    ensures (b + 1) * s <= 8 * s
  {
  }

  /** On an image at least 8s wide the clamp never cuts a cell. */
  lemma CellFull(img: Image, k: nat)
    requires Rect(img) && Width(img) >= 8 * SquareSize(img) && k < 64
    ensures
      var s := SquareSize(img);
      CellRegion(img, k) == Region((k / 8) * s, (k % 8) * s, s, s)
  {
    var s := SquareSize(img);
    RowBlockBound(k / 8, s);
    RowBlockBound(k % 8, s);
    assert 8 * s <= |img|;
  }

  /** `cv.cvtColor(img, cv.COLOR_BGR2RGB)`: the first and third channels
      trade places. */
  function ToRgb(img: Image): (r: Image)
    ensures |r| == |img|
    ensures forall y | 0 <= y < |img| :: |r[y]| == |img[y]|
    ensures Rect(img) ==> Rect(r) && Width(r) == Width(img)
    ensures forall y, x | 0 <= y < |img| && 0 <= x < |img[y]| ::
      r[y][x] == Pixel(img[y][x].c2, img[y][x].c1, img[y][x].c0)
  {
    seq(|img|, y requires 0 <= y < |img| =>
      seq(|img[y]|, x requires 0 <= x < |img[y]| => Pixel(img[y][x].c2, img[y][x].c1, img[y][x].c0)))
  }

  /** Converting twice gives the image back, and conversion keeps the shape. */
  lemma ToRgbInvolutive(img: Image)
    ensures Rect(img) ==> Rect(ToRgb(img)) && Width(ToRgb(img)) == Width(img)
    ensures ToRgb(ToRgb(img)) == img
  {
    var back := ToRgb(ToRgb(img));
    forall y | 0 <= y < |img| ensures back[y] == img[y] { }
  }

  datatype ReadError = Unreadable

  /** `preprocess_input_image(path)` given what `cv.imread` returned: no
      image raises ValueError; otherwise the 64 cells of the RGB image. */
  method Preprocess(read: Option<Image>) returns (r: Result<seq<Image>, ReadError>)
    requires read.Some? ==> Rect(read.value)
    ensures r.Err? <==> read.None?
    ensures r.Ok? ==> |r.value| == 64
    ensures r.Ok? ==>
      var rgb := ToRgb(read.value);
      Rect(rgb) && forall k | 0 <= k < 64 :: r.value[k] == Cell(rgb, k)
  {
    if read.None? {
      return Err(Unreadable);
    }
    ToRgbInvolutive(read.value);
    var blocks := Segment(ToRgb(read.value));
    return Ok(blocks);
  }

  // ---------------------------------------------------------------------
  // Squares.

  /** `y = (7 - rank) * s`, `x = file * s`, and the slice of side s there. */
  function SquareRegion(img: Image, sq: Square): Region
  {
    var s := SquareSize(img);
    var y, x := (7 - SquareRank(sq)) * s, SquareFile(sq) * s;
    Clamped(img, y, y + s, x, x + s)
  }

  function GetSquare(img: Image, sq: Square): (r: Image)
    requires Rect(img)
  {
    Slice(img, SquareRegion(img, sq))
  }

  function PutSquare(img: Image, sq: Square, block: Image): (r: Option<Image>)
    requires Rect(img)
  {
    Write(img, SquareRegion(img, sq), block)
  }

  /** The square of file f and rank r is segmentation cell (7 - r) * 8 + f. */
  lemma SquareIsCell(img: Image, sq: Square)
    ensures (7 - SquareRank(sq)) * 8 + SquareFile(sq) < 64
    ensures SquareRegion(img, sq) == CellRegion(img, (7 - SquareRank(sq)) * 8 + SquareFile(sq))
  {
    var k := (7 - SquareRank(sq)) * 8 + SquareFile(sq);
    assert k / 8 == 7 - SquareRank(sq) && k % 8 == SquareFile(sq);
  }

  /** `get_square_image` after `put_square_image` returns what was put. */
  lemma GetAfterPut(img: Image, sq: Square, block: Image)
    requires Rect(img)
    requires PutSquare(img, sq, block).Some?
    ensures GetSquare(PutSquare(img, sq, block).value, sq) == block
  {
    var out := PutSquare(img, sq, block).value;
    assert SquareRegion(out, sq) == SquareRegion(img, sq);
    ReadAfterWrite(img, SquareRegion(img, sq), block);
  }

  /** `put_square_image` succeeds exactly on a block of the region's shape
      and leaves every pixel outside the region unchanged. */
  lemma PutFrame(img: Image, sq: Square, block: Image)
    requires Rect(img)
    ensures PutSquare(img, sq, block).Some? <==> Shaped(block, SquareRegion(img, sq).rows, SquareRegion(img, sq).cols)
    ensures PutSquare(img, sq, block).Some? ==>
      var out := PutSquare(img, sq, block).value;
      && Shaped(out, |img|, Width(img))
      && forall y, x | 0 <= y < |img| && 0 <= x < Width(img) && !InRegion(SquareRegion(img, sq), y, x) :: out[y][x] == img[y][x]
  {
  }

  /** On an image at least 8s wide each square's region is a full s-by-s
      block, and two different squares have disjoint regions. */
  lemma SquareRegionFull(img: Image, sq: Square)
    requires Rect(img) && Width(img) >= 8 * SquareSize(img)
    ensures
      var s := SquareSize(img);
      SquareRegion(img, sq) == Region((7 - SquareRank(sq)) * s, SquareFile(sq) * s, s, s)
  {
    SquareIsCell(img, sq);
    CellFull(img, (7 - SquareRank(sq)) * 8 + SquareFile(sq));
    var k := (7 - SquareRank(sq)) * 8 + SquareFile(sq);
    assert k / 8 == 7 - SquareRank(sq) && k % 8 == SquareFile(sq);
  }

  lemma SquaresDisjoint(img: Image, a: Square, b: Square, y: int, x: int)
    requires Rect(img) && Width(img) >= 8 * SquareSize(img)
    requires a != b
    ensures !(InRegion(SquareRegion(img, a), y, x) && InRegion(SquareRegion(img, b), y, x))
  {
    SquareRegionFull(img, a);
    SquareRegionFull(img, b);
    var s := SquareSize(img);
    if InRegion(SquareRegion(img, a), y, x) && InRegion(SquareRegion(img, b), y, x) {
      BlockUnique(7 - SquareRank(a), 7 - SquareRank(b), s, y);
      BlockUnique(SquareFile(a), SquareFile(b), s, x);
    }
  }

  /** Two blocks of side s containing the same coordinate are the same block. */
  lemma BlockUnique(i: int, j: int, s: nat, c: int)
    requires i * s <= c < i * s + s
    requires j * s <= c < j * s + s
    ensures i == j
  {
    BlocksApart(i, j, s);
    BlocksApart(j, i, s);
  }

  lemma BlocksApart(i: int, j: int, s: nat)
    ensures i < j ==> i * s + s <= j * s
  {
    if i < j {
      MulMono(i + 1, j, s);
    }
  }

  lemma MulMono(a: int, b: int, s: nat)
    requires a <= b
    ensures a * s <= b * s
  {
  }

  // ---------------------------------------------------------------------
  // Plain squares and the move overlay.

  const LightFill := Pixel(240, 217, 181)
  const DarkFill := Pixel(181, 136, 99)

  /** `get_empty_square`: an s-by-s block of the light or dark colour. */
  function EmptySquare(s: nat, light: bool): (r: Image)
    ensures Shaped(r, s, s)
    ensures forall i, j | 0 <= i < s && 0 <= j < s :: r[i][j] == if light then LightFill else DarkFill
  {
    seq(s, _ => seq(s, _ => if light then LightFill else DarkFill))
  }

  /** `determine_square_color(square)` as written: true ("white") when
      file + rank is even. */
  predicate IsLightAsWritten(sq: Square)
  {
    (SquareFile(sq) + SquareRank(sq)) % 2 == 0
  }

  /** The colouring of a real board: h1 is light, a1 dark, so a square is
      light when file + rank is odd. */
  predicate IsLight(sq: Square)
  {
    (SquareFile(sq) + SquareRank(sq)) % 2 == 1
  }

  /** The colouring of section 2.1 of the FIDE Laws of Chess: squares
      alternate along ranks and files, and the near right-hand corner square
      of each player (h1 for White, a8 for Black) is light. */
  predicate FideColouring(light: Square -> bool)
  {
    && light(7) && light(56)
    && (forall sq: Square | SquareFile(sq) < 7 :: light(sq) != light(sq + 1))
    && (forall sq: Square | SquareRank(sq) < 7 :: light(sq) != light(sq + 8))
  }

  lemma IsLightFollowsFide()
    ensures FideColouring(IsLight)
  {
    forall sq: Square | SquareFile(sq) < 7 ensures IsLight(sq) != IsLight(sq + 1) {
      assert SquareFile(sq + 1) == SquareFile(sq) + 1 && SquareRank(sq + 1) == SquareRank(sq);
    }
    forall sq: Square | SquareRank(sq) < 7 ensures IsLight(sq) != IsLight(sq + 8) {
      assert SquareFile(sq + 8) == SquareFile(sq) && SquareRank(sq + 8) == SquareRank(sq) + 1;
    }
  }

  /** The parity test as written inverts the board: it calls every dark
      square light and every light one dark, starting with h1. */
  lemma AsWrittenInvertsColouring()
    ensures forall sq: Square :: IsLightAsWritten(sq) <==> !IsLight(sq)
    ensures !IsLightAsWritten(7) && IsLightAsWritten(0)
    ensures !FideColouring(IsLightAsWritten)
  {
  }

  /** Filling a square twice with the same plain block is filling it once. */
  lemma FillIdempotent(img: Image, sq: Square, light: bool)
    requires Rect(img)
    requires PutSquare(img, sq, EmptySquare(SquareSize(img), light)).Some?
    ensures
      var e := EmptySquare(SquareSize(img), light);
      var once := PutSquare(img, sq, e).value;
      PutSquare(once, sq, e) == Some(once)
  {
    var e := EmptySquare(SquareSize(img), light);
    var once := PutSquare(img, sq, e).value;
    assert SquareRegion(once, sq) == SquareRegion(img, sq);
    WriteTwice(img, SquareRegion(img, sq), e, e);
  }

  /** `apply_move_to_image`: paint the destination plain, overlay the blend
      of that plain block with the piece extracted from the origin, then
      paint the origin plain. Piece extraction and blending are opaque
      image operations; `light` is the square colouring used. */
  function ApplyMoveWith(img: Image, m: Move, extract: Image -> Image, blend: (Image, Image) -> Image,
                         light: Square -> bool): Option<Image>
    requires Rect(img)
  {
    var s := SquareSize(img);
    var piece := extract(GetSquare(img, m.from));
    var emptyTo := EmptySquare(s, light(m.to));
    match PutSquare(img, m.to, emptyTo)
    case None => None
    case Some(img1) =>
      match PutSquare(img1, m.to, blend(emptyTo, piece))
      case None => None
      case Some(img2) => PutSquare(img2, m.from, EmptySquare(s, light(m.from)))
  }

  function ApplyMoveAsWritten(img: Image, m: Move, extract: Image -> Image, blend: (Image, Image) -> Image): Option<Image>
    requires Rect(img)
  {
    ApplyMoveWith(img, m, extract, blend, IsLightAsWritten)
  }

  function ApplyMove(img: Image, m: Move, extract: Image -> Image, blend: (Image, Image) -> Image): Option<Image>
    requires Rect(img)
  {
    ApplyMoveWith(img, m, extract, blend, IsLight)
  }

  /** `out` is `img` with region `fr` showing `fromBlock`, region `to`
      showing `toBlock`, and every other pixel as it was. */
  predicate Repainted(img: Image, out: Image, fr: Region, to: Region, fromBlock: Image, toBlock: Image)
  {
    && Rect(img) && Shaped(fromBlock, fr.rows, fr.cols) && Shaped(toBlock, to.rows, to.cols)
    && Shaped(out, |img|, Width(img))
    && (forall y, x | 0 <= y < |img| && 0 <= x < Width(img) && InRegion(fr, y, x) ::
          out[y][x] == fromBlock[y - fr.top][x - fr.left])
    && (forall y, x | 0 <= y < |img| && 0 <= x < Width(img) && InRegion(to, y, x) ::
          out[y][x] == toBlock[y - to.top][x - to.left])
    && (forall y, x | 0 <= y < |img| && 0 <= x < Width(img) && !InRegion(fr, y, x) && !InRegion(to, y, x) ::
          out[y][x] == img[y][x])
  }

  /** For a move between two different squares of an image at least 8s
      wide, whose blend yields an s-by-s block: the origin shows its plain
      colour, the destination the blend of its plain colour with the piece
      extracted from the ORIGINAL origin square, and no other pixel
      changes. */
  lemma ApplyMoveFrame(img: Image, m: Move, extract: Image -> Image, blend: (Image, Image) -> Image,
                       light: Square -> bool) returns (out: Image)
    requires Rect(img) && Width(img) >= 8 * SquareSize(img)
    requires m.from != m.to
    requires
      var s := SquareSize(img);
      Shaped(blend(EmptySquare(s, light(m.to)), extract(GetSquare(img, m.from))), s, s)
    ensures ApplyMoveWith(img, m, extract, blend, light) == Some(out)
    ensures
      var s := SquareSize(img);
      Repainted(img, out, SquareRegion(img, m.from), SquareRegion(img, m.to), EmptySquare(s, light(m.from)),
                blend(EmptySquare(s, light(m.to)), extract(GetSquare(img, m.from))))
  {
    var s := SquareSize(img);
    var emptyTo, emptyFrom := EmptySquare(s, light(m.to)), EmptySquare(s, light(m.from));
    var overlay := blend(emptyTo, extract(GetSquare(img, m.from)));
    var fr, to := SquareRegion(img, m.from), SquareRegion(img, m.to);
    SquareRegionFull(img, m.from);
    SquareRegionFull(img, m.to);
    SquaresApart(img, m.from, m.to);
    out := ThreeWrites(img, fr, to, emptyTo, overlay, emptyFrom);
    var img1 := Write(img, to, emptyTo).value;
    var img2 := Write(img1, to, overlay).value;
    SameRegion(img, img1, m.to);
    SameRegion(img, img2, m.from);
    ApplyMoveSteps(img, m, extract, blend, light, img1, img2, out);
  }

  /** Images of the same size address a square by the same region. */
  lemma SameRegion(a: Image, b: Image, sq: Square)
    requires |a| == |b| && Width(a) == Width(b)
    ensures SquareRegion(a, sq) == SquareRegion(b, sq)
  {
  }

  /** The regions of two different squares share no pixel. */
  lemma SquaresApart(img: Image, a: Square, b: Square)
    requires Rect(img) && Width(img) >= 8 * SquareSize(img)
    requires a != b
    ensures forall y, x :: !(InRegion(SquareRegion(img, a), y, x) && InRegion(SquareRegion(img, b), y, x))
  {
    forall y, x ensures !(InRegion(SquareRegion(img, a), y, x) && InRegion(SquareRegion(img, b), y, x)) {
      SquaresDisjoint(img, a, b, y, x);
    }
  }

  /** `apply_move_to_image` is its three `put_square_image` calls in turn. */
  lemma ApplyMoveSteps(img: Image, m: Move, extract: Image -> Image, blend: (Image, Image) -> Image,
                       light: Square -> bool, img1: Image, img2: Image, out: Image)
    requires Rect(img) && Rect(img1) && Rect(img2)
    requires
      var s := SquareSize(img);
      && PutSquare(img, m.to, EmptySquare(s, light(m.to))) == Some(img1)
      && PutSquare(img1, m.to, blend(EmptySquare(s, light(m.to)), extract(GetSquare(img, m.from)))) == Some(img2)
      && PutSquare(img2, m.from, EmptySquare(s, light(m.from))) == Some(out)
    ensures ApplyMoveWith(img, m, extract, blend, light) == Some(out)
  {
  }

  /** What `get_square_image` reads back from the two squares of a move. */
  lemma ApplyMoveSquares(img: Image, m: Move, extract: Image -> Image, blend: (Image, Image) -> Image,
                         light: Square -> bool) returns (out: Image)
    requires Rect(img) && Width(img) >= 8 * SquareSize(img)
    requires m.from != m.to
    requires
      var s := SquareSize(img);
      Shaped(blend(EmptySquare(s, light(m.to)), extract(GetSquare(img, m.from))), s, s)
    ensures ApplyMoveWith(img, m, extract, blend, light) == Some(out)
    ensures Rect(out)
    ensures GetSquare(out, m.from) == EmptySquare(SquareSize(img), light(m.from))
    ensures GetSquare(out, m.to) == blend(EmptySquare(SquareSize(img), light(m.to)), extract(GetSquare(img, m.from)))
  {
    var s := SquareSize(img);
    out := ApplyMoveFrame(img, m, extract, blend, light);
    var fr, to := SquareRegion(img, m.from), SquareRegion(img, m.to);
    SameRegion(img, out, m.from);
    SameRegion(img, out, m.to);
    SquaresApart(img, m.from, m.to);
    RegionShows(img, out, fr, to, EmptySquare(s, light(m.from)),
                blend(EmptySquare(s, light(m.to)), extract(GetSquare(img, m.from))));
  }

  /** A repainted region reads back as the block painted there. */
  lemma RegionShows(img: Image, out: Image, fr: Region, to: Region, fromBlock: Image, toBlock: Image)
    requires Rect(img) && Fits(img, fr) && Fits(img, to)
    requires Shaped(fromBlock, fr.rows, fr.cols) && Shaped(toBlock, to.rows, to.cols)
    requires forall y, x :: !(InRegion(fr, y, x) && InRegion(to, y, x))
    requires Repainted(img, out, fr, to, fromBlock, toBlock)
    ensures Rect(out) && Fits(out, fr) && Fits(out, to)
    ensures Slice(out, fr) == fromBlock && Slice(out, to) == toBlock
  {
    assert Width(out) == Width(img);
    var a := Slice(out, fr);
    forall i | 0 <= i < fr.rows ensures a[i] == fromBlock[i] {
      forall j | 0 <= j < fr.cols ensures a[i][j] == fromBlock[i][j] {
        assert InRegion(fr, fr.top + i, fr.left + j);
      }
    }
    var b := Slice(out, to);
    forall i | 0 <= i < to.rows ensures b[i] == toBlock[i] {
      forall j | 0 <= j < to.cols ensures b[i][j] == toBlock[i][j] {
        assert InRegion(to, to.top + i, to.left + j);
      }
    }
  }

  /** As written, the vacated origin square is painted in the colour
      opposite to its own: after e2-e4, the light square e2 turns dark. */
  lemma VacatedSquareAsWritten(img: Image, m: Move, extract: Image -> Image, blend: (Image, Image) -> Image)
    requires Rect(img) && Width(img) >= 8 * SquareSize(img)
    requires m.from != m.to
    requires
      var s := SquareSize(img);
      Shaped(blend(EmptySquare(s, IsLightAsWritten(m.to)), extract(GetSquare(img, m.from))), s, s)
    ensures ApplyMoveAsWritten(img, m, extract, blend).Some?
    ensures
      var out := ApplyMoveAsWritten(img, m, extract, blend).value;
      Rect(out) && GetSquare(out, m.from) == EmptySquare(SquareSize(img), !IsLight(m.from))
  {
    var _ := ApplyMoveSquares(img, m, extract, blend, IsLightAsWritten);
  }

  /** With the board's own colouring the vacated origin square shows the
      plain colour of that square. */
  lemma VacatedSquare(img: Image, m: Move, extract: Image -> Image, blend: (Image, Image) -> Image)
    requires Rect(img) && Width(img) >= 8 * SquareSize(img)
    requires m.from != m.to
    requires
      var s := SquareSize(img);
      Shaped(blend(EmptySquare(s, IsLight(m.to)), extract(GetSquare(img, m.from))), s, s)
    ensures ApplyMove(img, m, extract, blend).Some?
    ensures
      var out := ApplyMove(img, m, extract, blend).value;
      Rect(out) && GetSquare(out, m.from) == EmptySquare(SquareSize(img), IsLight(m.from))
  {
    var _ := ApplyMoveSquares(img, m, extract, blend, IsLight);
  }

  /** Painting one region, then overlaying a second, disjoint one twice
      over. */
  lemma ThreeWrites(img: Image, fr: Region, to: Region, emptyTo: Image, overlay: Image, emptyFrom: Image)
    returns (out: Image)
    requires Rect(img) && Fits(img, to) && Fits(img, fr)
    requires Shaped(emptyTo, to.rows, to.cols) && Shaped(overlay, to.rows, to.cols)
    requires Shaped(emptyFrom, fr.rows, fr.cols)
    requires forall y, x :: !(InRegion(fr, y, x) && InRegion(to, y, x))
    ensures Write(img, to, emptyTo).Some?
    ensures Write(Write(img, to, emptyTo).value, to, overlay).Some?
    ensures Write(Write(Write(img, to, emptyTo).value, to, overlay).value, fr, emptyFrom) == Some(out)
    ensures Repainted(img, out, fr, to, emptyFrom, overlay)
  {
    var img1 := Write(img, to, emptyTo).value;
    var img2 := Write(img1, to, overlay).value;
    out := Write(img2, fr, emptyFrom).value;
    forall y, x | 0 <= y < |img| && 0 <= x < Width(img)
      ensures InRegion(fr, y, x) ==> out[y][x] == emptyFrom[y - fr.top][x - fr.left]
      ensures InRegion(to, y, x) ==> out[y][x] == overlay[y - to.top][x - to.left]
      ensures !InRegion(fr, y, x) && !InRegion(to, y, x) ==> out[y][x] == img[y][x]
    {
      MovePixel(img, img1, img2, out, fr, to, emptyTo, overlay, emptyFrom, y, x);
    }
  }

  /** One pixel through the three writes of a move between disjoint regions. */
  lemma MovePixel(img: Image, img1: Image, img2: Image, out: Image, fr: Region, to: Region,
                  emptyTo: Image, overlay: Image, emptyFrom: Image, y: nat, x: nat)
    requires Rect(img) && Fits(img, to) && Fits(img, fr)
    requires Write(img, to, emptyTo) == Some(img1)
    requires Write(img1, to, overlay) == Some(img2)
    requires Write(img2, fr, emptyFrom) == Some(out)
    requires y < |img| && x < Width(img)
    requires !(InRegion(fr, y, x) && InRegion(to, y, x))
    ensures InRegion(fr, y, x) ==> out[y][x] == emptyFrom[y - fr.top][x - fr.left]
    ensures InRegion(to, y, x) ==> out[y][x] == overlay[y - to.top][x - to.left]
    ensures !InRegion(fr, y, x) && !InRegion(to, y, x) ==> out[y][x] == img[y][x]
  {
    WritePixel(img, to, emptyTo, y, x);
    WritePixel(img1, to, overlay, y, x);
    WritePixel(img2, fr, emptyFrom, y, x);
  }

  /** One pixel of a region write. */
  lemma WritePixel(img: Image, g: Region, block: Image, y: nat, x: nat)
    requires Rect(img) && Fits(img, g) && Write(img, g, block).Some?
    requires y < |img| && x < Width(img)
    ensures Write(img, g, block).value[y][x] == if InRegion(g, y, x) then block[y - g.top][x - g.left] else img[y][x]
  {
  }
}
