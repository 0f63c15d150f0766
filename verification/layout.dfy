/**
  Index arithmetic shared by the packers in io.cpp: an image stores pixel
  (h, w), channel c at `w * C + c` of row h (interleaved, HWC); a record
  stores it at `(c * H + h) * W + w` (planar, CHW). This module proves the
  planar index a bijection and defines the planar image it produces.
 */
module Layout {
  import opened Image

  /** `datum_index`: where pixel (h, w) of plane c lands in a buffer of H x W planes. */
  function Index(H: nat, W: nat, h: nat, w: nat, c: nat): nat
  {
    (c * H + h) * W + w
  }

  /** `img_index`: where channel c of pixel w sits in an interleaved row of C channels. */
  function RowOffset(C: nat, w: nat, c: nat): nat
  {
    w * C + c
  }

  lemma MulLe(a: nat, b: nat, k: nat)
    requires a <= b
    ensures a * k <= b * k
  {
  }

  /** Two-digit numbers in base d compare like their leading digits. */
  lemma DigitsBelow(a: nat, x: nat, b: nat, d: nat)
    requires x < d
    ensures a * d + x < b * d <==> a < b
  {
    if a < b {
      MulLe(a + 1, b, d);
      assert (a + 1) * d == a * d + d;
    } else {
      MulLe(b, a, d);
    }
  }

  /** Two-digit numbers in base d are equal only digit by digit. */
  lemma DigitsInjective(a: nat, x: nat, b: nat, y: nat, d: nat)
    requires x < d && y < d
    requires a * d + x == b * d + y
    ensures a == b && x == y
  {
    if a < b {
      DigitsBelow(a, x, b, d);
    } else if b < a {
      DigitsBelow(b, y, a, d);
    }
  }

  /** A planar index is inside P planes exactly when its plane is. */
  lemma IndexInRange(P: nat, H: nat, W: nat, h: nat, w: nat, c: nat)
    requires h < H && w < W
    ensures Index(H, W, h, w, c) < P * H * W <==> c < P
  {
    DigitsBelow(c, h, P, H);
    DigitsBelow(c * H + h, w, P * H, W);
  }

  /** Every pixel of every plane below P lands inside the P-plane buffer. */
  lemma AllIndicesInRange(P: nat, H: nat, W: nat)
    ensures forall h: nat, w: nat, c: nat :: h < H && w < W && c < P ==> Index(H, W, h, w, c) < P * H * W
  {
    forall h: nat, w: nat, c: nat | h < H && w < W && c < P
      ensures Index(H, W, h, w, c) < P * H * W
    {
      IndexInRange(P, H, W, h, w, c);
    }
  }

  /** Distinct pixels or planes never share a planar index. */
  lemma IndexInjective(H: nat, W: nat, h: nat, w: nat, c: nat, h': nat, w': nat, c': nat)
    requires h < H && w < W && h' < H && w' < W
    ensures Index(H, W, h, w, c) == Index(H, W, h', w', c') <==> h == h' && w == w' && c == c'
  {
    if Index(H, W, h, w, c) == Index(H, W, h', w', c') {
      DigitsInjective(c * H + h, w, c' * H + h', w', W);
      DigitsInjective(c, h, c', h', H);
    }
  }

  /** Plane P + c of a buffer is plane c of the buffer that starts P planes later. */
  lemma IndexShift(P: nat, H: nat, W: nat, h: nat, w: nat, c: nat)
    ensures Index(H, W, h, w, P + c) == P * H * W + Index(H, W, h, w, c)
  {
    assert (P + c) * H + h == P * H + (c * H + h);
    assert (P * H + (c * H + h)) * W == P * H * W + (c * H + h) * W;
  }

  /** Channel c of pixel w lies inside a row of W pixels with C channels. */
  lemma RowOffsetInRange(C: nat, W: nat, w: nat, c: nat)
    requires c < C
    ensures RowOffset(C, w, c) < W * C <==> w < W
  {
    DigitsBelow(w, c, W, C);
  }

  /** Reading with D <= C channels per pixel stays inside a row of W pixels with C channels. */
  lemma NarrowReadStaysInRow(C: nat, D: nat, W: nat, w: nat, c: nat)
    requires D <= C && c < D && w < W
    ensures RowOffset(D, w, c) < W * C
  {
    MulLe(D, C, w);
    RowOffsetInRange(C, W, w, c);
  }

  /** Reading all W pixels with D channels each stays within W pixels of C channels only if D <= C. */
  lemma WholeRowReadFitsOnlyIfNarrow(C: nat, D: nat, W: nat)
    requires 0 < W && 0 < D
    ensures RowOffset(D, W - 1, D - 1) < W * C <==> D <= C
  {
    assert RowOffset(D, W - 1, D - 1) == W * D - 1;
    if C < D {
      MulLe(C + 1, D, W);
    } else {
      MulLe(D, C, W);
    }
  }

  /** (h', w', c') comes before (h, w, c) in the packers' loop order: rows, then pixels, then channels. */
  predicate Before(h': nat, w': nat, c': nat, h: nat, w: nat, c: nat)
  {
    h' < h || (h' == h && (w' < w || (w' == w && c' < c)))
  }

  /** A product with a zero factor is zero. */
  lemma MulZero(a: nat, d: nat)
    ensures d == 0 ==> a * d == 0
  {
  }

  /** Splitting n < B * d into its two base-d digits. */
  lemma Split(n: nat, d: nat, B: nat)
    requires n < B * d
    ensures 0 < d && n / d < B && n % d < d
    ensures n == (n / d) * d + n % d
  {
    MulZero(B, d);
    DigitsBelow(n / d, n % d, B, d);
  }

  /**
    The inverse of `Index`: the pixel and plane an index of a C-plane buffer
    belongs to, as (h, w, c).
   */
  function Coords(C: nat, H: nat, W: nat, i: nat): (t: (nat, nat, nat))
    requires i < C * H * W
    ensures t.0 < H && t.1 < W && t.2 < C
    ensures Index(H, W, t.0, t.1, t.2) == i
  {
    Split(i, W, C * H);
    var q := i / W;
    Split(q, H, C);
    (q % H, i % W, q / H)
  }

  /** Index and Coords are inverse on the whole buffer, in both directions. */
  lemma CoordsOfIndex(C: nat, H: nat, W: nat, h: nat, w: nat, c: nat)
    requires h < H && w < W && c < C
    ensures Index(H, W, h, w, c) < C * H * W
    ensures Coords(C, H, W, Index(H, W, h, w, c)) == (h, w, c)
  {
    IndexInRange(C, H, W, h, w, c);
    var t := Coords(C, H, W, Index(H, W, h, w, c));
    IndexInjective(H, W, t.0, t.1, t.2, h, w, c);
  }

  /** Sample (h, w, c) of a well-formed image. */
  function PixelAt(img: Mat, h: nat, w: nat, c: nat): Byte
    requires img.Valid() && h < img.rows && w < img.cols && c < img.channels
  {
    RowOffsetInRange(img.channels, img.cols, w, c);
    img.pixels[h][RowOffset(img.channels, w, c)]
  }

  /** Number of samples in an image: channels * rows * cols. */
  function Size(img: Mat): nat
  {
    img.channels * img.rows * img.cols
  }

  /**
    Reference definition of the planar layout, index by index: byte i is the
    sample whose (h, w, c) the inverse map gives.
   */
  function Planar(img: Mat): seq<Byte>
    requires img.Valid()
  {
    seq(Size(img), i requires 0 <= i < Size(img) =>
      var t := Coords(img.channels, img.rows, img.cols, i);
      PixelAt(img, t.0, t.1, t.2))
  }

  /** `data` holds every sample of `img` at its planar index (the HWC to CHW transpose). */
  ghost predicate IsPlanarOf(img: Mat, data: seq<Byte>)
    requires img.Valid()
  {
    && |data| == Size(img)
    && (AllIndicesInRange(img.channels, img.rows, img.cols);
        forall h: nat, w: nat, c: nat :: h < img.rows && w < img.cols && c < img.channels ==>
          data[Index(img.rows, img.cols, h, w, c)] == PixelAt(img, h, w, c))
  }

  /** The reference planar image has the transposed layout. */
  lemma PlanarIsPlanarOf(img: Mat)
    requires img.Valid()
    ensures IsPlanarOf(img, Planar(img))
  {
    var (C, H, W) := (img.channels, img.rows, img.cols);
    forall h: nat, w: nat, c: nat | h < H && w < W && c < C
      ensures Index(H, W, h, w, c) < |Planar(img)|
      ensures Planar(img)[Index(H, W, h, w, c)] == PixelAt(img, h, w, c)
    {
      CoordsOfIndex(C, H, W, h, w, c);
    }
  }

  /**
    The transposed layout determines the buffer: since `Index` is onto the
    whole buffer, no byte is left unconstrained, so any buffer with the layout
    is the reference one.
   */
  lemma PlanarUnique(img: Mat, data: seq<Byte>)
    requires img.Valid() && IsPlanarOf(img, data)
    ensures data == Planar(img)
  {
    var (C, H, W) := (img.channels, img.rows, img.cols);
    forall i | 0 <= i < |data|
      ensures data[i] == Planar(img)[i]
    {
      var t := Coords(C, H, W, i);
      assert data[Index(H, W, t.0, t.1, t.2)] == PixelAt(img, t.0, t.1, t.2);
    }
  }
}
