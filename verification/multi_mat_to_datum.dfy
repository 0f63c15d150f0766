/**
  `MutiCVMatToDatum` (io.cpp lines 311-350): pack an original, a similar and
  a different image into one planar record of three times the first image's
  channel count. As written the second and third image start at the fixed
  planes 3 and 6, which is the intended layout only for 3-channel images.
 */
module MultiMatToDatum {
  import opened Image
  import opened Layout

  /** All three images hold unsigned bytes, as the three depth CHECKs demand. */
  predicate AllU8(img1: Mat, img2: Mat, img3: Mat)
  {
    img1.depth == U8 && img2.depth == U8 && img3.depth == U8
  }

  /** The three images share one geometry. */
  predicate SameShapes(img1: Mat, img2: Mat, img3: Mat)
  {
    img1.SameShape(img2) && img1.SameShape(img3)
  }

  /** The geometry under which the planes of the three images tile the record exactly. */
  predicate Fits(img1: Mat, img2: Mat, img3: Mat, off2: nat, off3: nat)
  {
    && off2 == img1.channels
    && off3 == 2 * img1.channels
    && SameShapes(img1, img2, img3)
  }

  /** The C planes of image 2 and of image 3 both lie inside a record of 3 * C planes. */
  predicate OffsetsFit(C: nat, off2: nat, off3: nat)
  {
    off2 + C <= 3 * C && off3 + C <= 3 * C
  }

  /** Plane p receives no store: it is past image 1's planes and outside those of images 2 and 3. */
  predicate Untouched(C: nat, off2: nat, off3: nat, p: nat)
  {
    C <= p && (p < off2 || off2 + C <= p) && (p < off3 || off3 + C <= p)
  }

  /** Plane p of an H x W buffer holds nothing but the `' '` filler. */
  ghost predicate PlaneBlank(data: seq<Byte>, H: nat, W: nat, p: nat)
  {
    forall h: nat, w: nat :: h < H && w < W ==> Index(H, W, h, w, p) < |data| && data[Index(H, W, h, w, p)] == Space
  }

  /** Every untouched plane of the buffer still holds the `' '` filler. */
  ghost predicate Blank(data: seq<Byte>, C: nat, H: nat, W: nat, off2: nat, off3: nat)
  {
    forall p: nat, h: nat, w: nat :: p < 3 * C && h < H && w < W && Untouched(C, off2, off3, p) ==>
      Index(H, W, h, w, p) < |data| && data[Index(H, W, h, w, p)] == Space
  }

  /** Sample (h, w, c) of `img` sits in plane `k * C + c` of the buffer. */
  ghost predicate Placed(data: seq<Byte>, img: Mat, k: nat, C: nat, H: nat, W: nat, h: nat, w: nat, c: nat)
    requires img.Valid() && h < img.rows && w < img.cols && c < img.channels
  {
    && Index(H, W, h, w, k * C + c) < |data|
    && data[Index(H, W, h, w, k * C + c)] == PixelAt(img, h, w, c)
  }

  /** All three images' samples (h, w, c) are in place. */
  ghost predicate AllPlaced(data: seq<Byte>, img1: Mat, img2: Mat, img3: Mat, h: nat, w: nat, c: nat)
    requires img1.Valid() && img2.Valid() && img3.Valid()
    requires img1.SameShape(img2) && img1.SameShape(img3)
    requires h < img1.rows && w < img1.cols && c < img1.channels
  {
    var (C, H, W) := (img1.channels, img1.rows, img1.cols);
    && Placed(data, img1, 0, C, H, W, h, w, c)
    && Placed(data, img2, 1, C, H, W, h, w, c)
    && Placed(data, img3, 2, C, H, W, h, w, c)
  }

  /** The slots of two samples of the triplet layout coincide only for the same sample of the same image. */
  lemma SlotsDistinct(C: nat, H: nat, W: nat, h: nat, w: nat, c: nat, k: nat, h': nat, w': nat, c': nat, k': nat)
    requires h < H && w < W && c < C && h' < H && w' < W && c' < C
    ensures Index(H, W, h, w, k * C + c) == Index(H, W, h', w', k' * C + c') <==>
              h == h' && w == w' && c == c' && k == k'
  {
    IndexInjective(H, W, h, w, k * C + c, h', w', k' * C + c');
    if k * C + c == k' * C + c' {
      DigitsInjective(k, c, k', c', C);
    }
  }

  /**
    The loops of lines 322-348 with the second and third image's first plane
    as parameters `off2` and `off3`. Per (pixel, channel) step the source
    reads and writes image 1, then image 2, then image 3; here the bounds of
    all three are checked in that order before the three bytes are stored,
    which reports the same first fault because a store never changes a bound.
   */
  method PackTriplet(img1: Mat, img2: Mat, img3: Mat, off2: nat, off3: nat, datum: Datum)
    returns (r: Result<Datum, PackError>)
    requires img1.Valid() && img2.Valid() && img3.Valid()
    ensures !AllU8(img1, img2, img3) ==> r == Failure(NotUnsignedByte)
    ensures r.Success? ==>
              && r.value.channels == 3 * img1.channels
              && r.value.height == img1.rows
              && r.value.width == img1.cols
              && r.value.floatData == []
              && !r.value.encoded
              && r.value.classLabel == datum.classLabel
              && |r.value.data| == 3 * Size(img1)
    ensures r.Success? && 0 < img1.rows && 0 < img1.cols && 0 < img1.channels ==>
              OffsetsFit(img1.channels, off2, off3)
    ensures AllU8(img1, img2, img3) && SameShapes(img1, img2, img3) && OffsetsFit(img1.channels, off2, off3) ==>
              r.Success?
    ensures AllU8(img1, img2, img3) && SameShapes(img1, img2, img3) && r.Failure? ==> r.error == WriteOutOfRange
    ensures AllU8(img1, img2, img3) && OffsetsFit(img1.channels, off2, off3) && r.Failure? ==> r.error == ReadOutOfRow
    ensures r.Success? ==> Blank(r.value.data, img1.channels, img1.rows, img1.cols, off2, off3)
    ensures AllU8(img1, img2, img3) && Fits(img1, img2, img3, off2, off3) ==>
              && r.Success?
              && |r.value.data| == 3 * Size(img1)
              && IsPlanarOf(img1, r.value.data[..Size(img1)])
              && IsPlanarOf(img2, r.value.data[Size(img1)..2 * Size(img1)])
              && IsPlanarOf(img3, r.value.data[2 * Size(img1)..])
  {
    if !AllU8(img1, img2, img3) {
      return Failure(NotUnsignedByte);
    }
    var datumChannels, H, W := 3 * img1.channels, img1.rows, img1.cols;
    var size := datumChannels * H * W;
    var buffer := new Byte[size](_ => Space);
    FillerIsBlank(buffer[..], img1.channels, H, W, off2, off3);
    PlaneBlocks(3, img1.channels, H, W);
    var fault := PackTripletRows(img1, img2, img3, off2, off3, buffer);
    if fault.Some? {
      return Failure(fault.value);
    }
    r := Success(Datum(datumChannels, H, W, buffer[..], [], false, datum.classLabel));
    if Fits(img1, img2, img3, off2, off3) {
      TripletSlices(img1, img2, img3, buffer[..]);
    }
  }

  /** A buffer of nothing but filler is blank on every plane. */
  lemma FillerIsBlank(data: seq<Byte>, C: nat, H: nat, W: nat, off2: nat, off3: nat)
    requires |data| == 3 * C * H * W
    requires forall i :: 0 <= i < |data| ==> data[i] == Space
    ensures Blank(data, C, H, W, off2, off3)
  {
    AllIndicesInRange(3 * C, H, W);
  }

  /** The row loop of `PackTriplet`; `Some(e)` is the first fault met. */
  method PackTripletRows(img1: Mat, img2: Mat, img3: Mat, off2: nat, off3: nat, buffer: array<Byte>)
    returns (fault: Option<PackError>)
    requires img1.Valid() && img2.Valid() && img3.Valid()
    requires buffer.Length == 3 * Size(img1)
    requires Blank(buffer[..], img1.channels, img1.rows, img1.cols, off2, off3)
    modifies buffer
    ensures SameShapes(img1, img2, img3) && OffsetsFit(img1.channels, off2, off3) ==> fault.None?
    ensures SameShapes(img1, img2, img3) ==> fault != Some(ReadOutOfRow)
    ensures OffsetsFit(img1.channels, off2, off3) ==> fault != Some(WriteOutOfRange)
    ensures fault != Some(NotUnsignedByte)
    ensures Blank(buffer[..], img1.channels, img1.rows, img1.cols, off2, off3)
    ensures fault.None? && Fits(img1, img2, img3, off2, off3) ==>
              forall h': nat, w': nat, c': nat :: h' < img1.rows && w' < img1.cols && c' < img1.channels ==>
                AllPlaced(buffer[..], img1, img2, img3, h', w', c')
    ensures fault.None? && 0 < img1.rows && 0 < img1.cols && 0 < img1.channels ==>
              OffsetsFit(img1.channels, off2, off3)
  {
    var H, W := img1.rows, img1.cols;
    var fits := Fits(img1, img2, img3, off2, off3);
    var h := 0;
    while h < H
      invariant 0 <= h <= H
      invariant Blank(buffer[..], img1.channels, H, W, off2, off3)
      invariant fits ==> forall h': nat, w': nat, c': nat :: h' < h && w' < W && c' < img1.channels ==>
                  AllPlaced(buffer[..], img1, img2, img3, h', w', c')
      invariant 0 < h && 0 < W && 0 < img1.channels ==> OffsetsFit(img1.channels, off2, off3)
    {
      fault := PackTripletRow(img1, img2, img3, off2, off3, h, buffer);
      if fault.Some? {
        return;
      }
      h := h + 1;
    }
    return None;
  }

  /** One pass of the row loop of `PackTriplet`; `Some(e)` is the first fault met. */
  method PackTripletRow(img1: Mat, img2: Mat, img3: Mat, off2: nat, off3: nat, h: nat, buffer: array<Byte>)
    returns (fault: Option<PackError>)
    requires img1.Valid() && img2.Valid() && img3.Valid()
    requires h < img1.rows
    requires buffer.Length == 3 * Size(img1)
    requires Fits(img1, img2, img3, off2, off3) ==>
               forall h': nat, w': nat, c': nat :: h' < h && w' < img1.cols && c' < img1.channels ==>
                 AllPlaced(buffer[..], img1, img2, img3, h', w', c')
    requires Blank(buffer[..], img1.channels, img1.rows, img1.cols, off2, off3)
    modifies buffer
    ensures SameShapes(img1, img2, img3) && OffsetsFit(img1.channels, off2, off3) ==> fault.None?
    ensures SameShapes(img1, img2, img3) ==> fault != Some(ReadOutOfRow)
    ensures OffsetsFit(img1.channels, off2, off3) ==> fault != Some(WriteOutOfRange)
    ensures fault != Some(NotUnsignedByte)
    ensures Blank(buffer[..], img1.channels, img1.rows, img1.cols, off2, off3)
    ensures fault.None? && Fits(img1, img2, img3, off2, off3) ==>
              forall h': nat, w': nat, c': nat :: h' <= h && w' < img1.cols && c' < img1.channels ==>
                AllPlaced(buffer[..], img1, img2, img3, h', w', c')
    ensures fault.None? && 0 < img1.cols && 0 < img1.channels ==> OffsetsFit(img1.channels, off2, off3)
  {
    var C, H, W := img1.channels, img1.rows, img1.cols;
    var fits := Fits(img1, img2, img3, off2, off3);
    var imgIndex := 0;
    var w := 0;
    while w < W
      invariant 0 <= w <= W
      invariant Blank(buffer[..], C, H, W, off2, off3)
      invariant imgIndex == RowOffset(C, w, 0)
      invariant fits ==> forall h': nat, w': nat, c': nat :: Before(h', w', c', h, w, 0) && w' < W && c' < C ==>
                  AllPlaced(buffer[..], img1, img2, img3, h', w', c')
      invariant 0 < w && 0 < C ==> OffsetsFit(C, off2, off3)
    {
      fault := PackTripletPixel(img1, img2, img3, off2, off3, h, w, imgIndex, buffer);
      if fault.Some? {
        return;
      }
      imgIndex := imgIndex + C;
      w := w + 1;
    }
    return None;
  }

  /** The channel loop of `PackTriplet` for pixel (h, w), whose samples start at `imgIndex` in each row. */
  method PackTripletPixel(img1: Mat, img2: Mat, img3: Mat, off2: nat, off3: nat, h: nat, w: nat, imgIndex: nat,
                          buffer: array<Byte>)
    returns (fault: Option<PackError>)
    requires img1.Valid() && img2.Valid() && img3.Valid()
    requires h < img1.rows && w < img1.cols
    requires imgIndex == RowOffset(img1.channels, w, 0)
    requires buffer.Length == 3 * Size(img1)
    requires Fits(img1, img2, img3, off2, off3) ==>
               forall h': nat, w': nat, c': nat :: Before(h', w', c', h, w, 0) && w' < img1.cols && c' < img1.channels ==>
                 AllPlaced(buffer[..], img1, img2, img3, h', w', c')
    requires Blank(buffer[..], img1.channels, img1.rows, img1.cols, off2, off3)
    modifies buffer
    ensures SameShapes(img1, img2, img3) && OffsetsFit(img1.channels, off2, off3) ==> fault.None?
    ensures SameShapes(img1, img2, img3) ==> fault != Some(ReadOutOfRow)
    ensures OffsetsFit(img1.channels, off2, off3) ==> fault != Some(WriteOutOfRange)
    ensures fault != Some(NotUnsignedByte)
    ensures Blank(buffer[..], img1.channels, img1.rows, img1.cols, off2, off3)
    ensures fault.None? && Fits(img1, img2, img3, off2, off3) ==>
              forall h': nat, w': nat, c': nat :: Before(h', w', c', h, w + 1, 0) && w' < img1.cols && c' < img1.channels ==>
                AllPlaced(buffer[..], img1, img2, img3, h', w', c')
    ensures fault.None? && 0 < img1.channels ==> OffsetsFit(img1.channels, off2, off3)
  {
    var C, W := img1.channels, img1.cols;
    var perImage := 3 * C / 3;
    var fits := Fits(img1, img2, img3, off2, off3);
    var index := imgIndex;
    var c := 0;
    while c < perImage
      invariant 0 <= c <= C
      invariant index == RowOffset(C, w, c)
      invariant Blank(buffer[..], C, img1.rows, W, off2, off3)
      invariant fits ==> forall h': nat, w': nat, c': nat :: Before(h', w', c', h, w, c) && w' < W && c' < C ==>
                  AllPlaced(buffer[..], img1, img2, img3, h', w', c')
      invariant 0 < c ==> off2 + c <= 3 * C && off3 + c <= 3 * C
    {
      label Step:
      fault := PackTripletSample(img1, img2, img3, off2, off3, h, w, c, index, buffer);
      if fault.Some? {
        return;
      }
      if fits {
        StepKeepsPlaced(img1, img2, img3, h, w, c, old@Step(buffer[..]), buffer[..]);
      }
      index := index + 1;
      c := c + 1;
    }
    return None;
  }

  /** Slot k of an earlier sample differs from all three slots of the current one. */
  lemma SlotsApart(C: nat, H: nat, W: nat, h': nat, w': nat, c': nat, h: nat, w: nat, c: nat, k: nat)
    requires h < H && w < W && c < C && h' < H && w' < W && c' < C
    requires Before(h', w', c', h, w, c)
    ensures Index(H, W, h', w', k * C + c') != Index(H, W, h, w, c)
    ensures Index(H, W, h', w', k * C + c') != Index(H, W, h, w, C + c)
    ensures Index(H, W, h', w', k * C + c') != Index(H, W, h, w, 2 * C + c)
  {
    SlotsDistinct(C, H, W, h', w', c', k, h, w, c, 0);
    SlotsDistinct(C, H, W, h', w', c', k, h, w, c, 1);
    SlotsDistinct(C, H, W, h', w', c', k, h, w, c, 2);
  }

  /**
    The first fault step (h, w, c) meets, in source order: reading image 2's
    row, storing into plane `off2 + c`, reading image 3's row, storing into
    plane `off3 + c`. Image 1 is always read inside its own row.
   */
  function SampleFault(img1: Mat, img2: Mat, img3: Mat, off2: nat, off3: nat, h: nat, w: nat, c: nat)
    : (f: Option<PackError>)
    requires img1.Valid() && img2.Valid() && img3.Valid()
    requires h < img1.rows && w < img1.cols && c < img1.channels
    ensures f.None? ==>
              && off2 + c < 3 * img1.channels && off3 + c < 3 * img1.channels
              && h < img2.rows && RowOffset(img1.channels, w, c) < |img2.pixels[h]|
              && h < img3.rows && RowOffset(img1.channels, w, c) < |img3.pixels[h]|
    ensures SameShapes(img1, img2, img3) && off2 + c < 3 * img1.channels && off3 + c < 3 * img1.channels ==>
              f.None?
    ensures SameShapes(img1, img2, img3) ==> f != Some(ReadOutOfRow)
    ensures off2 + c < 3 * img1.channels && off3 + c < 3 * img1.channels ==> f != Some(WriteOutOfRange)
    ensures f != Some(NotUnsignedByte)
  {
    var (C, H, W) := (img1.channels, img1.rows, img1.cols);
    var imgIndex := RowOffset(C, w, c);
    var size := 3 * Size(img1);
    RowOffsetInRange(C, W, w, c);
    PlaneBlocks(3, C, H, W);
    IndexInRange(3 * C, H, W, h, w, off2 + c);
    IndexInRange(3 * C, H, W, h, w, off3 + c);
    if h >= img2.rows || imgIndex >= |img2.pixels[h]| then Some(ReadOutOfRow)
    else if Index(H, W, h, w, off2 + c) >= size then Some(WriteOutOfRange)
    else if h >= img3.rows || imgIndex >= |img3.pixels[h]| then Some(ReadOutOfRow)
    else if Index(H, W, h, w, off3 + c) >= size then Some(WriteOutOfRange)
    else None
  }

  /** k blocks of C planes of H x W samples are k blocks of C * H * W samples. */
  lemma PlaneBlocks(k: nat, C: nat, H: nat, W: nat)
    ensures (k * C) * H * W == k * (C * H * W)
  {
  }

  /**
    One (pixel, channel) step: read sample (h, w, c) of each image at the
    running row index and store it in plane c, `off2 + c` and `off3 + c`,
    unless `SampleFault` reports a fault first.
   */
  method PackTripletSample(img1: Mat, img2: Mat, img3: Mat, off2: nat, off3: nat, h: nat, w: nat, c: nat,
                           imgIndex: nat, buffer: array<Byte>)
    returns (fault: Option<PackError>)
    requires img1.Valid() && img2.Valid() && img3.Valid()
    requires h < img1.rows && w < img1.cols && c < img1.channels
    requires imgIndex == RowOffset(img1.channels, w, c)
    requires buffer.Length == 3 * Size(img1)
    requires Blank(buffer[..], img1.channels, img1.rows, img1.cols, off2, off3)
    modifies buffer
    ensures fault.None? ==> off2 + c < 3 * img1.channels && off3 + c < 3 * img1.channels
    ensures SameShapes(img1, img2, img3) && off2 + c < 3 * img1.channels && off3 + c < 3 * img1.channels ==>
              fault.None?
    ensures SameShapes(img1, img2, img3) ==> fault != Some(ReadOutOfRow)
    ensures off2 + c < 3 * img1.channels && off3 + c < 3 * img1.channels ==> fault != Some(WriteOutOfRange)
    ensures fault != Some(NotUnsignedByte)
    ensures Blank(buffer[..], img1.channels, img1.rows, img1.cols, off2, off3)
    ensures fault.None? && Fits(img1, img2, img3, off2, off3) ==>
              var (C, H, W) := (img1.channels, img1.rows, img1.cols);
              && Index(H, W, h, w, c) < buffer.Length
              && Index(H, W, h, w, C + c) < buffer.Length
              && Index(H, W, h, w, 2 * C + c) < buffer.Length
              && buffer[..] == old(buffer[..])[Index(H, W, h, w, c) := PixelAt(img1, h, w, c)]
                                              [Index(H, W, h, w, C + c) := PixelAt(img2, h, w, c)]
                                              [Index(H, W, h, w, 2 * C + c) := PixelAt(img3, h, w, c)]
  {
    fault := SampleFault(img1, img2, img3, off2, off3, h, w, c);
    if fault.Some? {
      return;
    }
    var C, H, W := img1.channels, img1.rows, img1.cols;
    var datumIndex1 := Index(H, W, h, w, c);
    var datumIndex2 := Index(H, W, h, w, off2 + c);
    var datumIndex3 := Index(H, W, h, w, off3 + c);
    RowOffsetInRange(C, W, w, c);
    assert imgIndex < |img1.pixels[h]| by { assert |img1.pixels[h]| == W * C; }
    PlaneBlocks(3, C, H, W);
    IndexInRange(3 * C, H, W, h, w, c);
    IndexInRange(3 * C, H, W, h, w, off2 + c);
    IndexInRange(3 * C, H, W, h, w, off3 + c);
    label BeforeWrites:
    buffer[datumIndex1] := img1.pixels[h][imgIndex];
    buffer[datumIndex2] := img2.pixels[h][imgIndex];
    buffer[datumIndex3] := img3.pixels[h][imgIndex];
    BlankKept(C, H, W, off2, off3, h, w, c, old@BeforeWrites(buffer[..]), buffer[..]);
    return None;
  }

  /** Stores into planes c, `off2 + c` and `off3 + c` leave every untouched plane as it was. */
  lemma BlankKept(C: nat, H: nat, W: nat, off2: nat, off3: nat, h: nat, w: nat, c: nat,
                  before: seq<Byte>, after: seq<Byte>)
    requires h < H && w < W && c < C
    requires |before| == |after|
    requires Blank(before, C, H, W, off2, off3)
    requires forall i :: 0 <= i < |after| && i !in {Index(H, W, h, w, c), Index(H, W, h, w, off2 + c), Index(H, W, h, w, off3 + c)} ==>
               after[i] == before[i]
    ensures Blank(after, C, H, W, off2, off3)
  {
    forall p: nat, h': nat, w': nat | p < 3 * C && h' < H && w' < W && Untouched(C, off2, off3, p)
      ensures Index(H, W, h', w', p) < |after| && after[Index(H, W, h', w', p)] == Space
    {
      IndexInjective(H, W, h', w', p, h, w, c);
      IndexInjective(H, W, h', w', p, h, w, off2 + c);
      IndexInjective(H, W, h', w', p, h, w, off3 + c);
    }
  }

  /**
    Storing the three samples (h, w, c) keeps every earlier sample in place:
    the three new slots differ from each other and from all earlier ones.
   */
  lemma StepKeepsPlaced(img1: Mat, img2: Mat, img3: Mat, h: nat, w: nat, c: nat, before: seq<Byte>, after: seq<Byte>)
    requires img1.Valid() && img2.Valid() && img3.Valid()
    requires img1.SameShape(img2) && img1.SameShape(img3)
    requires h < img1.rows && w < img1.cols && c < img1.channels
    requires |before| == 3 * Size(img1)
    requires forall h': nat, w': nat, c': nat :: Before(h', w', c', h, w, c) && h' < img1.rows && w' < img1.cols && c' < img1.channels ==>
               AllPlaced(before, img1, img2, img3, h', w', c')
    requires
      var (C, H, W) := (img1.channels, img1.rows, img1.cols);
      && Index(H, W, h, w, c) < |before|
      && Index(H, W, h, w, C + c) < |before|
      && Index(H, W, h, w, 2 * C + c) < |before|
      && after == before[Index(H, W, h, w, c) := PixelAt(img1, h, w, c)]
                        [Index(H, W, h, w, C + c) := PixelAt(img2, h, w, c)]
                        [Index(H, W, h, w, 2 * C + c) := PixelAt(img3, h, w, c)]
    ensures forall h': nat, w': nat, c': nat :: Before(h', w', c', h, w, c + 1) && h' < img1.rows && w' < img1.cols && c' < img1.channels ==>
              AllPlaced(after, img1, img2, img3, h', w', c')
  {
    forall h': nat, w': nat, c': nat | Before(h', w', c', h, w, c + 1) && h' < img1.rows && w' < img1.cols && c' < img1.channels
      ensures AllPlaced(after, img1, img2, img3, h', w', c')
    {
      if Before(h', w', c', h, w, c) {
        StepKeepsEarlier(img1, img2, img3, h, w, c, h', w', c', before, after);
      } else {
        StepPlacesCurrent(img1, img2, img3, h, w, c, before, after);
      }
    }
  }

  /** The three stores of step (h, w, c) miss the slots of an earlier sample (h', w', c'). */
  lemma StepKeepsEarlier(img1: Mat, img2: Mat, img3: Mat, h: nat, w: nat, c: nat, h': nat, w': nat, c': nat,
                         before: seq<Byte>, after: seq<Byte>)
    requires img1.Valid() && img2.Valid() && img3.Valid()
    requires img1.SameShape(img2) && img1.SameShape(img3)
    requires h < img1.rows && w < img1.cols && c < img1.channels
    requires h' < img1.rows && w' < img1.cols && c' < img1.channels && Before(h', w', c', h, w, c)
    requires |before| == 3 * Size(img1)
    requires AllPlaced(before, img1, img2, img3, h', w', c')
    requires
      var (C, H, W) := (img1.channels, img1.rows, img1.cols);
      && Index(H, W, h, w, c) < |before|
      && Index(H, W, h, w, C + c) < |before|
      && Index(H, W, h, w, 2 * C + c) < |before|
      && after == before[Index(H, W, h, w, c) := PixelAt(img1, h, w, c)]
                        [Index(H, W, h, w, C + c) := PixelAt(img2, h, w, c)]
                        [Index(H, W, h, w, 2 * C + c) := PixelAt(img3, h, w, c)]
    ensures AllPlaced(after, img1, img2, img3, h', w', c')
  {
    var (C, H, W) := (img1.channels, img1.rows, img1.cols);
    SlotsApart(C, H, W, h', w', c', h, w, c, 0);
    SlotsApart(C, H, W, h', w', c', h, w, c, 1);
    SlotsApart(C, H, W, h', w', c', h, w, c, 2);
  }

  /** After step (h, w, c), its three samples sit in their three distinct slots. */
  lemma StepPlacesCurrent(img1: Mat, img2: Mat, img3: Mat, h: nat, w: nat, c: nat, before: seq<Byte>, after: seq<Byte>)
    requires img1.Valid() && img2.Valid() && img3.Valid()
    requires img1.SameShape(img2) && img1.SameShape(img3)
    requires h < img1.rows && w < img1.cols && c < img1.channels
    requires |before| == 3 * Size(img1)
    requires
      var (C, H, W) := (img1.channels, img1.rows, img1.cols);
      && Index(H, W, h, w, c) < |before|
      && Index(H, W, h, w, C + c) < |before|
      && Index(H, W, h, w, 2 * C + c) < |before|
      && after == before[Index(H, W, h, w, c) := PixelAt(img1, h, w, c)]
                        [Index(H, W, h, w, C + c) := PixelAt(img2, h, w, c)]
                        [Index(H, W, h, w, 2 * C + c) := PixelAt(img3, h, w, c)]
    ensures AllPlaced(after, img1, img2, img3, h, w, c)
  {
    var (C, H, W) := (img1.channels, img1.rows, img1.cols);
    SlotsDistinct(C, H, W, h, w, c, 0, h, w, c, 1);
    SlotsDistinct(C, H, W, h, w, c, 0, h, w, c, 2);
    SlotsDistinct(C, H, W, h, w, c, 1, h, w, c, 2);
    IndexInRange(3 * C, H, W, h, w, c);
    IndexInRange(3 * C, H, W, h, w, C + c);
  }

  /** The image whose samples occupy the k-th third of the record. */
  function Pick(img1: Mat, img2: Mat, img3: Mat, k: nat): Mat
  {
    if k == 0 then img1 else if k == 1 then img2 else img3
  }

  /** The k-th third of a filled buffer is the planar image of the k-th image. */
  lemma ThirdIsPlanar(img1: Mat, img2: Mat, img3: Mat, data: seq<Byte>, k: nat)
    requires img1.Valid() && img2.Valid() && img3.Valid()
    requires img1.SameShape(img2) && img1.SameShape(img3)
    requires |data| == 3 * Size(img1) && k < 3
    requires forall h': nat, w': nat, c': nat :: h' < img1.rows && w' < img1.cols && c' < img1.channels ==>
               AllPlaced(data, img1, img2, img3, h', w', c')
    ensures k * Size(img1) + Size(img1) <= |data|
    ensures IsPlanarOf(Pick(img1, img2, img3, k), data[k * Size(img1)..k * Size(img1) + Size(img1)])
  {
    var img := Pick(img1, img2, img3, k);
    var (C, H, W, S) := (img1.channels, img1.rows, img1.cols, Size(img1));
    assert Size(img) == S;
    assert (k * C) * H * W == k * S;
    MulLe(k + 1, 3, S);
    var slice := data[k * S..k * S + S];
    forall h: nat, w: nat, c: nat | h < H && w < W && c < C
      ensures Index(H, W, h, w, c) < |slice|
      ensures slice[Index(H, W, h, w, c)] == PixelAt(img, h, w, c)
    {
      assert AllPlaced(data, img1, img2, img3, h, w, c);
      assert Placed(data, img, k, C, H, W, h, w, c);
      IndexInRange(C, H, W, h, w, c);
      IndexShift(k * C, H, W, h, w, c);
    }
  }

  /** Reads the three images' planar layouts off the three thirds of a filled buffer. */
  lemma TripletSlices(img1: Mat, img2: Mat, img3: Mat, data: seq<Byte>)
    requires img1.Valid() && img2.Valid() && img3.Valid()
    requires img1.SameShape(img2) && img1.SameShape(img3)
    requires |data| == 3 * Size(img1)
    requires forall h': nat, w': nat, c': nat :: h' < img1.rows && w' < img1.cols && c' < img1.channels ==>
               AllPlaced(data, img1, img2, img3, h', w', c')
    ensures IsPlanarOf(img1, data[..Size(img1)])
    ensures IsPlanarOf(img2, data[Size(img1)..2 * Size(img1)])
    ensures IsPlanarOf(img3, data[2 * Size(img1)..])
  {
    var S := Size(img1);
    ThirdIsPlanar(img1, img2, img3, data, 0);
    ThirdIsPlanar(img1, img2, img3, data, 1);
    ThirdIsPlanar(img1, img2, img3, data, 2);
    assert data[..S] == data[0 * S..0 * S + S];
    assert data[S..2 * S] == data[1 * S..1 * S + S];
    assert data[2 * S..] == data[2 * S..2 * S + S];
  }

  /** A buffer whose thirds have the planar layouts of the three images is their concatenation. */
  lemma JoinThirds(img1: Mat, img2: Mat, img3: Mat, data: seq<Byte>)
    requires img1.Valid() && img2.Valid() && img3.Valid() && SameShapes(img1, img2, img3)
    requires |data| == 3 * Size(img1)
    requires IsPlanarOf(img1, data[..Size(img1)])
    requires IsPlanarOf(img2, data[Size(img1)..2 * Size(img1)])
    requires IsPlanarOf(img3, data[2 * Size(img1)..])
    ensures data == Planar(img1) + Planar(img2) + Planar(img3)
  {
    var S := Size(img1);
    PlanarUnique(img1, data[..S]);
    PlanarUnique(img2, data[S..2 * S]);
    PlanarUnique(img3, data[2 * S..]);
    assert data == data[..S] + data[S..2 * S] + data[2 * S..];
  }

  /**
    Plane `3 * C - 1` of the concatenated record holds image 3's last
    channel; a record whose plane is still `' '` there differs from the
    concatenation as soon as one such sample is not a space.
   */
  lemma BlankLastPlaneIsNotJoined(img1: Mat, img2: Mat, img3: Mat, data: seq<Byte>, h: nat, w: nat)
    requires img1.Valid() && img2.Valid() && img3.Valid() && SameShapes(img1, img2, img3)
    requires h < img1.rows && w < img1.cols && 0 < img1.channels
    requires PixelAt(img3, h, w, img1.channels - 1) != Space
    requires PlaneBlank(data, img1.rows, img1.cols, 3 * img1.channels - 1)
    ensures data != Planar(img1) + Planar(img2) + Planar(img3)
  {
    var C := img1.channels;
    JoinedThirdSample(img1, img2, img3, h, w, C - 1);
    assert 2 * C + (C - 1) == 3 * C - 1;
  }

  /** Plane `2 * C + c` of the concatenated planar images is plane c of image 3. */
  lemma JoinedThirdSample(img1: Mat, img2: Mat, img3: Mat, h: nat, w: nat, c: nat)
    requires img1.Valid() && img2.Valid() && img3.Valid() && SameShapes(img1, img2, img3)
    requires h < img1.rows && w < img1.cols && c < img1.channels
    ensures Index(img1.rows, img1.cols, h, w, 2 * img1.channels + c) < 3 * Size(img1)
    ensures (Planar(img1) + Planar(img2) + Planar(img3))[Index(img1.rows, img1.cols, h, w, 2 * img1.channels + c)]
            == PixelAt(img3, h, w, c)
  {
    var (C, H, W) := (img1.channels, img1.rows, img1.cols);
    var j := Index(H, W, h, w, c);
    CoordsOfIndex(C, H, W, h, w, c);
    assert Planar(img3)[j] == PixelAt(img3, h, w, c);
    IndexShift(2 * C, H, W, h, w, c);
    TwoPlaneBlocks(C, H, W);
  }

  lemma TwoPlaneBlocks(C: nat, H: nat, W: nat)
    ensures (2 * C) * H * W == C * H * W + C * H * W
  {
  }

  /** Channels c and c' of two different images land on different planes. */
  predicate PlanesApart(off2: nat, off3: nat, c: nat, c': nat)
  {
    && c != off2 + c' && off2 + c != c'
    && c != off3 + c' && off3 + c != c'
    && off2 + c != off3 + c'
  }

  /**
    With the fixed offsets 3 and 6, the planes of the three images are
    pairwise disjoint exactly when the images have at most 3 channels.
   */
  lemma AsWrittenPlanesDisjointIff(C: nat)
    ensures (forall c: nat, c': nat :: c < C && c' < C ==> PlanesApart(3, 6, c, c')) <==> C <= 3
  {
    if 3 < C {
      assert !PlanesApart(3, 6, 3, 0);
    }
  }

  /**
    `MutiCVMatToDatum` as written: the similar and the different image start
    at the fixed planes 3 and 6 whatever the channel count. The record is the
    concatenation of the three planar images only for 3-channel images; a
    non-empty 1- or 2-channel triplet is written past the end of the buffer;
    with more than 3 channels the planes overlap and the last plane is never
    written, so it keeps the `' '` filler.
   */
  method MutiCVMatToDatum(img1: Mat, img2: Mat, img3: Mat, datum: Datum) returns (r: Result<Datum, PackError>)
    requires img1.Valid() && img2.Valid() && img3.Valid()
    ensures !AllU8(img1, img2, img3) ==> r == Failure(NotUnsignedByte)
    ensures r.Success? ==>
              && r.value.channels == 3 * img1.channels
              && r.value.height == img1.rows
              && r.value.width == img1.cols
              && r.value.floatData == []
              && !r.value.encoded
              && r.value.classLabel == datum.classLabel
              && |r.value.data| == 3 * Size(img1)
    ensures r.Success? && 0 < img1.rows && 0 < img1.cols && 0 < img1.channels ==> 3 <= img1.channels
    ensures AllU8(img1, img2, img3) && SameShapes(img1, img2, img3) && 3 <= img1.channels ==> r.Success?
    ensures AllU8(img1, img2, img3) && SameShapes(img1, img2, img3) && r.Failure? ==> r.error == WriteOutOfRange
    ensures AllU8(img1, img2, img3) && 3 <= img1.channels && r.Failure? ==> r.error == ReadOutOfRow
    ensures AllU8(img1, img2, img3) && SameShapes(img1, img2, img3) && img1.channels == 3 ==>
              r == Success(Datum(9, img1.rows, img1.cols, Planar(img1) + Planar(img2) + Planar(img3),
                                 [], false, datum.classLabel))
    ensures r.Success? && 3 < img1.channels ==>
              PlaneBlank(r.value.data, img1.rows, img1.cols, 3 * img1.channels - 1)
  {
    r := PackTriplet(img1, img2, img3, 3, 6, datum);
    var (C, H, W) := (img1.channels, img1.rows, img1.cols);
    assert OffsetsFit(C, 3, 6) <==> 3 <= C;
    if r.Success? && SameShapes(img1, img2, img3) && C == 3 {
      JoinThirds(img1, img2, img3, r.value.data);
    }
    if r.Success? && 3 < C {
      assert Untouched(C, 3, 6, 3 * C - 1);
    }
  }

  /**
    `MutiCVMatToDatum` with the offsets its comments intend, `C` and `2 * C`:
    three equally shaped byte images become exactly their three planar
    images one after another; only images of different shapes fail, by
    reading past a row of the second or third image.
   */
  method MutiCVMatToDatumFixed(img1: Mat, img2: Mat, img3: Mat, datum: Datum) returns (r: Result<Datum, PackError>)
    requires img1.Valid() && img2.Valid() && img3.Valid()
    ensures !AllU8(img1, img2, img3) ==> r == Failure(NotUnsignedByte)
    ensures AllU8(img1, img2, img3) && SameShapes(img1, img2, img3) ==>
              r == Success(Datum(3 * img1.channels, img1.rows, img1.cols, Planar(img1) + Planar(img2) + Planar(img3),
                                 [], false, datum.classLabel))
    ensures AllU8(img1, img2, img3) && r.Failure? ==> r.error == ReadOutOfRow && !SameShapes(img1, img2, img3)
    ensures r.Success? ==>
              && r.value.channels == 3 * img1.channels
              && r.value.height == img1.rows
              && r.value.width == img1.cols
              && r.value.floatData == []
              && !r.value.encoded
              && r.value.classLabel == datum.classLabel
              && |r.value.data| == 3 * Size(img1)
  {
    r := PackTriplet(img1, img2, img3, img1.channels, 2 * img1.channels, datum);
    if r.Success? && SameShapes(img1, img2, img3) {
      JoinThirds(img1, img2, img3, r.value.data);
    }
  }
}
