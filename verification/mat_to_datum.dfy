/**
  `CVMatToDatum` (io.cpp lines 255-279), its multi-label sibling (lines
  282-307) and the decode step built on it (lines 236-253): unpack one
  interleaved image into a planar record.
 */
module MatToDatum {
  import opened Image
  import opened Layout

  /**
    The loop both single-image packers share: declare `declared` channels,
    fill a `' '` buffer of `declared * rows * cols` bytes plane by plane, and
    read each row with a running index that advances once per (pixel, channel).
    Reading at or past a row's end is reported as `ReadOutOfRow`; the failed
    depth CHECK as `NotUnsignedByte`.
   */
  method PackPlanar(img: Mat, declared: nat, datum: Datum) returns (r: Result<Datum, PackError>)
    requires img.Valid()
    ensures img.depth != U8 ==> r == Failure(NotUnsignedByte)
    ensures r.Success? ==>
              && r.value.channels == declared
              && r.value.height == img.rows
              && r.value.width == img.cols
              && r.value.floatData == []
              && !r.value.encoded
              && r.value.classLabel == datum.classLabel
              && |r.value.data| == declared * img.rows * img.cols
    ensures r.Success? && 0 < img.rows && 0 < img.cols ==> declared <= img.channels
    ensures r.Success? && declared == img.channels ==> IsPlanarOf(img, r.value.data)
    ensures img.depth == U8 && declared == img.channels ==> r.Success?
    ensures r.Failure? && img.depth == U8 ==> r.error == ReadOutOfRow && img.channels < declared
  {
    if img.depth != U8 {
      return Failure(NotUnsignedByte);
    }
    var H, W, D := img.rows, img.cols, declared;
    var size := D * H * W;
    var buffer := new Byte[size](_ => Space);
    AllIndicesInRange(D, H, W);
    var h := 0;
    while h < H
      invariant 0 <= h <= H
      invariant forall h': nat, w': nat, c': nat :: h' < h && w' < W && c' < D ==> Stored(buffer, img, D, h', w', c')
      invariant 0 < h && 0 < W ==> D <= img.channels
    {
      var ok := PackRow(img, D, h, buffer);
      if !ok {
        return Failure(ReadOutOfRow);
      }
      h := h + 1;
    }
    r := Success(Datum(D, H, W, buffer[..], [], false, datum.classLabel));
    if D == img.channels {
      forall h': nat, w': nat, c': nat | h' < H && w' < W && c' < D
        ensures r.value.data[Index(H, W, h', w', c')] == PixelAt(img, h', w', c')
      {
        assert Stored(buffer, img, D, h', w', c');
      }
    }
  }

  /** Sample (h, w, c), read with D channels per pixel, is in its row and stored at its planar index. */
  ghost predicate Stored(buffer: array<Byte>, img: Mat, D: nat, h: nat, w: nat, c: nat)
    reads buffer
    requires img.Valid() && h < img.rows && w < img.cols && c < D
    requires buffer.Length == D * img.rows * img.cols
  {
    AllIndicesInRange(D, img.rows, img.cols);
    && RowOffset(D, w, c) < |img.pixels[h]|
    && buffer[Index(img.rows, img.cols, h, w, c)] == img.pixels[h][RowOffset(D, w, c)]
  }

  /**
    One pass of the row loop: every sample of row h goes to its planar index,
    or the running read index reaches the row's end (only when D exceeds the
    image's channel count) and the pass reports failure.
   */
  method PackRow(img: Mat, D: nat, h: nat, buffer: array<Byte>) returns (ok: bool)
    requires img.Valid() && h < img.rows
    requires buffer.Length == D * img.rows * img.cols
    requires forall h': nat, w': nat, c': nat :: h' < h && w' < img.cols && c' < D ==> Stored(buffer, img, D, h', w', c')
    modifies buffer
    ensures ok ==> forall h': nat, w': nat, c': nat :: h' <= h && w' < img.cols && c' < D ==> Stored(buffer, img, D, h', w', c')
    ensures ok && 0 < img.cols ==> D <= img.channels
    ensures !ok ==> img.channels < D
  {
    var H, W := img.rows, img.cols;
    AllIndicesInRange(D, H, W);
    var row := img.pixels[h];
    var imgIndex := 0;
    var w := 0;
    while w < W
      invariant 0 <= w <= W
      invariant imgIndex == RowOffset(D, w, 0)
      invariant forall h': nat, w': nat, c': nat :: Before(h', w', c', h, w, 0) && w' < W && c' < D ==> Stored(buffer, img, D, h', w', c')
    {
      var c := 0;
      while c < D
        invariant 0 <= c <= D
        invariant imgIndex == RowOffset(D, w, c)
        invariant forall h': nat, w': nat, c': nat :: Before(h', w', c', h, w, c) && w' < W && c' < D ==> Stored(buffer, img, D, h', w', c')
      {
        var datumIndex := Index(H, W, h, w, c);
        if imgIndex >= |row| {
          if D <= img.channels {
            NarrowReadStaysInRow(img.channels, D, W, w, c);
          }
          return false;
        }
        label BeforeWrite:
        buffer[datumIndex] := row[imgIndex];
        forall h': nat, w': nat, c': nat | Before(h', w', c', h, w, c + 1) && w' < W && c' < D
          ensures Stored(buffer, img, D, h', w', c')
        {
          if Before(h', w', c', h, w, c) {
            assert old@BeforeWrite(Stored(buffer, img, D, h', w', c'));
            IndexInjective(H, W, h', w', c', h, w, c);
          }
        }
        imgIndex := imgIndex + 1;
        c := c + 1;
      }
      w := w + 1;
    }
    if 0 < W && 0 < D {
      assert Stored(buffer, img, D, h, W - 1, D - 1);
      WholeRowReadFitsOnlyIfNarrow(img.channels, D, W);
    }
    return true;
  }

  /**
    `CVMatToDatum`: the record takes the image's shape, loses its float
    payload and encoding flag, keeps its label, and holds exactly the
    planar transpose of the image's samples.
   */
  method CVMatToDatum(img: Mat, datum: Datum) returns (r: Result<Datum, PackError>)
    requires img.Valid()
    ensures img.depth != U8 ==> r == Failure(NotUnsignedByte)
    ensures img.depth == U8 ==>
              r == Success(Datum(img.channels, img.rows, img.cols, Planar(img), [], false, datum.classLabel))
  {
    r := PackPlanar(img, img.channels, datum);
    if r.Success? {
      PlanarUnique(img, r.value.data);
    }
  }

  /**
    `CVMatToDatumWithMultiLabel` as written: it declares one channel more than
    the image has and reads that many samples per pixel, so every image with
    at least one pixel is read past the end of its first row. The `labels`
    argument is never read and the record's label is left as it was. The
    model stops at that first read past a row; on a continuous image the
    source instead reads on into the next row and stores shifted samples,
    and only its last row reads past the pixel buffer.
   */
  method CVMatToDatumWithMultiLabel(img: Mat, datum: Datum, labels: seq<int>) returns (r: Result<Datum, PackError>)
    requires img.Valid()
    ensures img.depth != U8 ==> r == Failure(NotUnsignedByte)
    ensures img.depth == U8 && 0 < img.rows && 0 < img.cols ==> r == Failure(ReadOutOfRow)
    ensures r.Success? ==> r.value.channels == img.channels + 1 && r.value.data == []
    ensures r.Success? ==> r.value.classLabel == datum.classLabel
  {
    r := PackPlanar(img, img.channels + 1, datum);
  }

  /**
    `DecodeDatum` / `DecodeDatumNative`: an unencoded record is left alone
    (result `false`); an encoded one is replaced by the record `CVMatToDatum`
    makes of `decoded`, the image the decoder produced from its bytes: its
    shape and planar samples, no floats, not encoded, and the same label.
   */
  method DecodeDatum(datum: Datum, decoded: Mat) returns (r: Result<(bool, Datum), PackError>)
    requires decoded.Valid()
    ensures !datum.encoded ==> r == Success((false, datum))
    ensures datum.encoded && decoded.depth != U8 ==> r == Failure(NotUnsignedByte)
    ensures datum.encoded && decoded.depth == U8 ==>
              r == Success((true, Datum(decoded.channels, decoded.rows, decoded.cols, Planar(decoded),
                                        [], false, datum.classLabel)))
  {
    if !datum.encoded {
      return Success((false, datum));
    }
    var packed := CVMatToDatum(decoded, datum);
    match packed
    case Success(d) => r := Success((true, d));
    case Failure(e) => r := Failure(e);
  }
}
