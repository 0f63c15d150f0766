/**
  The two records the image utilities move bytes between: an OpenCV-style
  image (interleaved rows, one byte per channel sample) and the framework's
  training record (a planar, channel-major byte string plus shape metadata).
 */
module Image {

  /** One unsigned 8-bit sample; `static_cast<char>` keeps its bit pattern. */
  type Byte = b: int | 0 <= b < 256

  /** The filler the packers construct their buffer with: `std::string(n, ' ')`. */
  const Space: Byte := 32

  /** Element depth of an image; only `U8` (CV_8U) is accepted by the packers. */
  datatype Depth = U8 | S8 | U16 | S16 | S32 | F32 | F64

  /**
    An image of `rows` x `cols` pixels with `channels` samples per pixel.
    `pixels[h]` is the interleaved row `h`: pixel `w`, channel `c` sits at
    `w * channels + c`.
   */
  datatype Mat = Mat(rows: nat, cols: nat, channels: nat, depth: Depth, pixels: seq<seq<Byte>>)
  {
    /** Every row pointer exists and holds exactly the row's pixel samples. */
    predicate Valid()
    {
      && |pixels| == rows
      && forall h :: 0 <= h < rows ==> |pixels[h]| == cols * channels
    }

    /** Two images with the same geometry. */
    predicate SameShape(other: Mat)
    {
      rows == other.rows && cols == other.cols && channels == other.channels
    }
  }

  /** The training record: shape, raw bytes, float payload, encoding flag, class label. */
  datatype Datum = Datum(
    channels: int,
    height: int,
    width: int,
    data: seq<Byte>,
    floatData: seq<real>,
    encoded: bool,
    classLabel: int)

  /** Why a packer stops: a failed depth CHECK, or an access outside a row or the buffer. */
  datatype PackError = NotUnsignedByte | ReadOutOfRow | WriteOutOfRange

  datatype Option<T> = None | Some(value: T)

  datatype Result<T, E> = Success(value: T) | Failure(error: E)
}
