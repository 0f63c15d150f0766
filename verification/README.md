# Image-to-record packing of caffe-hash, in Dafny

This project models the byte-level core of `src/caffe/util/io.cpp` in the
caffe-hash fork of Caffe:

- `matchExt`: decides whether a file's extension names the requested image
  encoding. `ReadImageToDatum` uses it to choose between copying the file's
  bytes and re-encoding the image.
- `CVMatToDatum`: unpacks an OpenCV image into a `Datum` training record. The
  image is interleaved: row `h` holds pixel `w`, channel `c` at `w * C + c`.
  The record is planar: the sample goes to `(c * H + h) * W + w`.
- `CVMatToDatumWithMultiLabel`: the multi-label sibling of `CVMatToDatum`.
- `DecodeDatum` / `DecodeDatumNative`: these use `CVMatToDatum` to replace an
  encoded record by its pixels.
- `MutiCVMatToDatum`: packs an original, a similar and a different image into
  one record of `3 * C` planes, for triplet hashing.

The model is organised as follows:

- `image.dfy` (`Image`): the two records. `Mat` is an image of rows of byte
  samples. `Datum` is the training record. It also defines the error kinds.
  - A failed depth `CHECK` becomes `Failure(NotUnsignedByte)`.
  - The first read past the end of an image row becomes
    `Failure(ReadOutOfRow)`. In the source the read goes on through
    `ptr<uchar>(h)`. On a continuous image, which is what `imread` and
    `imdecode` return, it takes the next row's bytes, so the record gets
    shifted data. Only a read past the last row, or past a row of a padded or
    region-of-interest image, leaves the pixel buffer.
  - A store past the end of the record buffer becomes
    `Failure(WriteOutOfRange)`. In C++ this store is undefined behaviour.
- `ascii.dfy` (`Ascii`): `::tolower` in the "C" locale.
- `ext_match.dfy` (`ExtMatch`): `matchExt`, both as written and corrected, and
  the path `ReadImageToDatum` takes.
- `layout.dfy` (`Layout`): the planar index, its inverse, and `Planar`. `Planar`
  is an index-by-index reference definition of the record a packer should
  produce.
- `mat_to_datum.dfy` (`MatToDatum`): the single-image packers and the decode
  step.
- `multi_mat_to_datum.dfy` (`MultiMatToDatum`): the triplet packer. It is
  modelled with its two plane offsets as parameters. `MutiCVMatToDatum` fixes
  them to 3 and 6 as in the source. `MutiCVMatToDatumFixed` sets them to `C`
  and `2 * C`.

## Model

| member | source | states |
|---|---|---|
| Ascii.ToLowerChar | src/caffe/util/io.cpp:112-113 | `::tolower` shifts exactly the letters 'A'..'Z' by 32; every other character is kept |
| Ascii.ToLower | src/caffe/util/io.cpp:112-113 | the in-place `std::transform` with `::tolower` keeps the length and folds every character on its own |
| Ascii.ToLowerEqualIff | src/caffe/util/io.cpp:112-114 | comparing the lower-cased copies is exactly letter-by-letter comparison up to case |
| ExtMatch.LastIndexOf | src/caffe/util/io.cpp:110 | `rfind` finds the last occurrence of the character; `npos` is returned exactly when the character is absent |
| ExtMatch.ExtensionAsWritten | src/caffe/util/io.cpp:110-111 | the suffix as written starts with the last '.' and holds no other dot; it is the whole name when there is no dot |
| ExtMatch.Extension | src/caffe/util/io.cpp:110-111 | the corrected suffix holds no dot, and the name ends with '.' followed by it; it is the whole name when there is no dot |
| ExtMatch.SameEncoding | src/caffe/util/io.cpp:112-118 | the comparison holds exactly when the two strings are equal ignoring ASCII case, or the encoding is `jpg` and the extension `jpeg` up to case |
| ExtMatch.MatchExtAsWritten | src/caffe/util/io.cpp:108-119 | `matchExt` as written holds exactly when the suffix from the last '.', dot included, names the encoding up to case or through the `jpg`/`jpeg` alias |
| ExtMatch.MatchExt | src/caffe/util/io.cpp:108-119 | the corrected matcher holds exactly when the suffix after the last '.' names the encoding up to case or through the `jpg`/`jpeg` alias |
| ExtMatch.MatchExtAsWrittenRejectsDottedNames | src/caffe/util/io.cpp:108-119 | as written, no name containing '.' ever matches an encoding that does not itself begin with '.' |
| ExtMatch.MatchExtAsWrittenMissesJpg | src/caffe/util/io.cpp:108-119 | as written, `cat.JPG` does not match encoding `jpg` |
| ExtMatch.MatchExtAcceptsJpg | src/caffe/util/io.cpp:108-119 | the corrected matcher accepts `cat.JPG` for encoding `jpg` |
| ExtMatch.MatchExtOfJoinedName | src/caffe/util/io.cpp:108-119 | for `stem.ext` with a dot-free `ext`, the corrected suffix is `ext`, so the match is decided by `ext` alone, whatever the stem |
| ExtMatch.MatchExtAsWrittenIgnoresCase | src/caffe/util/io.cpp:112-113 | lower-casing either argument beforehand does not change the verdict of the matcher as written |
| ExtMatch.MatchExtIgnoresCase | src/caffe/util/io.cpp:112-113 | the corrected matcher is equally insensitive to case |
| ExtMatch.ReadImageRoute | src/caffe/util/io.cpp:120-143 | an image that did not load fails; with an empty encoding it is unpacked pixel by pixel; the file is copied verbatim exactly when the image loaded, the encoding is non-empty, the colour mode is the requested one, no resize was asked and the matcher accepts the name; otherwise it is re-encoded |
| ExtMatch.ReadImageRouteAsWrittenNeverCopies | src/caffe/util/io.cpp:120-143 | with the matcher as written, a dotted name is never copied verbatim for an encoding that does not begin with '.' |
| ExtMatch.ReadImageRouteCopiesIff | src/caffe/util/io.cpp:124-128 | with the corrected matcher, the file is copied verbatim exactly when the image loaded, the encoding is non-empty, its colour mode is the requested one, no resize was asked, and the extension equals the encoding up to case or is `jpeg` for `jpg` |
| ExtMatch.ReadImageRouteCopiesMatchingFile | src/caffe/util/io.cpp:124-128 | for a name `stem.ext` and an image of the requested mode, not resized, the file is copied exactly when `ext` names the encoding up to case, a `jpeg` file for encoding `jpg` included; otherwise it is re-encoded |
| Layout.Index | src/caffe/util/io.cpp:273 | `datum_index` only computes; its properties are stated by `Layout.IndexInRange`, `Layout.IndexInjective` and `Layout.CoordsOfIndex`, which together make it a bijection onto the buffer |
| Layout.RowOffset | src/caffe/util/io.cpp:270-274 | the running `img_index` only computes; its properties are stated by `Layout.RowOffsetInRange`, `Layout.NarrowReadStaysInRow` and `Layout.WholeRowReadFitsOnlyIfNarrow` |
| Layout.IndexInRange | src/caffe/util/io.cpp:266-273 | a planar index lies inside a buffer of P planes exactly when its plane is below P |
| Layout.IndexInjective | src/caffe/util/io.cpp:273 | two (h, w, c) triples share a planar index only if they are equal |
| Layout.IndexShift | src/caffe/util/io.cpp:339-341 | plane `P + c` of a buffer is plane c of the block that starts `P * H * W` bytes later |
| Layout.Coords | src/caffe/util/io.cpp:273 | every index of a `C * H * W` buffer is the planar index of some in-range (h, w, c) |
| Layout.CoordsOfIndex | src/caffe/util/io.cpp:273 | `Coords` is the inverse of the planar index, so every byte of the buffer is written exactly once |
| Layout.RowOffsetInRange | src/caffe/util/io.cpp:270-274 | the running read index `w * C + c` stays inside a row of W pixels exactly when `w < W` |
| Layout.NarrowReadStaysInRow | src/caffe/util/io.cpp:298-302 | reading D <= C samples per pixel never leaves a row of C-sample pixels |
| Layout.WholeRowReadFitsOnlyIfNarrow | src/caffe/util/io.cpp:298-302 | the last read of a row with D samples per pixel is inside a row of C-sample pixels exactly when D <= C |
| Layout.Planar | src/caffe/util/io.cpp:267-276 | the reference record, defined index by index through the inverse map; `Layout.PlanarIsPlanarOf` and `Layout.PlanarUnique` state that it is the one buffer holding each sample at its planar index |
| Layout.PlanarIsPlanarOf | src/caffe/util/io.cpp:267-276 | the reference record holds each sample (h, w, c) at its planar index |
| Layout.PlanarUnique | src/caffe/util/io.cpp:267-276 | every buffer holding each sample at its planar index is the reference record, so no `' '` filler survives |
| MatToDatum.PackPlanar | src/caffe/util/io.cpp:255-307 | non-byte images fail the CHECK; the record takes the image's shape, clears floats and the encoded flag, and keeps its label. With D = C channels it always succeeds with the planar transpose; with D > C channels it fails reading past the row whenever the image has a pixel |
| MatToDatum.PackRow | src/caffe/util/io.cpp:268-277 | one pass of the row loop stores every sample of row h at its planar index and leaves earlier rows alone, or fails reading past the row; a row with a pixel fails exactly when D > C |
| MatToDatum.CVMatToDatum | src/caffe/util/io.cpp:255-279 | a byte image becomes the record of its own shape and the reference planar data, with no floats, not encoded, and the same label; any other depth fails the CHECK |
| MatToDatum.CVMatToDatumWithMultiLabel | src/caffe/util/io.cpp:282-307 | any byte image with at least one pixel is read past the end of a row; the label array is never stored |
| MatToDatum.DecodeDatum | src/caffe/util/io.cpp:236-253 | an unencoded record is returned unchanged with `false`. An encoded one, with `true`, becomes the record `CVMatToDatum` makes of the decoded image: its channels, rows and columns, its planar data, no floats, not encoded, and the same label |
| MultiMatToDatum.SlotsDistinct | src/caffe/util/io.cpp:339-341 | with offsets C and 2C, two stores share a byte only for the same sample of the same image |
| MultiMatToDatum.SampleFault | src/caffe/util/io.cpp:339-344 | a step that does not fault reads inside the rows of images 2 and 3 and stores inside the buffer; equal shapes never fault on a read; planes inside the buffer never fault on a write; equal shapes with both planes inside never fault |
| MultiMatToDatum.PackTripletSample | src/caffe/util/io.cpp:339-344 | with offsets C and 2C, one step changes the buffer only at the three slots of sample (h, w, c), which receive the three images' samples; with any offsets, untouched planes keep the filler |
| MultiMatToDatum.PackTripletPixel | src/caffe/util/io.cpp:337-346 | the channel loop places every channel of pixel (h, w), or reports the first fault |
| MultiMatToDatum.PackTripletRow | src/caffe/util/io.cpp:335-347 | the pixel loop places every sample of row h, or reports the first fault |
| MultiMatToDatum.PackTripletRows | src/caffe/util/io.cpp:327-348 | the row loop places every sample. Equal shapes with planes inside the record never fault. Untouched planes keep the filler |
| MultiMatToDatum.PackTriplet | src/caffe/util/io.cpp:311-350 | CHECK failures come first; success sets the shape `3C x H x W` from image 1 and keeps the label; a non-empty success means both offset blocks fit; with offsets C and 2C and equal shapes each third of the record is the planar image of one input |
| MultiMatToDatum.BlankKept | src/caffe/util/io.cpp:326 | stores into planes c, `off2 + c` and `off3 + c` leave every other plane's `' '` filler in place |
| MultiMatToDatum.StepKeepsPlaced | src/caffe/util/io.cpp:342-344 | one step's three stores keep every earlier sample in place and add the current one |
| MultiMatToDatum.ThirdIsPlanar | src/caffe/util/io.cpp:339-344 | the k-th third of a filled buffer is the planar image of the k-th input |
| MultiMatToDatum.TripletSlices | src/caffe/util/io.cpp:339-344 | each of the three thirds of a filled buffer is the planar layout of its image |
| MultiMatToDatum.JoinThirds | src/caffe/util/io.cpp:326-349 | such a buffer is the concatenation of the three reference planar images |
| MultiMatToDatum.JoinedThirdSample | src/caffe/util/io.cpp:341 | plane `2C + c` of the concatenation holds channel c of image 3 |
| MultiMatToDatum.BlankLastPlaneIsNotJoined | src/caffe/util/io.cpp:341-344 | a record whose last plane is still filler is not the concatenation when image 3's last channel has a non-space sample |
| MultiMatToDatum.AsWrittenPlanesDisjointIff | src/caffe/util/io.cpp:339-341 | with the fixed offsets 3 and 6, the three images' planes are pairwise disjoint exactly when C <= 3 |
| MultiMatToDatum.MutiCVMatToDatum | src/caffe/util/io.cpp:311-350 | non-byte images fail the CHECK. A non-empty success needs C >= 3. With equal shapes it succeeds when C >= 3, only fails by writing out of range, and so always fails for non-empty images with C < 3. C = 3 gives the concatenation of the three planar images; for C > 3 the last plane keeps the filler. With C >= 3 the only failure is reading past a row. Every success sets the shape `3C x H x W`, clears floats and the encoded flag, and keeps the label |
| MultiMatToDatum.MutiCVMatToDatumFixed | src/caffe/util/io.cpp:311-350 | with offsets C and 2C, three equally shaped byte images always become the concatenation of their planar images, for any C; only unequal shapes fail, reading past a row. Every success sets the shape `3C x H x W`, clears floats and the encoded flag, and keeps the label |

## Left out

- Protobuf file I/O (`ReadProtoFromTextFile` and the others, io.cpp 38-74): these are file descriptors and library calls.
- `ReadImageToCVMat`, `ReadFileToDatum`, `DecodeDatumToCVMat*` and the OpenCV calls `imread`, `imencode`, `imdecode` and `resize` (io.cpp 76-106, 189-232): these are foreign calls.
  - `ReadImageToDatum` is kept only as the choice of path (`ReadImageRoute`). Whether the image loaded and its channel count become parameters.
  - `DecodeDatum` takes the decoded image as a parameter. If decoding fails, OpenCV's empty image is just a 0 x 0 `Mat`.
- `MutilImageToData` (io.cpp 146-184) reads image files and is left out. It has two defects not modelled here:
  - it has no `return` on its success path;
  - it checks only the first image's pixel pointer.
- HDF5 helpers (io.cpp 352-425): these are wrappers over the HDF5 library and the framework's `Blob`.
- The triplet ranking loss layer is left out: it is floating-point loss and gradient code, and its test uses random fillers.
- Row padding: a `Mat` row holds exactly `cols * channels` samples, so the stride `ptr<uchar>(h)` may skip is not modelled.
- Reads past a row: the model stops with `ReadOutOfRow` at the first one. It does not model the source going on to read the next row's bytes of a continuous image, or the bytes after the buffer on the last row. The shifted data such a call stores is therefore not modelled.
- Integer width: `datum_size` and the indices are C++ `int`. The model uses unbounded integers and does not model overflow for images of more than 2^31 samples.
- `static_cast<char>` keeps the bit pattern, so a sample is stored as the same byte value.
- `::tolower` is modelled for the "C" locale, where only 'A'..'Z' change.
- `MultiMatToDatum.PackTriplet`: the source stores image 1's sample before it reads image 2's. The model checks all three reads and stores of a step before storing anything. The first fault reported is the same. The partly filled buffer of a failed call is not modelled: a store past the buffer is undefined behaviour, and a read past a row is modelled as a stop, as described above.
- `MatToDatum.CVMatToDatumWithMultiLabel`: states only the failure and the untouched label. It fails on every image that has a pixel, so the success case is never reached there. In the source, the over-reads of rows 0 to H-2 of a continuous image take the next row's bytes, so those rows store shifted data rather than fault. Only the last row reads past the pixel buffer. The model reports `ReadOutOfRow` at the first over-read.

## Findings

| source | as written | input that shows it | evidently intended | confidence | as-written member | corrected member |
|---|---|---|---|---|---|---|
| src/caffe/util/io.cpp:110-111 | `fn.substr(p)` keeps the '.', so the extension `.jpg` is compared with the encoding `jpg`. A dotted name never matches an encoding that does not begin with '.', so `ReadImageToDatum` never copies such a file verbatim; only a dot-free name that names the encoding up to case, or `jpeg` for encoding `jpg`, can match | `matchExt("cat.JPG", "jpg")` is false | `fn.substr(p + 1)`: this makes `jpg` match `cat.JPG` and the `jpg`/`jpeg` alias work | not executed | ExtMatch.MatchExtAsWrittenMissesJpg | ExtMatch.MatchExtOfJoinedName |
| src/caffe/util/io.cpp:340-341 | The planes of images 2 and 3 start at the fixed 3 and 6, not at `C` and `2C`. With 1 or 2 channels the stores run past the buffer; with more than 3 channels the images overwrite each other and the last plane is never written | three 4-channel 1 x 1 byte images whose third has last sample 7: plane 11 of the record stays `' '`, not 7 | offsets `C` and `2C`: the record is the three planar images one after another for any C | not executed | MultiMatToDatum.MutiCVMatToDatum | MultiMatToDatum.MutiCVMatToDatumFixed |
