/**
  `matchExt` (io.cpp lines 108-119): does a file name's extension name the
  same image encoding as `en`? Its only caller (`ReadImageToDatum`) uses a
  match to copy the file's bytes verbatim instead of re-encoding the image.
 */
module ExtMatch {
  import opened Image
  import opened Ascii

  /** `s.rfind(ch)`: the position of the last `ch`, or `None` for `npos`. */
  function LastIndexOf(s: string, ch: char): (r: Option<nat>)
    ensures r.Some? ==> r.value < |s| && s[r.value] == ch && ch !in s[r.value + 1..]
    ensures r.None? <==> ch !in s
  {
    if |s| == 0 then None
    else if s[|s| - 1] == ch then Some(|s| - 1)
    else
      assert s == s[..|s| - 1] + [s[|s| - 1]];
      var r := LastIndexOf(s[..|s| - 1], ch);
      assert r.Some? ==> s[r.value + 1..] == s[..|s| - 1][r.value + 1..] + [s[|s| - 1]];
      r
  }

  /**
    The suffix as line 111 computes it: `fn.substr(p)` from the last '.',
    so the dot itself is kept; the whole name when there is no dot.
   */
  function ExtensionAsWritten(fn: string): (ext: string)
    ensures '.' in fn ==> 0 < |ext| <= |fn| && ext[0] == '.' && '.' !in ext[1..]
    ensures '.' in fn ==> fn[|fn| - |ext|..] == ext
    ensures '.' !in fn ==> ext == fn
  {
    match LastIndexOf(fn, '.')
    case Some(p) => fn[p..]
    case None => fn
  }

  /** The suffix after the last '.' (`fn.substr(p + 1)`); the whole name when there is no dot. */
  function Extension(fn: string): (ext: string)
    ensures '.' !in ext
    ensures '.' in fn ==> |ext| < |fn| && fn[|fn| - |ext| - 1..] == "." + ext
    ensures '.' !in fn ==> ext == fn
  {
    match LastIndexOf(fn, '.')
    case Some(p) => fn[p + 1..]
    case None => fn
  }

  /**
    Lines 112-118: compare lower-cased copies, allowing only the `jpg`/`jpeg`
    alias. The comparison ignores ASCII case on both sides, and besides that
    the only extra pair it accepts is encoding `jpg` with extension `jpeg`.
   */
  function SameEncoding(ext: string, en: string): (b: bool)
    ensures b <==> EqualIgnoringCase(ext, en) || (EqualIgnoringCase(en, "jpg") && EqualIgnoringCase(ext, "jpeg"))
  {
    ToLowerEqualIff(ext, en);
    ToLowerEqualIff(en, "jpg");
    ToLowerEqualIff(ext, "jpeg");
    ToLowerOfLower("jpg");
    ToLowerOfLower("jpeg");
    var e := ToLower(ext);
    var n := ToLower(en);
    e == n || (n == "jpg" && e == "jpeg")
  }

  /**
    `matchExt` exactly as written: the compared suffix still carries its dot,
    so it matches when the dotted suffix equals the encoding up to case.
   */
  function MatchExtAsWritten(fn: string, en: string): (b: bool)
    ensures b <==> EqualIgnoringCase(ExtensionAsWritten(fn), en) ||
                   (EqualIgnoringCase(en, "jpg") && EqualIgnoringCase(ExtensionAsWritten(fn), "jpeg"))
  {
    SameEncoding(ExtensionAsWritten(fn), en)
  }

  /** `matchExt` as its comment and its `jpeg` alias mean it: the suffix without the dot. */
  function MatchExt(fn: string, en: string): (b: bool)
    ensures b <==> EqualIgnoringCase(Extension(fn), en) ||
                   (EqualIgnoringCase(en, "jpg") && EqualIgnoringCase(Extension(fn), "jpeg"))
  {
    SameEncoding(Extension(fn), en)
  }

  /**
    The defect of line 111: a name with a '.' never matches an encoding that
    does not itself start with '.', yet every caller passes the encoding
    without one (line 130 adds the dot for `imencode`).
   */
  lemma MatchExtAsWrittenRejectsDottedNames(fn: string, en: string)
    requires '.' in fn
    requires |en| == 0 || en[0] != '.'
    ensures !MatchExtAsWritten(fn, en)
  {
    var e := ToLower(ExtensionAsWritten(fn));
    var n := ToLower(en);
    assert e[0] == '.';
    assert n != e by {
      if |n| > 0 { assert n[0] == ToLowerChar(en[0]); }
    }
  }

  /** The discrepancy on one name: `cat.JPG` does not match encoding `jpg` as written. */
  lemma MatchExtAsWrittenMissesJpg()
    ensures !MatchExtAsWritten("cat.JPG", "jpg")
  {
    assert "cat.JPG"[3] == '.';
    MatchExtAsWrittenRejectsDottedNames("cat.JPG", "jpg");
  }

  /** The same name matches once the dot is left out of the suffix. */
  lemma MatchExtAcceptsJpg()
    ensures MatchExt("cat.JPG", "jpg")
  {
    assert "cat" + "." + "JPG" == "cat.JPG";
    MatchExtOfJoinedName("cat", "JPG", "jpg");
    LowerJpg();
  }

  lemma LowerJpg()
    ensures ToLower("JPG") == "jpg" == ToLower("jpg")
  {
    var t := ToLower("JPG");
    assert t[0] == 'j' && t[1] == 'p' && t[2] == 'g';
    ToLowerOfLower("jpg");
  }

  /**
    Corrected behaviour: a name built as `stem.ext` (with no '.' in `ext`)
    matches `en` exactly when `ext` names the same encoding, whatever the stem.
   */
  lemma MatchExtOfJoinedName(stem: string, ext: string, en: string)
    requires '.' !in ext
    ensures Extension(stem + "." + ext) == ext
    ensures MatchExt(stem + "." + ext, en) == SameEncoding(ext, en)
  {
    var fn := stem + "." + ext;
    assert fn[|stem|] == '.';
    var p := LastIndexOf(fn, '.').value;
    assert p == |stem|;
    assert fn[p + 1..] == ext;
  }

  /** Lower-casing a name moves none of its dots. */
  lemma {:induction false} LastDotOfLower(s: string)
    ensures LastIndexOf(ToLower(s), '.') == LastIndexOf(s, '.')
    decreases |s|
  {
    if |s| > 0 {
      var t := ToLower(s);
      var n := |s| - 1;
      assert t[n] == ToLowerChar(s[n]);
      assert (t[n] == '.') == (s[n] == '.');
      assert t[..n] == ToLower(s[..n]) by { ToLowerSlice(s, 0, n); }
      LastDotOfLower(s[..n]);
    }
  }

  /** Comparing already lower-cased arguments gives the same verdict. */
  lemma SameEncodingOfLower(ext: string, en: string)
    ensures SameEncoding(ToLower(ext), ToLower(en)) == SameEncoding(ext, en)
  {
    ToLowerIdempotent(ext);
    ToLowerIdempotent(en);
  }

  /** Lower-casing a suffix is taking the suffix of the lower-cased name. */
  lemma LowerSuffix(fn: string, p: nat)
    requires p <= |fn|
    ensures ToLower(fn)[p..] == ToLower(fn[p..])
  {
    var a, b := ToLower(fn)[p..], ToLower(fn[p..]);
    assert |a| == |b|;
    assert forall i :: 0 <= i < |a| ==> a[i] == ToLowerChar(fn[p + i]) == b[i];
  }

  /** Cutting the suffix and lower-casing can be done in either order. */
  lemma ExtensionAsWrittenOfLower(fn: string)
    ensures ExtensionAsWritten(ToLower(fn)) == ToLower(ExtensionAsWritten(fn))
  {
    LastDotOfLower(fn);
    match LastIndexOf(fn, '.')
    case Some(p) => LowerSuffix(fn, p);
    case None =>
  }

  lemma ExtensionOfLower(fn: string)
    ensures Extension(ToLower(fn)) == ToLower(Extension(fn))
  {
    LastDotOfLower(fn);
    match LastIndexOf(fn, '.')
    case Some(p) => LowerSuffix(fn, p + 1);
    case None =>
  }

  /** `matchExt` as written gives the same answer for any upper/lower spelling of either argument. */
  lemma MatchExtAsWrittenIgnoresCase(fn: string, en: string)
    ensures MatchExtAsWritten(ToLower(fn), ToLower(en)) == MatchExtAsWritten(fn, en)
  {
    ExtensionAsWrittenOfLower(fn);
    SameEncodingOfLower(ExtensionAsWritten(fn), en);
  }

  /** The corrected `matchExt` is just as insensitive to case. */
  lemma MatchExtIgnoresCase(fn: string, en: string)
    ensures MatchExt(ToLower(fn), ToLower(en)) == MatchExt(fn, en)
  {
    ExtensionOfLower(fn);
    SameEncodingOfLower(Extension(fn), en);
  }

  /** The ways `ReadImageToDatum` (lines 120-143) can end. */
  datatype Route =
    | Unreadable   // the image could not be read: returns false
    | CopyFile     // the file's own bytes become the encoded record
    | Reencode     // the image is re-encoded with `imencode`
    | RawPixels    // the image is unpacked with `CVMatToDatum`

  /**
    Which path `ReadImageToDatum` takes, given whether the image loaded, its
    channel count, the requested colour mode and size, and an extension matcher.
   */
  function ReadImageRoute(loaded: bool, channels: nat, isColor: bool, height: int, width: int,
                          filename: string, encoding: string,
                          matches: (string, string) -> bool): (r: Route)
    ensures r == Unreadable <==> !loaded
    ensures r == RawPixels <==> loaded && |encoding| == 0
    ensures r == CopyFile <==>
              && loaded && |encoding| > 0
              && (channels == 3) == isColor && height == 0 && width == 0
              && matches(filename, encoding)
  {
    if !loaded then Unreadable
    else if |encoding| > 0 then
      if (channels == 3) == isColor && height == 0 && width == 0 && matches(filename, encoding)
      then CopyFile
      else Reencode
    else RawPixels
  }

  /**
    Consequence of the defect: with the matcher as written, a file whose name
    has a '.' is never copied verbatim for an encoding that does not begin
    with '.', such as `jpg`.
   */
  lemma ReadImageRouteAsWrittenNeverCopies(loaded: bool, channels: nat, isColor: bool,
                                           height: int, width: int, filename: string, encoding: string)
    requires '.' in filename
    requires |encoding| == 0 || encoding[0] != '.'
    ensures ReadImageRoute(loaded, channels, isColor, height, width, filename, encoding,
                           MatchExtAsWritten) != CopyFile
  {
    MatchExtAsWrittenRejectsDottedNames(filename, encoding);
  }

  /**
    With the corrected matcher, the file is copied verbatim exactly when the
    image loaded, its colour mode is the requested one, no resize was asked,
    and the extension equals the encoding up to case or is `jpeg` for `jpg`.
   */
  lemma ReadImageRouteCopiesIff(loaded: bool, channels: nat, isColor: bool, height: int, width: int,
                                filename: string, encoding: string)
    ensures ReadImageRoute(loaded, channels, isColor, height, width, filename, encoding, MatchExt) == CopyFile <==>
              && loaded && |encoding| > 0
              && (channels == 3) == isColor && height == 0 && width == 0
              && (|| EqualIgnoringCase(Extension(filename), encoding)
                  || (EqualIgnoringCase(encoding, "jpg") && EqualIgnoringCase(Extension(filename), "jpeg")))
  {
    var matched := MatchExt(filename, encoding);
  }

  /**
    For a name `stem.ext`, a loaded image of the requested colour mode, not
    resized, is copied verbatim exactly when `ext` names the encoding up to
    case, including a `jpeg` file for encoding `jpg`; otherwise it is
    re-encoded.
   */
  lemma ReadImageRouteCopiesMatchingFile(channels: nat, isColor: bool, stem: string, ext: string,
                                         encoding: string)
    requires '.' !in ext
    requires |encoding| > 0
    requires (channels == 3) == isColor
    ensures ReadImageRoute(true, channels, isColor, 0, 0, stem + "." + ext, encoding, MatchExt) == CopyFile <==>
              EqualIgnoringCase(ext, encoding) || (EqualIgnoringCase(encoding, "jpg") && EqualIgnoringCase(ext, "jpeg"))
    ensures ReadImageRoute(true, channels, isColor, 0, 0, stem + "." + ext, encoding, MatchExt) != CopyFile ==>
              ReadImageRoute(true, channels, isColor, 0, 0, stem + "." + ext, encoding, MatchExt) == Reencode
  {
    MatchExtOfJoinedName(stem, ext, encoding);
  }
}
