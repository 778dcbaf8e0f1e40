/**
 * The descriptor of an image request: the desired and source sizes, the
 * circle-crop options, the static flag and the DRM settings, and the cache
 * key built from them.
 */
module ImageRequest {
  import opened JavaLang

  /** ImageRequest's marker for an unknown width or height. */
  const UNSPECIFIED_SIZE := -1

  const KEY_PART_DELIMITER := '|'

  /** A size is either unspecified or positive. */
  predicate IsSize(n: int) {
    n == UNSPECIFIED_SIZE || n > 0
  }

  /** `String.valueOf(boolean)`. */
  function BoolToString(b: bool): string {
    if b then "true" else "false"
  }

  /**
   * The key text: desired width, desired height, crop flag and background
   * colour, each followed by the delimiter, then the static flag with the
   * DRM end key appended directly after it.
   */
  function KeyText(desiredWidth: int, desiredHeight: int, cropToCircle: bool, circleBackgroundColor: int,
                   isStatic: bool, drmKeyEnd: int): string
  {
    IntToString(desiredWidth) + [KEY_PART_DELIMITER] + IntToString(desiredHeight) + [KEY_PART_DELIMITER]
    + BoolToString(cropToCircle) + [KEY_PART_DELIMITER] + IntToString(circleBackgroundColor) + [KEY_PART_DELIMITER]
    + BoolToString(isStatic) + IntToString(drmKeyEnd)
  }

  /** The five pieces between delimiters. */
  function KeyPieces(desiredWidth: int, desiredHeight: int, cropToCircle: bool, circleBackgroundColor: int,
                     isStatic: bool, drmKeyEnd: int): seq<string>
  {
    [IntToString(desiredWidth), IntToString(desiredHeight), BoolToString(cropToCircle),
     IntToString(circleBackgroundColor), BoolToString(isStatic) + IntToString(drmKeyEnd)]
  }

  /** Joining five pieces puts the separator between consecutive ones. */
  lemma JoinFive(a: string, b: string, c: string, d: string, e: string, sep: char)
    ensures Join([a, b, c, d, e], sep) == a + [sep] + b + [sep] + c + [sep] + d + [sep] + e
  {
    var p := [a, b, c, d, e];
    assert p[1..] == [b, c, d, e];
    assert p[1..][1..] == [c, d, e];
    assert p[1..][1..][1..] == [d, e];
    assert p[1..][1..][1..][1..] == [e];
    assert Join([d, e], sep) == d + [sep] + e;
    assert Join([c, d, e], sep) == c + [sep] + (d + [sep] + e);
    assert Join([b, c, d, e], sep) == b + [sep] + (c + [sep] + (d + [sep] + e));
  }

  lemma KeyTextJoin(desiredWidth: int, desiredHeight: int, cropToCircle: bool, circleBackgroundColor: int,
                    isStatic: bool, drmKeyEnd: int)
    ensures KeyText(desiredWidth, desiredHeight, cropToCircle, circleBackgroundColor, isStatic, drmKeyEnd)
            == Join(KeyPieces(desiredWidth, desiredHeight, cropToCircle, circleBackgroundColor, isStatic, drmKeyEnd), KEY_PART_DELIMITER)
  {
    JoinFive(IntToString(desiredWidth), IntToString(desiredHeight), BoolToString(cropToCircle),
             IntToString(circleBackgroundColor), BoolToString(isStatic) + IntToString(drmKeyEnd), KEY_PART_DELIMITER);
  }

  /** No piece contains the delimiter. */
  lemma KeyPiecesAvoidDelimiter(desiredWidth: int, desiredHeight: int, cropToCircle: bool, circleBackgroundColor: int,
                                isStatic: bool, drmKeyEnd: int)
    ensures var p := KeyPieces(desiredWidth, desiredHeight, cropToCircle, circleBackgroundColor, isStatic, drmKeyEnd);
      forall i :: 0 <= i < |p| ==> KEY_PART_DELIMITER !in p[i]
  {
    IntToStringChars(desiredWidth);
    IntToStringChars(desiredHeight);
    IntToStringChars(circleBackgroundColor);
    IntToStringChars(drmKeyEnd);
    var last := BoolToString(isStatic) + IntToString(drmKeyEnd);
    assert forall j :: |BoolToString(isStatic)| <= j < |last| ==> last[j] == IntToString(drmKeyEnd)[j - |BoolToString(isStatic)|];
  }

  /**
   * The key identifies the request: equal keys mean equal desired sizes,
   * crop flag, background colour, static flag and DRM end key, even though
   * the static flag and the DRM end key are not separated.
   */
  lemma KeyTextInjective(w1: int, h1: int, c1: bool, b1: int, s1: bool, d1: int,
                         w2: int, h2: int, c2: bool, b2: int, s2: bool, d2: int)
    requires KeyText(w1, h1, c1, b1, s1, d1) == KeyText(w2, h2, c2, b2, s2, d2)
    ensures w1 == w2 && h1 == h2 && c1 == c2 && b1 == b2 && s1 == s2 && d1 == d2
  {
    var p1 := KeyPieces(w1, h1, c1, b1, s1, d1);
    var p2 := KeyPieces(w2, h2, c2, b2, s2, d2);
    KeyTextJoin(w1, h1, c1, b1, s1, d1);
    KeyTextJoin(w2, h2, c2, b2, s2, d2);
    KeyPiecesAvoidDelimiter(w1, h1, c1, b1, s1, d1);
    KeyPiecesAvoidDelimiter(w2, h2, c2, b2, s2, d2);
    SplitJoin(p1, KEY_PART_DELIMITER);
    SplitJoin(p2, KEY_PART_DELIMITER);
    assert p1 == p2;
    IntToStringInjective(w1, w2);
    IntToStringInjective(h1, h2);
    IntToStringInjective(b1, b2);
    assert p1[2][0] == p2[2][0];
    assert p1[4][0] == p2[4][0];
    var n := |BoolToString(s1)|;
    assert IntToString(d1) == p1[4][n..];
    assert IntToString(d2) == p2[4][n..];
    IntToStringInjective(d1, d2);
  }

  class ImageRequestDescriptor {
    const desiredWidth: int
    const desiredHeight: int
    const sourceWidth: int
    const sourceHeight: int
    const isStatic: bool
    const cropToCircle: bool
    const circleBackgroundColor: int
    const circleStrokeColor: int

    var drmContentType: Option<string>
    var isDrm: bool
    var drmDataPath: Option<string>
    var drmPreviewInPhotoViewActivity: bool
    var drmKeyEnd: int

    /** Every size is unspecified or positive. */
    predicate Valid() {
      IsSize(desiredWidth) && IsSize(desiredHeight) && IsSize(sourceWidth) && IsSize(sourceHeight)
    }

    /** The full constructor: checks the four sizes and keeps every argument as given. */
    constructor (desiredWidth: int, desiredHeight: int, sourceWidth: int, sourceHeight: int,
                 isStatic: bool, cropToCircle: bool, circleBackgroundColor: int, circleStrokeColor: int)
      requires IsSize(desiredWidth) && IsSize(desiredHeight) && IsSize(sourceWidth) && IsSize(sourceHeight)
      ensures Valid()
      ensures this.desiredWidth == desiredWidth && this.desiredHeight == desiredHeight
      ensures this.sourceWidth == sourceWidth && this.sourceHeight == sourceHeight
      ensures this.isStatic == isStatic && this.cropToCircle == cropToCircle
      ensures this.circleBackgroundColor == circleBackgroundColor && this.circleStrokeColor == circleStrokeColor
      ensures !isDrm && drmContentType.None? && drmDataPath.None? && !drmPreviewInPhotoViewActivity && drmKeyEnd == 0
    {
      this.desiredWidth := desiredWidth;
      this.desiredHeight := desiredHeight;
      this.sourceWidth := sourceWidth;
      this.sourceHeight := sourceHeight;
      this.isStatic := isStatic;
      this.cropToCircle := cropToCircle;
      this.circleBackgroundColor := circleBackgroundColor;
      this.circleStrokeColor := circleStrokeColor;
      drmContentType := None;
      isDrm := false;
      drmDataPath := None;
      drmPreviewInPhotoViewActivity := false;
      drmKeyEnd := 0;
    }

    /** A request for a given desired size; the source size is unknown and the flags are off. */
    constructor WithDesiredSize(desiredWidth: int, desiredHeight: int)
      requires IsSize(desiredWidth) && IsSize(desiredHeight)
      ensures Valid()
      ensures this.desiredWidth == desiredWidth && this.desiredHeight == desiredHeight
      ensures sourceWidth == UNSPECIFIED_SIZE && sourceHeight == UNSPECIFIED_SIZE
      ensures !isStatic && !cropToCircle && circleBackgroundColor == 0 && circleStrokeColor == 0
      ensures !isDrm && drmKeyEnd == 0
    {
      this.desiredWidth := desiredWidth;
      this.desiredHeight := desiredHeight;
      sourceWidth := UNSPECIFIED_SIZE;
      sourceHeight := UNSPECIFIED_SIZE;
      isStatic := false;
      cropToCircle := false;
      circleBackgroundColor := 0;
      circleStrokeColor := 0;
      drmContentType := None;
      isDrm := false;
      drmDataPath := None;
      drmPreviewInPhotoViewActivity := false;
      drmKeyEnd := 0;
    }

    /** A request for the full image: every size unknown and the flags off. */
    constructor FullImage()
      ensures Valid()
      ensures desiredWidth == UNSPECIFIED_SIZE && desiredHeight == UNSPECIFIED_SIZE
      ensures sourceWidth == UNSPECIFIED_SIZE && sourceHeight == UNSPECIFIED_SIZE
      ensures !isStatic && !cropToCircle && circleBackgroundColor == 0 && circleStrokeColor == 0
      ensures !isDrm && drmKeyEnd == 0
    {
      desiredWidth := UNSPECIFIED_SIZE;
      desiredHeight := UNSPECIFIED_SIZE;
      sourceWidth := UNSPECIFIED_SIZE;
      sourceHeight := UNSPECIFIED_SIZE;
      isStatic := false;
      cropToCircle := false;
      circleBackgroundColor := 0;
      circleStrokeColor := 0;
      drmContentType := None;
      isDrm := false;
      drmDataPath := None;
      drmPreviewInPhotoViewActivity := false;
      drmKeyEnd := 0;
    }

    /** setupDrm: sets the DRM flag, content type and data path together. */
    method SetupDrm(drm: bool, contentType: Option<string>, dataPath: Option<string>)
      modifies this`isDrm, this`drmContentType, this`drmDataPath
      ensures isDrm == drm && drmContentType == contentType && drmDataPath == dataPath
    {
      isDrm := drm;
      drmContentType := contentType;
      drmDataPath := dataPath;
    }

    method SetDrmType(drm: bool)
      modifies this`isDrm
      ensures isDrm == drm
    {
      isDrm := drm;
    }

    method SetDrmContentType(contentType: Option<string>)
      modifies this`drmContentType
      ensures drmContentType == contentType
    {
      drmContentType := contentType;
    }

    method SetDrmDataPath(dataPath: Option<string>)
      modifies this`drmDataPath
      ensures drmDataPath == dataPath
    {
      drmDataPath := dataPath;
    }

    method SetDrmPreviewInPhotoViewActivity(preview: bool)
      modifies this`drmPreviewInPhotoViewActivity
      ensures drmPreviewInPhotoViewActivity == preview
    {
      drmPreviewInPhotoViewActivity := preview;
    }

    /** reportDrmEndKey: records the DRM end key that later keys include. */
    method ReportDrmEndKey(keyEnd: int)
      modifies this`drmKeyEnd
      ensures drmKeyEnd == keyEnd
    {
      drmKeyEnd := keyEnd;
    }

    /** The DRM part of the key: the reported end key for DRM images, 0 otherwise. */
    function DrmKeyPart(): (d: int)
      reads this`isDrm, this`drmKeyEnd
      ensures !isDrm ==> d == 0
      ensures isDrm ==> d == drmKeyEnd
    {
      if isDrm then drmKeyEnd else 0
    }

    /** getKey: the cache key of the request. */
    function GetKey(): string
      reads this`isDrm, this`drmKeyEnd
    {
      KeyText(desiredWidth, desiredHeight, cropToCircle, circleBackgroundColor, isStatic, DrmKeyPart())
    }
  }

  /**
   * Two requests share a cache key exactly when they agree on the desired
   * size, the crop flag, the background colour, the static flag and the DRM
   * part; the source size and the stroke colour play no part.
   */
  lemma SameKey(a: ImageRequestDescriptor, b: ImageRequestDescriptor)
    ensures a.GetKey() == b.GetKey() <==>
      a.desiredWidth == b.desiredWidth && a.desiredHeight == b.desiredHeight &&
      a.cropToCircle == b.cropToCircle && a.circleBackgroundColor == b.circleBackgroundColor &&
      a.isStatic == b.isStatic && a.DrmKeyPart() == b.DrmKeyPart()
  {
    if a.GetKey() == b.GetKey() {
      KeyTextInjective(a.desiredWidth, a.desiredHeight, a.cropToCircle, a.circleBackgroundColor, a.isStatic, a.DrmKeyPart(),
                       b.desiredWidth, b.desiredHeight, b.cropToCircle, b.circleBackgroundColor, b.isStatic, b.DrmKeyPart());
    }
  }
}
