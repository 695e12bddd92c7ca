/**
 `normalizeArchivePath` (native/windows/roost-win-helper.cpp): the one form of a relative path, and the
 paths that have none. Case folding and the alphabet are Windows' own and are parameters.
 */
module ArchivePath {

  import opened Basics
  import opened Utf

  /** The invariant-locale mapping to lower case and `iswalpha`. */
  datatype Locale = Locale(lower: Text -> Text, isAlpha: Wide -> bool)

  datatype NormalPath = NormalPath(display: Text, canonical: Text, utf8: Bytes, directory: bool)

  const SLASH: Wide := 0x2F
  const BACKSLASH: Wide := 0x5C
  const COLON: Wide := 0x3A
  const DOT: Wide := 0x2E
  const SPACE: Wide := 0x20

  function Slashed(w: Text): (t: Text)
    ensures |t| == |w|
    ensures forall i :: 0 <= i < |w| ==> t[i] == (if w[i] == BACKSLASH then SLASH else w[i])
    ensures BACKSLASH !in t
  {
    seq(|w|, i requires 0 <= i < |w| => if w[i] == BACKSLASH then SLASH else w[i])
  }

  function IndexOf(w: Text, c: Wide): (i: nat)
    ensures i <= |w| && (i < |w| ==> w[i] == c) && c !in w[..i]
  {
    if w == [] || w[0] == c then 0 else 1 + IndexOf(w[1..], c)
  }

  function Segments(w: Text): (segments: seq<Text>)
    ensures segments != []
    decreases |w|
  {
    var i := IndexOf(w, SLASH);
    if i == |w| then [w] else [w[..i]] + Segments(w[i + 1..])
  }

  /** con, prn, aux, nul, and com or lpt with a digit, whatever the extension. */
  predicate IsReservedDevice(segment: Text, locale: Locale) {
    var name := locale.lower(segment[..IndexOf(segment, DOT)]);
    || name in {[0x63, 0x6F, 0x6E], [0x70, 0x72, 0x6E], [0x61, 0x75, 0x78], [0x6E, 0x75, 0x6C]}
    || (|name| == 4 && name[..3] in {[0x63, 0x6F, 0x6D], [0x6C, 0x70, 0x74]} && 0x31 <= name[3] <= 0x39)
  }

  predicate IsSafeSegment(s: Text, locale: Locale) {
    && s != [] && s != [DOT] && s != [DOT, DOT] && COLON !in s
    && s[|s| - 1] != DOT && s[|s| - 1] != SPACE
    && !IsReservedDevice(s, locale)
    && forall i :: 0 <= i < |s| ==> s[i] >= 0x20
  }

  /** The check of one segment, as a value. */
  function SafeIn(locale: Locale): Text -> bool {
    (segment: Text) => IsSafeSegment(segment, locale)
  }

  predicate AllSafe(segments: seq<Text>, safe: Text -> bool) {
    segments == [] || (safe(segments[0]) && AllSafe(segments[1..], safe))
  }

  predicate IsAbsolute(w: Text, locale: Locale) {
    w == [] || w[0] == SLASH || (|w| >= 2 && locale.isAlpha(w[0]) && w[1] == COLON)
  }

  function NormalizeText(w: Text, permitDirectory: bool, locale: Locale): Option<NormalPath> {
    if IsAbsolute(w, locale) then None
    else
      var directory := w[|w| - 1] == SLASH;
      var value := if directory then w[..|w| - 1] else w;
      if value == [] || (directory && !permitDirectory) || !AllSafe(Segments(value), SafeIn(locale)) then None
      else if ToUtf8(value).None? then None
      else Some(NormalPath(value, locale.lower(value), ToUtf8(value).value, directory))
  }

  function Normalize(raw: Bytes, permitDirectory: bool, locale: Locale): Option<NormalPath> {
    var w := FromUtf8(raw);
    if w.None? then None else NormalizeText(Slashed(w.value), permitDirectory, locale)
  }

  // ---------------------------------------------------------------------------------------------
  // As it runs
  // ---------------------------------------------------------------------------------------------

  lemma FirstSegment(w: Text, safe: Text -> bool)
    ensures var i := IndexOf(w, SLASH);
      AllSafe(Segments(w), safe) == (safe(w[..i]) && (i < |w| ==> AllSafe(Segments(w[i + 1..]), safe)))
  {
    var i := IndexOf(w, SLASH);
    if i < |w| {
      assert ([w[..i]] + Segments(w[i + 1..]))[1..] == Segments(w[i + 1..]);
    } else {
      assert w[..i] == w && [w][1..] == [];
    }
  }

  /** Walks the path from slash to slash. */
  method CheckSegments(value: Text, safe: Text -> bool) returns (all: bool)
    ensures all == AllSafe(Segments(value), safe)
  {
    var rest := value;
    while true
      invariant AllSafe(Segments(rest), safe) == AllSafe(Segments(value), safe)
      decreases |rest|
    {
      FirstSegment(rest, safe);
      var slash := IndexOf(rest, SLASH);
      if !safe(rest[..slash]) { return false; }
      if slash == |rest| { return true; }
      rest := rest[slash + 1..];
    }
  }

  method NormalizeArchivePath(raw: Bytes, permitDirectory: bool, locale: Locale) returns (path: Option<NormalPath>)
    ensures path == Normalize(raw, permitDirectory, locale)
  {
    var decoded := FromUtf8(raw);
    if decoded.None? { return None; }
    var value := Slashed(decoded.value);
    if IsAbsolute(value, locale) { return None; }
    var directory := value[|value| - 1] == SLASH;
    if directory { value := value[..|value| - 1]; }
    if value == [] || (directory && !permitDirectory) { return None; }
    var safe := CheckSegments(value, SafeIn(locale));
    if !safe { return None; }
    var normalized := ToUtf8(value);
    path := if normalized.None? then None
      else Some(NormalPath(value, locale.lower(value), normalized.value, directory));
  }

  // ---------------------------------------------------------------------------------------------
  // What normal paths are
  // ---------------------------------------------------------------------------------------------

  lemma NormalTextIsNormal(w: Text, permitDirectory: bool, locale: Locale)
    requires NormalizeText(w, permitDirectory, locale).Some? && BACKSLASH !in w
    ensures var n := NormalizeText(w, permitDirectory, locale).value;
      && BACKSLASH !in n.display && ToUtf8(n.display) == Some(n.utf8) && n.display != []
      && n.display[|n.display| - 1] != SLASH
      && NormalizeText(n.display, permitDirectory, locale) == Some(n.(directory := false))
  {
    var n := NormalizeText(w, permitDirectory, locale).value;
    LastSegment(n.display, SafeIn(locale));
  }

  /** A path whose segments are not empty does not end in a slash. */
  lemma {:induction false} LastSegment(w: Text, safe: Text -> bool)
    requires AllSafe(Segments(w), safe) && !safe([])
    ensures w != [] && w[|w| - 1] != SLASH
    decreases |w|
  {
    var i := IndexOf(w, SLASH);
    FirstSegment(w, safe);
    if i < |w| {
      LastSegment(w[i + 1..], safe);
    } else {
      assert w[..i] == w && safe(w);
    }
  }

  lemma {:induction false} SlashedConverts(w: Text)
    requires PointsOf(w).Some?
    ensures PointsOf(Slashed(w)).Some? && |EncodeAll(PointsOf(Slashed(w)).value)| == |EncodeAll(PointsOf(w).value)|
    decreases |w|
  {
    if w != [] {
      var n := if IsHigh(w[0]) then 2 else 1;
      var t := Slashed(w);
      SlashedConverts(w[n..]);
      assert t[n..] == Slashed(w[n..]);
      var p: Point := if n == 2 then PairOf(w[0], w[1]) else w[0];
      var q: Point := if n == 2 then PairOf(t[0], t[1]) else t[0];
      EncodeCons(p, PointsOf(w[n..]).value);
      EncodeCons(q, PointsOf(t[n..]).value);
    }
  }

  lemma {:induction false} PointsOneMore(w: Text)
    ensures PointsOf(w + [SLASH]) == if PointsOf(w).None? then None else Some(PointsOf(w).value + [SLASH as Point])
    decreases |w|
  {
    var t := w + [SLASH];
    if w == [] {
      var none := PointsOf(w).value;
      assert t[1..] == w && none + [SLASH as Point] == [SLASH as Point] + none;
    } else {
      var n := if IsHigh(w[0]) && |w| > 1 && IsLow(w[1]) then 2 else 1;
      assert t[n..] == w[n..] + [SLASH];
      PointsOneMore(w[n..]);
      if PointsOf(w).Some? {
        var p: Point, rest := PointsOf(w).value[0], PointsOf(w[n..]).value;
        assert [p] + (rest + [SLASH as Point]) == ([p] + rest) + [SLASH as Point];
      }
    }
  }

  lemma {:induction false} EncodesOneMore(points: seq<Point>, p: Point)
    ensures EncodeAll(points + [p]) == EncodeAll(points) + EncodePoint(p)
  {
    if points == [] {
      assert points + [p] == [p];
      EncodeCons(p, []);
    } else {
      EncodesOneMore(points[1..], p);
      assert (points + [p])[1..] == points[1..] + [p];
    }
  }

  lemma TrailingSlashIsOneByte(w: Text)
    requires ToUtf8(w).Some?
    ensures ToUtf8(w + [SLASH]) == Some(ToUtf8(w).value + [SLASH as Byte])
  {
    PointsOneMore(w);
    EncodesOneMore(PointsOf(w).value, SLASH);
  }

  /** The normal form of a text is no longer in UTF-8 than the text. */
  lemma NormalTextIsNoLonger(w: Text, permitDirectory: bool, locale: Locale)
    requires NormalizeText(w, permitDirectory, locale).Some?
    ensures ToUtf8(w).Some? && |NormalizeText(w, permitDirectory, locale).value.utf8| <= |ToUtf8(w).value|
  {
    var n := NormalizeText(w, permitDirectory, locale).value;
    if n.directory {
      assert w == n.display + [SLASH];
      TrailingSlashIsOneByte(n.display);
    }
  }

  lemma SlashedBytes(raw: Bytes)
    requires FromUtf8(raw).Some?
    ensures var t := ToUtf8(Slashed(FromUtf8(raw).value)); t.Some? && |t.value| == |raw|
  {
    BytesSurvive(raw);
    SlashedConverts(FromUtf8(raw).value);
  }

  /** The normal form of a path is never longer in UTF-8 than the path. */
  lemma NormalFormIsNoLonger(raw: Bytes, permitDirectory: bool, locale: Locale)
    requires Normalize(raw, permitDirectory, locale).Some?
    ensures |Normalize(raw, permitDirectory, locale).value.utf8| <= |raw|
  {
    SlashedBytes(raw);
    NormalTextIsNoLonger(Slashed(FromUtf8(raw).value), permitDirectory, locale);
  }

  /** Normalising is idempotent: a normal path is its own normal form, and never names a directory again. */
  lemma NormalizeIsIdempotent(raw: Bytes, permitDirectory: bool, locale: Locale)
    requires Normalize(raw, permitDirectory, locale).Some?
    ensures var n := Normalize(raw, permitDirectory, locale).value;
      BACKSLASH !in n.display && Normalize(n.utf8, permitDirectory, locale) == Some(n.(directory := false))
  {
    var w := Slashed(FromUtf8(raw).value);
    var n := NormalizeText(w, permitDirectory, locale).value;
    NormalTextIsNormal(w, permitDirectory, locale);
    NormalFormIsNoLonger(raw, permitDirectory, locale);
    TextSurvives(n.display);
    assert Slashed(n.display) == n.display;
  }

}
