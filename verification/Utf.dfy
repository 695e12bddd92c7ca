/**
 UTF-8 (section 3 of RFC 3629) and UTF-16, with the strict conversions the helper asks Windows for
 (native/windows/roost-win-helper.cpp: toUtf8, fromUtf8) and its own encoder, appendCodePoint.
 */
module Utf {

  import opened Basics

  type Bytes = seq<Byte>
  type Text = seq<Wide>

  predicate IsScalar(p: int) {
    0 <= p < 0xD800 || 0xE000 <= p < 0x11_0000
  }

  /** A Unicode scalar value. */
  type Point = p: int | 0 <= p < 0xD800 || 0xE000 <= p < 0x11_0000

  // ---------------------------------------------------------------------------------------------
  // UTF-8
  // ---------------------------------------------------------------------------------------------

  /** A trailing byte with the low six bits of `n`. */
  function Trail(n: nat): (b: Byte)
    ensures 0x80 <= b < 0xC0 && Bits(b) == n % 0x40
  {
    0x80 + n % 0x40
  }

  /** The six bits a trailing byte carries. */
  function Bits(b: Byte): int {
    b - 0x80
  }

  /** The bytes of one scalar value. */
  function EncodePoint(p: Point): (b: Bytes)
    ensures 1 <= |b| <= 4
  {
    var n: nat := p;
    if n <= 0x7f then [n as Byte]
    else if n <= 0x7ff then [(0xC0 + n / 0x40) as Byte, Trail(n)]
    else if n <= 0xffff then [(0xE0 + n / 0x1000) as Byte, Trail(n / 0x40), Trail(n)]
    else [(0xF0 + n / 0x4_0000) as Byte, Trail(n / 0x1000), Trail(n / 0x40), Trail(n)]
  }

  predicate IsTrail(b: Bytes, i: nat) {
    i < |b| && 0x80 <= b[i] < 0xC0
  }

  /** The scalar value at the start of `b`: no overlong form, no surrogate, nothing past 0x10ffff. */
  function DecodePoint(b: Bytes): (p: Option<Point>)
    requires b != []
  {
    var lead: int := b[0];
    if lead < 0x80 then Some(lead)
    else if 0xC2 <= lead < 0xE0 && IsTrail(b, 1) then Some((lead - 0xC0) * 0x40 + Bits(b[1]))
    else if 0xE0 <= lead < 0xF0 && IsTrail(b, 1) && IsTrail(b, 2) then
      var p := (lead - 0xE0) * 0x1000 + Bits(b[1]) * 0x40 + Bits(b[2]);
      if p >= 0x800 && IsScalar(p) then Some(p) else None
    else if 0xF0 <= lead < 0xF5 && IsTrail(b, 1) && IsTrail(b, 2) && IsTrail(b, 3) then
      var p := (lead - 0xF0) * 0x4_0000 + Bits(b[1]) * 0x1000 + Bits(b[2]) * 0x40 + Bits(b[3]);
      if p >= 0x1_0000 && IsScalar(p) then Some(p) else None
    else None
  }

  function EncodeAll(points: seq<Point>): Bytes {
    if points == [] then [] else EncodePoint(points[0]) + EncodeAll(points[1..])
  }

  function DecodeAll(b: Bytes): (points: Option<seq<Point>>) {
    if b == [] then Some([])
    else if DecodePoint(b).None? then None
    else
      var p := DecodePoint(b).value;
      var n := |EncodePoint(p)|;
      if n > |b| then None
      else
        var rest := DecodeAll(b[n..]);
        if rest.None? then None else Some([p] + rest.value)
  }

  lemma SixBits(q: nat, r: nat)
    requires r < 0x40
    ensures (q * 0x40 + r) / 0x40 == q && (q * 0x40 + r) % 0x40 == r
  {
  }

  lemma Shifts(n: nat)
    ensures n / 0x1000 == n / 0x40 / 0x40 && n / 0x4_0000 == n / 0x40 / 0x40 / 0x40
  {
    var q := n / 0x40 / 0x40;
    assert q * 0x1000 <= n < q * 0x1000 + 0x1000;
    var t := q / 0x40;
    assert t * 0x4_0000 <= n < t * 0x4_0000 + 0x4_0000;
  }

  /** Six-bit groups: splitting a number and joining it again. */
  lemma GroupsJoin(n: nat)
    ensures n == n / 0x40 * 0x40 + n % 0x40
    ensures n == n / 0x1000 * 0x1000 + n / 0x40 % 0x40 * 0x40 + n % 0x40
    ensures n == n / 0x4_0000 * 0x4_0000 + n / 0x1000 % 0x40 * 0x1000 + n / 0x40 % 0x40 * 0x40 + n % 0x40
  {
    Shifts(n);
  }

  lemma GroupsSplit(a: nat, b: nat, c: nat, d: nat)
    requires b < 0x40 && c < 0x40 && d < 0x40
    ensures var n := a * 0x4_0000 + b * 0x1000 + c * 0x40 + d;
      n / 0x4_0000 == a && n / 0x1000 % 0x40 == b && n / 0x40 % 0x40 == c && n % 0x40 == d && n / 0x1000 == a * 0x40 + b
  {
    var n := a * 0x4_0000 + b * 0x1000 + c * 0x40 + d;
    var high := a * 0x40 + b;
    var middle := high * 0x40 + c;
    assert n == middle * 0x40 + d;
    SixBits(middle, d);
    SixBits(high, c);
    SixBits(a, b);
    Shifts(n);
  }

  lemma PointReadsBack(p: Point, rest: Bytes)
    ensures DecodePoint(EncodePoint(p) + rest) == Some(p)
  {
    GroupsJoin(p);
    var e := EncodePoint(p);
    var b := e + rest;
    assert forall i :: 0 <= i < |e| ==> b[i] == e[i];
  }

  lemma ShortPointIsThere(b: Bytes)
    requires b != [] && b[0] < 0xE0 && DecodePoint(b).Some?
    ensures var e := EncodePoint(DecodePoint(b).value); |e| <= |b| && b[..|e|] == e
  {
    if b[0] >= 0x80 { GroupsSplit(0, 0, b[0] - 0xC0, Bits(b[1])); }
  }

  lemma LongPointIsThere(b: Bytes)
    requires b != [] && b[0] >= 0xE0 && DecodePoint(b).Some?
    ensures var e := EncodePoint(DecodePoint(b).value); |e| <= |b| && b[..|e|] == e
  {
    if b[0] < 0xF0 { ThreeBytesAreThere(b); } else { FourBytesAreThere(b); }
  }

  lemma ThreeBytesAreThere(b: Bytes)
    requires b != [] && 0xE0 <= b[0] < 0xF0 && DecodePoint(b).Some?
    ensures var e := EncodePoint(DecodePoint(b).value); |e| <= |b| && b[..|e|] == e
  {
    GroupsSplit(0, b[0] - 0xE0, Bits(b[1]), Bits(b[2]));
    assert EncodePoint(DecodePoint(b).value) == [b[0], b[1], b[2]];
  }

  lemma FourBytesAreThere(b: Bytes)
    requires b != [] && b[0] >= 0xF0 && DecodePoint(b).Some?
    ensures var e := EncodePoint(DecodePoint(b).value); |e| <= |b| && b[..|e|] == e
  {
    GroupsSplit(b[0] - 0xF0, Bits(b[1]), Bits(b[2]), Bits(b[3]));
    assert EncodePoint(DecodePoint(b).value) == [b[0], b[1], b[2], b[3]];
  }

  lemma DecodedPointIsThere(b: Bytes)
    requires b != [] && DecodePoint(b).Some?
    ensures var e := EncodePoint(DecodePoint(b).value); |e| <= |b| && b[..|e|] == e
  {
    if b[0] < 0xE0 { ShortPointIsThere(b); } else { LongPointIsThere(b); }
  }

  lemma EncodeCons(p: Point, points: seq<Point>)
    ensures EncodeAll([p] + points) == EncodePoint(p) + EncodeAll(points)
  {
    assert ([p] + points)[1..] == points;
  }

  lemma DecodeCons(p: Point, b: Bytes)
    ensures DecodeAll(EncodePoint(p) + b) == if DecodeAll(b).None? then None else Some([p] + DecodeAll(b).value)
  {
    var first := EncodePoint(p);
    PointReadsBack(p, b);
    assert (first + b)[|first|..] == b;
  }

  lemma {:induction false} DecodesBack(points: seq<Point>)
    ensures DecodeAll(EncodeAll(points)) == Some(points)
  {
    if points != [] {
      DecodesBack(points[1..]);
      DecodeCons(points[0], EncodeAll(points[1..]));
      assert points == [points[0]] + points[1..];
    }
  }

  lemma DecodeUncons(b: Bytes) returns (p: Point, rest: Bytes)
    requires b != [] && DecodeAll(b).Some?
    ensures b == EncodePoint(p) + rest && DecodeAll(rest).Some? && DecodeAll(b).value == [p] + DecodeAll(rest).value
  {
    p := DecodePoint(b).value;
    DecodedPointIsThere(b);
    rest := b[|EncodePoint(p)|..];
  }

  lemma {:induction false} EncodesBack(b: Bytes)
    requires DecodeAll(b).Some?
    ensures EncodeAll(DecodeAll(b).value) == b
    decreases |b|
  {
    if b != [] {
      var p, rest := DecodeUncons(b);
      EncodesBack(rest);
      EncodeCons(p, DecodeAll(rest).value);
    }
  }

  // ---------------------------------------------------------------------------------------------
  // UTF-16
  // ---------------------------------------------------------------------------------------------

  predicate IsHigh(c: int) { 0xD800 <= c < 0xDC00 }

  predicate IsLow(c: int) { 0xDC00 <= c < 0xE000 }

  function PairOf(high: int, low: int): (p: Point)
    requires IsHigh(high) && IsLow(low)
    ensures 0x1_0000 <= p
  {
    0x1_0000 + (high - 0xD800) * 0x400 + (low - 0xDC00)
  }

  function UnitsOf(p: Point): (w: Text)
    ensures 1 <= |w| <= 2
  {
    if p < 0x1_0000 then [p as Wide]
    else
      var n: nat := p - 0x1_0000;
      [(0xD800 + n / 0x400) as Wide, (0xDC00 + n % 0x400) as Wide]
  }

  function AllUnits(points: seq<Point>): Text {
    if points == [] then [] else UnitsOf(points[0]) + AllUnits(points[1..])
  }

  /** The scalar values of a text without lone surrogates. */
  function PointsOf(w: Text): Option<seq<Point>> {
    if w == [] then Some([])
    else if IsHigh(w[0]) && |w| > 1 && IsLow(w[1]) then
      var rest := PointsOf(w[2..]);
      if rest.None? then None else Some([PairOf(w[0], w[1])] + rest.value)
    else if IsHigh(w[0]) || IsLow(w[0]) then None
    else
      var rest := PointsOf(w[1..]);
      if rest.None? then None else Some([w[0]] + rest.value)
  }

  lemma UnitsSplit(p: Point)
    requires p >= 0x1_0000
    ensures IsHigh(UnitsOf(p)[0]) && IsLow(UnitsOf(p)[1]) && PairOf(UnitsOf(p)[0], UnitsOf(p)[1]) == p
  {
  }

  lemma UnitsJoin(high: Wide, low: Wide)
    requires IsHigh(high) && IsLow(low)
    ensures UnitsOf(PairOf(high, low)) == [high, low]
  {
  }

  lemma PointsCons(p: Point, w: Text)
    ensures PointsOf(UnitsOf(p) + w) == if PointsOf(w).None? then None else Some([p] + PointsOf(w).value)
  {
    var first := UnitsOf(p);
    assert (first + w)[|first|..] == w;
    if p >= 0x1_0000 { UnitsSplit(p); }
  }

  lemma {:induction false} PointsReadBack(points: seq<Point>)
    ensures PointsOf(AllUnits(points)) == Some(points)
  {
    if points != [] {
      PointsReadBack(points[1..]);
      PointsCons(points[0], AllUnits(points[1..]));
      assert points == [points[0]] + points[1..];
    }
  }

  lemma {:induction false} UnitsReadBack(w: Text)
    requires PointsOf(w).Some?
    ensures AllUnits(PointsOf(w).value) == w
  {
    if w != [] {
      var n := if IsHigh(w[0]) then 2 else 1;
      UnitsReadBack(w[n..]);
      var points := PointsOf(w).value;
      assert points[1..] == PointsOf(w[n..]).value;
      if n == 2 { UnitsJoin(w[0], w[1]); }
      assert w == w[..n] + w[n..];
    }
  }

  // ---------------------------------------------------------------------------------------------
  // The two conversions
  // ---------------------------------------------------------------------------------------------

  const INT_MAX := 0x7fff_ffff

  function ToUtf8(w: Text): Option<Bytes> {
    var points := PointsOf(w);
    if points.None? then None else Some(EncodeAll(points.value))
  }

  function FromUtf8(b: Bytes): Option<Text> {
    if |b| > INT_MAX then None
    else
      var points := DecodeAll(b);
      if points.None? then None else Some(AllUnits(points.value))
  }

  /** A text that converts to UTF-8 within the size limit converts back to itself. */
  lemma TextSurvives(w: Text)
    requires ToUtf8(w).Some? && |ToUtf8(w).value| <= INT_MAX
    ensures FromUtf8(ToUtf8(w).value) == Some(w)
  {
    DecodesBack(PointsOf(w).value);
    UnitsReadBack(w);
  }

  /** Bytes that convert to UTF-16 convert back to themselves. */
  lemma BytesSurvive(b: Bytes)
    requires FromUtf8(b).Some?
    ensures ToUtf8(FromUtf8(b).value) == Some(b)
  {
    PointsReadBack(DecodeAll(b).value);
    EncodesBack(b);
  }

}
