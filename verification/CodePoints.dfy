/** Text as the two runtimes see it, and the comparison of texts by code point
  * (`compareUnicodeCodePoints`). A JavaScript string is a sequence of UTF-16 code units;
  * a surrogate without its partner stands for itself. */
module CodePoints {

  type CodeUnit = u: int | 0 <= u < 0x1_0000

  type JsString = seq<CodeUnit>

  predicate IsHigh(u: CodeUnit) { 0xD800 <= u < 0xDC00 }

  predicate IsLow(u: CodeUnit) { 0xDC00 <= u < 0xE000 }

  /** `Array.from(text, (item) => item.codePointAt(0))`. */
  function Decode(s: JsString): seq<int> {
    if s == [] then []
    else if |s| >= 2 && IsHigh(s[0]) && IsLow(s[1]) then
      [0x1_0000 + (s[0] - 0xD800) * 0x400 + (s[1] - 0xDC00)] + Decode(s[2..])
    else [s[0]] + Decode(s[1..])
  }

  function EncodePoint(p: int): JsString {
    if 0 <= p < 0x1_0000 then [p]
    else if 0x1_0000 <= p < 0x11_0000 then [0xD800 + (p - 0x1_0000) / 0x400, 0xDC00 + (p - 0x1_0000) % 0x400]
    else []
  }

  function Encode(points: seq<int>): JsString {
    if points == [] then [] else EncodePoint(points[0]) + Encode(points[1..])
  }

  /** Decoding loses nothing, not even on strings with lone surrogates. */
  lemma {:induction false} RoundTrip(s: JsString)
    ensures Encode(Decode(s)) == s
  {
    if s == [] {
    } else if |s| >= 2 && IsHigh(s[0]) && IsLow(s[1]) {
      RoundTrip(s[2..]);
      var p := 0x1_0000 + (s[0] as int - 0xD800) * 0x400 + (s[1] as int - 0xDC00);
      assert Decode(s) == [p] + Decode(s[2..]);
      assert Decode(s)[1..] == Decode(s[2..]);
      assert EncodePoint(p) == [s[0], s[1]];
      assert s == [s[0], s[1]] + s[2..];
    } else {
      RoundTrip(s[1..]);
      assert Decode(s)[1..] == Decode(s[1..]);
      assert s == [s[0]] + s[1..];
    }
  }

  /** The difference at the first place where the sequences differ, else the difference in length. */
  function Difference(a: seq<int>, b: seq<int>): int {
    if a == [] || b == [] then |a| - |b|
    else if a[0] != b[0] then a[0] - b[0]
    else Difference(a[1..], b[1..])
  }

  method CompareUnicodeCodePoints(left: JsString, right: JsString) returns (r: int)
    ensures r == Difference(Decode(left), Decode(right))
  {
    var leftPoints, rightPoints := Decode(left), Decode(right);
    var index := 0;
    while index < |leftPoints| && index < |rightPoints|
      invariant 0 <= index <= |leftPoints| && index <= |rightPoints|
      invariant Difference(leftPoints, rightPoints) == Difference(leftPoints[index..], rightPoints[index..])
    {
      if leftPoints[index] != rightPoints[index] {
        return leftPoints[index] - rightPoints[index];
      }
      assert leftPoints[index..][1..] == leftPoints[index + 1..];
      assert rightPoints[index..][1..] == rightPoints[index + 1..];
      index := index + 1;
    }
    return |leftPoints| - |rightPoints|;
  }

  lemma {:induction false} DifferenceZero(a: seq<int>, b: seq<int>)
    ensures Difference(a, b) == 0 <==> a == b
  {
    if a != [] && b != [] && a[0] == b[0] {
      DifferenceZero(a[1..], b[1..]);
      assert a == [a[0]] + a[1..] && b == [b[0]] + b[1..];
    }
  }

  lemma {:induction false} DifferenceReversed(a: seq<int>, b: seq<int>)
    ensures Difference(a, b) == -Difference(b, a)
  {
    if a != [] && b != [] && a[0] == b[0] {
      DifferenceReversed(a[1..], b[1..]);
    }
  }

  lemma {:induction false} DifferenceTransitive(a: seq<int>, b: seq<int>, c: seq<int>)
    requires Difference(a, b) < 0 && Difference(b, c) < 0
    ensures Difference(a, c) < 0
  {
    if a != [] && b != [] && c != [] && a[0] == b[0] == c[0] {
      DifferenceTransitive(a[1..], b[1..], c[1..]);
    }
  }

  predicate PointsLess(a: seq<int>, b: seq<int>) { Difference(a, b) < 0 }

  /** Code-point order of JavaScript strings. */
  predicate Less(a: JsString, b: JsString) { PointsLess(Decode(a), Decode(b)) }

  /** The comparison is a strict total order on strings: it is zero only on equal strings. */
  lemma {:induction false} ComparisonIsTotalOrder(a: JsString, b: JsString, c: JsString)
    ensures Difference(Decode(a), Decode(b)) == 0 <==> a == b
    ensures Less(a, b) || Less(b, a) || a == b
    ensures !(Less(a, b) && Less(b, a)) && !Less(a, a)
    ensures Less(a, b) && Less(b, c) ==> Less(a, c)
  {
    DifferenceZero(Decode(a), Decode(b));
    DifferenceZero(Decode(a), Decode(a));
    DifferenceReversed(Decode(a), Decode(b));
    RoundTrip(a);
    RoundTrip(b);
    if Less(a, b) && Less(b, c) {
      DifferenceTransitive(Decode(a), Decode(b), Decode(c));
    }
  }
}
