/** What a canonical form looks like: which values have one, and in which order the entries of its objects
  * stand; and what the code points of a string are. */
module CanonicalForm {
  import opened Wrappers
  import opened CodePoints
  import opened CanonicalJson

  // ---- Code points ----

  predicate IsPoint(p: int) { 0 <= p <= 0x10FFFF }

  /** A high surrogate is never followed by a low one: together they would be one point. */
  ghost predicate NoPairs(points: seq<int>) {
    forall i | 0 <= i < |points| - 1 :: !(0xD800 <= points[i] <= 0xDBFF && 0xDC00 <= points[i + 1] <= 0xDFFF)
  }

  lemma EncodeFirst(points: seq<int>)
    requires points != [] && IsPoint(points[0])
    ensures Encode(points) == EncodePoint(points[0]) + Encode(points[1..])
    ensures Encode(points) != []
    ensures points[0] < 0x1_0000 ==> Encode(points)[0] == points[0] && Encode(points)[1..] == Encode(points[1..])
    ensures points[0] >= 0x1_0000 ==>
              && |Encode(points)| >= 2 && IsHigh(Encode(points)[0]) && IsLow(Encode(points)[1])
              && points[0]
                 == 0x1_0000 + (Encode(points)[0] as int - 0xD800) * 0x400 + (Encode(points)[1] as int - 0xDC00)
              && Encode(points)[2..] == Encode(points[1..])
  {
    var p := points[0];
    if p >= 0x1_0000 {
      var q := p - 0x1_0000;
      assert q == q / 0x400 * 0x400 + q % 0x400 && 0 <= q / 0x400 < 0x400;
      assert EncodePoint(p) == [0xD800 + q / 0x400, 0xDC00 + q % 0x400];
    } else {
      assert EncodePoint(p) == [p];
    }
  }

  /** The code points of a string are the only points that encode it and leave no pair apart. */
  lemma {:induction false} DecodeIsTheOnlyReading(points: seq<int>)
    requires (forall p | p in points :: IsPoint(p)) && NoPairs(points)
    ensures Decode(Encode(points)) == points
  {
    if points != [] {
      var s, rest := Encode(points), points[1..];
      assert points == [points[0]] + rest;
      EncodeFirst(points);
      DecodeIsTheOnlyReading(rest);
      if points[0] < 0x1_0000 && IsHigh(points[0]) && rest != [] {
        EncodeFirst(rest);
        assert !(0xDC00 <= points[1] <= 0xDFFF);
        assert s[1] == Encode(rest)[0];
      }
    }
  }

  lemma {:induction false} DecodedPoints(s: JsString)
    ensures (forall p | p in Decode(s) :: IsPoint(p)) && NoPairs(Decode(s))
    ensures s != [] ==> Decode(s) != [] && (Decode(s)[0] < 0x1_0000 ==> Decode(s)[0] == s[0])
  {
    if s == [] {
    } else if |s| >= 2 && IsHigh(s[0]) && IsLow(s[1]) {
      DecodedPoints(s[2..]);
    } else {
      DecodedPoints(s[1..]);
      var rest := Decode(s[1..]);
      assert Decode(s) == [s[0]] + rest;
    }
  }

  /** The lesser code point at the first difference decides, and a string comes after its beginnings. */
  ghost predicate PointsBefore(a: seq<int>, b: seq<int>) {
    exists k :: 0 <= k < |b| && k <= |a| && a[..k] == b[..k] && (k == |a| || a[k] < b[k])
  }

  lemma {:induction false} LessAtFirstDifference(a: seq<int>, b: seq<int>)
    requires PointsLess(a, b)
    ensures PointsBefore(a, b)
  {
    if a == [] || a[0] != b[0] {
      assert a[..0] == b[..0];
    } else {
      assert a == [a[0]] + a[1..] && b == [b[0]] + b[1..];
      LessAtFirstDifference(a[1..], b[1..]);
      var k :| 0 <= k < |b[1..]| && k <= |a[1..]| && a[1..][..k] == b[1..][..k]
               && (k == |a[1..]| || a[1..][k] < b[1..][k]);
      assert a[..k + 1] == [a[0]] + a[1..][..k] && b[..k + 1] == [b[0]] + b[1..][..k];
      assert 0 <= k + 1 < |b|;
    }
  }

  // ---- Which values have a canonical form ----

  /** Nothing in the value is foreign to JSON and, where only safe numbers are asked for, every number is a whole
    * number of at most 2^53 - 1 in size. */
  ghost predicate IsWritable(v: Json, safe: bool) {
    match v
    case NotJson => false
    case Number(x) =>
      safe ==> x.Floor as real == x && -9007199254740991.0 <= x <= 9007199254740991.0
    case Array(items) => forall i | 0 <= i < |items| :: IsWritable(items[i], safe)
    case Object(fields) => forall i | 0 <= i < |fields| :: IsWritable(fields[i].value, safe)
    case _ => true
  }

  lemma {:induction false} CanonicalExactlyWhenWritable(v: Json, safe: bool)
    ensures Canonical(v, safe).Some? <==> IsWritable(v, safe)
    decreases v
  {
    match v
    case Array(items) =>
      forall i | 0 <= i < |items| ensures Canonical(items[i], safe).Some? <==> IsWritable(items[i], safe) {
        CanonicalExactlyWhenWritable(items[i], safe);
      }
      var r := CanonicalItems(items, safe);
    case Object(fields) =>
      forall i | 0 <= i < |fields|
        ensures Canonical(fields[i].value, safe).Some? <==> IsWritable(fields[i].value, safe)
      {
        CanonicalExactlyWhenWritable(fields[i].value, safe);
      }
      var r := CanonicalFields(fields, safe);
      if r.None? {
        var f :| f in fields && Canonical(f.value, safe).None?;
        var i :| 0 <= i < |fields| && fields[i] == f;
      }
    case _ =>
  }

  // ---- The order of its entries ----

  /** The keys of every object ascend by code points. */
  ghost predicate KeysAscend(v: Json) {
    match v
    case Array(items) => forall i | 0 <= i < |items| :: KeysAscend(items[i])
    case Object(fields) =>
      && (forall i, j | 0 <= i < j < |fields| :: PointsBefore(Decode(fields[i].key), Decode(fields[j].key)))
      && forall i | 0 <= i < |fields| :: KeysAscend(fields[i].value)
    case _ => true
  }

  lemma {:induction false} CanonicalKeysAscend(v: Json, safe: bool)
    requires Proper(v) && Canonical(v, safe).Some?
    ensures KeysAscend(Canonical(v, safe).value)
    decreases v
  {
    match v
    case Array(items) =>
      forall i | 0 <= i < |items| ensures KeysAscend(Canonical(items[i], safe).value) {
        CanonicalKeysAscend(items[i], safe);
      }
    case Object(fields) =>
      forall f | f in fields && Canonical(f.value, safe).Some? ensures KeysAscend(Canonical(f.value, safe).value) {
        assert Proper(f.value);
        CanonicalKeysAscend(f.value, safe);
      }
      ObjectKeysAscend(fields, safe);
    case _ =>
  }

  lemma ObjectKeysAscend(fields: seq<Field>, safe: bool)
    requires DistinctKeys(fields) && CanonicalFields(fields, safe).Some?
    requires forall f | f in fields && Canonical(f.value, safe).Some? :: KeysAscend(Canonical(f.value, safe).value)
    ensures KeysAscend(Object(SortFields(CanonicalFields(fields, safe).value)))
  {
    var r := CanonicalFields(fields, safe).value;
    var c := SortFields(r);
    CanonicalKeysDistinct(fields, safe);
    SortFieldsFacts(r);
    hide SortFields, PointsBefore;
    forall i, j | 0 <= i < j < |c| ensures PointsBefore(Decode(c[i].key), Decode(c[j].key)) {
      assert KeyLess(c[i], c[j]);
      LessAtFirstDifference(Decode(c[i].key), Decode(c[j].key));
    }
    forall i | 0 <= i < |c| ensures KeysAscend(c[i].value) {
      assert c[i] in r;
      var k :| 0 <= k < |r| && r[k] == c[i];
      assert fields[k] in fields && Canonical(fields[k].value, safe) == Some(r[k].value);
    }
  }
}
