/** The canonical form of a JSON value, from which request digests are taken
  * (`canonicalRunDispatchValue`, `canonicalGatewayValue`). An object is its list of entries. */
module CanonicalJson {
  import opened Wrappers
  import opened Sets
  import opened Sorting
  import opened CodePoints

  datatype Json =
    | Null
    | Bool(flag: bool)
    | Number(value: real)
    | String(text: JsString)
    | Array(items: seq<Json>)
    | Object(fields: seq<Field>)
    | NotJson  // undefined, functions, symbols, bigints

  datatype Field = Field(key: JsString, value: Json)

  const MAX_SAFE_INTEGER: int := 0x1F_FFFF_FFFF_FFFF

  predicate IsSafeInteger(x: real) {
    x == x.Floor as real && -MAX_SAFE_INTEGER <= x.Floor <= MAX_SAFE_INTEGER
  }

  predicate KeyLess(f: Field, g: Field) { Less(f.key, g.key) }

  predicate KeyAtMost(f: Field, g: Field) { !Less(g.key, f.key) }

  function SortFields(fields: seq<Field>): seq<Field> {
    Sort(fields, KeyAtMost)
  }

  /** `safeNumbersOnly` is what the dispatch variant asks for; the gateway variant takes any number.
    * Entries are ordered by key alone, so ordering them after their values are canonical gives
    * what ordering them before would. */
  function Canonical(v: Json, safeNumbersOnly: bool): Option<Json>
    decreases v, 1
  {
    match v
    case Array(items) =>
      var r := CanonicalItems(items, safeNumbersOnly);
      if r.None? then None else Some(Array(r.value))
    case Object(fields) =>
      var r := CanonicalFields(fields, safeNumbersOnly);
      if r.None? then None else Some(Object(SortFields(r.value)))
    case Number(x) => if safeNumbersOnly && !IsSafeInteger(x) then None else Some(v)
    case NotJson => None
    case _ => Some(v)
  }

  function CanonicalItems(items: seq<Json>, safeNumbersOnly: bool): (r: Option<seq<Json>>)
    ensures r.Some? ==> |r.value| == |items|
    ensures r.Some? ==> forall i | 0 <= i < |items| :: Canonical(items[i], safeNumbersOnly) == Some(r.value[i])
    ensures r.None? ==> exists i :: 0 <= i < |items| && Canonical(items[i], safeNumbersOnly).None?
    decreases items, 0
  {
    if items == [] then Some([])
    else
      var head := Canonical(items[0], safeNumbersOnly);
      var tail := CanonicalItems(items[1..], safeNumbersOnly);
      if head.None? || tail.None? then None else Some([head.value] + tail.value)
  }

  function CanonicalFields(fields: seq<Field>, safeNumbersOnly: bool): (r: Option<seq<Field>>)
    ensures r.Some? ==> |r.value| == |fields|
    ensures r.Some? ==> forall i | 0 <= i < |fields| ::
      r.value[i].key == fields[i].key && Canonical(fields[i].value, safeNumbersOnly) == Some(r.value[i].value)
    ensures r.None? ==> exists f :: f in fields && Canonical(f.value, safeNumbersOnly).None?
    decreases fields, 0
  {
    if fields == [] then Some([])
    else
      var head := Canonical(fields[0].value, safeNumbersOnly);
      var tail := CanonicalFields(fields[1..], safeNumbersOnly);
      assert fields[0] in fields;
      if head.None? || tail.None? then None else Some([Field(fields[0].key, head.value)] + tail.value)
  }

  // ---- Values and when they are the same up to the order of object entries ----

  ghost predicate DistinctKeys(fields: seq<Field>) {
    forall i, j | 0 <= i < j < |fields| :: fields[i].key != fields[j].key
  }

  /** A JavaScript object has one entry per key, at every depth. */
  ghost predicate Proper(v: Json)
    decreases v
  {
    match v
    case Array(items) => forall i | 0 <= i < |items| :: Proper(items[i])
    case Object(fields) => DistinctKeys(fields) && forall f | f in fields :: Proper(f.value)
    case _ => true
  }

  /** Equal except for the order of object entries, at every depth. */
  ghost predicate Same(a: Json, b: Json)
    decreases a
  {
    match a
    case Array(items) =>
      b.Array? && |b.items| == |items| && forall i | 0 <= i < |items| :: Same(items[i], b.items[i])
    case Object(fields) =>
      && b.Object? && |b.fields| == |fields|
      && forall f | f in fields :: exists g :: g in b.fields && g.key == f.key && Same(f.value, g.value)
    case _ => a == b
  }

  // ---- Objects as sets of entries ----

  lemma KeyOrders()
    ensures TotalPreorder(KeyAtMost) && StrictOrder(KeyLess)
  {
    forall f, g, h: Field
      ensures KeyAtMost(f, g) || KeyAtMost(g, f)
      ensures KeyAtMost(f, g) && KeyAtMost(g, h) ==> KeyAtMost(f, h)
      ensures !KeyLess(f, f)
      ensures KeyLess(f, g) && KeyLess(g, h) ==> KeyLess(f, h)
    {
      ComparisonIsTotalOrder(f.key, g.key, h.key);
      ComparisonIsTotalOrder(h.key, g.key, f.key);
      ComparisonIsTotalOrder(h.key, f.key, g.key);
    }
  }

  lemma InsertMembers(f: Field, fields: seq<Field>, g: Field)
    ensures g in Insert(f, fields, KeyAtMost) <==> g == f || g in fields
  {
    assert g in Insert(f, fields, KeyAtMost) <==> g in multiset(Insert(f, fields, KeyAtMost));
    assert g in fields <==> g in multiset(fields);
  }

  lemma ConsDistinct(f: Field, fields: seq<Field>)
    requires DistinctKeys(fields) && forall g | g in fields :: g.key != f.key
    ensures DistinctKeys([f] + fields)
  {
  }

  lemma {:induction false} InsertDistinct(f: Field, fields: seq<Field>)
    requires DistinctKeys(fields) && forall g | g in fields :: g.key != f.key
    ensures DistinctKeys(Insert(f, fields, KeyAtMost))
  {
    if fields == [] || KeyAtMost(f, fields[0]) {
      ConsDistinct(f, fields);
    } else {
      var rest := Insert(f, fields[1..], KeyAtMost);
      InsertDistinct(f, fields[1..]);
      forall g | g in rest ensures g.key != fields[0].key {
        InsertMembers(f, fields[1..], g);
        if g in fields[1..] {
          var k :| 0 <= k < |fields[1..]| && fields[1..][k] == g;
          assert fields[k + 1] == g;
        } else {
          assert fields[0] in fields;
        }
      }
      ConsDistinct(fields[0], rest);
    }
  }

  /** Sorting keeps the entries and puts them in strict key order. */
  lemma {:induction false} SortFieldsFacts(fields: seq<Field>)
    requires DistinctKeys(fields)
    ensures |SortFields(fields)| == |fields|
    ensures forall f :: f in SortFields(fields) <==> f in fields
    ensures DistinctKeys(SortFields(fields)) && StrictlySortedBy(SortFields(fields), KeyLess)
  {
    SortDistinct(fields);
    KeyOrders();
    SortSorted(fields, KeyAtMost);
    var r := SortFields(fields);
    forall i, j | 0 <= i < j < |r| ensures KeyLess(r[i], r[j]) {
      assert KeyAtMost(r[i], r[j]);
      ComparisonIsTotalOrder(r[i].key, r[j].key, r[i].key);
    }
  }

  lemma {:induction false} SortDistinct(fields: seq<Field>)
    requires DistinctKeys(fields)
    ensures DistinctKeys(SortFields(fields))
    ensures forall f :: f in SortFields(fields) <==> f in fields
  {
    if fields != [] {
      SortDistinct(fields[1..]);
      var rest := SortFields(fields[1..]);
      forall g | g in rest ensures g.key != fields[0].key {
        assert g in fields[1..];
        var k :| 0 <= k < |fields[1..]| && fields[1..][k] == g;
        assert fields[k + 1] == g;
      }
      InsertDistinct(fields[0], rest);
      assert fields == [fields[0]] + fields[1..];
      forall f ensures f in SortFields(fields) <==> f in fields {
        InsertMembers(fields[0], rest, f);
      }
    }
  }

  ghost function Keys(fields: seq<Field>): set<JsString> {
    set f | f in fields :: f.key
  }

  lemma {:induction false} KeyCount(fields: seq<Field>)
    requires DistinctKeys(fields)
    ensures |Keys(fields)| == |fields|
  {
    if fields != [] {
      KeyCount(fields[1..]);
      assert fields == [fields[0]] + fields[1..];
      assert Keys(fields) == {fields[0].key} + Keys(fields[1..]);
      assert fields[0].key !in Keys(fields[1..]);
    }
  }

  ghost predicate Matches(a: seq<Field>, b: seq<Field>) {
    forall f | f in a :: exists g :: g in b && g.key == f.key && Same(f.value, g.value)
  }

  lemma OneEntryPerKey(fields: seq<Field>, f: Field, g: Field)
    requires DistinctKeys(fields) && f in fields && g in fields && f.key == g.key
    ensures f == g
  {
  }

  /** With one entry per key, matching all entries of one object matches those of the other. */
  lemma MatchBack(a: seq<Field>, b: seq<Field>, g: Field) returns (f: Field)
    requires DistinctKeys(a) && DistinctKeys(b) && |a| == |b| && g in b && Matches(a, b)
    ensures f in a && f.key == g.key && Same(f.value, g.value)
  {
    KeyCount(a);
    KeyCount(b);
    assert Keys(a) <= Keys(b);
    SubsetOfEqualSize(Keys(a), Keys(b));
    assert g.key in Keys(b);
    f :| f in a && f.key == g.key;
    var h :| h in b && h.key == f.key && Same(f.value, h.value);
    OneEntryPerKey(b, g, h);
  }

  // ---- Equal canonical forms are equality up to entry order ----

  /** The entry in the canonical object that stands for `f`. */
  ghost function Image(f: Field, safe: bool): Option<Field> {
    if Canonical(f.value, safe).None? then None else Some(Field(f.key, Canonical(f.value, safe).value))
  }

  /** Every entry of `a` has the image of some entry of `b`. */
  ghost predicate Covers(a: seq<Field>, b: seq<Field>, safe: bool) {
    forall f | f in a :: exists g :: g in b && Image(g, safe) == Image(f, safe)
  }

  lemma ImagesOf(fields: seq<Field>, safe: bool)
    requires CanonicalFields(fields, safe).Some?
    ensures forall f | f in fields ::
              Image(f, safe).Some? && Image(f, safe).value in CanonicalFields(fields, safe).value
    ensures forall r | r in CanonicalFields(fields, safe).value :: exists f :: f in fields && Image(f, safe) == Some(r)
  {
    var rs := CanonicalFields(fields, safe).value;
    forall f | f in fields ensures Image(f, safe).Some? && Image(f, safe).value in rs {
      var i :| 0 <= i < |fields| && fields[i] == f;
      assert rs[i] == Image(f, safe).value;
    }
    forall r | r in rs ensures exists f :: f in fields && Image(f, safe) == Some(r) {
      var i :| 0 <= i < |rs| && rs[i] == r;
      assert fields[i] in fields && Image(fields[i], safe) == Some(r);
    }
  }

  lemma CoveredCanonical(a: seq<Field>, b: seq<Field>, safe: bool)
    requires Covers(a, b, safe) && CanonicalFields(b, safe).Some?
    ensures CanonicalFields(a, safe).Some?
    ensures forall r | r in CanonicalFields(a, safe).value :: r in CanonicalFields(b, safe).value
  {
    ImagesOf(b, safe);
    assert forall f | f in a :: Image(f, safe).Some?;
    ImagesOf(a, safe);
  }

  lemma SameMembersSortAlike(r: seq<Field>, s: seq<Field>)
    requires DistinctKeys(r) && DistinctKeys(s)
    requires forall f | f in r :: f in s
    requires forall f | f in s :: f in r
    ensures SortFields(r) == SortFields(s)
  {
    KeyOrders();
    SortFieldsFacts(r);
    SortFieldsFacts(s);
    StrictlySortedUnique(SortFields(r), SortFields(s), KeyLess);
  }

  lemma CanonicalKeysDistinct(fields: seq<Field>, safe: bool)
    requires DistinctKeys(fields) && CanonicalFields(fields, safe).Some?
    ensures DistinctKeys(CanonicalFields(fields, safe).value)
  {
  }

  lemma CoveringObjectsEqual(a: seq<Field>, b: seq<Field>, safe: bool)
    requires DistinctKeys(a) && DistinctKeys(b)
    requires Covers(a, b, safe) && Covers(b, a, safe)
    ensures CanonicalFields(a, safe).Some? <==> CanonicalFields(b, safe).Some?
    ensures CanonicalFields(a, safe).Some? ==>
              SortFields(CanonicalFields(a, safe).value) == SortFields(CanonicalFields(b, safe).value)
  {
    hide Covers, Image, DistinctKeys, SortFields, Canonical;
    if CanonicalFields(b, safe).Some? { CoveredCanonical(a, b, safe); }
    if CanonicalFields(a, safe).Some? {
      CoveredCanonical(b, a, safe);
      CanonicalKeysDistinct(a, safe);
      CanonicalKeysDistinct(b, safe);
      SameMembersSortAlike(CanonicalFields(a, safe).value, CanonicalFields(b, safe).value);
    }
  }

  lemma EqualObjectsCover(a: seq<Field>, b: seq<Field>, safe: bool)
    requires DistinctKeys(a) && DistinctKeys(b)
    requires CanonicalFields(a, safe).Some? && CanonicalFields(b, safe).Some?
    requires SortFields(CanonicalFields(a, safe).value) == SortFields(CanonicalFields(b, safe).value)
    ensures |a| == |b| && Covers(a, b, safe)
  {
    SortFieldsFacts(CanonicalFields(a, safe).value);
    SortFieldsFacts(CanonicalFields(b, safe).value);
    ImagesOf(a, safe);
    ImagesOf(b, safe);
    forall f | f in a ensures exists g :: g in b && Image(g, safe) == Image(f, safe) {
      assert Image(f, safe).value in CanonicalFields(b, safe).value;
    }
  }

  /** Same values have the same canonical form, or neither has one. */
  lemma {:induction false} SameGivesEqual(a: Json, b: Json, safe: bool)
    requires Proper(a) && Proper(b) && Same(a, b)
    ensures Canonical(a, safe) == Canonical(b, safe)
    decreases a
  {
    match a
    case Array(items) =>
      forall i | 0 <= i < |items| ensures Canonical(items[i], safe) == Canonical(b.items[i], safe) {
        SameGivesEqual(items[i], b.items[i], safe);
      }
      EqualItems(items, b.items, safe);
    case Object(fields) =>
      forall f, g | f in fields && g in b.fields && f.key == g.key && Same(f.value, g.value)
        ensures Image(f, safe) == Image(g, safe)
      {
        assert Proper(f.value) && Proper(g.value);
        SameGivesEqual(f.value, g.value, safe);
      }
      MatchingObjectsCover(fields, b.fields, safe);
      CoveringObjectsEqual(fields, b.fields, safe);
    case _ =>
  }

  ghost predicate MatchedShareImages(a: seq<Field>, b: seq<Field>, safe: bool) {
    forall f, g | f in a && g in b && f.key == g.key && Same(f.value, g.value) :: Image(f, safe) == Image(g, safe)
  }

  lemma SharedImage(a: seq<Field>, b: seq<Field>, f: Field, g: Field, safe: bool)
    requires MatchedShareImages(a, b, safe) && f in a && g in b && f.key == g.key && Same(f.value, g.value)
    ensures Image(f, safe) == Image(g, safe)
  {
  }

  lemma MatchingObjectsCover(a: seq<Field>, b: seq<Field>, safe: bool)
    requires DistinctKeys(a) && DistinctKeys(b) && |a| == |b| && Matches(a, b) && MatchedShareImages(a, b, safe)
    ensures Covers(a, b, safe) && Covers(b, a, safe)
  {
    hide Image, Same, DistinctKeys, MatchedShareImages;
    forall g | g in b ensures exists f :: f in a && Image(f, safe) == Image(g, safe) {
      var f := MatchBack(a, b, g);
      SharedImage(a, b, f, g, safe);
    }
    forall f | f in a ensures exists g :: g in b && Image(g, safe) == Image(f, safe) {
      var g :| g in b && g.key == f.key && Same(f.value, g.value);
      SharedImage(a, b, f, g, safe);
    }
  }

  lemma EqualItems(xs: seq<Json>, ys: seq<Json>, safe: bool)
    requires |xs| == |ys| && forall i | 0 <= i < |xs| :: Canonical(xs[i], safe) == Canonical(ys[i], safe)
    ensures CanonicalItems(xs, safe) == CanonicalItems(ys, safe)
  {
    var r, s := CanonicalItems(xs, safe), CanonicalItems(ys, safe);
    if r.Some? && s.Some? {
      assert r.value == s.value;
    }
  }

  /** Values with one canonical form differ in entry order at most. */
  lemma {:induction false} EqualGivesSame(a: Json, b: Json, safe: bool)
    requires Proper(a) && Proper(b)
    requires Canonical(a, safe).Some? && Canonical(a, safe) == Canonical(b, safe)
    ensures Same(a, b)
    decreases a
  {
    match a
    case Array(items) =>
      forall i | 0 <= i < |items| ensures Same(items[i], b.items[i]) {
        EqualGivesSame(items[i], b.items[i], safe);
      }
    case Object(fields) =>
      EqualObjectsCover(fields, b.fields, safe);
      forall f | f in fields ensures exists g :: g in b.fields && g.key == f.key && Same(f.value, g.value) {
        ImagesOf(fields, safe);
        var g :| g in b.fields && Image(g, safe) == Image(f, safe);
        assert Proper(f.value) && Proper(g.value);
        EqualGivesSame(f.value, g.value, safe);
      }
    case _ =>
  }

  /** Two values have one canonical form exactly when they differ in entry order at most. */
  lemma {:induction false} CanonicalExactlyUpToOrder(a: Json, b: Json, safe: bool)
    requires Proper(a) && Proper(b) && Canonical(a, safe).Some?
    ensures Canonical(a, safe) == Canonical(b, safe) <==> Same(a, b)
  {
    if Same(a, b) { SameGivesEqual(a, b, safe); }
    if Canonical(a, safe) == Canonical(b, safe) { EqualGivesSame(a, b, safe); }
  }

  /** The canonical form is the value again, up to entry order. */
  lemma {:induction false} CanonicalIsSame(v: Json, safe: bool)
    requires Proper(v) && Canonical(v, safe).Some?
    ensures Proper(Canonical(v, safe).value) && Same(v, Canonical(v, safe).value)
    decreases v
  {
    match v
    case Array(items) =>
      forall i | 0 <= i < |items|
        ensures Proper(Canonical(items[i], safe).value) && Same(items[i], Canonical(items[i], safe).value)
      {
        CanonicalIsSame(items[i], safe);
      }
    case Object(fields) =>
      forall f | f in fields && Canonical(f.value, safe).Some?
        ensures Proper(Canonical(f.value, safe).value) && Same(f.value, Canonical(f.value, safe).value)
      {
        assert Proper(f.value);
        CanonicalIsSame(f.value, safe);
      }
      CanonicalObjectIsSame(fields, safe);
    case _ =>
  }

  lemma CanonicalObjectIsSame(fields: seq<Field>, safe: bool)
    requires DistinctKeys(fields) && CanonicalFields(fields, safe).Some?
    requires forall f | f in fields && Canonical(f.value, safe).Some? ::
               Proper(Canonical(f.value, safe).value) && Same(f.value, Canonical(f.value, safe).value)
    ensures Proper(Object(SortFields(CanonicalFields(fields, safe).value)))
    ensures Same(Object(fields), Object(SortFields(CanonicalFields(fields, safe).value)))
  {
    var r := CanonicalFields(fields, safe).value;
    var c := SortFields(r);
    SortFieldsFacts(r);
    ImagesOf(fields, safe);
    forall f | f in fields ensures exists g :: g in c && g.key == f.key && Same(f.value, g.value) {
      assert Image(f, safe).value in c;
    }
    forall g | g in c ensures Proper(g.value) {
      assert g in r;
    }
  }

  /** Taking the canonical form twice is taking it once. */
  lemma {:induction false} CanonicalIdempotent(v: Json, safe: bool)
    requires Proper(v) && Canonical(v, safe).Some?
    ensures Canonical(Canonical(v, safe).value, safe) == Canonical(v, safe)
  {
    CanonicalIsSame(v, safe);
    SameGivesEqual(v, Canonical(v, safe).value, safe);
  }
}
