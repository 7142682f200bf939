/** Which groups of the two sources are taken for one another: those whose normalized name
  * identifies one value on either side (`_normalized_group_index`, `candidate_crosswalk`). */
module CrosswalkMapping {
  import opened Sets
  import opened Totals

  /** A row after its fields were read: the group without surrounding white space, the numeric metrics. */
  datatype Row = Row(time: int, group: string, metrics: map<string, real>)

  /** The rules of normalization of one side, applied one after the other. */
  type Normalization = string -> string

  type GroupIndex = map<string, set<string>>

  function GroupsNamed(rows: seq<Row>, normalize: Normalization, name: string): set<string> {
    set row | row in rows && normalize(row.group) == name :: row.group
  }

  ghost predicate Indexes(index: GroupIndex, rows: seq<Row>, normalize: Normalization) {
    && (forall name :: name in index <==> name != "" && GroupsNamed(rows, normalize, name) != {})
    && (forall name | name in index :: index[name] == GroupsNamed(rows, normalize, name))
  }

  function Named(index: GroupIndex, name: string): set<string> { if name in index then index[name] else {} }

  lemma GroupsNamedStep(rows: seq<Row>, row: Row, normalize: Normalization, name: string)
    ensures GroupsNamed(rows + [row], normalize, name)
         == GroupsNamed(rows, normalize, name) + if normalize(row.group) == name then {row.group} else {}
  {
  }

  lemma IndexStep(index: GroupIndex, rows: seq<Row>, row: Row, normalize: Normalization)
    requires Indexes(index, rows, normalize)
    ensures var name := normalize(row.group);
            Indexes(if name == "" then index else index[name := Named(index, name) + {row.group}],
                    rows + [row], normalize)
  {
    forall name ensures GroupsNamed(rows + [row], normalize, name)
                     == GroupsNamed(rows, normalize, name) + if normalize(row.group) == name then {row.group} else {} {
      GroupsNamedStep(rows, row, normalize, name);
    }
    hide GroupsNamed;
  }

  method NormalizedGroupIndex(rows: seq<Row>, normalize: Normalization) returns (index: GroupIndex, emptyRows: nat)
    ensures Indexes(index, rows, normalize)
    ensures emptyRows == |Filter(rows, (row: Row) => normalize(row.group) == "")|
  {
    ghost var nameless := (row: Row) => normalize(row.group) == "";
    index, emptyRows := map[], 0;
    for i := 0 to |rows|
      invariant Indexes(index, rows[..i], normalize)
      invariant emptyRows == |Filter(rows[..i], nameless)|
    {
      var row := rows[i];
      assert rows[..i + 1] == rows[..i] + [row];
      IndexStep(index, rows[..i], row, normalize);
      FilterSnoc(rows[..i], row, nameless);
      var name := normalize(row.group);
      if name == "" {
        emptyRows := emptyRows + 1;
        continue;
      }
      index := index[name := Named(index, name) + {row.group}];
    }
    assert rows[..|rows|] == rows;
    SameFilter(rows, nameless, (row: Row) => normalize(row.group) == "");
  }

  // ---- Accepted pairs ----

  datatype Pair = Pair(left: string, right: string)

  lemma OneMember(s: set<string>, x: string, y: string)
    requires |s| == 1 && x in s && y in s
    ensures x == y
  {
    assert |s - {x}| == 0;
  }

  /** `next(iter(values))` of a set of one. */
  function Only(s: set<string>): (x: string)
    requires |s| == 1
    ensures s == {x}
  {
    assert s != {};
    assert forall x, y | x in s && y in s :: x == y by {
      forall x, y | x in s && y in s ensures x == y { OneMember(s, x, y); }
    }
    var x :| x in s;
    x
  }

  function Accepted(left: GroupIndex, right: GroupIndex): map<string, Pair> {
    map name | name in left && name in right && |left[name]| == 1 && |right[name]| == 1
      :: Pair(Only(left[name]), Only(right[name]))
  }

  /** `value` is what its name alone stands for among these rows. */
  ghost predicate StandsFor(rows: seq<Row>, normalize: Normalization, name: string, value: string) {
    name != "" && GroupsNamed(rows, normalize, name) == {value}
  }

  /** A pair is accepted under a name exactly when the name stands for one value on each side. */
  lemma AcceptedExactlyWhenUnambiguous(leftRows: seq<Row>, rightRows: seq<Row>, nl: Normalization, nr: Normalization,
                                       left: GroupIndex, right: GroupIndex, name: string, l: string, r: string)
    requires Indexes(left, leftRows, nl) && Indexes(right, rightRows, nr)
    ensures name in Accepted(left, right) && Accepted(left, right)[name] == Pair(l, r)
            <==> StandsFor(leftRows, nl, name, l) && StandsFor(rightRows, nr, name, r)
  {
    if StandsFor(leftRows, nl, name, l) && StandsFor(rightRows, nr, name, r) {
      assert l in GroupsNamed(leftRows, nl, name) && r in GroupsNamed(rightRows, nr, name);
      assert name in left && name in right && left[name] == {l} && right[name] == {r};
    }
  }

  lemma NameOfGroup(rows: seq<Row>, normalize: Normalization, name: string, value: string)
    requires value in GroupsNamed(rows, normalize, name)
    ensures normalize(value) == name
  {
  }

  ghost predicate PartialBijection(accepted: map<string, Pair>) {
    forall a, b | a in accepted && b in accepted && a != b ::
      accepted[a].left != accepted[b].left && accepted[a].right != accepted[b].right
  }

  /** No group of either side is in two pairs. */
  lemma AcceptedIsABijection(leftRows: seq<Row>, rightRows: seq<Row>, nl: Normalization, nr: Normalization,
                             left: GroupIndex, right: GroupIndex)
    requires Indexes(left, leftRows, nl) && Indexes(right, rightRows, nr)
    ensures PartialBijection(Accepted(left, right))
  {
    var accepted := Accepted(left, right);
    forall name | name in accepted ensures nl(accepted[name].left) == name && nr(accepted[name].right) == name {
      NameOfGroup(leftRows, nl, name, accepted[name].left);
      NameOfGroup(rightRows, nr, name, accepted[name].right);
    }
  }

  // ---- From groups to names ----

  ghost predicate Injective(mapped: map<string, string>) {
    forall a, b | a in mapped && b in mapped && mapped[a] == mapped[b] :: a == b
  }

  function Lefts(accepted: map<string, Pair>): map<string, string>
    requires PartialBijection(accepted)
  {
    map name | name in accepted :: accepted[name].left := name
  }

  function Rights(accepted: map<string, Pair>): map<string, string>
    requires PartialBijection(accepted)
  {
    map name | name in accepted :: accepted[name].right := name
  }

  lemma LeftsMapBack(accepted: map<string, Pair>)
    requires PartialBijection(accepted)
    ensures Injective(Lefts(accepted))
    ensures forall name | name in accepted ::
              accepted[name].left in Lefts(accepted) && Lefts(accepted)[accepted[name].left] == name
    ensures forall v | v in Lefts(accepted) :: Lefts(accepted)[v] in accepted && accepted[Lefts(accepted)[v]].left == v
  {
    var lefts := Lefts(accepted);
    assert forall v | v in lefts :: lefts[v] in accepted && accepted[lefts[v]].left == v;
  }

  lemma RightsMapBack(accepted: map<string, Pair>)
    requires PartialBijection(accepted)
    ensures Injective(Rights(accepted))
    ensures forall name | name in accepted ::
              accepted[name].right in Rights(accepted) && Rights(accepted)[accepted[name].right] == name
    ensures forall v | v in Rights(accepted) ::
              Rights(accepted)[v] in accepted && accepted[Rights(accepted)[v]].right == v
  {
    var rights := Rights(accepted);
    assert forall v | v in rights :: rights[v] in accepted && accepted[rights[v]].right == v;
  }

  // ---- The summary ----

  lemma {:induction false} InjectionKeepsSize(names: set<string>, images: set<string>, f: map<string, string>)
    requires Injective(f) && names == f.Keys
    requires forall v :: v in images <==> exists n :: n in f && f[n] == v
    ensures |images| == |names|
    decreases |names|
  {
    if names == {} {
      assert forall v :: v !in images;
      assert images == {};
    } else {
      var n :| n in names;
      var rest := f - {n};
      var fewer := images - {f[n]};
      forall v ensures v in fewer <==> exists m :: m in rest && rest[m] == v {
        if v in fewer {
          var m :| m in f && f[m] == v;
          assert m in rest && rest[m] == v;
        }
        if m :| m in rest && rest[m] == v {
          assert m in f && f[m] == v;
        }
      }
      assert f[n] in images;
      InjectionKeepsSize(names - {n}, fewer, rest);
    }
  }

  function AllGroups(index: GroupIndex): set<string> { set name, v | name in index && v in index[name] :: v }

  lemma MappedAreKnown(left: GroupIndex, right: GroupIndex)
    requires PartialBijection(Accepted(left, right))
    ensures Lefts(Accepted(left, right)).Keys <= AllGroups(left)
    ensures Rights(Accepted(left, right)).Keys <= AllGroups(right)
  {
    LeftsMapBack(Accepted(left, right));
    RightsMapBack(Accepted(left, right));
    hide Lefts, Rights, PartialBijection, Injective;
  }

  lemma KeysOfInjection(mapped: map<string, string>, names: set<string>)
    requires Injective(mapped) && forall n :: n in names <==> exists v :: v in mapped && mapped[v] == n
    ensures |mapped.Keys| == |names|
  {
    InjectionKeepsSize(mapped.Keys, names, mapped);
  }

  /** `pair_count + unmatched_count == distinct_group_count`, on each side. */
  lemma CountsAddUp(left: GroupIndex, right: GroupIndex)
    requires PartialBijection(Accepted(left, right))
    ensures var accepted := Accepted(left, right);
      && |accepted| + |AllGroups(left) - Lefts(accepted).Keys| == |AllGroups(left)|
      && |accepted| + |AllGroups(right) - Rights(accepted).Keys| == |AllGroups(right)|
  {
    var accepted := Accepted(left, right);
    MappedAreKnown(left, right);
    LeftsCount(accepted);
    RightsCount(accepted);
    hide Accepted, PartialBijection, Lefts, Rights, AllGroups;
    PartsOfSet(AllGroups(left), Lefts(accepted).Keys);
    PartsOfSet(AllGroups(right), Rights(accepted).Keys);
  }

  lemma LeftsCount(accepted: map<string, Pair>)
    requires PartialBijection(accepted)
    ensures |Lefts(accepted).Keys| == |accepted|
  {
    LeftsMapBack(accepted);
    hide Lefts, PartialBijection;
    forall n ensures n in accepted.Keys <==> exists v :: v in Lefts(accepted) && Lefts(accepted)[v] == n { }
    KeysOfInjection(Lefts(accepted), accepted.Keys);
    assert |accepted| == |accepted.Keys|;
  }

  lemma RightsCount(accepted: map<string, Pair>)
    requires PartialBijection(accepted)
    ensures |Rights(accepted).Keys| == |accepted|
  {
    RightsMapBack(accepted);
    hide Rights, PartialBijection;
    forall n ensures n in accepted.Keys <==> exists v :: v in Rights(accepted) && Rights(accepted)[v] == n { }
    KeysOfInjection(Rights(accepted), accepted.Keys);
    assert |accepted| == |accepted.Keys|;
  }
}
