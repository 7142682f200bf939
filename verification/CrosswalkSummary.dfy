/** The counts of a crosswalk's summary: names that stand for several groups, and their groups
  * (`candidate_crosswalk`). */
module CrosswalkSummary {
  import opened CrosswalkMapping

  function AmbiguousNames(index: GroupIndex): set<string> { set name | name in index && |index[name]| != 1 }

  function GroupsUnder(index: GroupIndex, names: set<string>): set<string> {
    set name, v | name in names && name in index && v in index[name] :: v
  }

  /** The groups that share their name with another group. */
  function AmbiguousGroups(rows: seq<Row>, normalize: Normalization): set<string> {
    set row | row in rows && normalize(row.group) != "" && |GroupsNamed(rows, normalize, normalize(row.group))| > 1 ::
        row.group
  }

  function AmbiguousNamesOf(rows: seq<Row>, normalize: Normalization): set<string> {
    set row | row in rows && normalize(row.group) != "" && |GroupsNamed(rows, normalize, normalize(row.group))| > 1
      :: normalize(row.group)
  }

  ghost predicate NamesApart(index: GroupIndex) {
    forall a, b, v | a in index && b in index && v in index[a] && v in index[b] :: a == b
  }

  lemma OneNamePerGroup(index: GroupIndex, rows: seq<Row>, normalize: Normalization)
    requires Indexes(index, rows, normalize)
    ensures NamesApart(index)
  {
    forall a, b, v | a in index && b in index && v in index[a] && v in index[b] ensures a == b {
      NameOfGroup(rows, normalize, a, v);
      NameOfGroup(rows, normalize, b, v);
    }
  }

  lemma OneNameMore(index: GroupIndex, names: set<string>, name: string)
    requires NamesApart(index) && name in index && name !in names && names <= index.Keys
    ensures |GroupsUnder(index, names + {name})| == |GroupsUnder(index, names)| + |index[name]|
  {
    var before := GroupsUnder(index, names);
    assert GroupsUnder(index, names + {name}) == before + index[name];
    assert before !! index[name];
  }

  method CountAmbiguous(index: GroupIndex) returns (names: set<string>, groups: nat)
    requires NamesApart(index)
    ensures names == AmbiguousNames(index)
    ensures groups == |GroupsUnder(index, names)|
  {
    names := AmbiguousNames(index);
    groups := 0;
    var rest := names;
    assert GroupsUnder(index, {}) == {};
    while rest != {}
      invariant rest <= names && groups == |GroupsUnder(index, names - rest)|
      decreases |rest|
    {
      var name :| name in rest;
      OneNameMore(index, names - rest, name);
      assert names - (rest - {name}) == (names - rest) + {name};
      groups := groups + |index[name]|;
      rest := rest - {name};
    }
    assert names - rest == names;
  }

  lemma AmbiguousAreThoseOfRows(index: GroupIndex, rows: seq<Row>, normalize: Normalization)
    requires Indexes(index, rows, normalize)
    ensures AmbiguousNames(index) == AmbiguousNamesOf(rows, normalize)
    ensures GroupsUnder(index, AmbiguousNames(index)) == AmbiguousGroups(rows, normalize)
  {
    var names, namesOf := AmbiguousNames(index), AmbiguousNamesOf(rows, normalize);
    forall name ensures name in names <==> name in namesOf {
      if name in names { AmbiguousHasRow(index, rows, normalize, name); }
      if name in namesOf {
        var row :| row in rows && normalize(row.group) == name && name != ""
            && |GroupsNamed(rows, normalize, name)| > 1;
        assert row.group in GroupsNamed(rows, normalize, name);
      }
    }
    forall v ensures v in GroupsUnder(index, names) <==> v in AmbiguousGroups(rows, normalize) {
      if v in GroupsUnder(index, names) {
        var name :| name in names && v in index[name];
        AmbiguousHasRow(index, rows, normalize, name);
      }
      if v in AmbiguousGroups(rows, normalize) {
        assert v in GroupsNamed(rows, normalize, normalize(v)) && normalize(v) in namesOf;
      }
    }
  }

  lemma AmbiguousHasRow(index: GroupIndex, rows: seq<Row>, normalize: Normalization, name: string)
    requires Indexes(index, rows, normalize) && name in AmbiguousNames(index)
    ensures name != "" && |GroupsNamed(rows, normalize, name)| > 1
    ensures exists row :: row in rows && normalize(row.group) == name
  {
    var groups := GroupsNamed(rows, normalize, name);
    assert groups != {} && |groups| != 1;
    var v :| v in groups;
  }

  lemma PairedAreAlone(left: GroupIndex, right: GroupIndex)
    requires PartialBijection(Accepted(left, right))
    ensures var lefts := Lefts(Accepted(left, right));
            forall v | v in lefts :: lefts[v] in left && left[lefts[v]] == {v}
    ensures var rights := Rights(Accepted(left, right));
            forall v | v in rights :: rights[v] in right && right[rights[v]] == {v}
  {
    LeftsMapBack(Accepted(left, right));
    RightsMapBack(Accepted(left, right));
  }

  lemma AmbiguousOrAlone(index: GroupIndex, alone: map<string, string>)
    requires NamesApart(index) && forall v | v in alone :: alone[v] in index && index[alone[v]] == {v}
    ensures GroupsUnder(index, AmbiguousNames(index)) <= AllGroups(index) - alone.Keys
  {
  }

  /** No group with an ambiguous name is in a pair. */
  lemma AmbiguousAreUnmatched(left: GroupIndex, right: GroupIndex)
    requires NamesApart(left) && NamesApart(right) && PartialBijection(Accepted(left, right))
    ensures GroupsUnder(left, AmbiguousNames(left)) <= AllGroups(left) - Lefts(Accepted(left, right)).Keys
    ensures GroupsUnder(right, AmbiguousNames(right)) <= AllGroups(right) - Rights(Accepted(left, right)).Keys
  {
    PairedAreAlone(left, right);
    hide *;
    AmbiguousOrAlone(left, Lefts(Accepted(left, right)));
    AmbiguousOrAlone(right, Rights(Accepted(left, right)));
  }
}
