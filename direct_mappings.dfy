/** `extract_direct_mappings`: the table of `DPn.DOx` references of one
    data provider. A first pass over the `name = value, DPn.DOx` matches
    writes each reference with overwrite; a second pass over the bare
    references adds, with `setdefault`, those the first pass did not. */
module DirectMappings {
  import opened Strings
  import opened Dicts
  import opened Archive

  /** The display name and sample value recorded for a reference. */
  datatype Mapping = Mapping(displayName: string, sampleValue: string)

  /** The write the first pass makes for one match. */
  function AssignmentEntry(m: Assignment): (string, Mapping) {
    (m.ref, Mapping(Strip(m.name), Strip(m.value)))
  }

  function AssignmentEntries(ms: seq<Assignment>): (r: seq<(string, Mapping)>)
    ensures |r| == |ms| && forall i :: 0 <= i < |ms| ==> r[i] == AssignmentEntry(ms[i])
  {
    seq(|ms|, i requires 0 <= i < |ms| => AssignmentEntry(ms[i]))
  }

  /** The `setdefault` calls of the second pass. */
  function ReferenceEntries(refs: seq<string>): (r: seq<(string, Mapping)>)
    ensures |r| == |refs| && forall i :: 0 <= i < |refs| ==> r[i] == (refs[i], Mapping("", ""))
  {
    seq(|refs|, i requires 0 <= i < |refs| => (refs[i], Mapping("", "")))
  }

  /** The table the function returns for the first-pass matches `ms` and the
      second-pass references `refs`. */
  function DirectMappingsOf(ms: seq<Assignment>, refs: seq<string>): (dm: Dict<string, Mapping>)
    ensures dm.Valid()
  {
    SetDefaults(Puts(Empty(), AssignmentEntries(ms)), ReferenceEntries(refs))
  }

  method ExtractDirectMappings(ms: seq<Assignment>, refs: seq<string>) returns (dm: Dict<string, Mapping>)
    ensures dm == DirectMappingsOf(ms, refs)
  {
    ghost var first := AssignmentEntries(ms);
    ghost var second := ReferenceEntries(refs);
    dm := Empty();
    var i := 0;
    while i < |ms|
      invariant 0 <= i <= |ms|
      invariant dm == Puts(Empty(), first[..i])
    {
      PutsStep(Empty(), first, i);
      dm := Put(dm, ms[i].ref, Mapping(Strip(ms[i].name), Strip(ms[i].value)));
      i := i + 1;
    }
    assert first[..|ms|] == first;
    ghost var afterFirst := dm;
    var j := 0;
    while j < |refs|
      invariant 0 <= j <= |refs|
      invariant dm == SetDefaults(afterFirst, second[..j])
    {
      SetDefaultsStep(afterFirst, second, j);
      dm := SetDefault(dm, refs[j], Mapping("", ""));
      j := j + 1;
    }
    assert second[..|refs|] == second;
  }

  /** The keys are the references of both passes. */
  lemma DirectMappingsKeys(ms: seq<Assignment>, refs: seq<string>, ref: string)
    ensures ref in DirectMappingsOf(ms, refs).entries <==>
      (exists i :: 0 <= i < |ms| && ms[i].ref == ref) || ref in refs
  {
    var first := AssignmentEntries(ms);
    var second := ReferenceEntries(refs);
    PutsAt(Empty(), first, ref);
    SetDefaultsAt(Puts(Empty(), first), second, ref);
    assert Keys(second) == refs;
    if exists i :: 0 <= i < |ms| && ms[i].ref == ref {
      var i :| 0 <= i < |ms| && ms[i].ref == ref;
      assert Keys(first)[i] == ref;
    }
  }

  /** Among first-pass matches of one reference the last wins, and the
      second pass never overwrites it. */
  lemma LastAssignmentWins(ms: seq<Assignment>, refs: seq<string>, j: int)
    requires 0 <= j < |ms| && forall l :: j < l < |ms| ==> ms[l].ref != ms[j].ref
    ensures ms[j].ref in DirectMappingsOf(ms, refs).entries
    ensures DirectMappingsOf(ms, refs).entries[ms[j].ref] == Mapping(Strip(ms[j].name), Strip(ms[j].value))
  {
    var ref := ms[j].ref;
    var first := AssignmentEntries(ms);
    PutsAt(Empty(), first, ref);
    assert Keys(first)[j] == ref;
    assert LastWith(first, ref, j);
    var j' :| LastWith(first, ref, j') && Puts(Empty(), first).entries[ref] == first[j'].1;
    LastWithUnique(first, ref, j, j');
    SetDefaultsAt(Puts(Empty(), first), ReferenceEntries(refs), ref);
  }

  /** A reference only the second pass sees maps to an empty name and value. */
  lemma ReferenceOnlyIsEmpty(ms: seq<Assignment>, refs: seq<string>, ref: string)
    requires ref in refs && forall i :: 0 <= i < |ms| ==> ms[i].ref != ref
    ensures ref in DirectMappingsOf(ms, refs).entries
    ensures DirectMappingsOf(ms, refs).entries[ref] == Mapping("", "")
  {
    var first := AssignmentEntries(ms);
    var second := ReferenceEntries(refs);
    PutsAt(Empty(), first, ref);
    assert ref !in Keys(first);
    assert Keys(second) == refs;
    SetDefaultsAt(Puts(Empty(), first), second, ref);
  }
}
