/** `extract_calculated_fields` and `extract_report_variables`: the
    document-level objects, gathered from the entries whose upper-cased name
    marks them as document parts, in name-list order and match order, and
    numbered by a running counter shared by all entries. */
module DocumentObjects {
  import opened Strings
  import opened Archive

  /** One calculated field or report variable. */
  datatype DocObject = DocObject(id: string, name: string, formula: string, description: string)

  /** The entries `extract_calculated_fields` reads. */
  predicate IsCalcSource(fn: string) {
    var u := Upper(fn);
    Contains(u, "DOCUMENT") || Contains(u, "REPORT") || Contains(u, "STRUCTURE")
  }

  /** The entries `extract_report_variables` reads. */
  predicate IsVarSource(fn: string) {
    var u := Upper(fn);
    Contains(u, "DOCUMENT") || Contains(u, "VARIABLE") || Contains(u, "FORMULA")
  }

  /** The matches `ms` found in entry `fn`, each tagged with its entry. */
  function Tag(fn: string, ms: seq<NamedFormula>): (r: seq<(string, NamedFormula)>)
    ensures |r| == |ms| && forall k :: 0 <= k < |ms| ==> r[k] == (fn, ms[k])
  {
    seq(|ms|, k requires 0 <= k < |ms| => (fn, ms[k]))
  }

  /** The matches of the patterns of `groups`, one pattern after another. */
  function TagGroups(fn: string, groups: seq<seq<NamedFormula>>): seq<(string, NamedFormula)>
  {
    if groups == [] then []
    else TagGroups(fn, groups[..|groups| - 1]) + Tag(fn, groups[|groups| - 1])
  }

  /** What one entry contributes to the calculated fields: the matches of
      the CalculatedField pattern, then those of the QueryCalculation pattern. */
  function CalcGroups(scan: EntryScan): seq<seq<NamedFormula>> {
    [scan.docCalculatedFields, scan.docQueryCalcs]
  }

  /** The matches behind the calculated fields, in the order they are found. */
  function CalcMatches(names: seq<string>, contents: map<string, EntryScan>): seq<(string, NamedFormula)>
    requires Readable(names, contents)
  {
    if names == [] then []
    else
      var fn := names[|names| - 1];
      CalcMatches(names[..|names| - 1], contents)
        + (if IsCalcSource(fn) then TagGroups(fn, CalcGroups(contents[fn])) else [])
  }

  /** The matches behind the report variables, in the order they are found. */
  function VarMatches(names: seq<string>, contents: map<string, EntryScan>): seq<(string, NamedFormula)>
    requires Readable(names, contents)
  {
    if names == [] then []
    else
      var fn := names[|names| - 1];
      VarMatches(names[..|names| - 1], contents)
        + (if IsVarSource(fn) then Tag(fn, contents[fn].docVariables) else [])
  }

  /** The object made of the match `m` of entry `fn` when `n` objects precede it. */
  function MakeObject(prefix: string, n: nat, fn: string, m: NamedFormula): DocObject {
    DocObject(prefix + NatToString(n), Strip(m.name), Strip(m.formula), "From " + fn)
  }

  /** The objects for the tagged matches `ms` when `start` objects precede them. */
  function NumberFrom(prefix: string, start: nat, ms: seq<(string, NamedFormula)>): (r: seq<DocObject>)
    ensures |r| == |ms|
  {
    seq(|ms|, k requires 0 <= k < |ms| => MakeObject(prefix, start + k, ms[k].0, ms[k].1))
  }

  lemma NumberFromAt(prefix: string, start: nat, ms: seq<(string, NamedFormula)>, k: int)
    requires 0 <= k < |ms|
    ensures NumberFrom(prefix, start, ms)[k] == MakeObject(prefix, start + k, ms[k].0, ms[k].1)
  {
  }

  lemma NumberFromConcat(prefix: string, start: nat, a: seq<(string, NamedFormula)>, b: seq<(string, NamedFormula)>)
    ensures NumberFrom(prefix, start, a + b) == NumberFrom(prefix, start, a) + NumberFrom(prefix, start + |a|, b)
  {
    var l := NumberFrom(prefix, start, a + b);
    var r := NumberFrom(prefix, start, a) + NumberFrom(prefix, start + |a|, b);
    forall k | 0 <= k < |l|
      ensures l[k] == r[k]
    {
      NumberFromAt(prefix, start, a + b, k);
      if k < |a| {
        NumberFromAt(prefix, start, a, k);
      } else {
        NumberFromAt(prefix, start + |a|, b, k - |a|);
      }
    }
  }

  /** The objects for all tagged matches, counted from 0. */
  function Numbered(prefix: string, ms: seq<(string, NamedFormula)>): (r: seq<DocObject>)
    ensures |r| == |ms|
  {
    NumberFrom(prefix, 0, ms)
  }

  /** The `k`-th object has id `<prefix><k>`, and its name, formula and
      description come from the `k`-th match: ids are contiguous from 0. */
  lemma NumberedAt(prefix: string, ms: seq<(string, NamedFormula)>, k: int)
    requires 0 <= k < |ms|
    ensures Numbered(prefix, ms)[k].id == prefix + NatToString(k)
    ensures Numbered(prefix, ms)[k].name == Strip(ms[k].1.name)
    ensures Numbered(prefix, ms)[k].formula == Strip(ms[k].1.formula)
    ensures Numbered(prefix, ms)[k].description == "From " + ms[k].0
  {
    NumberFromAt(prefix, 0, ms, k);
  }

  /** No two objects share an id. */
  lemma NumberedIdsDistinct(prefix: string, ms: seq<(string, NamedFormula)>, i: int, j: int)
    requires 0 <= i < |ms| && 0 <= j < |ms| && i != j
    ensures Numbered(prefix, ms)[i].id != Numbered(prefix, ms)[j].id
  {
    NumberedAt(prefix, ms, i);
    NumberedAt(prefix, ms, j);
    var a := prefix + NatToString(i);
    var b := prefix + NatToString(j);
    if a == b {
      assert a[|prefix|..] == NatToString(i);
      assert b[|prefix|..] == NatToString(j);
      NatToStringInjective(i, j);
    }
  }

  /** The inner loop: one pattern's matches in entry `fn`, each appended
      with the number of objects found so far. */
  method AppendObjects(results: seq<DocObject>, prefix: string, fn: string, ms: seq<NamedFormula>)
    returns (r: seq<DocObject>)
    ensures r == results + NumberFrom(prefix, |results|, Tag(fn, ms))
  {
    r := results;
    var k := 0;
    while k < |ms|
      invariant 0 <= k <= |ms|
      invariant r == results + NumberFrom(prefix, |results|, Tag(fn, ms)[..k])
    {
      ghost var done := Tag(fn, ms)[..k];
      assert Tag(fn, ms)[..k + 1] == done + [(fn, ms[k])];
      NumberFromConcat(prefix, |results|, done, [(fn, ms[k])]);
      NumberFromAt(prefix, |results| + k, [(fn, ms[k])], 0);
      r := r + [MakeObject(prefix, |r|, fn, ms[k])];
      k := k + 1;
    }
    assert Tag(fn, ms)[..|ms|] == Tag(fn, ms);
  }

  method ExtractCalculatedFields(z: Zip) returns (results: seq<DocObject>)
    requires z.Valid()
    ensures results == Numbered("CF_", CalcMatches(z.names, z.contents))
  {
    results := [];
    var i := 0;
    while i < |z.names|
      invariant 0 <= i <= |z.names|
      invariant results == Numbered("CF_", CalcMatches(z.names[..i], z.contents))
    {
      var fn := z.names[i];
      CalcMatchesStep(z.names, z.contents, i);
      if IsCalcSource(fn) {
        results := AppendCalcEntry(results, CalcMatches(z.names[..i], z.contents), fn, z.contents[fn]);
      }
      i := i + 1;
    }
    assert z.names[..|z.names|] == z.names;
  }

  lemma CalcMatchesStep(names: seq<string>, contents: map<string, EntryScan>, i: int)
    requires Readable(names, contents) && 0 <= i < |names|
    ensures CalcMatches(names[..i + 1], contents) == CalcMatches(names[..i], contents)
      + (if IsCalcSource(names[i]) then TagGroups(names[i], CalcGroups(contents[names[i]])) else [])
  {
    assert names[..i + 1][..i] == names[..i];
  }

  /** The two pattern loops over one calculated-field source. */
  method AppendCalcEntry(results: seq<DocObject>, ghost before: seq<(string, NamedFormula)>, fn: string, scan: EntryScan)
    returns (r: seq<DocObject>)
    requires results == Numbered("CF_", before)
    ensures r == Numbered("CF_", before + TagGroups(fn, CalcGroups(scan)))
  {
    r := results;
    var patterns := CalcGroups(scan);
    var p := 0;
    while p < |patterns|
      invariant 0 <= p <= |patterns|
      invariant r == Numbered("CF_", before + TagGroups(fn, patterns[..p]))
    {
      ghost var so := before + TagGroups(fn, patterns[..p]);
      r := AppendObjects(r, "CF_", fn, patterns[p]);
      NumberFromConcat("CF_", 0, so, Tag(fn, patterns[p]));
      assert patterns[..p + 1][..p] == patterns[..p];
      assert so + Tag(fn, patterns[p]) == before + TagGroups(fn, patterns[..p + 1]);
      p := p + 1;
    }
    assert patterns[..|patterns|] == patterns;
  }

  method ExtractReportVariables(z: Zip) returns (results: seq<DocObject>)
    requires z.Valid()
    ensures results == Numbered("RV_", VarMatches(z.names, z.contents))
  {
    results := [];
    var i := 0;
    while i < |z.names|
      invariant 0 <= i <= |z.names|
      invariant results == Numbered("RV_", VarMatches(z.names[..i], z.contents))
    {
      var fn := z.names[i];
      ghost var before := VarMatches(z.names[..i], z.contents);
      VarMatchesStep(z.names, z.contents, i);
      if IsVarSource(fn) {
        var ms := z.contents[fn].docVariables;
        results := AppendObjects(results, "RV_", fn, ms);
        NumberFromConcat("RV_", 0, before, Tag(fn, ms));
      }
      i := i + 1;
    }
    assert z.names[..|z.names|] == z.names;
  }

  lemma VarMatchesStep(names: seq<string>, contents: map<string, EntryScan>, i: int)
    requires Readable(names, contents) && 0 <= i < |names|
    ensures VarMatches(names[..i + 1], contents) == VarMatches(names[..i], contents)
      + (if IsVarSource(names[i]) then Tag(names[i], contents[names[i]].docVariables) else [])
  {
    assert names[..i + 1][..i] == names[..i];
  }

  /** Every calculated field comes from a listed entry that is a calculated-field
      source. */
  lemma {:induction false} CalcMatchesFrom(names: seq<string>, contents: map<string, EntryScan>, k: int)
    requires Readable(names, contents) && 0 <= k < |CalcMatches(names, contents)|
    ensures exists i :: 0 <= i < |names| && names[i] == CalcMatches(names, contents)[k].0 && IsCalcSource(names[i])
  {
    var n := |names| - 1;
    var init := CalcMatches(names[..n], contents);
    if k < |init| {
      CalcMatchesFrom(names[..n], contents, k);
      var i :| 0 <= i < n && names[..n][i] == init[k].0 && IsCalcSource(names[..n][i]);
      assert names[i] == names[..n][i];
    } else {
      var fn := names[n];
      TagGroupsFrom(fn, CalcGroups(contents[fn]), k - |init|);
    }
  }

  lemma {:induction false} TagGroupsFrom(fn: string, groups: seq<seq<NamedFormula>>, k: int)
    requires 0 <= k < |TagGroups(fn, groups)|
    ensures TagGroups(fn, groups)[k].0 == fn
  {
    var n := |groups| - 1;
    if k >= |TagGroups(fn, groups[..n])| {
      assert TagGroups(fn, groups)[k] == Tag(fn, groups[n])[k - |TagGroups(fn, groups[..n])|];
    } else {
      TagGroupsFrom(fn, groups[..n], k);
    }
  }

  /** Every report variable comes from a listed entry that is a report-variable
      source. */
  lemma {:induction false} VarMatchesFrom(names: seq<string>, contents: map<string, EntryScan>, k: int)
    requires Readable(names, contents) && 0 <= k < |VarMatches(names, contents)|
    ensures exists i :: 0 <= i < |names| && names[i] == VarMatches(names, contents)[k].0 && IsVarSource(names[i])
  {
    var n := |names| - 1;
    var init := VarMatches(names[..n], contents);
    if k < |init| {
      VarMatchesFrom(names[..n], contents, k);
      var i :| 0 <= i < n && names[..n][i] == init[k].0 && IsVarSource(names[..n][i]);
      assert names[i] == names[..n][i];
    } else {
      assert VarMatches(names, contents)[k] == Tag(names[n], contents[names[n]].docVariables)[k - |init|];
    }
  }
}
