/** The master list of mapping rows and `process_enhanced_mappings`, which
    appends to it the rows of one data provider: one row per QuerySpec field,
    one per direct mapping whose technical id no row carries yet, and one per
    formula. The document-level rows are appended after all providers. */
module Merger {
  import opened Strings
  import opened Dicts
  import opened ColumnNames
  import opened QuerySpecFields
  import opened DirectMappings
  import opened DocumentObjects

  datatype FieldType = DataField | CalculatedField | ReportVariable | DataProviderFormula

  /** The text written in the `Field Type` column. */
  function FieldTypeName(t: FieldType): string {
    match t
    case DataField => "Data Field"
    case CalculatedField => "Calculated Field"
    case ReportVariable => "Report Variable"
    case DataProviderFormula => "Data Provider Formula"
  }

  /** One row of the field map, its eleven columns in output order. */
  datatype Row = Row(
    providerId: string,
    provider: string,
    technicalId: string,
    displayName: string,
    fieldType: FieldType,
    formula: string,
    description: string,
    sampleValue: string,
    table: string,
    column: string,
    xmlId: string)

  /** The row of a QuerySpec field. */
  function FieldRow(dpId: string, dpName: string, fid: string, fi: FieldInfo): Row {
    Row(dpId, dpName, fid, fi.displayName, if fi.isCalculated then CalculatedField else DataField,
      fi.expression, fi.elementType + ", type=" + fi.dataType, "", "", CleanColumnName(fi.displayName), fid)
  }

  /** The row of a direct mapping; the column is named after the display
      name, or after the reference when the display name is empty. */
  function DirectRow(dpId: string, dpName: string, tid: string, mm: Mapping): Row {
    Row(dpId, dpName, tid, mm.displayName, DataField, "", "Direct mapping", mm.sampleValue, "",
      CleanColumnName(if mm.displayName != "" then mm.displayName else tid), "")
  }

  /** The row of a data-provider formula. */
  function FormulaRow(dpId: string, dpName: string, fid: string, formula: string): Row {
    Row(dpId, dpName, fid, "Formula " + fid, DataProviderFormula, formula, "From DP_Generic", "", "",
      CleanColumnName("formula_" + fid), "")
  }

  /** The row of a document-level object. */
  function DocRow(dpId: string, dpName: string, t: FieldType, o: DocObject): Row {
    Row(dpId, dpName, o.id, o.name, t, o.formula, o.description, "", "", CleanColumnName(o.name), "")
  }

  /** Some row carries the technical id `tid`. */
  predicate HasId(rows: seq<Row>, tid: string) {
    exists r :: 0 <= r < |rows| && rows[r].technicalId == tid
  }

  /** The rows of the first loop, one per field, in table order. */
  function FieldRows(dpId: string, dpName: string, items: seq<(string, FieldInfo)>): (r: seq<Row>)
    ensures |r| == |items|
    ensures forall i :: 0 <= i < |items| ==> r[i] == FieldRow(dpId, dpName, items[i].0, items[i].1)
  {
    seq(|items|, i requires 0 <= i < |items| => FieldRow(dpId, dpName, items[i].0, items[i].1))
  }

  /** One more step of the first loop. */
  lemma FieldRowsStep(dpId: string, dpName: string, items: seq<(string, FieldInfo)>, i: int)
    requires 0 <= i < |items|
    ensures FieldRows(dpId, dpName, items[..i + 1]) ==
      FieldRows(dpId, dpName, items[..i]) + [FieldRow(dpId, dpName, items[i].0, items[i].1)]
  {
  }

  /** The list after the second loop over `items`, starting from `rows`: a
      mapping whose technical id some row of the list already carries, at
      the time it comes up, is skipped. The list only grows at its end. */
  function DirectRows(rows: seq<Row>, dpId: string, dpName: string, items: seq<(string, Mapping)>): (r: seq<Row>)
    ensures |rows| <= |r| && r[..|rows|] == rows
    decreases |items|
  {
    if items == [] then rows
    else
      var prev := DirectRows(rows, dpId, dpName, items[..|items| - 1]);
      var tid := items[|items| - 1].0;
      if HasId(prev, tid) then prev
      else
        assert (prev + [DirectRow(dpId, dpName, tid, items[|items| - 1].1)])[..|rows|] == prev[..|rows|];
        prev + [DirectRow(dpId, dpName, tid, items[|items| - 1].1)]
  }

  /** One more step of the second loop. */
  lemma DirectRowsStep(rows: seq<Row>, dpId: string, dpName: string, items: seq<(string, Mapping)>, i: int)
    requires 0 <= i < |items|
    ensures var prev := DirectRows(rows, dpId, dpName, items[..i]);
      DirectRows(rows, dpId, dpName, items[..i + 1]) ==
        if HasId(prev, items[i].0) then prev else prev + [DirectRow(dpId, dpName, items[i].0, items[i].1)]
  {
    assert items[..i + 1][..i] == items[..i];
  }

  /** The rows of the mappings of `items` whose technical id no row of
      `rows` carries, in order. */
  function NewDirectRows(rows: seq<Row>, dpId: string, dpName: string, items: seq<(string, Mapping)>): seq<Row>
    decreases |items|
  {
    if items == [] then []
    else
      var prev := NewDirectRows(rows, dpId, dpName, items[..|items| - 1]);
      var tid := items[|items| - 1].0;
      if HasId(rows, tid) then prev else prev + [DirectRow(dpId, dpName, tid, items[|items| - 1].1)]
  }

  /** The rows of the third loop, one per formula, in table order. */
  function FormulaRows(dpId: string, dpName: string, items: seq<(string, string)>): (r: seq<Row>)
    ensures |r| == |items|
    ensures forall i :: 0 <= i < |items| ==> r[i] == FormulaRow(dpId, dpName, items[i].0, items[i].1)
  {
    seq(|items|, i requires 0 <= i < |items| => FormulaRow(dpId, dpName, items[i].0, items[i].1))
  }

  /** One more step of the third loop. */
  lemma FormulaRowsStep(dpId: string, dpName: string, items: seq<(string, string)>, i: int)
    requires 0 <= i < |items|
    ensures FormulaRows(dpId, dpName, items[..i + 1]) ==
      FormulaRows(dpId, dpName, items[..i]) + [FormulaRow(dpId, dpName, items[i].0, items[i].1)]
  {
  }

  /** The list after `process_enhanced_mappings`. */
  function Merge(rows: seq<Row>, dpId: string, dpName: string, info: Dict<string, FieldInfo>,
                 dm: Dict<string, Mapping>, forms: Dict<string, string>): seq<Row>
    requires info.Valid() && dm.Valid() && forms.Valid()
  {
    DirectRows(rows + FieldRows(dpId, dpName, Items(info)), dpId, dpName, Items(dm))
      + FormulaRows(dpId, dpName, Items(forms))
  }

  /** The document-level rows: the calculated fields under `CALC`, then the
      report variables under `VAR`. */
  function DocumentRows(cfs: seq<DocObject>, rvs: seq<DocObject>): (r: seq<Row>)
    ensures |r| == |cfs| + |rvs|
  {
    CalcRows(cfs) + VarRows(rvs)
  }

  /** The row of a document-level calculated field. */
  function CalcRow(cf: DocObject): Row {
    DocRow("CALC", "Document Variables", CalculatedField, cf)
  }

  /** The row of a report variable. */
  function VarRow(rv: DocObject): Row {
    DocRow("VAR", "Report Variables", ReportVariable, rv)
  }

  function CalcRows(cfs: seq<DocObject>): (r: seq<Row>)
    ensures |r| == |cfs| && forall i :: 0 <= i < |cfs| ==> r[i] == CalcRow(cfs[i])
  {
    seq(|cfs|, i requires 0 <= i < |cfs| => CalcRow(cfs[i]))
  }

  function VarRows(rvs: seq<DocObject>): (r: seq<Row>)
    ensures |r| == |rvs| && forall i :: 0 <= i < |rvs| ==> r[i] == VarRow(rvs[i])
  {
    seq(|rvs|, i requires 0 <= i < |rvs| => VarRow(rvs[i]))
  }

  lemma CalcRowsStep(cfs: seq<DocObject>, i: int)
    requires 0 <= i < |cfs|
    ensures CalcRows(cfs[..i + 1]) == CalcRows(cfs[..i]) + [CalcRow(cfs[i])]
  {
  }

  lemma VarRowsStep(rvs: seq<DocObject>, i: int)
    requires 0 <= i < |rvs|
    ensures VarRows(rvs[..i + 1]) == VarRows(rvs[..i]) + [VarRow(rvs[i])]
  {
  }

  /** The shared list of rows every step appends to. */
  class Mappings {
    var rows: seq<Row>

    constructor()
      ensures rows == []
    {
      rows := [];
    }

    /** `any(r['Technical ID'] == tid for r in out)`. */
    method HasTechnicalId(tid: string) returns (found: bool)
      ensures found <==> HasId(rows, tid)
    {
      var i := 0;
      while i < |rows|
        invariant 0 <= i <= |rows|
        invariant forall r :: 0 <= r < i ==> rows[r].technicalId != tid
      {
        if rows[i].technicalId == tid {
          return true;
        }
        i := i + 1;
      }
      return false;
    }

    /** The first loop: a row per field of the QuerySpec table. */
    method AddFieldRows(dpId: string, dpName: string, info: Dict<string, FieldInfo>)
      requires info.Valid()
      modifies this
      ensures rows == old(rows) + FieldRows(dpId, dpName, Items(info))
    {
      ghost var start := rows;
      ghost var items := Items(info);
      var i := 0;
      while i < |info.order|
        invariant 0 <= i <= |info.order|
        invariant rows == start + FieldRows(dpId, dpName, items[..i])
      {
        var fid := info.order[i];
        var fi := info.entries[fid];
        FieldRowsStep(dpId, dpName, items, i);
        assert items[i] == (fid, fi);
        rows := rows + [FieldRow(dpId, dpName, fid, fi)];
        i := i + 1;
      }
      assert items[..|info.order|] == items;
    }

    /** The second loop: a row per direct mapping whose technical id no row
        carries yet. */
    method AddDirectRows(dpId: string, dpName: string, dm: Dict<string, Mapping>)
      requires dm.Valid()
      modifies this
      ensures rows == DirectRows(old(rows), dpId, dpName, Items(dm))
    {
      ghost var start := rows;
      ghost var items := Items(dm);
      var i := 0;
      while i < |dm.order|
        invariant 0 <= i <= |dm.order|
        invariant rows == DirectRows(start, dpId, dpName, items[..i])
      {
        var tid := dm.order[i];
        var mm := dm.entries[tid];
        assert items[i] == (tid, mm);
        DirectRowsStep(start, dpId, dpName, items, i);
        ghost var next := DirectRows(start, dpId, dpName, items[..i + 1]);
        var seen := HasTechnicalId(tid);
        if seen {
          assert rows == next;
        } else {
          rows := rows + [DirectRow(dpId, dpName, tid, mm)];
          assert rows == next;
        }
        i := i + 1;
      }
      assert items[..|dm.order|] == items;
    }

    /** The third loop: a row per formula. */
    method AddFormulaRows(dpId: string, dpName: string, forms: Dict<string, string>)
      requires forms.Valid()
      modifies this
      ensures rows == old(rows) + FormulaRows(dpId, dpName, Items(forms))
    {
      ghost var start := rows;
      ghost var items := Items(forms);
      var i := 0;
      while i < |forms.order|
        invariant 0 <= i <= |forms.order|
        invariant rows == start + FormulaRows(dpId, dpName, items[..i])
      {
        var fid := forms.order[i];
        var formula := forms.entries[fid];
        FormulaRowsStep(dpId, dpName, items, i);
        assert items[i] == (fid, formula);
        rows := rows + [FormulaRow(dpId, dpName, fid, formula)];
        i := i + 1;
      }
      assert items[..|forms.order|] == items;
    }

    /** `process_enhanced_mappings`. */
    method ProcessEnhancedMappings(dpId: string, dpName: string, info: Dict<string, FieldInfo>,
                                   dm: Dict<string, Mapping>, forms: Dict<string, string>)
      requires info.Valid() && dm.Valid() && forms.Valid()
      modifies this
      ensures rows == Merge(old(rows), dpId, dpName, info, dm, forms)
    {
      AddFieldRows(dpId, dpName, info);
      AddDirectRows(dpId, dpName, dm);
      AddFormulaRows(dpId, dpName, forms);
    }

    /** The two loops that append the calculated fields and the report
        variables. */
    method AddDocumentRows(cfs: seq<DocObject>, rvs: seq<DocObject>)
      modifies this
      ensures rows == old(rows) + DocumentRows(cfs, rvs)
    {
      ghost var start := rows;
      var i := 0;
      while i < |cfs|
        invariant 0 <= i <= |cfs|
        invariant rows == start + CalcRows(cfs[..i])
      {
        CalcRowsStep(cfs, i);
        rows := rows + [DocRow("CALC", "Document Variables", CalculatedField, cfs[i])];
        i := i + 1;
      }
      assert cfs[..|cfs|] == cfs;
      ghost var mid := rows;
      var j := 0;
      while j < |rvs|
        invariant 0 <= j <= |rvs|
        invariant rows == mid + VarRows(rvs[..j])
      {
        VarRowsStep(rvs, j);
        rows := rows + [DocRow("VAR", "Report Variables", ReportVariable, rvs[j])];
        j := j + 1;
      }
      assert rvs[..|rvs|] == rvs;
    }
  }

  /** Each field yields one row, in table order, whose technical id and XML
      id are the key, which is a calculated field exactly when the table
      marks it calculated and a data field otherwise, and whose column is
      named after the display name. */
  lemma FieldRowsAt(dpId: string, dpName: string, info: Dict<string, FieldInfo>, i: int)
    requires info.Valid() && 0 <= i < |info.order|
    ensures var row := FieldRows(dpId, dpName, Items(info))[i];
      var fi := info.entries[info.order[i]];
      && row.providerId == dpId && row.provider == dpName
      && row.technicalId == info.order[i] && row.xmlId == info.order[i]
      && row.displayName == fi.displayName && row.formula == fi.expression
      && (row.fieldType == CalculatedField <==> fi.isCalculated)
      && (row.fieldType == DataField <==> !fi.isCalculated)
      && row.description == fi.elementType + ", type=" + fi.dataType
      && row.sampleValue == "" && row.table == ""
      && row.column == CleanColumnName(fi.displayName) && IsColumnName(row.column)
  {
    CleanColumnNameShape(info.entries[info.order[i]].displayName);
  }

  /** Each formula yields one row, in table order, of the formula kind,
      whose column is named after `formula_<id>`. */
  lemma FormulaRowsAt(dpId: string, dpName: string, forms: Dict<string, string>, i: int)
    requires forms.Valid() && 0 <= i < |forms.order|
    ensures var row := FormulaRows(dpId, dpName, Items(forms))[i];
      && row.providerId == dpId && row.provider == dpName
      && row.technicalId == forms.order[i] && row.fieldType == DataProviderFormula
      && row.formula == forms.entries[forms.order[i]]
      && row.displayName == "Formula " + forms.order[i]
      && row.description == "From DP_Generic" && row.sampleValue == "" && row.table == "" && row.xmlId == ""
      && row.column == CleanColumnName("formula_" + forms.order[i]) && IsColumnName(row.column)
  {
    CleanColumnNameShape("formula_" + forms.order[i]);
  }

  /** Every row the second loop adds is the row of a mapping whose technical
      id no earlier row carries. */
  lemma {:induction false} NewDirectRowsFrom(rows: seq<Row>, dpId: string, dpName: string, items: seq<(string, Mapping)>, k: int)
    requires 0 <= k < |NewDirectRows(rows, dpId, dpName, items)|
    ensures exists j :: (0 <= j < |items| && !HasId(rows, items[j].0)
      && NewDirectRows(rows, dpId, dpName, items)[k] == DirectRow(dpId, dpName, items[j].0, items[j].1))
    decreases |items|
  {
    var n := |items| - 1;
    var prev := NewDirectRows(rows, dpId, dpName, items[..n]);
    if k < |prev| {
      NewDirectRowsFrom(rows, dpId, dpName, items[..n], k);
      var j :| 0 <= j < n && !HasId(rows, items[..n][j].0)
        && prev[k] == DirectRow(dpId, dpName, items[..n][j].0, items[..n][j].1);
      assert items[..n][j] == items[j];
    } else {
      assert !HasId(rows, items[n].0);
    }
  }

  lemma DistinctKeysPrefix<V>(items: seq<(string, V)>, n: int)
    requires Distinct(Keys(items)) && 0 <= n <= |items|
    ensures Distinct(Keys(items[..n]))
  {
    assert Keys(items[..n]) == Keys(items)[..n];
  }

  /** With distinct technical ids, as a table's items have, the second loop
      appends exactly the rows of the mappings whose id was absent before it. */
  lemma {:induction false} DirectRowsFilter(rows: seq<Row>, dpId: string, dpName: string, items: seq<(string, Mapping)>)
    requires Distinct(Keys(items))
    ensures DirectRows(rows, dpId, dpName, items) == rows + NewDirectRows(rows, dpId, dpName, items)
    decreases |items|
  {
    if items != [] {
      var n := |items| - 1;
      var tid := items[n].0;
      DistinctKeysPrefix(items, n);
      DirectRowsFilter(rows, dpId, dpName, items[..n]);
      var added := NewDirectRows(rows, dpId, dpName, items[..n]);
      if HasId(added, tid) {
        var r :| 0 <= r < |added| && added[r].technicalId == tid;
        NewDirectRowsFrom(rows, dpId, dpName, items[..n], r);
        assert false;
      }
      HasIdConcat(rows, added, tid);
    }
  }

  lemma HasIdConcat(a: seq<Row>, b: seq<Row>, tid: string)
    ensures HasId(a + b, tid) <==> HasId(a, tid) || HasId(b, tid)
  {
    if HasId(a + b, tid) {
      var r :| 0 <= r < |a + b| && (a + b)[r].technicalId == tid;
      if r >= |a| {
        assert b[r - |a|].technicalId == tid;
      }
    }
    if HasId(a, tid) {
      var r :| 0 <= r < |a| && a[r].technicalId == tid;
      assert (a + b)[r].technicalId == tid;
    }
    if HasId(b, tid) {
      var r :| 0 <= r < |b| && b[r].technicalId == tid;
      assert (a + b)[|a| + r].technicalId == tid;
    }
  }

  /** A mapping whose technical id no row of `rows` carries does get its row. */
  lemma NewDirectRowsHas(rows: seq<Row>, dpId: string, dpName: string, items: seq<(string, Mapping)>, j: int)
    requires 0 <= j < |items| && !HasId(rows, items[j].0)
    ensures exists k :: (0 <= k < |NewDirectRows(rows, dpId, dpName, items)|
      && NewDirectRows(rows, dpId, dpName, items)[k] == DirectRow(dpId, dpName, items[j].0, items[j].1))
  {
    var k := NewDirectRowsIndex(rows, dpId, dpName, items, j);
  }

  /** Where the row of the `j`-th mapping lands among the added rows. */
  lemma {:induction false} NewDirectRowsIndex(rows: seq<Row>, dpId: string, dpName: string, items: seq<(string, Mapping)>, j: int)
    returns (k: int)
    requires 0 <= j < |items| && !HasId(rows, items[j].0)
    ensures 0 <= k < |NewDirectRows(rows, dpId, dpName, items)|
    ensures NewDirectRows(rows, dpId, dpName, items)[k] == DirectRow(dpId, dpName, items[j].0, items[j].1)
    decreases |items|
  {
    var n := |items| - 1;
    if j < n {
      assert items[..n][j] == items[j];
      k := NewDirectRowsIndex(rows, dpId, dpName, items[..n], j);
      NewDirectRowsKeep(rows, dpId, dpName, items, k);
    } else {
      NewDirectRowsLast(rows, dpId, dpName, items);
      k := |NewDirectRows(rows, dpId, dpName, items[..n])|;
    }
  }

  /** The rows added for a prefix of `items` stay where they are. */
  lemma NewDirectRowsKeep(rows: seq<Row>, dpId: string, dpName: string, items: seq<(string, Mapping)>, k: int)
    requires items != [] && 0 <= k < |NewDirectRows(rows, dpId, dpName, items[..|items| - 1])|
    ensures k < |NewDirectRows(rows, dpId, dpName, items)|
    ensures NewDirectRows(rows, dpId, dpName, items)[k] == NewDirectRows(rows, dpId, dpName, items[..|items| - 1])[k]
  {
  }

  /** The last mapping of `items` adds its row when no row of `rows`
      carries its id. */
  lemma NewDirectRowsLast(rows: seq<Row>, dpId: string, dpName: string, items: seq<(string, Mapping)>)
    requires items != []
    ensures var n := |items| - 1;
      NewDirectRows(rows, dpId, dpName, items) == NewDirectRows(rows, dpId, dpName, items[..n])
        + if HasId(rows, items[n].0) then [] else [DirectRow(dpId, dpName, items[n].0, items[n].1)]
  {
  }

  /** With distinct technical ids, a mapping's row is among the rows the
      second loop adds exactly when no row of `rows` carries its id. */
  lemma NewDirectRowsIff(rows: seq<Row>, dpId: string, dpName: string, items: seq<(string, Mapping)>, j: int)
    requires Distinct(Keys(items)) && 0 <= j < |items|
    ensures HasId(NewDirectRows(rows, dpId, dpName, items), items[j].0) <==> !HasId(rows, items[j].0)
  {
    var added := NewDirectRows(rows, dpId, dpName, items);
    if HasId(added, items[j].0) {
      var r :| 0 <= r < |added| && added[r].technicalId == items[j].0;
      NewDirectRowsFrom(rows, dpId, dpName, items, r);
      var i :| 0 <= i < |items| && !HasId(rows, items[i].0) && added[r] == DirectRow(dpId, dpName, items[i].0, items[i].1);
      assert Keys(items)[i] == Keys(items)[j];
    }
    if !HasId(rows, items[j].0) {
      NewDirectRowsHas(rows, dpId, dpName, items, j);
      var k :| 0 <= k < |added| && added[k] == DirectRow(dpId, dpName, items[j].0, items[j].1);
      assert added[k].technicalId == items[j].0;
    }
  }

  /** A row the second loop adds for the mapping `tid` holds that mapping:
      its display name and sample value, the data-field kind, and a column
      named after the display name, or after `tid` when that is empty. */
  lemma DirectRowsAt(base: seq<Row>, dpId: string, dpName: string, dm: Dict<string, Mapping>, tid: string)
    requires dm.Valid() && tid in dm.entries
    ensures var added := NewDirectRows(base, dpId, dpName, Items(dm));
      var mm := dm.entries[tid];
      forall k :: 0 <= k < |added| && added[k].technicalId == tid ==>
        && added[k].providerId == dpId && added[k].provider == dpName
        && added[k].displayName == mm.displayName && added[k].sampleValue == mm.sampleValue
        && added[k].fieldType == DataField && added[k].formula == "" && added[k].description == "Direct mapping"
        && added[k].table == "" && added[k].xmlId == ""
        && added[k].column == CleanColumnName(if mm.displayName != "" then mm.displayName else tid)
  {
    var added := NewDirectRows(base, dpId, dpName, Items(dm));
    forall k | 0 <= k < |added| && added[k].technicalId == tid
      ensures added[k] == DirectRow(dpId, dpName, tid, dm.entries[tid])
    {
      NewDirectRowsFrom(base, dpId, dpName, Items(dm), k);
    }
  }

  /** `process_enhanced_mappings` only appends: the list before the call is
      a prefix of the list after it. */
  lemma MergeAppendOnly(rows: seq<Row>, dpId: string, dpName: string, info: Dict<string, FieldInfo>,
                        dm: Dict<string, Mapping>, forms: Dict<string, string>)
    requires info.Valid() && dm.Valid() && forms.Valid()
    ensures var m := Merge(rows, dpId, dpName, info, dm, forms);
      |rows| <= |m| && m[..|rows|] == rows
  {
    var base := rows + FieldRows(dpId, dpName, Items(info));
    var d := DirectRows(base, dpId, dpName, Items(dm));
    assert d[..|base|] == base;
    assert base[..|rows|] == rows;
    assert (d + FormulaRows(dpId, dpName, Items(forms)))[..|rows|] == d[..|rows|];
  }

  /** A provider with no field, no direct mapping and no formula adds no row. */
  lemma MergeNothing(rows: seq<Row>, dpId: string, dpName: string, info: Dict<string, FieldInfo>,
                     dm: Dict<string, Mapping>, forms: Dict<string, string>)
    requires info.Valid() && dm.Valid() && forms.Valid()
    requires info.order == [] && dm.order == [] && forms.order == []
    ensures Merge(rows, dpId, dpName, info, dm, forms) == rows
  {
    assert Items(dm) == [];
    assert rows + FieldRows(dpId, dpName, Items(info)) == rows;
    assert rows + FormulaRows(dpId, dpName, Items(forms)) == rows;
  }

  /** The rows a call appends: the field rows, then the rows of the direct
      mappings whose technical id no row carried before the second loop
      (neither an earlier provider's row nor a field row of this call), then
      every formula row. */
  lemma MergeParts(rows: seq<Row>, dpId: string, dpName: string, info: Dict<string, FieldInfo>,
                   dm: Dict<string, Mapping>, forms: Dict<string, string>)
    requires info.Valid() && dm.Valid() && forms.Valid()
    ensures var base := rows + FieldRows(dpId, dpName, Items(info));
      Merge(rows, dpId, dpName, info, dm, forms) ==
        base + NewDirectRows(base, dpId, dpName, Items(dm)) + FormulaRows(dpId, dpName, Items(forms))
  {
    ItemsDistinct(dm);
    DirectRowsFilter(rows + FieldRows(dpId, dpName, Items(info)), dpId, dpName, Items(dm));
  }

  /** A direct mapping `tid` gets a row exactly when no row already in the
      list, from any provider and including the field rows of this call,
      carries `tid`. */
  lemma MergeDirectIff(rows: seq<Row>, dpId: string, dpName: string, info: Dict<string, FieldInfo>,
                       dm: Dict<string, Mapping>, forms: Dict<string, string>, tid: string)
    requires info.Valid() && dm.Valid() && forms.Valid() && tid in dm.entries
    ensures var base := rows + FieldRows(dpId, dpName, Items(info));
      HasId(NewDirectRows(base, dpId, dpName, Items(dm)), tid) <==> !HasId(base, tid)
  {
    var j :| 0 <= j < |dm.order| && dm.order[j] == tid;
    ItemsDistinct(dm);
    NewDirectRowsIff(rows + FieldRows(dpId, dpName, Items(info)), dpId, dpName, Items(dm), j);
  }

  /** Every row of `rs` is filed under the provider `dpId` named `dpName`. */
  predicate Labelled(rs: seq<Row>, dpId: string, dpName: string) {
    forall k :: 0 <= k < |rs| ==> rs[k].providerId == dpId && rs[k].provider == dpName
  }

  /** The rows the second loop adds carry the provider's id and name. */
  lemma {:induction false} NewDirectRowsLabelled(rows: seq<Row>, dpId: string, dpName: string, items: seq<(string, Mapping)>)
    ensures Labelled(NewDirectRows(rows, dpId, dpName, items), dpId, dpName)
    decreases |items|
  {
    if items != [] {
      NewDirectRowsLabelled(rows, dpId, dpName, items[..|items| - 1]);
    }
  }

  lemma LabelledConcat(a: seq<Row>, b: seq<Row>, dpId: string, dpName: string)
    requires Labelled(a, dpId, dpName) && Labelled(b, dpId, dpName)
    ensures Labelled(a + b, dpId, dpName)
  {
    forall k | 0 <= k < |a + b|
      ensures (a + b)[k].providerId == dpId && (a + b)[k].provider == dpName
    {
      if k >= |a| {
        assert (a + b)[k] == b[k - |a|];
      }
    }
  }

  lemma AppendedLabelled(rows: seq<Row>, a: seq<Row>, b: seq<Row>, c: seq<Row>, dpId: string, dpName: string)
    requires Labelled(a, dpId, dpName) && Labelled(b, dpId, dpName) && Labelled(c, dpId, dpName)
    ensures Labelled((rows + a + b + c)[|rows|..], dpId, dpName)
  {
    LabelledConcat(a, b, dpId, dpName);
    LabelledConcat(a + b, c, dpId, dpName);
    assert (rows + a + b + c)[|rows|..] == a + b + c;
  }

  /** Every row a call appends is filed under the provider's id and the name
      it was given. */
  lemma MergeLabelled(rows: seq<Row>, dpId: string, dpName: string, info: Dict<string, FieldInfo>,
                      dm: Dict<string, Mapping>, forms: Dict<string, string>)
    requires info.Valid() && dm.Valid() && forms.Valid()
    ensures var m := Merge(rows, dpId, dpName, info, dm, forms);
      |rows| <= |m| && Labelled(m[|rows|..], dpId, dpName)
  {
    var fields := FieldRows(dpId, dpName, Items(info));
    var base := rows + fields;
    var nd := NewDirectRows(base, dpId, dpName, Items(dm));
    var fr := FormulaRows(dpId, dpName, Items(forms));
    MergeParts(rows, dpId, dpName, info, dm, forms);
    NewDirectRowsLabelled(base, dpId, dpName, Items(dm));
    AppendedLabelled(rows, fields, nd, fr, dpId, dpName);
  }

  /** The document-level rows: the `k`-th calculated field under `CALC` as a
      calculated field, then the `k`-th report variable under `VAR` as a
      report variable, each carrying the object's id, name, formula and
      description, with its column named after the name. */
  lemma DocumentRowsAt(cfs: seq<DocObject>, rvs: seq<DocObject>, k: int)
    requires 0 <= k < |cfs| + |rvs|
    ensures var row := DocumentRows(cfs, rvs)[k];
      var o := if k < |cfs| then cfs[k] else rvs[k - |cfs|];
      && (k < |cfs| ==>
        && row.providerId == "CALC" && row.provider == "Document Variables" && row.fieldType == CalculatedField)
      && (k >= |cfs| ==>
        && row.providerId == "VAR" && row.provider == "Report Variables" && row.fieldType == ReportVariable)
      && row.technicalId == o.id && row.displayName == o.name
      && row.formula == o.formula && row.description == o.description
      && row.sampleValue == "" && row.table == "" && row.xmlId == ""
      && row.column == CleanColumnName(o.name) && IsColumnName(row.column)
  {
    if k < |cfs| {
      CleanColumnNameShape(cfs[k].name);
    } else {
      CleanColumnNameShape(rvs[k - |cfs|].name);
    }
  }
}
