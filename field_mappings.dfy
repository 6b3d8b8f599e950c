/** `extract_field_mappings`: locate the archive in the container, classify
    the data providers, collect the document-level objects, merge the fields
    of every data-provider folder into one list of rows, append the
    document-level rows, and split the list into the sheets written out. */
module FieldMappings {
  import opened Strings
  import opened Dicts
  import opened Archive
  import opened ProviderNames
  import opened QuerySpecFields
  import opened DirectMappings
  import opened DpFormulas
  import opened DocumentObjects
  import opened Merger

  /** A folder entry of a data provider: a directory name (ending in `/`)
      below a `DATAPROVIDERS` folder whose own name starts with `DP`. */
  predicate IsDpFolder(f: string) {
    EndsWith(f, "/") && Contains(f, "/DATAPROVIDERS/DP")
  }

  /** `[f for f in z.namelist() if f.endswith('/') and '/DATAPROVIDERS/DP' in f]`. */
  function DpFolders(names: seq<string>): (fs: seq<string>)
    ensures forall k :: 0 <= k < |fs| ==> IsDpFolder(fs[k])
    ensures |fs| <= |names|
  {
    if names == [] then []
    else
      var n := names[|names| - 1];
      DpFolders(names[..|names| - 1]) + if IsDpFolder(n) then [n] else []
  }

  /** The folders kept are exactly the listed names that are folders of a
      data provider. */
  lemma {:induction false} DpFoldersMembers(names: seq<string>, f: string)
    ensures f in DpFolders(names) <==> f in names && IsDpFolder(f)
  {
    if names != [] {
      var init := names[..|names| - 1];
      DpFoldersMembers(init, f);
      assert names == init + [names[|names| - 1]];
    }
  }

  /** A name ending in the separator splits into at least two pieces, the
      last of them empty. */
  lemma SplitTrailing(s: string, sep: char)
    requires s != [] && s[|s| - 1] == sep
    ensures |Split(s, sep)| >= 2 && Split(s, sep)[|Split(s, sep)| - 1] == ""
  {
  }

  /** `dp_folder.split('/')[-2]`: the last path segment of the folder. */
  function FolderId(folder: string): (id: string)
    requires EndsWith(folder, "/")
  {
    var parts := Split(folder, '/');
    SplitTrailing(folder, '/');
    parts[|parts| - 2]
  }

  /** The id is the last segment of the folder path: it holds no `/`, and
      the folder is some parent path, then the id, then `/`. */
  lemma FolderIdSegment(folder: string)
    requires EndsWith(folder, "/")
    ensures '/' !in FolderId(folder)
    ensures exists parent :: folder == parent + FolderId(folder) + "/" && (parent == "" || parent[|parent| - 1] == '/')
  {
    var parts := Split(folder, '/');
    SplitTrailing(folder, '/');
    SplitPieces(folder, '/');
    SplitJoin(folder, '/');
    assert FolderId(folder) == parts[|parts| - 2];
    JoinLastSegment(parts, '/');
  }

  /** Pieces whose last one is empty join to some parent path, the
      next-to-last piece, and the separator. */
  lemma JoinLastSegment(parts: seq<string>, sep: char)
    requires |parts| >= 2 && parts[|parts| - 1] == ""
    ensures exists parent ::
              Join(parts, sep) == parent + parts[|parts| - 2] + [sep] && (parent == "" || parent[|parent| - 1] == sep)
  {
    var p := parts[..|parts| - 1];
    var id := p[|p| - 1];
    assert Join(parts, sep) == Join(p, sep) + [sep] + "";
    if |p| == 1 {
      assert Join(p, sep) == id;
      assert Join(parts, sep) == "" + id + [sep];
    } else {
      var parent := Join(p[..|p| - 1], sep) + [sep];
      assert Join(p, sep) == Join(p[..|p| - 1], sep) + [sep] + id;
      assert Join(parts, sep) == parent + id + [sep];
    }
  }


  /** `extract_comprehensive_field_info(xml) if xml else {}` for the entry
      `scan`: no fragment gives the empty table. */
  function FieldInfoFor(scan: EntryScan): (d: Dict<string, FieldInfo>)
    ensures d.Valid()
  {
    if scan.querySpec.None? then Empty()
    else FieldInfoOf(scan.querySpec.value, scan.elements, scan.queryCalcs)
  }

  /** The rows one data-provider folder appends to `rows`: none when the
      archive has no `DP_Generic` entry in the folder. */
  function ProviderStep(rows: seq<Row>, z: Zip, dpNames: Dict<string, string>, folder: string): seq<Row>
    requires z.Valid() && EndsWith(folder, "/")
  {
    var dpId := FolderId(folder);
    var dpg := folder + "DP_Generic";
    if dpg !in z.names then rows
    else
      var scan := z.contents[dpg];
      Merge(rows, dpId, NameOr(dpNames, dpId), FieldInfoFor(scan),
        DirectMappingsOf(scan.assignments, scan.references),
        FormulaTable(dpId, StripAll(scan.formulaAttrs), StripAll(scan.expressionAttrs), StripAll(scan.calculationAttrs)))
  }

  /** The list after the data-provider loop has handled `folders`. */
  function ProviderRows(z: Zip, dpNames: Dict<string, string>, folders: seq<string>): seq<Row>
    requires z.Valid() && forall k :: 0 <= k < |folders| ==> IsDpFolder(folders[k])
  {
    if folders == [] then []
    else
      var n := |folders| - 1;
      assert IsDpFolder(folders[n]);
      ProviderStep(ProviderRows(z, dpNames, folders[..n]), z, dpNames, folders[n])
  }

  lemma ProviderRowsStep(z: Zip, dpNames: Dict<string, string>, folders: seq<string>, i: int)
    requires z.Valid() && forall k :: 0 <= k < |folders| ==> IsDpFolder(folders[k])
    requires 0 <= i < |folders|
    ensures ProviderRows(z, dpNames, folders[..i + 1]) ==
      ProviderStep(ProviderRows(z, dpNames, folders[..i]), z, dpNames, folders[i])
  {
    assert folders[..i + 1][..i] == folders[..i];
  }

  /** The document-level calculated fields and report variables. */
  function CalcFields(z: Zip): seq<DocObject>
    requires z.Valid()
  {
    Numbered("CF_", CalcMatches(z.names, z.contents))
  }

  function ReportVars(z: Zip): seq<DocObject>
    requires z.Valid()
  {
    Numbered("RV_", VarMatches(z.names, z.contents))
  }

  /** Every row of the field map, before sorting. */
  function AllRows(z: Zip): seq<Row>
    requires z.Valid()
  {
    ProviderRows(z, DataProviderNames(z), DpFolders(z.names)) + DocumentRows(CalcFields(z), ReportVars(z))
  }

  /** The "Calculated Fields" sheet's test: the `Field Type` text is one of
      the two calculated kinds' names. */
  predicate IsCalculatedKind(t: FieldType) {
    FieldTypeName(t) in ["Calculated Field", "Report Variable"]
  }

  /** The test on the `Field Type` text picks exactly the calculated fields
      and the report variables, since every kind has its own name. */
  lemma CalculatedKindIff(t: FieldType)
    ensures IsCalculatedKind(t) <==> t == CalculatedField || t == ReportVariable
    ensures forall u: FieldType :: FieldTypeName(u) == FieldTypeName(t) ==> u == t
  {
  }

  /** The rows of the "Calculated Fields" sheet, in order. */
  function CalculatedRows(rows: seq<Row>): (r: seq<Row>)
    ensures forall k :: 0 <= k < |r| ==> IsCalculatedKind(r[k].fieldType)
  {
    if rows == [] then []
    else
      var last := rows[|rows| - 1];
      CalculatedRows(rows[..|rows| - 1]) + if IsCalculatedKind(last.fieldType) then [last] else []
  }

  /** The rows of the "Data Fields" sheet, in order. */
  function DataRows(rows: seq<Row>): (r: seq<Row>)
    ensures forall k :: 0 <= k < |r| ==> !IsCalculatedKind(r[k].fieldType)
  {
    if rows == [] then []
    else
      var last := rows[|rows| - 1];
      DataRows(rows[..|rows| - 1]) + if IsCalculatedKind(last.fieldType) then [] else [last]
  }

  /** The sheets of the workbook; the "Calculated Fields" sheet is written
      only when it has rows. The CSV file holds the rows of `all`. */
  datatype Sheets = Sheets(all: seq<Row>, calculated: Option<seq<Row>>, data: seq<Row>)

  function SheetsOf(rows: seq<Row>): Sheets {
    var cf := CalculatedRows(rows);
    Sheets(rows, if cf == [] then None else Some(cf), DataRows(rows))
  }

  /** What processing one container gives: the error raised when it holds
      no archive, the warning when no field is found, or the sheets. */
  datatype Outcome = Failed(error: WidError) | NoFields | Written(sheets: Sheets)

  /** `extract_field_mappings` on the container bytes `raw`, whose embedded
      archive is `z`. */
  function FieldMap(raw: seq<byte>, z: Zip): Outcome
    requires z.Valid()
  {
    match LocateZip(raw)
    case Failure(e) => Failed(e)
    case Success(_) =>
      var rows := AllRows(z);
      if rows == [] then NoFields else Written(SheetsOf(rows))
  }

  /** One pass of the data-provider loop: the folder's `DP_Generic` entry,
      when the archive has one, is extracted and merged into `mappings`. */
  method AddProviderRows(mappings: Mappings, z: Zip, dpNames: Dict<string, string>, folder: string)
    requires z.Valid() && EndsWith(folder, "/")
    modifies mappings
    ensures mappings.rows == ProviderStep(old(mappings.rows), z, dpNames, folder)
  {
    var dpId := FolderId(folder);
    var dpNm := NameOr(dpNames, dpId);
    var dpg := folder + "DP_Generic";
    if dpg in z.names {
      var scan := z.contents[dpg];
      var info := Empty();
      if scan.querySpec.Some? {
        info := ExtractComprehensiveFieldInfo(scan.querySpec.value, scan.elements, scan.queryCalcs);
      }
      var directMap := ExtractDirectMappings(scan.assignments, scan.references);
      var dpForms := ExtractDpFormulas(dpId, scan.formulaAttrs, scan.expressionAttrs, scan.calculationAttrs);
      mappings.ProcessEnhancedMappings(dpId, dpNm, info, directMap, dpForms);
    }
  }

  method ExtractFieldMappings(raw: seq<byte>, z: Zip) returns (out: Outcome)
    requires z.Valid()
    ensures out == FieldMap(raw, z)
  {
    var located := LocateZip(raw);
    if located.Failure? {
      return Failed(located.error);
    }
    var dpNames := ExtractDataProviderNames(z);
    var calcFields := ExtractCalculatedFields(z);
    var reportVars := ExtractReportVariables(z);
    var mappings := new Mappings();
    var folders := DpFolders(z.names);
    var i := 0;
    while i < |folders|
      invariant 0 <= i <= |folders|
      invariant mappings.rows == ProviderRows(z, dpNames, folders[..i])
    {
      ProviderRowsStep(z, dpNames, folders, i);
      AddProviderRows(mappings, z, dpNames, folders[i]);
      i := i + 1;
    }
    assert folders[..|folders|] == folders;
    mappings.AddDocumentRows(calcFields, reportVars);
    if mappings.rows == [] {
      return NoFields;
    }
    return Written(SheetsOf(mappings.rows));
  }

  /** The container fails exactly when its bytes hold no ZIP signature,
      and then with that error. */
  lemma FieldMapFails(raw: seq<byte>, z: Zip)
    requires z.Valid()
    ensures FieldMap(raw, z).Failed? <==> forall j :: !MatchAt(raw, ZipSignature, j)
    ensures FieldMap(raw, z).Failed? ==> FieldMap(raw, z).error == NoZipSignature
  {
  }

  /** Nothing is written exactly when no row was found; otherwise the
      full sheet holds every row. */
  lemma FieldMapWritten(raw: seq<byte>, z: Zip)
    requires z.Valid() && exists j :: MatchAt(raw, ZipSignature, j)
    ensures FieldMap(raw, z).NoFields? <==> AllRows(z) == []
    ensures FieldMap(raw, z).Written? ==> FieldMap(raw, z).sheets.all == AllRows(z)
  {
  }

  /** The two sheets split the rows: every row lands in exactly one of
      them, the calculated ones (calculated fields and report variables) in
      the first, all others in the second. */
  lemma {:induction false} SheetsPartition(rows: seq<Row>)
    ensures multiset(CalculatedRows(rows)) + multiset(DataRows(rows)) == multiset(rows)
  {
    if rows != [] {
      var init := rows[..|rows| - 1];
      SheetsPartition(init);
      assert rows == init + [rows[|rows| - 1]];
    }
  }

  /** A row is on the "Calculated Fields" sheet exactly when it is one of
      the rows and of a calculated kind. */
  lemma {:induction false} CalculatedRowsMembers(rows: seq<Row>, r: Row)
    ensures r in CalculatedRows(rows) <==> r in rows && IsCalculatedKind(r.fieldType)
  {
    if rows != [] {
      var init := rows[..|rows| - 1];
      CalculatedRowsMembers(init, r);
      assert rows == init + [rows[|rows| - 1]];
    }
  }

  /** A row is on the "Data Fields" sheet exactly when it is one of the rows
      and not of a calculated kind. */
  lemma {:induction false} DataRowsMembers(rows: seq<Row>, r: Row)
    ensures r in DataRows(rows) <==> r in rows && !IsCalculatedKind(r.fieldType)
  {
    if rows != [] {
      var init := rows[..|rows| - 1];
      DataRowsMembers(init, r);
      assert rows == init + [rows[|rows| - 1]];
    }
  }

  /** A folder only appends to the list. */
  lemma ProviderStepAppends(rows: seq<Row>, z: Zip, dpNames: Dict<string, string>, folder: string)
    requires z.Valid() && EndsWith(folder, "/")
    ensures var r := ProviderStep(rows, z, dpNames, folder); |rows| <= |r| && r[..|rows|] == rows
  {
    var dpId := FolderId(folder);
    var dpg := folder + "DP_Generic";
    if dpg in z.names {
      var scan := z.contents[dpg];
      MergeAppendOnly(rows, dpId, NameOr(dpNames, dpId), FieldInfoFor(scan),
        DirectMappingsOf(scan.assignments, scan.references),
        FormulaTable(dpId, StripAll(scan.formulaAttrs), StripAll(scan.expressionAttrs), StripAll(scan.calculationAttrs)));
    }
  }

  /** Every row a folder adds is filed under the folder's id and under the
      name `dp_names` gives that id, or the id itself when it has none. */
  lemma ProviderStepLabelled(rows: seq<Row>, z: Zip, dpNames: Dict<string, string>, folder: string)
    requires z.Valid() && EndsWith(folder, "/")
    ensures var r := ProviderStep(rows, z, dpNames, folder);
      |rows| <= |r| && Labelled(r[|rows|..], FolderId(folder), NameOr(dpNames, FolderId(folder)))
  {
    var dpId := FolderId(folder);
    var dpg := folder + "DP_Generic";
    if dpg in z.names {
      var scan := z.contents[dpg];
      MergeLabelled(rows, dpId, NameOr(dpNames, dpId), FieldInfoFor(scan),
        DirectMappingsOf(scan.assignments, scan.references),
        FormulaTable(dpId, StripAll(scan.formulaAttrs), StripAll(scan.expressionAttrs), StripAll(scan.calculationAttrs)));
    } else {
      assert rows[|rows|..] == [];
    }
  }

  /** A prefix of a prefix is a prefix. */
  lemma PrefixTransitive(a: seq<Row>, b: seq<Row>, c: seq<Row>)
    requires |a| <= |b| && b[..|a|] == a && |b| <= |c| && c[..|b|] == b
    ensures |a| <= |c| && c[..|a|] == a
  {
    assert c[..|a|] == c[..|b|][..|a|];
  }

  /** The rows of the earlier folders are never changed by the later ones. */
  lemma {:induction false} ProviderRowsPrefix(z: Zip, dpNames: Dict<string, string>, folders: seq<string>, i: nat)
    requires z.Valid() && forall k :: 0 <= k < |folders| ==> IsDpFolder(folders[k])
    requires i <= |folders|
    ensures var before := ProviderRows(z, dpNames, folders[..i]);
      var after := ProviderRows(z, dpNames, folders);
      |before| <= |after| && after[..|before|] == before
    decreases |folders|
  {
    if i < |folders| {
      var n := |folders| - 1;
      var before := ProviderRows(z, dpNames, folders[..i]);
      var prev := ProviderRows(z, dpNames, folders[..n]);
      var after := ProviderRows(z, dpNames, folders);
      assert folders[..n][..i] == folders[..i];
      ProviderRowsPrefix(z, dpNames, folders[..n], i);
      assert IsDpFolder(folders[n]);
      ProviderStepAppends(prev, z, dpNames, folders[n]);
      ProviderRowsStep(z, dpNames, folders, n);
      assert folders[..n + 1] == folders;
      PrefixTransitive(before, prev, after);
    } else {
      assert folders[..i] == folders;
    }
  }

  /** A folder whose `DP_Generic` entry yields no field, no reference and
      no formula adds no row. */
  lemma EmptyProviderAddsNothing(rows: seq<Row>, z: Zip, dpNames: Dict<string, string>, folder: string)
    requires z.Valid() && EndsWith(folder, "/")
    requires var dpg := folder + "DP_Generic"; dpg in z.names ==>
      var scan := z.contents[dpg];
      && FieldInfoFor(scan).order == []
      && scan.assignments == [] && scan.references == []
      && scan.formulaAttrs == [] && scan.expressionAttrs == [] && scan.calculationAttrs == []
    ensures ProviderStep(rows, z, dpNames, folder) == rows
  {
    var dpId := FolderId(folder);
    var dpg := folder + "DP_Generic";
    if dpg in z.names {
      var scan := z.contents[dpg];
      var info := FieldInfoFor(scan);
      var dm := DirectMappingsOf(scan.assignments, scan.references);
      var forms := FormulaTable(dpId, StripAll(scan.formulaAttrs), StripAll(scan.expressionAttrs), StripAll(scan.calculationAttrs));
      assert dm.order == [];
      FormulaTableOrder(dpId, StripAll(scan.formulaAttrs), StripAll(scan.expressionAttrs), StripAll(scan.calculationAttrs));
      MergeNothing(rows, dpId, NameOr(dpNames, dpId), info, dm, forms);
    }
  }

  /** After any rows `pr` come the document-level rows: the `k`-th
      calculated field as row `CF_<k>` of provider `CALC`, then the `k`-th
      report variable as row `RV_<k>` of provider `VAR`. */
  lemma NumberedRowIds(pr: seq<Row>, cm: seq<(string, NamedFormula)>, vm: seq<(string, NamedFormula)>, k: int)
    requires 0 <= k < |cm| + |vm|
    ensures var row := (pr + DocumentRows(Numbered("CF_", cm), Numbered("RV_", vm)))[|pr| + k];
      && (k < |cm| ==>
        row.providerId == "CALC" && row.fieldType == CalculatedField && row.technicalId == "CF_" + NatToString(k))
      && (k >= |cm| ==>
        row.providerId == "VAR" && row.fieldType == ReportVariable
        && row.technicalId == "RV_" + NatToString(k - |cm|))
  {
    var cfs, rvs := Numbered("CF_", cm), Numbered("RV_", vm);
    var all := pr + (CalcRows(cfs) + VarRows(rvs));
    if k < |cm| {
      assert all[|pr| + k] == CalcRow(cfs[k]);
      NumberedAt("CF_", cm, k);
    } else {
      assert all[|pr| + k] == VarRow(rvs[k - |cm|]);
      NumberedAt("RV_", vm, k - |cm|);
    }
  }

  /** The rows before sorting are the provider rows, then the numbered
      calculated fields, then the numbered report variables. */
  lemma AllRowsParts(z: Zip)
    requires z.Valid()
    ensures |CalcFields(z)| == |CalcMatches(z.names, z.contents)|
    ensures |ReportVars(z)| == |VarMatches(z.names, z.contents)|
    ensures AllRows(z) == ProviderRows(z, DataProviderNames(z), DpFolders(z.names))
      + DocumentRows(Numbered("CF_", CalcMatches(z.names, z.contents)), Numbered("RV_", VarMatches(z.names, z.contents)))
  {
  }

  /** The `k`-th calculated field is row `CF_<k>` of provider `CALC`,
      right after the provider rows. */
  lemma CalcRowId(z: Zip, k: int)
    requires z.Valid() && 0 <= k < |CalcFields(z)|
    ensures var row := AllRows(z)[|ProviderRows(z, DataProviderNames(z), DpFolders(z.names))| + k];
      row.providerId == "CALC" && row.fieldType == CalculatedField && row.technicalId == "CF_" + NatToString(k)
  {
    var pr := ProviderRows(z, DataProviderNames(z), DpFolders(z.names));
    var cm, vm := CalcMatches(z.names, z.contents), VarMatches(z.names, z.contents);
    AllRowsParts(z);
    NumberedRowIds(pr, cm, vm, k);
  }

  /** The `k`-th report variable is row `RV_<k>` of provider `VAR`, after
      the provider rows and the calculated fields. */
  lemma VarRowId(z: Zip, k: int)
    requires z.Valid() && 0 <= k < |ReportVars(z)|
    ensures var row := AllRows(z)[|ProviderRows(z, DataProviderNames(z), DpFolders(z.names))| + |CalcFields(z)| + k];
      row.providerId == "VAR" && row.fieldType == ReportVariable && row.technicalId == "RV_" + NatToString(k)
  {
    var pr := ProviderRows(z, DataProviderNames(z), DpFolders(z.names));
    var cm, vm := CalcMatches(z.names, z.contents), VarMatches(z.names, z.contents);
    AllRowsParts(z);
    NumberedVarRowIds(pr, cm, vm, k);
  }

  /** `NumberedRowIds` for the `k`-th report variable, counted after the
      calculated fields. */
  lemma NumberedVarRowIds(pr: seq<Row>, cm: seq<(string, NamedFormula)>, vm: seq<(string, NamedFormula)>, k: int)
    requires 0 <= k < |vm|
    ensures var row := (pr + DocumentRows(Numbered("CF_", cm), Numbered("RV_", vm)))[|pr| + |cm| + k];
      row.providerId == "VAR" && row.fieldType == ReportVariable && row.technicalId == "RV_" + NatToString(k)
  {
    var j := |cm| + k;
    assert j - |cm| == k;
    NumberedRowIds(pr, cm, vm, j);
  }


}
