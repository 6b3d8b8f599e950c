# WID field-map extractor, modelled in Dafny

`wid_script_SAP.py` reads an SAP BusinessObjects Web Intelligence document
(`.wid`). It finds the ZIP archive embedded in the container and walks the
archive's data providers (`DATAPROVIDERS/DPn/DP_Generic`). It collects every
field it can find in four ways:

- the attributes of the QuerySpec XML elements and its QueryCalculation
  elements;
- direct `name = value, DPn.DOx` mappings;
- `formula=`/`expression=`/`calculation=` attributes;
- the document-level calculated fields and report variables.

It merges these into one list of rows, one column name per row, and writes
that list out as an "All Fields" sheet, a "Calculated Fields" sheet and a
"Data Fields" sheet.

This project models that core:

- `strings.dfy` (`Strings`): the string operations the script relies on.
  These are Python's `isspace`, `strip`, ASCII `lower`/`upper`, `in`,
  `endswith`, `split` and decimal `str(int)`.
- `dicts.dfy` (`Dicts`): a Python `dict` as an insertion-ordered table. It
  has `d[k] = v` (`Put`, which keeps an existing key's position) and
  `setdefault` (`SetDefault`). It also has the lemmas about runs of writes
  that the extractors share.
- `archive.dfy` (`Archive`): the ZIP signature search, and the view of the
  archive that the extractors read.
  - The archive is given as its name list plus, for every entry, what the
    script's regular expressions and the XML parser find in the entry's text
    (an `EntryScan`).
  - The patterns themselves and the XML parser are not modelled; their
    results are inputs.
- `column_names.dfy` (`ColumnNames`): `clean_column_name`.
- `provider_names.dfy` (`ProviderNames`): `extract_data_provider_names`.
- `field_info.dfy` (`QuerySpecFields`): `extract_comprehensive_field_info`.
- `direct_mappings.dfy` (`DirectMappings`): `extract_direct_mappings`.
- `dp_formulas.dfy` (`DpFormulas`): `extract_dp_formulas`.
- `document_objects.dfy` (`DocumentObjects`): `extract_calculated_fields`
  and `extract_report_variables`.
- `merger.dfy` (`Merger`): the rows, the class `Mappings` holding the shared
  row list, and `process_enhanced_mappings` with its three loops.
- `field_mappings.dfy` (`FieldMappings`): `extract_field_mappings`. This
  covers archive location, the data-provider folder loop, the document-level
  rows, the empty check and the sheet split.

Each `for` statement of the script is a method with loop invariants, proved
equal to a specification function; the `dp_folders` comprehension is the
recursive function `DpFolders`. The properties the script's behaviour
promises are lemmas about those functions.

`clean_column_name` is not idempotent. It deletes `_` along with the other
punctuation, so `sales_amount_2024` becomes `salesamount2024`
(`ColumnNames.CleanNotIdempotent`). `Sales $ Amount 2024` becomes
`sales_amount_2024`, `123abc` becomes `f_123abc`, and a name with no letter or
digit becomes the empty string.

## Model

| member | source | states |
|---|---|---|
| Archive.Find | wid_script_SAP.py:13 | `raw.find(sig)` is -1 exactly when the signature occurs nowhere; otherwise it is the lowest index where it occurs |
| Archive.LocateZip | wid_script_SAP.py:12-16 | fails exactly when the bytes hold no `PK\x03\x04`; otherwise the payload is the bytes from the first signature on |
| FieldMappings.FieldMapFails | wid_script_SAP.py:13-15 | a container fails with the missing-signature error exactly when it holds no ZIP signature (the archive after the signature is taken as given; see Left out) |
| FieldMappings.DpFoldersMembers | wid_script_SAP.py:33 | a name is visited as a data-provider folder exactly when it is listed, ends in `/` and contains `/DATAPROVIDERS/DP` |
| FieldMappings.FolderIdSegment | wid_script_SAP.py:35 | `split('/')[-2]` of a folder is its last path segment: it holds no `/`, and the folder is a parent path, then the id, then `/` |
| FieldMappings.ProviderStepLabelled | wid_script_SAP.py:35-36 | every row a folder adds is filed under the folder's id and under `dp_names.get(dp_id, dp_id)` |
| ProviderNames.ProviderNameLookup | wid_script_SAP.py:36 | the name a provider id is filed under is the label of the last `DP_Generic` entry carrying that token, or the id itself when no entry carries it |
| Merger.MergeLabelled | wid_script_SAP.py:249-294 | every row `process_enhanced_mappings` appends carries the provider id and name it was given |
| FieldMappings.EmptyProviderAddsNothing | wid_script_SAP.py:37-55 | a folder whose `DP_Generic` yields no field, no reference and no formula (or that has no `DP_Generic`) adds no row |
| FieldMappings.ProviderStepAppends | wid_script_SAP.py:34-55 | one data-provider folder only appends to the row list |
| FieldMappings.ProviderRowsPrefix | wid_script_SAP.py:34-55 | the rows of earlier folders are never changed by later folders |
| FieldMappings.NumberedRowIds | wid_script_SAP.py:58-85 | after any rows, the `k`-th calculated field is a `CALC` calculated-field row with id `CF_<k>`, and the `k`-th report variable is a `VAR` report-variable row with id `RV_<k>` |
| FieldMappings.CalcRowId | wid_script_SAP.py:58-71 | in the full list, the `k`-th calculated field is the `CALC` row `CF_<k>` right after the provider rows |
| FieldMappings.VarRowId | wid_script_SAP.py:72-85 | in the full list, the `k`-th report variable is the `VAR` row `RV_<k>` after the calculated fields |
| FieldMappings.AddProviderRows | wid_script_SAP.py:35-55 | one pass of the data-provider loop appends exactly `ProviderStep`: nothing without a `DP_Generic` entry, otherwise the merge of its three tables |
| FieldMappings.ExtractFieldMappings | wid_script_SAP.py:6-117 | the method computes exactly the outcome `FieldMap` of the container: failure, no fields, or the three sheets |
| FieldMappings.FieldMapWritten | wid_script_SAP.py:88-91 | given a signature, nothing is written exactly when no row was found; otherwise "All Fields" holds every row |
| FieldMappings.SheetsPartition | wid_script_SAP.py:107-111 | the "Calculated Fields" and "Data Fields" sheets together hold the rows of "All Fields" as a multiset |
| FieldMappings.CalculatedKindIff | wid_script_SAP.py:107-110 | the `isin` test on the `Field Type` text picks exactly the Calculated Field and Report Variable kinds, as every kind has its own name |
| FieldMappings.CalculatedRowsMembers | wid_script_SAP.py:107-109 | a row is on "Calculated Fields" exactly when it is a row of type Calculated Field or Report Variable |
| FieldMappings.DataRowsMembers | wid_script_SAP.py:110-111 | a row is on "Data Fields" exactly when it is a row of neither of those types |
| ProviderNames.DpToken | wid_script_SAP.py:125-128 | `re.search(r'(DP\d+)')` is None exactly when no `DP<digit>` occurs; otherwise it is `DP` plus the maximal digit run at the leftmost occurrence |
| ProviderNames.Label | wid_script_SAP.py:139-151 | the name is one of BEx, EMP, universes or the token itself, and it is the token when there is no QuerySpec fragment or it is empty |
| ProviderNames.LabelChain | wid_script_SAP.py:140-149 | for a non-empty fragment: BEx exactly when the lower-cased fragment holds `com.sap.sl.queryspec` or `bex`; EMP exactly when it does not and holds the whole word `emp`; universes exactly when neither and it holds the whole word `universe` or `universes`; the token exactly when none of these |
| ProviderNames.EmpTagIsEmp | wid_script_SAP.py:144-145 | a fragment `<emp>` is labelled EMP |
| ProviderNames.EmployeeIsNotEmp | wid_script_SAP.py:144-149 | a fragment `employee` holds `emp` only inside a word and keeps the token as its name |
| ProviderNames.EmpIdIsNotEmp | wid_script_SAP.py:144-149 | in `emp_id` the `_` is a word character, so the token is kept as the name |
| ProviderNames.BexInAnyCase | wid_script_SAP.py:141-143 | a fragment containing `bex` in any mix of cases is labelled BEx |
| ProviderNames.ExtractDataProviderNames | wid_script_SAP.py:120-152 | the loop computes exactly `DataProviderNames` |
| ProviderNames.NamesStep | wid_script_SAP.py:123-151 | one entry either sets its token's name (a `DP_Generic` entry with a token) or leaves the table unchanged |
| ProviderNames.DataProviderNamesKeys | wid_script_SAP.py:120-152 | a token is a key exactly when some `DP_Generic` entry carries it |
| ProviderNames.DataProviderNamesLast | wid_script_SAP.py:120-152 | a token's name is the label of the last entry carrying it |
| QuerySpecFields.FirstNonEmpty | wid_script_SAP.py:185-191 | the reference choice, "" exactly when no key of the list is set, else the value of the first key that is set |
| QuerySpecFields.AttributePrecedence | wid_script_SAP.py:185-191 | each `or` chain of id, name, expression and type attributes picks the first set attribute in its order of precedence |
| QuerySpecFields.ElementInfo | wid_script_SAP.py:181-200 | an element's record holds the stripped first set name and expression attributes and the first set type attribute, in the precedence of `FirstNonEmpty`, and the tag; it is calculated exactly when its stripped expression is non-empty |
| QuerySpecFields.RecordElements | wid_script_SAP.py:184-200 | the element loop computes exactly `ElementTable` |
| QuerySpecFields.ElementsStep | wid_script_SAP.py:184-200 | one element either writes its record under its id or leaves the table unchanged |
| QuerySpecFields.RecordQueryCalculations | wid_script_SAP.py:203-216 | the QueryCalculation loop writes every match under `QC::<alias>`, overwriting |
| QuerySpecFields.ExtractComprehensiveFieldInfo | wid_script_SAP.py:167-218 | the function computes exactly `FieldInfoOf` |
| QuerySpecFields.FieldInfoKeys | wid_script_SAP.py:184-216 | the keys are exactly the ids of the elements with id and name, plus the `QC::` keys of the matches |
| QuerySpecFields.FieldInfoQcWins | wid_script_SAP.py:203-216 | a `QC::` key holds the record of its last QueryCalculation match, whatever the elements wrote |
| QuerySpecFields.FieldInfoElementWins | wid_script_SAP.py:184-200 | a key no QueryCalculation takes holds the record of the last element with that id |
| QuerySpecFields.FieldInfoEmpty | wid_script_SAP.py:174-181 | no fragment, or one that does not parse, gives the empty table |
| DirectMappings.ExtractDirectMappings | wid_script_SAP.py:221-235 | the two passes compute exactly `DirectMappingsOf` |
| DirectMappings.DirectMappingsKeys | wid_script_SAP.py:221-235 | the keys are exactly the references of either pass |
| DirectMappings.LastAssignmentWins | wid_script_SAP.py:227-234 | among first-pass matches of one reference the last wins, with stripped name and value, and the `setdefault` pass never overwrites it |
| DirectMappings.ReferenceOnlyIsEmpty | wid_script_SAP.py:233-234 | a reference only the second pass sees maps to an empty name and sample value |
| DpFormulas.FormKeyInjective | wid_script_SAP.py:245 | different indices give different `<dp>_FORM_<i>` keys |
| DpFormulas.WriteMatches | wid_script_SAP.py:244-245 | the inner loop writes each stripped match under the key of its index |
| DpFormulas.ExtractDpFormulas | wid_script_SAP.py:238-246 | the function computes exactly `FormulaTable` of the stripped matches of the three patterns |
| DpFormulas.FormulaTableKeys | wid_script_SAP.py:241-245 | there is a key for index `i` exactly when some pattern has an `i`-th match |
| DpFormulas.FormulaTableValue | wid_script_SAP.py:241-245 | the value at index `i` is that of the last pattern (formula, expression, calculation) with an `i`-th match |
| DpFormulas.FormulaTableOnlyFormKeys | wid_script_SAP.py:241-245 | every key is `<dp>_FORM_<i>` for an index below some pattern's match count |
| DpFormulas.FormulaTableOrder | wid_script_SAP.py:241-245 | the keys come in index order, one per index below the largest match count |
| DocumentObjects.ExtractCalculatedFields | wid_script_SAP.py:297-319 | the loops compute exactly the numbered calculated-field matches, ids `CF_<k>` |
| DocumentObjects.AppendCalcEntry | wid_script_SAP.py:311-318 | the two pattern loops over one entry extend the numbered list by that entry's matches |
| DocumentObjects.AppendObjects | wid_script_SAP.py:312-318 | the inner loop appends each match numbered by the count of objects before it |
| DocumentObjects.ExtractReportVariables | wid_script_SAP.py:322-339 | the loops compute exactly the numbered report-variable matches, ids `RV_<k>` |
| DocumentObjects.NumberedAt | wid_script_SAP.py:314-318 | the `k`-th object has id `<prefix><k>`, the stripped name and formula of the `k`-th match, and the description `From <entry>` |
| DocumentObjects.NumberedIdsDistinct | wid_script_SAP.py:314 | no two document objects share an id |
| DocumentObjects.CalcMatchesFrom | wid_script_SAP.py:304-305 | every calculated field comes from a listed entry whose upper-cased name contains DOCUMENT, REPORT or STRUCTURE |
| DocumentObjects.VarMatchesFrom | wid_script_SAP.py:325-326 | every report variable comes from a listed entry whose upper-cased name contains DOCUMENT, VARIABLE or FORMULA |
| Merger.Mappings.constructor | wid_script_SAP.py:23 | the row list starts empty |
| Merger.Mappings.HasTechnicalId | wid_script_SAP.py:266 | `any(...)` is true exactly when some row carries the technical id |
| Merger.Mappings.AddFieldRows | wid_script_SAP.py:251-264 | the first loop appends one row per field, in table order |
| Merger.Mappings.AddDirectRows | wid_script_SAP.py:265-280 | the second loop appends a row per direct mapping whose id no row carries when it comes up |
| Merger.Mappings.AddFormulaRows | wid_script_SAP.py:281-294 | the third loop appends one row per formula, in table order |
| Merger.Mappings.ProcessEnhancedMappings | wid_script_SAP.py:249-294 | the list after the call is `Merge` of the list before it |
| Merger.Mappings.AddDocumentRows | wid_script_SAP.py:58-85 | appends the calculated-field rows, then the report-variable rows |
| Merger.FieldRowsAt | wid_script_SAP.py:251-264 | the `i`-th field row carries the key as technical and XML id, the display name and expression, the description `<element type>, type=<data type>`, is a Calculated Field exactly when the field is calculated, and its column is `clean_column_name` of the display name |
| Merger.FormulaRowsAt | wid_script_SAP.py:281-294 | the `i`-th formula row is a Data Provider Formula row named `Formula <id>` with that formula, described `From DP_Generic`, with column `clean_column_name("formula_<id>")` |
| Merger.DirectRowsAt | wid_script_SAP.py:265-280 | a row added for the direct mapping `tid` is a Data Field described `Direct mapping` with the mapping's display name and sample value, and its column is `clean_column_name` of the display name, or of `tid` when that is empty |
| Merger.DirectRowsFilter | wid_script_SAP.py:265-280 | with distinct ids, the second loop appends exactly the rows of the mappings whose id was absent before it |
| Merger.NewDirectRowsIff | wid_script_SAP.py:265-268 | with distinct ids, a mapping gets a row exactly when no earlier row carries its id |
| Merger.MergeAppendOnly | wid_script_SAP.py:249-294 | a call only appends: the list before it is a prefix of the list after it |
| Merger.MergeParts | wid_script_SAP.py:249-294 | a call appends the field rows, then the rows of the direct mappings whose id no row carried, then every formula row |
| Merger.MergeDirectIff | wid_script_SAP.py:265-268 | a direct mapping gets a row exactly when no row already in the list, including this provider's field rows, carries its id |
| Merger.MergeNothing | wid_script_SAP.py:249-294 | a provider with no field, no direct mapping and no formula adds no row |
| Merger.DocumentRowsAt | wid_script_SAP.py:58-85 | document rows are `CALC`/Document Variables calculated fields, then `VAR`/Report Variables report variables, each with its object's id, name, formula and description, and column `clean_column_name` of the name |
| ColumnNames.CleanColumnNameShape | wid_script_SAP.py:342-348 | the result is lower-case letters, digits and single inner underscores, and never starts with a digit |
| ColumnNames.NormalizedCoreAlnum | wid_script_SAP.py:344-345 | the steps before the digit rule keep exactly the ASCII letters and digits, lower-cased, with no leading underscore |
| ColumnNames.CleanColumnNameAlnum | wid_script_SAP.py:342-348 | the letters and digits of the result are those of the name, lower-cased, behind an `f` when the first of them is a digit |
| ColumnNames.CleanColumnNameEmpty | wid_script_SAP.py:342-348 | the result is empty exactly when the name holds no ASCII letter or digit |
| ColumnNames.NormalizedCoreNoSpace | wid_script_SAP.py:344-345 | a name without white space loses all punctuation, underscores included, and is lower-cased |
| ColumnNames.NormalizedCoreSeparated | wid_script_SAP.py:344-345 | three words separated by anything that leaves only white space become the words joined by `_`, lower-cased |
| ColumnNames.NormalizedCoreUnderscored | wid_script_SAP.py:344-345 | three words joined by `_` come out joined with nothing between them |
| ColumnNames.CleanLeadingDigit | wid_script_SAP.py:346-347 | `123abc` becomes `f_123abc` |
| ColumnNames.CleanSalesAmount | wid_script_SAP.py:342-348 | `Sales $ Amount 2024` becomes `sales_amount_2024` |
| ColumnNames.CleanUnderscored | wid_script_SAP.py:342-348 | `sales_amount_2024` becomes `salesamount2024` |
| ColumnNames.CleanNotIdempotent | wid_script_SAP.py:342-348 | normalising `Sales $ Amount 2024` twice differs from normalising it once |
| Strings.ParseNatToString | wid_script_SAP.py:245 | decimal `str(i)` reads back as `i`, the ground of the distinct `_FORM_`, `CF_` and `RV_` ids |
| Strings.SplitJoin | wid_script_SAP.py:35 | joining the pieces of `split` by the separator gives back the string |

## Left out

- Reading files, listing the input directory, the command line (`main`) and
  every `print` are left out; they are I/O.
- Opening the archive with `zipfile` is left out. The archive is given as its
  name list and its entries' scan results rather than parsed from the bytes
  after the signature. `LocateZip` models only the signature search and the
  slice.
- FieldMappings.FieldMapFails: the bytes after the signature are taken to
  open as an archive, so the `BadZipFile` that `zipfile.ZipFile` raises for
  a signature followed by an unreadable archive is not modelled.
- Text decoding (the UTF-8 / UTF-16LE / Latin-1 fallback, `errors='ignore'`)
  is left out. Every scan is of the text the script decodes.
- The regular expressions (`extract_xml`, the direct-mapping,
  formula-attribute, QueryCalculation, calculated-field and report-variable
  patterns) and `ElementTree` parsing are left out. Their matches, in match
  order, are inputs of each entry. A fragment that does not parse is given as
  `elements == None`, and its table is then empty, QueryCalculation matches
  included. The element list is every element below the root, as
  `findall('.//*')` returns it.
- Filling absent columns and the sort by provider and display name before
  writing (`sort_values`) are left out. The sheets are modelled on the rows in
  discovery order. pandas' sort is not part of this model.
- Writing the Excel workbook and the CSV file is left out. `Sheets` records
  what each sheet and the CSV would hold.
- `Strings.Lower`, `Strings.Upper`: only ASCII letters change case; the
  Unicode case mapping of Python's `lower`/`upper` is not modelled.
- ProviderNames.DpToken: `\d` counts only the ASCII digits `0`-`9`; Python's
  `\d` in a `str` pattern matches every Unicode decimal digit, so an entry
  such as `x/DP٣/DP_Generic` (with U+0663) is classified by the script but
  skipped by the model.
- ProviderNames.Label: the `\b` word boundary counts only ASCII letters,
  digits and `_` as word characters; Python's Unicode `\w` is not modelled.
- ColumnNames.CleanColumnName: takes a string; the `name or ''` guard for
  `None` is not modelled, because every caller passes a string.
