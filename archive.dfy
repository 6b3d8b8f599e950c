/** The container and the ZIP archive embedded in it: locating the archive
    by its signature, and the view of the archive that the extractors read
    (its entry names, and what the text scans find in each entry). */
module Archive {
  import opened Strings

  newtype byte = x: int | 0 <= x < 256

  /** The local-file-header signature of a ZIP archive, `PK\x03\x04`. */
  const ZipSignature: seq<byte> := [0x50, 0x4B, 0x03, 0x04]

  /** `sig` occurs in `raw` at index `i`. */
  predicate MatchAt(raw: seq<byte>, sig: seq<byte>, i: int) {
    0 <= i && i + |sig| <= |raw| && raw[i..i + |sig|] == sig
  }

  /** `raw.find(sig, from)`: the lowest index at or after `from` where `sig`
      occurs, or -1. */
  function FindFrom(raw: seq<byte>, sig: seq<byte>, from: nat): (idx: int)
    ensures idx == -1 || (from <= idx && MatchAt(raw, sig, idx))
    ensures idx == -1 ==> forall j :: from <= j ==> !MatchAt(raw, sig, j)
    ensures idx != -1 ==> forall j :: from <= j < idx ==> !MatchAt(raw, sig, j)
    decreases |raw| - from
  {
    if from + |sig| > |raw| then -1
    else if raw[from..from + |sig|] == sig then from
    else FindFrom(raw, sig, from + 1)
  }

  /** `raw.find(sig)`. */
  function Find(raw: seq<byte>, sig: seq<byte>): (idx: int)
    ensures idx == -1 <==> forall j :: !MatchAt(raw, sig, j)
    ensures idx != -1 ==> MatchAt(raw, sig, idx) && forall j :: 0 <= j < idx ==> !MatchAt(raw, sig, j)
  {
    FindFrom(raw, sig, 0)
  }

  datatype WidError = NoZipSignature

  datatype Located = Located(offset: nat, payload: seq<byte>)

  /** The first step of `extract_field_mappings`: the bytes from the first
      ZIP signature on, or an error when the container holds none. */
  function LocateZip(raw: seq<byte>): (r: Result)
    ensures r.Failure? <==> forall j :: !MatchAt(raw, ZipSignature, j)
    ensures r.Success? ==>
      && r.located.offset + |r.located.payload| == |raw|
      && r.located.payload == raw[r.located.offset..]
      && MatchAt(raw, ZipSignature, r.located.offset)
      && forall j :: 0 <= j < r.located.offset ==> !MatchAt(raw, ZipSignature, j)
  {
    var idx := Find(raw, ZipSignature);
    if idx < 0 then Failure(NoZipSignature) else Success(Located(idx, raw[idx..]))
  }

  datatype Result = Success(located: Located) | Failure(error: WidError)

  /** One element below the root of a parsed QuerySpec: its tag and its
      attributes. */
  datatype Element = Element(tag: string, attrs: map<string, string>)

  /** A match of the assignment pattern `name = value, DPn.DOx`: the raw
      name and value groups and the reference token. */
  datatype Assignment = Assignment(name: string, value: string, ref: string)

  /** A match that captures a name (or alias) and a formula group. */
  datatype NamedFormula = NamedFormula(name: string, formula: string)

  /** What the pattern scans find in one archive entry (in match order), and
      what parsing its QuerySpec fragment yields.
      The first group comes from the entry's UTF-8 text:
      - querySpec: the fragment `extract_xml` returns, None when absent;
      - elements: every element below the root of the parsed fragment, in document
        order, None when the fragment does not parse;
      - queryCalcs: the QueryCalculation alias/calculation matches in the
        fragment;
      - assignments, references: the two direct-mapping patterns;
      - formulaAttrs, expressionAttrs, calculationAttrs: the captured
        values of `formula=`, `expression=` and `calculation=` attributes.
      The second group comes from the entry's UTF-16LE text:
      - docCalculatedFields, docQueryCalcs: the two calculated-field patterns;
      - docVariables: the `Variable X = formula;` pattern. */
  datatype EntryScan = EntryScan(
    querySpec: Option<string>,
    elements: Option<seq<Element>>,
    queryCalcs: seq<NamedFormula>,
    assignments: seq<Assignment>,
    references: seq<string>,
    formulaAttrs: seq<string>,
    expressionAttrs: seq<string>,
    calculationAttrs: seq<string>,
    docCalculatedFields: seq<NamedFormula>,
    docQueryCalcs: seq<NamedFormula>,
    docVariables: seq<NamedFormula>)

  /** The archive as `zipfile` presents it: `namelist()` in archive order
      (a name may repeat) and `read(name)`, seen through the scans. */
  datatype Zip = Zip(names: seq<string>, contents: map<string, EntryScan>) {
    predicate Valid() {
      Readable(names, contents)
    }
  }

  /** Every listed name can be read. */
  predicate Readable(names: seq<string>, contents: map<string, EntryScan>) {
    forall k :: 0 <= k < |names| ==> names[k] in contents
  }
}
