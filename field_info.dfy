/** `extract_comprehensive_field_info`: the table of QuerySpec fields of one
    data provider, keyed by technical id, built from the attributes of the
    parsed elements and then from the QueryCalculation matches. */
module QuerySpecFields {
  import opened Strings
  import opened Dicts
  import opened Archive

  /** What the table records for one field. */
  datatype FieldInfo = FieldInfo(
    displayName: string,
    expression: string,
    elementType: string,
    dataType: string,
    isCalculated: bool)

  /** `el.get(key)` is falsy: the attribute is missing or empty. */
  predicate Unset(attrs: map<string, string>, key: string) {
    key !in attrs || attrs[key] == ""
  }

  /** `keys[i]` is the first attribute of `keys` that is set. */
  predicate FirstSetAt(attrs: map<string, string>, keys: seq<string>, i: int) {
    0 <= i < |keys| && !Unset(attrs, keys[i]) && forall j :: 0 <= j < i ==> Unset(attrs, keys[j])
  }

  /** The first set attribute of `keys` in order, "" when none is: the
      reference the attribute choices below are held to. */
  function FirstNonEmpty(attrs: map<string, string>, keys: seq<string>): (r: string)
    ensures r == "" <==> forall i :: 0 <= i < |keys| ==> Unset(attrs, keys[i])
    ensures r != "" ==> exists i :: FirstSetAt(attrs, keys, i) && r == attrs[keys[i]]
  {
    if keys == [] then ""
    else if !Unset(attrs, keys[0]) then
      assert FirstSetAt(attrs, keys, 0);
      attrs[keys[0]]
    else
      var r := FirstNonEmpty(attrs, keys[1..]);
      assert forall i :: FirstSetAt(attrs, keys[1..], i) ==> FirstSetAt(attrs, keys, i + 1);
      r
  }

  /** `el.get(key)`, with "" for a missing attribute: the callers only test
      it for truth or use its value when it is set. */
  function Get(attrs: map<string, string>, key: string): string {
    if key in attrs then attrs[key] else ""
  }

  /** Python's `a or b` on strings. */
  function Or(a: string, b: string): string {
    if a != "" then a else b
  }

  function IdOf(attrs: map<string, string>): string {
    Or(Get(attrs, "id"), Or(Get(attrs, "identifier"), Or(Get(attrs, "uniqueName"), Get(attrs, "technicalName"))))
  }

  function NameOf(attrs: map<string, string>): string {
    Or(Get(attrs, "name"), Or(Get(attrs, "displayName"), Get(attrs, "caption")))
  }

  function ExpressionOf(attrs: map<string, string>): string {
    Or(Get(attrs, "expression"), Or(Get(attrs, "formula"), Or(Get(attrs, "calculation"), "")))
  }

  function TypeOf(attrs: map<string, string>): string {
    Or(Get(attrs, "dataType"), Or(Get(attrs, "type"), ""))
  }

  const IdKeys: seq<string> := ["id", "identifier", "uniqueName", "technicalName"]
  const NameKeys: seq<string> := ["name", "displayName", "caption"]
  const ExpressionKeys: seq<string> := ["expression", "formula", "calculation"]
  const TypeKeys: seq<string> := ["dataType", "type"]

  /** Each `or` chain picks the first set attribute in its order of
      precedence, and is "" exactly when none of them is set. */
  lemma AttributePrecedence(attrs: map<string, string>)
    ensures IdOf(attrs) == FirstNonEmpty(attrs, IdKeys)
    ensures NameOf(attrs) == FirstNonEmpty(attrs, NameKeys)
    ensures ExpressionOf(attrs) == FirstNonEmpty(attrs, ExpressionKeys)
    ensures TypeOf(attrs) == FirstNonEmpty(attrs, TypeKeys)
  {
    FirstNonEmptyChain(attrs, "id", "identifier", "uniqueName", "technicalName");
    assert IdKeys == ["id", "identifier", "uniqueName", "technicalName"];
    FirstNonEmptyChain(attrs, "name", "displayName", "caption", "");
    assert NameKeys == ["name", "displayName", "caption"];
    FirstNonEmptyChain(attrs, "expression", "formula", "calculation", "");
    assert ExpressionKeys == ["expression", "formula", "calculation"];
    FirstNonEmptyChain(attrs, "dataType", "type", "", "");
    assert TypeKeys == ["dataType", "type"];
  }

  /** The first step of the reference: the first key, or else the rest. */
  lemma FirstNonEmptyCons(attrs: map<string, string>, keys: seq<string>)
    requires keys != []
    ensures FirstNonEmpty(attrs, keys) == Or(Get(attrs, keys[0]), FirstNonEmpty(attrs, keys[1..]))
  {
  }

  /** The reference on chains of two, three and four keys. */
  lemma FirstNonEmptyChain(attrs: map<string, string>, a: string, b: string, c: string, d: string)
    ensures FirstNonEmpty(attrs, [a, b]) == Or(Get(attrs, a), Or(Get(attrs, b), ""))
    ensures FirstNonEmpty(attrs, [a, b, c]) == Or(Get(attrs, a), Or(Get(attrs, b), Or(Get(attrs, c), "")))
    ensures FirstNonEmpty(attrs, [a, b, c, d]) == Or(Get(attrs, a), Or(Get(attrs, b), Or(Get(attrs, c), Get(attrs, d))))
  {
    var s4 := [a, b, c, d];
    FirstNonEmptyCons(attrs, s4);
    FirstNonEmptyCons(attrs, s4[1..]);
    FirstNonEmptyCons(attrs, s4[1..][1..]);
    FirstNonEmptyCons(attrs, s4[1..][1..][1..]);
    assert s4[1..][1..][1..][1..] == [];
    var s3 := [a, b, c];
    FirstNonEmptyCons(attrs, s3);
    FirstNonEmptyCons(attrs, s3[1..]);
    FirstNonEmptyCons(attrs, s3[1..][1..]);
    assert s3[1..][1..][1..] == [];
    var s2 := [a, b];
    FirstNonEmptyCons(attrs, s2);
    FirstNonEmptyCons(attrs, s2[1..]);
    assert s2[1..][1..] == [];
  }

  /** The technical id under which an element is recorded: only elements
      with both an id and a name are. */
  function ElementKey(e: Element): (r: Option<string>)
    ensures r.Some? <==> IdOf(e.attrs) != "" && NameOf(e.attrs) != ""
    ensures r.Some? ==> r.value == IdOf(e.attrs)
  {
    var fid := IdOf(e.attrs);
    var disp := NameOf(e.attrs);
    if fid != "" && disp != "" then Some(fid) else None
  }

  /** The record of an element: the stripped name and expression and the
      type, each the first set attribute of its chain (`AttributePrecedence`),
      and the tag; it is calculated exactly when its stripped expression is
      non-empty. */
  function ElementInfo(e: Element): (fi: FieldInfo)
    ensures fi.displayName == Strip(NameOf(e.attrs)) && fi.expression == Strip(ExpressionOf(e.attrs))
    ensures fi.dataType == TypeOf(e.attrs)
    ensures fi.isCalculated <==> fi.expression != ""
    ensures fi.elementType == e.tag
  {
    var expr := Strip(ExpressionOf(e.attrs));
    FieldInfo(Strip(NameOf(e.attrs)), expr, e.tag, TypeOf(e.attrs), expr != "")
  }

  /** The key `QC::<alias>` of a QueryCalculation match. */
  function QcKey(m: NamedFormula): string {
    "QC::" + Strip(m.name)
  }

  /** The record of a QueryCalculation match, always calculated. */
  function QcInfo(m: NamedFormula): (fi: FieldInfo)
    ensures fi.isCalculated && fi.elementType == "QueryCalculation" && fi.dataType == ""
    ensures fi.displayName == Strip(m.name) && fi.expression == Strip(m.formula)
  {
    FieldInfo(Strip(m.name), Strip(m.formula), "QueryCalculation", "", true)
  }

  function ElementKeys(els: seq<Element>): (ks: seq<Option<string>>)
    ensures |ks| == |els| && forall i :: 0 <= i < |els| ==> ks[i] == ElementKey(els[i])
  {
    seq(|els|, i requires 0 <= i < |els| => ElementKey(els[i]))
  }

  function ElementInfos(els: seq<Element>): (vs: seq<FieldInfo>)
    ensures |vs| == |els| && forall i :: 0 <= i < |els| ==> vs[i] == ElementInfo(els[i])
  {
    seq(|els|, i requires 0 <= i < |els| => ElementInfo(els[i]))
  }

  function QcKeys(qcs: seq<NamedFormula>): (ks: seq<Option<string>>)
    ensures |ks| == |qcs| && forall i :: 0 <= i < |qcs| ==> ks[i] == Some(QcKey(qcs[i]))
  {
    seq(|qcs|, i requires 0 <= i < |qcs| => Some(QcKey(qcs[i])))
  }

  function QcInfos(qcs: seq<NamedFormula>): (vs: seq<FieldInfo>)
    ensures |vs| == |qcs| && forall i :: 0 <= i < |qcs| ==> vs[i] == QcInfo(qcs[i])
  {
    seq(|qcs|, i requires 0 <= i < |qcs| => QcInfo(qcs[i]))
  }

  /** The table after the element loop alone. */
  function ElementTable(els: seq<Element>): (d: Dict<string, FieldInfo>)
    ensures d.Valid()
  {
    Puts(Empty(), Assignments(ElementKeys(els), ElementInfos(els)))
  }

  /** The table the function returns for the fragment `xmlText`, whose parse
      is `parsed` (None when it does not parse) and whose QueryCalculation
      matches are `qcs`. */
  function FieldInfoOf(xmlText: string, parsed: Option<seq<Element>>, qcs: seq<NamedFormula>): (d: Dict<string, FieldInfo>)
    ensures d.Valid()
  {
    if xmlText == "" || parsed.None? then Empty()
    else Puts(ElementTable(parsed.value), Assignments(QcKeys(qcs), QcInfos(qcs)))
  }

  method ExtractComprehensiveFieldInfo(xmlText: string, parsed: Option<seq<Element>>, qcs: seq<NamedFormula>)
    returns (info: Dict<string, FieldInfo>)
    ensures info == FieldInfoOf(xmlText, parsed, qcs)
  {
    info := Empty();
    if xmlText == "" {
      return;
    }
    if parsed.None? {
      return;
    }
    info := RecordElements(parsed.value);
    info := RecordQueryCalculations(info, qcs);
  }

  /** The table after the first `i` elements. */
  function ElementsUpTo(els: seq<Element>, i: nat): Dict<string, FieldInfo>
    requires i <= |els|
  {
    Puts(Empty(), Assignments(ElementKeys(els)[..i], ElementInfos(els)[..i]))
  }

  /** One step of the element loop: an element with an id and a name is
      recorded under its id, any other element changes nothing. */
  lemma ElementsStep(els: seq<Element>, i: nat)
    requires i < |els|
    ensures ElementsUpTo(els, i + 1) ==
      if ElementKey(els[i]).Some? then Put(ElementsUpTo(els, i), ElementKey(els[i]).value, ElementInfo(els[i]))
      else ElementsUpTo(els, i)
  {
    AssignmentsStep(Empty(), ElementKeys(els), ElementInfos(els), i);
  }

  /** The first loop: every element with an id and a name is recorded under
      its id, a later element overwriting an earlier one. */
  method RecordElements(els: seq<Element>) returns (info: Dict<string, FieldInfo>)
    ensures info == ElementTable(els)
  {
    info := Empty();
    var i := 0;
    while i < |els|
      invariant 0 <= i <= |els|
      invariant info == ElementsUpTo(els, i)
    {
      ElementsStep(els, i);
      var el := els[i];
      var fid := IdOf(el.attrs);
      var disp := NameOf(el.attrs);
      var expr := ExpressionOf(el.attrs);
      var dt := TypeOf(el.attrs);
      if fid != "" && disp != "" {
        info := Put(info, fid, FieldInfo(Strip(disp), Strip(expr), el.tag, dt, Strip(expr) != ""));
      }
      i := i + 1;
    }
    assert ElementKeys(els)[..|els|] == ElementKeys(els);
    assert ElementInfos(els)[..|els|] == ElementInfos(els);
  }

  /** The second loop: every QueryCalculation match is written under its
      `QC::` key, overwriting what is there. */
  method RecordQueryCalculations(info0: Dict<string, FieldInfo>, qcs: seq<NamedFormula>)
    returns (info: Dict<string, FieldInfo>)
    ensures info == Puts(info0, Assignments(QcKeys(qcs), QcInfos(qcs)))
  {
    ghost var qks := QcKeys(qcs);
    ghost var qvs := QcInfos(qcs);
    info := info0;
    var q := 0;
    while q < |qcs|
      invariant 0 <= q <= |qcs|
      invariant info == Puts(info0, Assignments(qks[..q], qvs[..q]))
    {
      AssignmentsStep(info0, qks, qvs, q);
      var alias := Strip(qcs[q].name);
      var calculation := Strip(qcs[q].formula);
      assert qks[q] == Some(QcKey(qcs[q])) && qvs[q] == QcInfo(qcs[q]);
      info := Put(info, "QC::" + alias, FieldInfo(alias, calculation, "QueryCalculation", "", true));
      q := q + 1;
    }
    assert qks[..|qcs|] == qks && qvs[..|qcs|] == qvs;
  }

  /** The keys the two loops write, step by step. */
  lemma FieldInfoWrites(els: seq<Element>, qcs: seq<NamedFormula>, xmlText: string, k: string)
    requires xmlText != ""
    ensures k in FieldInfoOf(xmlText, Some(els), qcs).entries <==>
      (exists i :: 0 <= i < |els| && ElementKeys(els)[i] == Some(k))
      || (exists q :: 0 <= q < |qcs| && QcKeys(qcs)[q] == Some(k))
  {
    AssignmentsKeys(Empty(), ElementKeys(els), ElementInfos(els), k);
    AssignmentsKeys(ElementTable(els), QcKeys(qcs), QcInfos(qcs), k);
  }

  /** Which ids the table holds: those of the elements with an id and a
      name, and the `QC::` keys of the QueryCalculation matches. */
  lemma FieldInfoKeys(els: seq<Element>, qcs: seq<NamedFormula>, xmlText: string, k: string)
    requires xmlText != ""
    ensures k in FieldInfoOf(xmlText, Some(els), qcs).entries <==>
      (exists i :: 0 <= i < |els| && ElementKey(els[i]) == Some(k))
      || (exists q :: 0 <= q < |qcs| && QcKey(qcs[q]) == k)
  {
    FieldInfoWrites(els, qcs, xmlText, k);
    var ks := ElementKeys(els);
    var qks := QcKeys(qcs);
    if exists i :: 0 <= i < |els| && ElementKey(els[i]) == Some(k) {
      var i :| 0 <= i < |els| && ElementKey(els[i]) == Some(k);
      assert ks[i] == Some(k);
    }
    if exists q :: 0 <= q < |qcs| && QcKey(qcs[q]) == k {
      var q :| 0 <= q < |qcs| && QcKey(qcs[q]) == k;
      assert qks[q] == Some(k);
    }
  }

  /** A `QC::` entry overwrites whatever the elements recorded under the same
      key: the last QueryCalculation match with that key wins. */
  lemma FieldInfoQcWins(els: seq<Element>, qcs: seq<NamedFormula>, xmlText: string, q: int)
    requires xmlText != "" && 0 <= q < |qcs|
    requires forall l :: q < l < |qcs| ==> QcKey(qcs[l]) != QcKey(qcs[q])
    ensures QcKey(qcs[q]) in FieldInfoOf(xmlText, Some(els), qcs).entries
    ensures FieldInfoOf(xmlText, Some(els), qcs).entries[QcKey(qcs[q])] == QcInfo(qcs[q])
  {
    var qks := QcKeys(qcs);
    assert LastSome(qks, QcKey(qcs[q]), q);
    AssignmentsLast(ElementTable(els), qks, QcInfos(qcs), QcKey(qcs[q]), q);
  }

  /** A key no QueryCalculation match takes holds the record of the last
      element recorded under it. */
  lemma FieldInfoElementWins(els: seq<Element>, qcs: seq<NamedFormula>, xmlText: string, i: int)
    requires xmlText != "" && 0 <= i < |els| && ElementKey(els[i]).Some?
    requires forall l :: i < l < |els| ==> ElementKey(els[l]) != ElementKey(els[i])
    requires forall q :: 0 <= q < |qcs| ==> QcKey(qcs[q]) != ElementKey(els[i]).value
    ensures ElementKey(els[i]).value in FieldInfoOf(xmlText, Some(els), qcs).entries
    ensures FieldInfoOf(xmlText, Some(els), qcs).entries[ElementKey(els[i]).value] == ElementInfo(els[i])
  {
    var k := ElementKey(els[i]).value;
    var ks := ElementKeys(els);
    var qks := QcKeys(qcs);
    assert LastSome(ks, k, i);
    AssignmentsLast(Empty(), ks, ElementInfos(els), k, i);
    AssignmentsUntouched(ElementTable(els), qks, QcInfos(qcs), k);
  }

  /** No fragment, or a fragment that does not parse, gives the empty table. */
  lemma FieldInfoEmpty(xmlText: string, parsed: Option<seq<Element>>, qcs: seq<NamedFormula>)
    requires xmlText == "" || parsed.None?
    ensures FieldInfoOf(xmlText, parsed, qcs).order == []
    ensures FieldInfoOf(xmlText, parsed, qcs).entries == map[]
  {
  }
}
