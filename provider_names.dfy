/** `extract_data_provider_names`: every `DP_Generic` entry of the archive
    names a data provider by the first `DP<digits>` token of its path, and
    the QuerySpec fragment of the entry decides what kind of provider it is. */
module ProviderNames {
  import opened Strings
  import opened Dicts
  import opened Archive

  /** `(DP\d+)` can match at index `i` of `s`. */
  predicate DpTokenAt(s: string, i: int) {
    0 <= i && i + 3 <= |s| && s[i] == 'D' && s[i + 1] == 'P' && IsDigit(s[i + 2])
  }

  /** The longest run of digits of `s` that starts at `i`, as `\d+` takes it. */
  function DigitRun(s: string, i: nat): (r: string)
    requires i <= |s|
    ensures i + |r| <= |s|
    ensures forall k :: 0 <= k < |r| ==> r[k] == s[i + k] && IsDigit(r[k])
    ensures i + |r| == |s| || !IsDigit(s[i + |r|])
    decreases |s| - i
  {
    if i < |s| && IsDigit(s[i]) then [s[i]] + DigitRun(s, i + 1) else []
  }

  /** The leftmost index at or after `from` where `(DP\d+)` matches, or -1. */
  function DpSearch(s: string, from: nat): (j: int)
    ensures j == -1 || (from <= j && DpTokenAt(s, j))
    ensures j == -1 ==> forall l :: from <= l ==> !DpTokenAt(s, l)
    ensures j != -1 ==> forall l :: from <= l < j ==> !DpTokenAt(s, l)
    decreases |s| - from
  {
    if from + 3 > |s| then -1
    else if DpTokenAt(s, from) then from
    else DpSearch(s, from + 1)
  }

  /** A data-provider token: `DP` followed by one or more digits. */
  predicate IsDpToken(t: string) {
    |t| >= 3 && t[0] == 'D' && t[1] == 'P' && forall k :: 2 <= k < |t| ==> IsDigit(t[k])
  }

  /** `re.search(r'(DP\d+)', fn).group(1)`, None when the search fails. */
  function DpToken(fn: string): (r: Option<string>)
    ensures r.None? <==> forall j :: !DpTokenAt(fn, j)
    ensures r.Some? ==> IsDpToken(r.value)
    ensures r.Some? ==>
      var j := DpSearch(fn, 0);
      && InfixAt(fn, r.value, j)
      && (j + |r.value| == |fn| || !IsDigit(fn[j + |r.value|]))
  {
    var j := DpSearch(fn, 0);
    if j < 0 then None
    else
      var t := "DP" + DigitRun(fn, j + 2);
      assert fn[j..j + |t|] == t;
      Some(t)
  }

  /** `w` occurs in `s` at `i` between word boundaries (`\bw\b`). */
  predicate WordAt(s: string, w: string, i: int) {
    InfixAt(s, w, i)
    && (i == 0 || !IsWordChar(s[i - 1]))
    && (i + |w| == |s| || !IsWordChar(s[i + |w|]))
  }

  predicate HasWord(s: string, w: string) {
    exists i | 0 <= i <= |s| - |w| :: WordAt(s, w, i)
  }

  /** The decision chain over the lower-cased QuerySpec fragment; a missing
      (or empty, hence falsy) fragment leaves the token as the name. */
  function Label(querySpec: Option<string>, dp: string): (name: string)
    ensures name in {"BEx", "EMP", "universes", dp}
    ensures querySpec.None? || querySpec.value == "" ==> name == dp
  {
    if querySpec.None? || querySpec.value == "" then dp
    else
      var lo := Lower(querySpec.value);
      if Contains(lo, "com.sap.sl.queryspec") || Contains(lo, "bex") then "BEx"
      else if HasWord(lo, "emp") then "EMP"
      else if HasWord(lo, "universe") || HasWord(lo, "universes") then "universes"
      else dp
  }

  /** Lower-casing keeps an occurrence where it is. */
  lemma InfixLower(s: string, sub: string, i: int)
    requires InfixAt(s, sub, i)
    ensures InfixAt(Lower(s), Lower(sub), i)
  {
    assert forall k :: 0 <= k < |sub| ==> Lower(s)[i..i + |sub|][k] == Lower(sub)[k];
  }

  /** The BEx test ignores case: a fragment that holds `BEx` in any mix of
      cases is labelled "BEx". */
  lemma BexInAnyCase(x: string, sub: string, dp: string)
    requires |sub| == 3 && Lower(sub) == "bex" && Contains(x, sub)
    ensures Label(Some(x), dp) == "BEx"
  {
    var i :| 0 <= i <= |x| - |sub| && InfixAt(x, sub, i);
    InfixLower(x, sub, i);
  }

  /** A token is none of the three labels, so the label says which branch
      of the chain was taken. */
  lemma TokenIsNoLabel(dp: string)
    requires IsDpToken(dp)
    ensures dp != "BEx" && dp != "EMP" && dp != "universes"
  {
    assert dp[0] == 'D';
  }

  /** The decision chain for a fragment: BEx when the lower-cased fragment
      holds `com.sap.sl.queryspec` or `bex`; otherwise EMP when it holds the
      word `emp`; otherwise universes when it holds the word `universe` or
      `universes`; otherwise the token. */
  lemma LabelChain(x: string, dp: string)
    requires x != "" && IsDpToken(dp)
    ensures var lo := Lower(x);
      var bex := Contains(lo, "com.sap.sl.queryspec") || Contains(lo, "bex");
      var emp := HasWord(lo, "emp");
      var uni := HasWord(lo, "universe") || HasWord(lo, "universes");
      && (Label(Some(x), dp) == "BEx" <==> bex)
      && (Label(Some(x), dp) == "EMP" <==> !bex && emp)
      && (Label(Some(x), dp) == "universes" <==> !bex && !emp && uni)
      && (Label(Some(x), dp) == dp <==> !bex && !emp && !uni)
  {
    TokenIsNoLabel(dp);
  }

  /** A string none of whose characters starts `sub` holds no occurrence
      of it, whole word or not. */
  lemma AbsentFirst(s: string, sub: string)
    requires sub != [] && forall i :: 0 <= i < |s| ==> s[i] != sub[0]
    ensures !Contains(s, sub) && !HasWord(s, sub)
  {
    forall i | 0 <= i <= |s| - |sub| ensures !InfixAt(s, sub, i) {
      InfixFirst(s, sub, i);
    }
  }

  /** An occurrence starts with the first character of what occurs. */
  lemma InfixFirst(s: string, sub: string, i: int)
    requires sub != []
    ensures InfixAt(s, sub, i) ==> s[i] == sub[0]
  {
    if InfixAt(s, sub, i) {
      assert s[i..i + |sub|][0] == s[i];
    }
  }

  /** `w` can only start at index 0 of `s`, and there a word character
      follows it: no whole-word occurrence. */
  lemma WordOnlyAtStart(s: string, w: string)
    requires w != [] && |w| < |s| && IsWordChar(s[|w|])
    requires forall i :: 1 <= i <= |s| - |w| ==> s[i] != w[0]
    ensures !HasWord(s, w)
  {
    forall i | 1 <= i <= |s| - |w| ensures !InfixAt(s, w, i) {
      InfixFirst(s, w, i);
    }
  }

  /** `emp` counts only as a whole word: `<emp>` is an EMP provider. */
  lemma EmpTagIsEmp(dp: string)
    requires IsDpToken(dp)
    ensures Label(Some("<emp>"), dp) == "EMP"
  {
    var lo := "<emp>";
    assert Lower(lo) == lo;
    AbsentFirst(lo, "com.sap.sl.queryspec");
    AbsentFirst(lo, "bex");
    assert WordAt(lo, "emp", 1);
  }

  /** `employee` holds `emp` only as part of a word. */
  lemma EmployeeIsNotEmp(dp: string)
    requires IsDpToken(dp)
    ensures Label(Some("employee"), dp) == dp
  {
    var lo := "employee";
    assert Lower(lo) == lo;
    AbsentFirst(lo, "com.sap.sl.queryspec");
    AbsentFirst(lo, "bex");
    WordOnlyAtStart(lo, "emp");
    AbsentFirst(lo, "universe");
    AbsentFirst(lo, "universes");
  }

  /** In `emp_id` the `_` is a word character, so `emp` is no whole word. */
  lemma EmpIdIsNotEmp(dp: string)
    requires IsDpToken(dp)
    ensures Label(Some("emp_id"), dp) == dp
  {
    var lo := "emp_id";
    assert Lower(lo) == lo;
    AbsentFirst(lo, "com.sap.sl.queryspec");
    AbsentFirst(lo, "bex");
    WordOnlyAtStart(lo, "emp");
    AbsentFirst(lo, "universe");
    AbsentFirst(lo, "universes");
  }

  /** The token under which the entry `fn` is classified: only `DP_Generic`
      entries whose path holds a token are. */
  function ProviderOf(fn: string): (r: Option<string>)
    ensures r.Some? <==> EndsWith(fn, "DP_Generic") && DpToken(fn).Some?
    ensures r.Some? ==> r == DpToken(fn)
  {
    if EndsWith(fn, "DP_Generic") then DpToken(fn) else None
  }

  /** The tokens of the name list, step by step. */
  function Providers(names: seq<string>): (ks: seq<Option<string>>)
    ensures |ks| == |names| && forall i :: 0 <= i < |names| ==> ks[i] == ProviderOf(names[i])
  {
    seq(|names|, i requires 0 <= i < |names| => ProviderOf(names[i]))
  }

  /** The label each step would assign (unused where the step assigns nothing). */
  function Labels(names: seq<string>, contents: map<string, EntryScan>): (vs: seq<string>)
    requires Readable(names, contents)
    ensures |vs| == |names|
    ensures forall i :: 0 <= i < |names| && ProviderOf(names[i]).Some? ==>
      vs[i] == Label(contents[names[i]].querySpec, ProviderOf(names[i]).value)
  {
    seq(|names|, i requires 0 <= i < |names| =>
      if ProviderOf(names[i]).Some? then Label(contents[names[i]].querySpec, ProviderOf(names[i]).value) else "")
  }

  /** The dictionary after the first `i` names of the list. */
  function NamesUpTo(z: Zip, i: nat): (d: Dict<string, string>)
    requires z.Valid() && i <= |z.names|
  {
    Puts(Empty(), Assignments(Providers(z.names)[..i], Labels(z.names, z.contents)[..i]))
  }

  /** The dictionary `extract_data_provider_names` returns. */
  function DataProviderNames(z: Zip): (d: Dict<string, string>)
    requires z.Valid()
    ensures d.Valid()
  {
    Puts(Empty(), Assignments(Providers(z.names), Labels(z.names, z.contents)))
  }

  /** One step of the loop: a `DP_Generic` entry with a token sets that
      token's name, any other entry changes nothing. */
  lemma NamesStep(z: Zip, i: nat)
    requires z.Valid() && i < |z.names|
    ensures var fn := z.names[i];
      NamesUpTo(z, i + 1) ==
        if ProviderOf(fn).Some? then Put(NamesUpTo(z, i), ProviderOf(fn).value, Label(z.contents[fn].querySpec, ProviderOf(fn).value))
        else NamesUpTo(z, i)
  {
    AssignmentsStep(Empty(), Providers(z.names), Labels(z.names, z.contents), i);
  }

  lemma NamesUpToAll(z: Zip)
    requires z.Valid()
    ensures NamesUpTo(z, |z.names|) == DataProviderNames(z)
  {
    assert Providers(z.names)[..|z.names|] == Providers(z.names);
    assert Labels(z.names, z.contents)[..|z.names|] == Labels(z.names, z.contents);
  }

  method ExtractDataProviderNames(z: Zip) returns (dpNames: Dict<string, string>)
    requires z.Valid()
    ensures dpNames == DataProviderNames(z)
  {
    dpNames := Empty();
    assert NamesUpTo(z, 0) == dpNames;
    var i := 0;
    while i < |z.names|
      invariant 0 <= i <= |z.names|
      invariant dpNames == NamesUpTo(z, i)
    {
      var fn := z.names[i];
      NamesStep(z, i);
      if EndsWith(fn, "DP_Generic") {
        var m := DpToken(fn);
        if m.Some? {
          var dp := m.value;
          var scan := z.contents[fn];
          dpNames := Put(dpNames, dp, Label(scan.querySpec, dp));
        }
      }
      i := i + 1;
    }
    NamesUpToAll(z);
  }

  /** A token is a key exactly when some `DP_Generic` entry carries it. */
  lemma DataProviderNamesKeys(z: Zip, dp: string)
    requires z.Valid()
    ensures dp in DataProviderNames(z).entries <==>
      exists k :: 0 <= k < |z.names| && ProviderOf(z.names[k]) == Some(dp)
  {
    AssignmentsKeys(Empty(), Providers(z.names), Labels(z.names, z.contents), dp);
  }

  /** A token's name is the label of the last entry, in name-list order,
      that carries it. */
  lemma DataProviderNamesLast(z: Zip, dp: string, k: int)
    requires z.Valid() && LastSome(Providers(z.names), dp, k)
    ensures dp in DataProviderNames(z).entries
    ensures DataProviderNames(z).entries[dp] == Label(z.contents[z.names[k]].querySpec, dp)
  {
    AssignmentsLast(Empty(), Providers(z.names), Labels(z.names, z.contents), dp, k);
  }

  /** `dp_names.get(dp_id, dp_id)`. */
  function NameOr(d: Dict<string, string>, dp: string): (r: string)
    ensures dp in d.entries ==> r == d.entries[dp]
    ensures dp !in d.entries ==> r == dp
  {
    if dp in d.entries then d.entries[dp] else dp
  }

  /** The name a data provider is filed under: the label of the last
      `DP_Generic` entry carrying its token, or the token itself when no
      entry does. */
  lemma ProviderNameLookup(z: Zip, dp: string)
    requires z.Valid()
    ensures (forall k :: 0 <= k < |z.names| ==> ProviderOf(z.names[k]) != Some(dp)) ==>
      NameOr(DataProviderNames(z), dp) == dp
    ensures forall k :: LastSome(Providers(z.names), dp, k) ==>
      NameOr(DataProviderNames(z), dp) == Label(z.contents[z.names[k]].querySpec, dp)
  {
    DataProviderNamesKeys(z, dp);
    forall k | LastSome(Providers(z.names), dp, k)
      ensures NameOr(DataProviderNames(z), dp) == Label(z.contents[z.names[k]].querySpec, dp)
    {
      DataProviderNamesLast(z, dp, k);
    }
  }
}
