/** `extract_dp_formulas`: the values of the `formula=`, `expression=` and
    `calculation=` attributes of one data provider, keyed `<dp>_FORM_<i>`,
    where `i` counts the matches of each pattern afresh from 0. A later
    pattern therefore overwrites an earlier one's value at the same `i`. */
module DpFormulas {
  import opened Strings
  import opened Dicts

  function FormKey(dp: string, i: nat): string {
    dp + "_FORM_" + NatToString(i)
  }

  /** Different indices give different keys. */
  lemma FormKeyInjective(dp: string, i: nat, j: nat)
    requires FormKey(dp, i) == FormKey(dp, j)
    ensures i == j
  {
    var a := FormKey(dp, i);
    var b := FormKey(dp, j);
    assert a[|dp| + 6..] == NatToString(i);
    assert b[|dp| + 6..] == NatToString(j);
    NatToStringInjective(i, j);
  }

  /** The keys `<dp>_FORM_0` up to `<dp>_FORM_<n-1>`, in order. */
  function FormKeys(dp: string, n: nat): (ks: seq<string>)
    ensures |ks| == n && forall i :: 0 <= i < n ==> ks[i] == FormKey(dp, i)
  {
    seq(n, i requires 0 <= i < n => FormKey(dp, i))
  }

  lemma FormKeysDistinct(dp: string, n: nat)
    ensures Distinct(FormKeys(dp, n))
  {
    var ks := FormKeys(dp, n);
    forall i, j | 0 <= i < j < n
      ensures ks[i] != ks[j]
    {
      if ks[i] == ks[j] {
        FormKeyInjective(dp, i, j);
      }
    }
  }

  /** The writes made for the (stripped) values `vs` of one pattern's matches. */
  function FormEntries(dp: string, vs: seq<string>): (r: seq<(string, string)>)
    ensures |r| == |vs| && forall i :: 0 <= i < |vs| ==> r[i] == (FormKey(dp, i), vs[i])
  {
    seq(|vs|, i requires 0 <= i < |vs| => (FormKey(dp, i), vs[i]))
  }

  /** The matches of one pattern with white space stripped. */
  function StripAll(ms: seq<string>): (vs: seq<string>)
    ensures |vs| == |ms|
  {
    seq(|ms|, i requires 0 <= i < |ms| => Strip(ms[i]))
  }

  /** Each value is its match with leading and trailing white space removed. */
  lemma StripAllAt(ms: seq<string>, i: int)
    requires 0 <= i < |ms|
    ensures StripAll(ms)[i] == Strip(ms[i])
  {
  }

  /** The writes of the patterns of `groups`, one pattern after another. */
  function GroupEntries(dp: string, groups: seq<seq<string>>): seq<(string, string)>
  {
    if groups == [] then []
    else GroupEntries(dp, groups[..|groups| - 1]) + FormEntries(dp, StripAll(groups[|groups| - 1]))
  }

  /** The writes of three patterns. */
  function Entries3(dp: string, a: seq<string>, b: seq<string>, c: seq<string>): seq<(string, string)> {
    FormEntries(dp, a) + FormEntries(dp, b) + FormEntries(dp, c)
  }

  function Max3(a: nat, b: nat, c: nat): (m: nat)
    ensures a <= m && b <= m && c <= m && (m == a || m == b || m == c)
  {
    if a < b then (if b < c then c else b) else (if a < c then c else a)
  }

  /** The writes of the three patterns run along one key sequence. */
  lemma Entries3Zip(dp: string, a: seq<string>, b: seq<string>, c: seq<string>)
    ensures Entries3(dp, a, b, c) == Zip3(FormKeys(dp, Max3(|a|, |b|, |c|)), a, b, c)
  {
    var ks := FormKeys(dp, Max3(|a|, |b|, |c|));
    assert FormEntries(dp, a) == Zip(ks, a);
    assert FormEntries(dp, b) == Zip(ks, b);
    assert FormEntries(dp, c) == Zip(ks, c);
  }

  /** The table built from the values `a`, `b`, `c` of the three patterns,
      in the order formula, expression, calculation. */
  function FormulaTable(dp: string, a: seq<string>, b: seq<string>, c: seq<string>)
    : (out: Dict<string, string>)
    ensures out.Valid()
  {
    Puts(Empty(), Entries3(dp, a, b, c))
  }

  /** `extract_dp_formulas` on the matches of the three patterns: each value
      stripped, then written under its key. */
  method ExtractDpFormulas(dp: string, formulas: seq<string>, expressions: seq<string>, calculations: seq<string>)
    returns (out: Dict<string, string>)
    ensures out == FormulaTable(dp, StripAll(formulas), StripAll(expressions), StripAll(calculations))
  {
    var groups := [formulas, expressions, calculations];
    out := Empty();
    var p := 0;
    while p < |groups|
      invariant 0 <= p <= |groups|
      invariant out == Puts(Empty(), GroupEntries(dp, groups[..p]))
    {
      ghost var before := out;
      out := WriteMatches(out, dp, groups[p]);
      assert groups[..p + 1][..p] == groups[..p];
      PutsConcat(Empty(), GroupEntries(dp, groups[..p]), FormEntries(dp, StripAll(groups[p])));
      p := p + 1;
    }
    assert groups[..3] == groups;
    GroupEntriesThree(dp, formulas, expressions, calculations);
  }

  /** The inner loop: the matches of one pattern, each stripped and written
      under the key of its index. */
  method WriteMatches(d: Dict<string, string>, dp: string, ms: seq<string>) returns (out: Dict<string, string>)
    ensures out == Puts(d, FormEntries(dp, StripAll(ms)))
  {
    var vs := StripAll(ms);
    out := d;
    var i := 0;
    while i < |vs|
      invariant 0 <= i <= |vs|
      invariant out == Puts(d, FormEntries(dp, vs)[..i])
    {
      FormEntriesStep(d, dp, vs, i);
      out := Put(out, FormKey(dp, i), vs[i]);
      i := i + 1;
    }
    assert FormEntries(dp, vs)[..|vs|] == FormEntries(dp, vs);
  }

  lemma FormEntriesStep(d: Dict<string, string>, dp: string, vs: seq<string>, i: nat)
    requires i < |vs|
    ensures Puts(d, FormEntries(dp, vs)[..i + 1]) == Put(Puts(d, FormEntries(dp, vs)[..i]), FormKey(dp, i), vs[i])
  {
    PutsStep(d, FormEntries(dp, vs), i);
  }

  lemma GroupEntriesSnoc(dp: string, groups: seq<seq<string>>, g: seq<string>)
    ensures GroupEntries(dp, groups + [g]) == GroupEntries(dp, groups) + FormEntries(dp, StripAll(g))
  {
    assert (groups + [g])[..|groups|] == groups;
  }

  lemma GroupEntriesThree(dp: string, f: seq<string>, e: seq<string>, c: seq<string>)
    ensures GroupEntries(dp, [f, e, c]) == Entries3(dp, StripAll(f), StripAll(e), StripAll(c))
  {
    GroupEntriesSnoc(dp, [], f);
    assert [] + [f] == [f];
    GroupEntriesSnoc(dp, [f], e);
    assert [f] + [e] == [f, e];
    GroupEntriesSnoc(dp, [f, e], c);
    assert [f, e] + [c] == [f, e, c];
  }

  /** The table is the three runs of writes along the formula keys. */
  lemma FormulaTableZip(dp: string, a: seq<string>, b: seq<string>, c: seq<string>)
    ensures var ks := FormKeys(dp, Max3(|a|, |b|, |c|));
      && Distinct(ks)
      && FormulaTable(dp, a, b, c) == Puts(Empty(), Zip3(ks, a, b, c))
  {
    Entries3Zip(dp, a, b, c);
    FormKeysDistinct(dp, Max3(|a|, |b|, |c|));
  }

  /** There is a key for index `i` exactly when some pattern has an `i`-th
      match. */
  lemma FormulaTableKeys(dp: string, a: seq<string>, b: seq<string>, c: seq<string>, i: nat)
    ensures FormKey(dp, i) in FormulaTable(dp, a, b, c).entries <==> i < |a| || i < |b| || i < |c|
  {
    var n := Max3(|a|, |b|, |c|);
    var ks := FormKeys(dp, n);
    FormulaTableZip(dp, a, b, c);
    if i < n {
      Zip3Keys(ks, a, b, c, i);
    } else if FormKey(dp, i) in Puts(Empty(), Zip3(ks, a, b, c)).entries {
      Zip3Only(ks, a, b, c, FormKey(dp, i));
      var j :| 0 <= j < n && (j < |a| || j < |b| || j < |c|) && FormKey(dp, i) == ks[j];
      FormKeyInjective(dp, i, j);
    }
  }

  /** The value at index `i` comes from the last pattern, in the order
      formula, expression, calculation, that has an `i`-th match. */
  lemma FormulaTableValue(dp: string, a: seq<string>, b: seq<string>, c: seq<string>, i: nat)
    requires i < |a| || i < |b| || i < |c|
    ensures FormKey(dp, i) in FormulaTable(dp, a, b, c).entries
    ensures FormulaTable(dp, a, b, c).entries[FormKey(dp, i)] ==
      if i < |c| then c[i] else if i < |b| then b[i] else a[i]
  {
    var ks := FormKeys(dp, Max3(|a|, |b|, |c|));
    FormulaTableZip(dp, a, b, c);
    Zip3Value(ks, a, b, c, i);
  }

  /** Every key is a formula key of an index below the number of matches. */
  lemma FormulaTableOnlyFormKeys(dp: string, a: seq<string>, b: seq<string>, c: seq<string>, k: string)
    requires k in FormulaTable(dp, a, b, c).entries
    ensures exists i: nat :: (i < |a| || i < |b| || i < |c|) && k == FormKey(dp, i)
  {
    var ks := FormKeys(dp, Max3(|a|, |b|, |c|));
    FormulaTableZip(dp, a, b, c);
    Zip3Only(ks, a, b, c, k);
    var i :| 0 <= i < |ks| && (i < |a| || i < |b| || i < |c|) && k == ks[i];
    assert k == FormKey(dp, i);
  }

  /** The keys come in index order, one for each index below the largest
      match count, whatever pattern supplied them. */
  lemma FormulaTableOrder(dp: string, a: seq<string>, b: seq<string>, c: seq<string>)
    ensures FormulaTable(dp, a, b, c).order == FormKeys(dp, Max3(|a|, |b|, |c|))
  {
    var n := Max3(|a|, |b|, |c|);
    var ks := FormKeys(dp, n);
    FormulaTableZip(dp, a, b, c);
    Zip3Order(ks, a, b, c);
    assert ks[..n] == ks;
  }
}
