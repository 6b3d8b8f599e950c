/** Python's `dict`: a finite map that remembers the order in which its keys
    were first inserted. Assigning to a present key keeps its position;
    `setdefault` writes only an absent key. */
module Dicts {
  import opened Strings

  predicate Distinct<K(==)>(s: seq<K>) {
    forall i, j :: 0 <= i < j < |s| ==> s[i] != s[j]
  }

  datatype Dict<K, V> = Dict(order: seq<K>, entries: map<K, V>) {
    /** The insertion order lists every key exactly once. */
    predicate Valid() {
      Distinct(order) && entries.Keys == set k | k in order
    }
  }

  function Empty<K, V>(): (d: Dict<K, V>)
    ensures d.Valid() && d.order == [] && d.entries == map[]
  {
    Dict([], map[])
  }

  /** `d[k] = v`. */
  function Put<K, V>(d: Dict<K, V>, k: K, v: V): (r: Dict<K, V>)
    ensures k in r.entries && r.entries[k] == v
    ensures r.entries.Keys == d.entries.Keys + {k}
    ensures forall j :: j in d.entries && j != k ==> r.entries[j] == d.entries[j]
    ensures d.Valid() ==> r.Valid() && r.order == AppendNew(d.order, [k])
  {
    Dict(if k in d.entries then d.order else d.order + [k], d.entries[k := v])
  }

  /** `d.setdefault(k, v)`. */
  function SetDefault<K, V>(d: Dict<K, V>, k: K, v: V): (r: Dict<K, V>)
    ensures k in r.entries && r.entries[k] == if k in d.entries then d.entries[k] else v
    ensures r.entries.Keys == d.entries.Keys + {k}
    ensures forall j :: j in d.entries && j != k ==> r.entries[j] == d.entries[j]
    ensures d.Valid() ==> r.Valid() && r.order == AppendNew(d.order, [k])
  {
    if k in d.entries then d else Dict(d.order + [k], d.entries[k := v])
  }

  /** `order` extended by the keys of `ks` it does not hold yet, in first-seen order. */
  function AppendNew<K(==)>(order: seq<K>, ks: seq<K>): seq<K>
  {
    if ks == [] then order
    else
      var p := AppendNew(order, ks[..|ks| - 1]);
      if ks[|ks| - 1] in p then p else p + [ks[|ks| - 1]]
  }

  function Keys<K, V>(kvs: seq<(K, V)>): (ks: seq<K>)
    ensures |ks| == |kvs| && forall i :: 0 <= i < |kvs| ==> ks[i] == kvs[i].0
  {
    seq(|kvs|, i requires 0 <= i < |kvs| => kvs[i].0)
  }

  /** The assignments `d[k] = v` for the pairs of `kvs`, in order. */
  function Puts<K, V>(d: Dict<K, V>, kvs: seq<(K, V)>): (r: Dict<K, V>)
    ensures d.Valid() ==> r.Valid()
  {
    if kvs == [] then d
    else
      var last := kvs[|kvs| - 1];
      Put(Puts(d, kvs[..|kvs| - 1]), last.0, last.1)
  }

  /** The calls `d.setdefault(k, v)` for the pairs of `kvs`, in order. */
  function SetDefaults<K, V>(d: Dict<K, V>, kvs: seq<(K, V)>): (r: Dict<K, V>)
    ensures d.Valid() ==> r.Valid()
  {
    if kvs == [] then d
    else
      var last := kvs[|kvs| - 1];
      SetDefault(SetDefaults(d, kvs[..|kvs| - 1]), last.0, last.1)
  }

  /** `j` is the last position of `kvs` whose key is `k`. */
  predicate LastWith<K(==), V>(kvs: seq<(K, V)>, k: K, j: int) {
    0 <= j < |kvs| && kvs[j].0 == k && forall i :: j < i < |kvs| ==> kvs[i].0 != k
  }

  /** `j` is the first position of `kvs` whose key is `k`. */
  predicate FirstWith<K(==), V>(kvs: seq<(K, V)>, k: K, j: int) {
    0 <= j < |kvs| && kvs[j].0 == k && forall i :: 0 <= i < j ==> kvs[i].0 != k
  }

  /** After a run of assignments a key is present iff it was present or was
      assigned, and the last assignment to it wins. */
  lemma {:induction false} PutsAt<K, V>(d: Dict<K, V>, kvs: seq<(K, V)>, k: K)
    ensures k in Puts(d, kvs).entries <==> k in d.entries || k in Keys(kvs)
    ensures k !in Keys(kvs) && k in d.entries ==> Puts(d, kvs).entries[k] == d.entries[k]
    ensures k in Keys(kvs) ==>
      exists j :: LastWith(kvs, k, j) && Puts(d, kvs).entries[k] == kvs[j].1
  {
    if kvs != [] {
      var n := |kvs| - 1;
      var init := kvs[..n];
      PutsAt(d, init, k);
      assert Keys(kvs) == Keys(init) + [kvs[n].0];
      if kvs[n].0 == k {
        assert LastWith(kvs, k, n);
      } else if k in Keys(init) {
        var j :| LastWith(init, k, j) && Puts(d, init).entries[k] == init[j].1;
        assert LastWith(kvs, k, j);
      }
    }
  }

  /** After a run of `setdefault` calls a key is present iff it was present or
      was offered; a present key keeps its value, an absent one takes the
      first value offered for it. */
  lemma {:induction false} SetDefaultsAt<K, V>(d: Dict<K, V>, kvs: seq<(K, V)>, k: K)
    ensures k in SetDefaults(d, kvs).entries <==> k in d.entries || k in Keys(kvs)
    ensures k in d.entries ==> SetDefaults(d, kvs).entries[k] == d.entries[k]
    ensures k !in d.entries && k in Keys(kvs) ==>
      exists j :: FirstWith(kvs, k, j) && SetDefaults(d, kvs).entries[k] == kvs[j].1
  {
    if kvs != [] {
      var n := |kvs| - 1;
      var init := kvs[..n];
      SetDefaultsAt(d, init, k);
      assert Keys(kvs) == Keys(init) + [kvs[n].0];
      if k !in d.entries && k in Keys(kvs) {
        if k in Keys(init) {
          var j :| FirstWith(init, k, j) && SetDefaults(d, init).entries[k] == init[j].1;
          assert FirstWith(kvs, k, j);
        } else {
          assert FirstWith(kvs, k, n);
        }
      }
    }
  }

  /** Both kinds of write put a new key at the end and leave the order of
      present keys alone. */
  lemma {:induction false} PutsOrder<K, V>(d: Dict<K, V>, kvs: seq<(K, V)>)
    requires d.Valid()
    ensures Puts(d, kvs).order == AppendNew(d.order, Keys(kvs))
  {
    if kvs != [] {
      var n := |kvs| - 1;
      PutsOrder(d, kvs[..n]);
      assert Keys(kvs)[..n] == Keys(kvs[..n]);
    }
  }

  lemma {:induction false} SetDefaultsOrder<K, V>(d: Dict<K, V>, kvs: seq<(K, V)>)
    requires d.Valid()
    ensures SetDefaults(d, kvs).order == AppendNew(d.order, Keys(kvs))
  {
    if kvs != [] {
      var n := |kvs| - 1;
      SetDefaultsOrder(d, kvs[..n]);
      assert Keys(kvs)[..n] == Keys(kvs[..n]);
    }
  }

  /** AppendNew over a concatenation is AppendNew twice. */
  lemma {:induction false} AppendNewConcat<K>(order: seq<K>, xs: seq<K>, ys: seq<K>)
    ensures AppendNew(order, xs + ys) == AppendNew(AppendNew(order, xs), ys)
  {
    if ys != [] {
      var n := |ys| - 1;
      assert (xs + ys)[..|xs + ys| - 1] == xs + ys[..n];
      AppendNewConcat(order, xs, ys[..n]);
    } else {
      assert xs + ys == xs;
    }
  }

  /** A run of assignments split in two is the two runs one after the other. */
  lemma {:induction false} PutsConcat<K, V>(d: Dict<K, V>, a: seq<(K, V)>, b: seq<(K, V)>)
    ensures Puts(d, a + b) == Puts(Puts(d, a), b)
  {
    if b != [] {
      var n := |b| - 1;
      assert (a + b)[..|a + b| - 1] == a + b[..n];
      PutsConcat(d, a, b[..n]);
    } else {
      assert a + b == a;
    }
  }

  lemma {:induction false} SetDefaultsConcat<K, V>(d: Dict<K, V>, a: seq<(K, V)>, b: seq<(K, V)>)
    ensures SetDefaults(d, a + b) == SetDefaults(SetDefaults(d, a), b)
  {
    if b != [] {
      var n := |b| - 1;
      assert (a + b)[..|a + b| - 1] == a + b[..n];
      SetDefaultsConcat(d, a, b[..n]);
    } else {
      assert a + b == a;
    }
  }

  /** Zero or one assignment. */
  lemma PutsOne<K, V>(d: Dict<K, V>, c: seq<(K, V)>)
    requires |c| <= 1
    ensures Puts(d, c) == if c == [] then d else Put(d, c[0].0, c[0].1)
  {
    if c != [] {
      assert c[..0] == [];
    }
  }

  /** The assignments of a loop that, at step `i`, writes `vs[i]` under the
      key `ks[i]` when there is one and skips the step otherwise. */
  function Assignments<K, V>(ks: seq<Option<K>>, vs: seq<V>): (r: seq<(K, V)>)
    requires |ks| == |vs|
    ensures |r| <= |ks|
  {
    if ks == [] then []
    else
      var n := |ks| - 1;
      Assignments(ks[..n], vs[..n]) + if ks[n].Some? then [(ks[n].value, vs[n])] else []
  }

  /** Step `j` is the last one that writes under `k`. */
  predicate LastSome<K(==)>(ks: seq<Option<K>>, k: K, j: int) {
    0 <= j < |ks| && ks[j] == Some(k) && forall l :: j < l < |ks| ==> ks[l] != Some(k)
  }

  /** One more step of such a loop. */
  lemma AssignmentsStep<K, V>(d: Dict<K, V>, ks: seq<Option<K>>, vs: seq<V>, i: nat)
    requires |ks| == |vs| && i < |ks|
    ensures var p := Puts(d, Assignments(ks[..i], vs[..i]));
      Puts(d, Assignments(ks[..i + 1], vs[..i + 1])) == if ks[i].Some? then Put(p, ks[i].value, vs[i]) else p
  {
    assert ks[..i + 1][..i] == ks[..i];
    assert vs[..i + 1][..i] == vs[..i];
    var c := if ks[i].Some? then [(ks[i].value, vs[i])] else [];
    PutsConcat(d, Assignments(ks[..i], vs[..i]), c);
    PutsOne(Puts(d, Assignments(ks[..i], vs[..i])), c);
  }

  /** After such a loop a key is present iff it was present or some step
      wrote it. */
  lemma {:induction false} AssignmentsKeys<K, V>(d: Dict<K, V>, ks: seq<Option<K>>, vs: seq<V>, k: K)
    requires |ks| == |vs|
    ensures k in Puts(d, Assignments(ks, vs)).entries <==>
      k in d.entries || exists j :: 0 <= j < |ks| && ks[j] == Some(k)
  {
    if ks != [] {
      var n := |ks| - 1;
      AssignmentsKeys(d, ks[..n], vs[..n], k);
      AssignmentsStep(d, ks, vs, n);
      assert ks[..n + 1] == ks && vs[..n + 1] == vs;
      if ks[n] != Some(k) && exists j :: 0 <= j < |ks| && ks[j] == Some(k) {
        var j :| 0 <= j < |ks| && ks[j] == Some(k);
        assert ks[..n][j] == Some(k);
      }
    }
  }

  /** The last write to a key wins. */
  lemma {:induction false} AssignmentsLast<K, V>(d: Dict<K, V>, ks: seq<Option<K>>, vs: seq<V>, k: K, j: int)
    requires |ks| == |vs| && LastSome(ks, k, j)
    ensures k in Puts(d, Assignments(ks, vs)).entries
    ensures Puts(d, Assignments(ks, vs)).entries[k] == vs[j]
  {
    var n := |ks| - 1;
    AssignmentsStep(d, ks, vs, n);
    assert ks[..n + 1] == ks && vs[..n + 1] == vs;
    if j < n {
      assert LastSome(ks[..n], k, j);
      AssignmentsLast(d, ks[..n], vs[..n], k, j);
    }
  }

  /** A key no step writes keeps its value. */
  lemma {:induction false} AssignmentsUntouched<K, V>(d: Dict<K, V>, ks: seq<Option<K>>, vs: seq<V>, k: K)
    requires |ks| == |vs| && k in d.entries
    requires forall j :: 0 <= j < |ks| ==> ks[j] != Some(k)
    ensures k in Puts(d, Assignments(ks, vs)).entries
    ensures Puts(d, Assignments(ks, vs)).entries[k] == d.entries[k]
  {
    if ks != [] {
      var n := |ks| - 1;
      AssignmentsUntouched(d, ks[..n], vs[..n], k);
      AssignmentsKeys(d, ks[..n], vs[..n], k);
      AssignmentsStep(d, ks, vs, n);
      assert ks[..n + 1] == ks && vs[..n + 1] == vs;
    }
  }

  /** Some step writes `k`, so one of them is the last. */
  lemma {:induction false} LastSomeExists<K>(ks: seq<Option<K>>, k: K, i: int)
    requires 0 <= i < |ks| && ks[i] == Some(k)
    ensures exists j :: LastSome(ks, k, j)
    decreases |ks| - i
  {
    if !LastSome(ks, k, i) {
      var l :| i < l < |ks| && ks[l] == Some(k);
      LastSomeExists(ks, k, l);
    }
  }

  /** One more assignment of a run. */
  lemma PutsStep<K, V>(d: Dict<K, V>, kvs: seq<(K, V)>, i: nat)
    requires i < |kvs|
    ensures Puts(d, kvs[..i + 1]) == Put(Puts(d, kvs[..i]), kvs[i].0, kvs[i].1)
  {
    assert kvs[..i + 1][..i] == kvs[..i];
  }

  /** One more `setdefault` of a run. */
  lemma SetDefaultsStep<K, V>(d: Dict<K, V>, kvs: seq<(K, V)>, i: nat)
    requires i < |kvs|
    ensures SetDefaults(d, kvs[..i + 1]) == SetDefault(SetDefaults(d, kvs[..i]), kvs[i].0, kvs[i].1)
  {
    assert kvs[..i + 1][..i] == kvs[..i];
  }

  /** A key has only one last position. */
  lemma LastWithUnique<K, V>(kvs: seq<(K, V)>, k: K, i: int, j: int)
    requires LastWith(kvs, k, i) && LastWith(kvs, k, j)
    ensures i == j
  {
  }

  /** The writes `ks[i] = vs[i]` along a prefix of the key sequence `ks`. */
  function Zip<K, V>(ks: seq<K>, vs: seq<V>): (r: seq<(K, V)>)
    requires |vs| <= |ks|
    ensures |r| == |vs| && forall i :: 0 <= i < |vs| ==> r[i] == (ks[i], vs[i])
  {
    seq(|vs|, i requires 0 <= i < |vs| => (ks[i], vs[i]))
  }

  /** Three runs of writes along the same key sequence, one after another. */
  function Zip3<K, V>(ks: seq<K>, a: seq<V>, b: seq<V>, c: seq<V>): (r: seq<(K, V)>)
    requires |a| <= |ks| && |b| <= |ks| && |c| <= |ks|
    ensures |r| == |a| + |b| + |c|
  {
    Zip(ks, a) + Zip(ks, b) + Zip(ks, c)
  }

  /** Where the three runs put position `p`. */
  lemma Zip3At<K, V>(ks: seq<K>, a: seq<V>, b: seq<V>, c: seq<V>, p: int)
    requires |a| <= |ks| && |b| <= |ks| && |c| <= |ks| && 0 <= p < |a| + |b| + |c|
    ensures var all := Zip3(ks, a, b, c);
      if p < |a| then all[p] == (ks[p], a[p])
      else if p < |a| + |b| then all[p] == (ks[p - |a|], b[p - |a|])
      else all[p] == (ks[p - |a| - |b|], c[p - |a| - |b|])
  {
  }

  /** Every key written is a key `ks[i]` of an index some run reaches. */
  lemma Zip3Only<K, V>(ks: seq<K>, a: seq<V>, b: seq<V>, c: seq<V>, k: K)
    requires |a| <= |ks| && |b| <= |ks| && |c| <= |ks| && k in Puts(Empty(), Zip3(ks, a, b, c)).entries
    ensures exists i :: 0 <= i < |ks| && (i < |a| || i < |b| || i < |c|) && k == ks[i]
  {
    var all := Zip3(ks, a, b, c);
    PutsAt(Empty(), all, k);
    var p :| 0 <= p < |all| && Keys(all)[p] == k;
    Zip3At(ks, a, b, c, p);
    var i := if p < |a| then p else if p < |a| + |b| then p - |a| else p - |a| - |b|;
    assert k == ks[i];
  }

  /** Key `ks[i]` is written when some run reaches index `i`. */
  lemma Zip3Reached<K, V>(ks: seq<K>, a: seq<V>, b: seq<V>, c: seq<V>, i: int)
    requires |a| <= |ks| && |b| <= |ks| && |c| <= |ks| && 0 <= i < |ks|
    requires i < |a| || i < |b| || i < |c|
    ensures ks[i] in Puts(Empty(), Zip3(ks, a, b, c)).entries
  {
    var all := Zip3(ks, a, b, c);
    var pos := if i < |a| then i else if i < |b| then |a| + i else |a| + |b| + i;
    Zip3At(ks, a, b, c, pos);
    assert Keys(all)[pos] == ks[i];
    PutsAt(Empty(), all, ks[i]);
  }

  /** Along distinct keys, key `i` is written iff some run reaches index `i`. */
  lemma Zip3Keys<K, V>(ks: seq<K>, a: seq<V>, b: seq<V>, c: seq<V>, i: int)
    requires |a| <= |ks| && |b| <= |ks| && |c| <= |ks| && Distinct(ks) && 0 <= i < |ks|
    ensures ks[i] in Puts(Empty(), Zip3(ks, a, b, c)).entries <==> i < |a| || i < |b| || i < |c|
  {
    if ks[i] in Puts(Empty(), Zip3(ks, a, b, c)).entries {
      Zip3Only(ks, a, b, c, ks[i]);
    }
    if i < |a| || i < |b| || i < |c| {
      Zip3Reached(ks, a, b, c, i);
    }
  }

  /** Along distinct keys, key `i` ends up with the value of the last run
      longer than `i`. */
  lemma Zip3Value<K, V>(ks: seq<K>, a: seq<V>, b: seq<V>, c: seq<V>, i: int)
    requires |a| <= |ks| && |b| <= |ks| && |c| <= |ks| && Distinct(ks) && 0 <= i < |ks|
    requires i < |a| || i < |b| || i < |c|
    ensures ks[i] in Puts(Empty(), Zip3(ks, a, b, c)).entries
    ensures Puts(Empty(), Zip3(ks, a, b, c)).entries[ks[i]] ==
      if i < |c| then c[i] else if i < |b| then b[i] else a[i]
  {
    var all := Zip3(ks, a, b, c);
    var pos := if i < |c| then |a| + |b| + i else if i < |b| then |a| + i else i;
    Zip3At(ks, a, b, c, pos);
    forall l | pos < l < |all|
      ensures all[l].0 != ks[i]
    {
      Zip3At(ks, a, b, c, l);
    }
    assert LastWith(all, ks[i], pos);
    PutsAt(Empty(), all, ks[i]);
    assert Keys(all)[pos] == ks[i];
    var j :| LastWith(all, ks[i], j) && Puts(Empty(), all).entries[ks[i]] == all[j].1;
    LastWithUnique(all, ks[i], pos, j);
  }

  lemma {:induction false} AppendNewPrefix<K>(ks: seq<K>, n: nat, m: nat)
    requires Distinct(ks) && n <= |ks| && m <= |ks|
    ensures AppendNew(ks[..n], ks[..m]) == ks[..if n < m then m else n]
  {
    if m > 0 {
      assert ks[..m][..m - 1] == ks[..m - 1];
      AppendNewPrefix(ks, n, m - 1);
      var t := if n < m - 1 then m - 1 else n;
      if m - 1 >= n {
        assert ks[m - 1] !in ks[..t];
        assert ks[..t] + [ks[m - 1]] == ks[..m];
      } else {
        assert ks[..t][m - 1] == ks[m - 1];
      }
    }
  }

  /** Along distinct keys, the keys come in the order of `ks`, as far as the
      longest run reaches. */
  lemma Zip3Order<K, V>(ks: seq<K>, a: seq<V>, b: seq<V>, c: seq<V>)
    requires |a| <= |ks| && |b| <= |ks| && |c| <= |ks| && Distinct(ks)
    ensures var n := if |a| < |b| then |b| else |a|;
      Puts(Empty(), Zip3(ks, a, b, c)).order == ks[..if n < |c| then |c| else n]
  {
    Zip3KeysSeq(ks, a, b, c);
    PutsOrder(Empty(), Zip3(ks, a, b, c));
    AppendNewConcat([], ks[..|a|] + ks[..|b|], ks[..|c|]);
    AppendNewConcat([], ks[..|a|], ks[..|b|]);
    assert ks[..0] == [];
    AppendNewPrefix(ks, 0, |a|);
    AppendNewPrefix(ks, |a|, |b|);
    AppendNewPrefix(ks, if |a| < |b| then |b| else |a|, |c|);
  }

  lemma Zip3KeysSeq<K, V>(ks: seq<K>, a: seq<V>, b: seq<V>, c: seq<V>)
    requires |a| <= |ks| && |b| <= |ks| && |c| <= |ks|
    ensures Keys(Zip3(ks, a, b, c)) == ks[..|a|] + ks[..|b|] + ks[..|c|]
  {
    var za, zb, zc := Zip(ks, a), Zip(ks, b), Zip(ks, c);
    assert Keys(za) == ks[..|a|];
    assert Keys(zb) == ks[..|b|];
    assert Keys(zc) == ks[..|c|];
    assert Keys(za + zb + zc) == Keys(za) + Keys(zb) + Keys(zc);
  }

  /** `d.items()`: the pairs in insertion order. */
  function Items<K, V>(d: Dict<K, V>): (r: seq<(K, V)>)
    requires d.Valid()
    ensures |r| == |d.order|
    ensures forall i :: 0 <= i < |r| ==> r[i].0 == d.order[i] && r[i].0 in d.entries && r[i].1 == d.entries[r[i].0]
  {
    seq(|d.order|, i requires 0 <= i < |d.order| => (d.order[i], d.entries[d.order[i]]))
  }

  /** The keys of the items are distinct. */
  lemma ItemsDistinct<K, V>(d: Dict<K, V>)
    requires d.Valid()
    ensures Distinct(Keys(Items(d)))
  {
    assert Keys(Items(d)) == d.order;
  }
}
