/** The column normaliser (`clean_column_name`): turns a display name into
    the lower-case, underscore-separated identifier used as the destination
    column name. */
module ColumnNames {
  import opened Strings

  /** The ASCII letters and digits of `s`, in order, everything else dropped. */
  function AlnumOf(s: string): (r: string)
    ensures |r| <= |s|
  {
    if s == [] then []
    else AlnumOf(s[..|s| - 1]) + (if IsAsciiAlnum(s[|s| - 1]) then [s[|s| - 1]] else [])
  }

  lemma {:induction false} AlnumOfConcat(a: string, b: string)
    ensures AlnumOf(a + b) == AlnumOf(a) + AlnumOf(b)
  {
    if b == [] {
      assert a + b == a;
    } else {
      var n := |b| - 1;
      assert (a + b)[..|a + b| - 1] == a + b[..n];
      AlnumOfConcat(a, b[..n]);
    }
  }

  lemma {:induction false} AlnumOfChars(s: string)
    ensures forall i :: 0 <= i < |AlnumOf(s)| ==> IsAsciiAlnum(AlnumOf(s)[i])
  {
    if s != [] {
      AlnumOfChars(s[..|s| - 1]);
    }
  }

  lemma AlnumOfSnoc(s: string, c: char)
    ensures AlnumOf(s + [c]) == AlnumOf(s) + if IsAsciiAlnum(c) then [c] else []
  {
    assert (s + [c])[..|s|] == s;
  }

  lemma AlnumOfSingle(c: char)
    ensures AlnumOf([c]) == if IsAsciiAlnum(c) then [c] else []
  {
    assert [c][..0] == [];
  }

  predicate IsUnderscore(c: char) { c == '_' }

  predicate IsAlnumOrSpace(c: char) { IsAsciiAlnum(c) || IsSpace(c) }

  /** No two adjacent underscores. */
  predicate NoDoubleUnderscore(s: string) {
    forall i :: 0 <= i < |s| - 1 ==> !(s[i] == '_' && s[i + 1] == '_')
  }

  /** Step 1, `re.sub(r'[^A-Za-z0-9\s]', '', name)`. */
  function DropPunctuation(name: string): string
  {
    if name == [] then []
    else
      var c := name[|name| - 1];
      DropPunctuation(name[..|name| - 1]) + (if IsAlnumOrSpace(c) then [c] else [])
  }

  /** What step 1 leaves is letters, digits and whitespace. */
  lemma {:induction false} DropPunctuationChars(name: string)
    ensures forall i :: 0 <= i < |DropPunctuation(name)| ==> IsAlnumOrSpace(DropPunctuation(name)[i])
  {
    if name != [] {
      DropPunctuationChars(name[..|name| - 1]);
    }
  }

  /** Step 2, `re.sub(r'\s+', '_', s)`: every maximal run of whitespace
      becomes one underscore. */
  function CollapseSpaces(s: string): (r: string)
    ensures |r| <= |s|
  {
    if s == [] then []
    else
      var init := s[..|s| - 1];
      var c := s[|s| - 1];
      if !IsSpace(c) then CollapseSpaces(init) + [c]
      else if init != [] && IsSpace(init[|init| - 1]) then CollapseSpaces(init)
      else CollapseSpaces(init) + ['_']
  }

  /** Letters, digits and underscores only. */
  predicate IsWordString(s: string) {
    forall i :: 0 <= i < |s| ==> IsAsciiAlnum(s[i]) || s[i] == '_'
  }

  /** On letters, digits and whitespace, collapsing produces letters, digits
      and single underscores, and ends in an underscore exactly when the input
      ends in whitespace. */
  lemma {:induction false} CollapseSpacesShape(s: string)
    requires forall i :: 0 <= i < |s| ==> IsAlnumOrSpace(s[i])
    ensures IsWordString(CollapseSpaces(s)) && NoDoubleUnderscore(CollapseSpaces(s))
    ensures s == [] <==> CollapseSpaces(s) == []
    ensures s != [] ==> (CollapseSpaces(s)[|CollapseSpaces(s)| - 1] == '_' <==> IsSpace(s[|s| - 1]))
  {
    if s != [] {
      var init := s[..|s| - 1];
      var c := s[|s| - 1];
      var p := CollapseSpaces(init);
      var r := CollapseSpaces(s);
      CollapseSpacesShape(init);
      if !IsSpace(c) {
        assert r == p + [c];
        assert IsAsciiAlnum(c);
      } else if init != [] && IsSpace(init[|init| - 1]) {
        assert r == p;
      } else {
        assert r == p + ['_'];
        assert p != [] ==> p[|p| - 1] != '_';
      }
    }
  }

  lemma SpaceNotAlnum(c: char)
    requires IsSpace(c)
    ensures !IsAsciiAlnum(c)
  {
  }

  /** Collapsing whitespace keeps every letter and digit. */
  lemma {:induction false} CollapseSpacesAlnum(s: string)
    ensures AlnumOf(CollapseSpaces(s)) == AlnumOf(s)
  {
    if s != [] {
      var init := s[..|s| - 1];
      var c := s[|s| - 1];
      var p := CollapseSpaces(init);
      CollapseSpacesAlnum(init);
      assert AlnumOf(s) == AlnumOf(init) + if IsAsciiAlnum(c) then [c] else [];
      if !IsSpace(c) {
        AlnumOfSnoc(p, c);
      } else {
        SpaceNotAlnum(c);
        if init == [] || !IsSpace(init[|init| - 1]) {
          AlnumOfSnoc(p, '_');
        }
      }
    }
  }

  /** `s.lstrip('_')`. */
  function DropLeadingUnderscores(s: string): string
  {
    if s != [] && s[0] == '_' then DropLeadingUnderscores(s[1..]) else s
  }

  /** `s.rstrip('_')`. */
  function DropTrailingUnderscores(s: string): string
  {
    if s != [] && s[|s| - 1] == '_' then DropTrailingUnderscores(s[..|s| - 1]) else s
  }

  /** `lstrip` leaves a suffix of `s` that does not start with `_`. */
  lemma {:induction false} DropLeadingSuffix(s: string)
    ensures var r := DropLeadingUnderscores(s);
      |r| <= |s| && r == s[|s| - |r|..] && (r == [] || r[0] != '_')
  {
    if s != [] && s[0] == '_' {
      DropLeadingSuffix(s[1..]);
      var r := DropLeadingUnderscores(s[1..]);
      assert s[1..][|s| - 1 - |r|..] == s[|s| - |r|..];
    } else {
      assert s[0..] == s;
    }
  }

  /** `rstrip` leaves a prefix of `s` that does not end with `_`. */
  lemma {:induction false} DropTrailingPrefix(s: string)
    ensures var r := DropTrailingUnderscores(s);
      |r| <= |s| && r == s[..|r|] && (r == [] || r[|r| - 1] != '_')
  {
    if s != [] && s[|s| - 1] == '_' {
      DropTrailingPrefix(s[..|s| - 1]);
      var r := DropTrailingUnderscores(s[..|s| - 1]);
      assert s[..|s| - 1][..|r|] == s[..|r|];
    } else {
      assert s[..|s|] == s;
    }
  }

  /** Step 3, `.strip('_')`. */
  function StripUnderscores(s: string): string
  {
    DropTrailingUnderscores(DropLeadingUnderscores(s))
  }

  /** What step 3 leaves neither starts nor ends with `_`. */
  lemma StripUnderscoresEnds(s: string)
    ensures var r := StripUnderscores(s); r == [] || (r[0] != '_' && r[|r| - 1] != '_')
  {
    var t := DropLeadingUnderscores(s);
    DropLeadingSuffix(s);
    DropTrailingPrefix(t);
    var r := DropTrailingUnderscores(t);
    if r != [] {
      assert r[0] == t[0];
    }
  }

  lemma DropLeadingShape(s: string)
    requires IsWordString(s) && NoDoubleUnderscore(s)
    ensures IsWordString(DropLeadingUnderscores(s)) && NoDoubleUnderscore(DropLeadingUnderscores(s))
  {
    var t := DropLeadingUnderscores(s);
    DropLeadingSuffix(s);
    InfixShape(s, t, |s| - |t|);
  }

  lemma DropTrailingShape(s: string)
    requires IsWordString(s) && NoDoubleUnderscore(s)
    ensures IsWordString(DropTrailingUnderscores(s)) && NoDoubleUnderscore(DropTrailingUnderscores(s))
  {
    DropTrailingPrefix(s);
    InfixShape(s, DropTrailingUnderscores(s), 0);
  }

  /** Stripping underscores keeps the word shape. */
  lemma StripUnderscoresShape(s: string)
    requires IsWordString(s) && NoDoubleUnderscore(s)
    ensures IsWordString(StripUnderscores(s)) && NoDoubleUnderscore(StripUnderscores(s))
  {
    DropLeadingShape(s);
    DropTrailingShape(DropLeadingUnderscores(s));
  }

  /** A string found inside a word string is a word string. */
  lemma InfixShape(s: string, r: string, i: nat)
    requires i + |r| <= |s| && r == s[i..i + |r|]
    requires IsWordString(s) && NoDoubleUnderscore(s)
    ensures IsWordString(r) && NoDoubleUnderscore(r)
  {
    forall k | 0 <= k < |r| ensures r[k] == s[i + k] {
    }
  }

  lemma {:induction false} DropLeadingUnderscoresAlnum(s: string)
    ensures AlnumOf(DropLeadingUnderscores(s)) == AlnumOf(s)
  {
    if s != [] && s[0] == '_' {
      DropLeadingUnderscoresAlnum(s[1..]);
      assert s == ['_'] + s[1..];
      AlnumOfConcat(['_'], s[1..]);
      AlnumOfSingle('_');
    }
  }

  lemma {:induction false} DropTrailingUnderscoresAlnum(s: string)
    ensures AlnumOf(DropTrailingUnderscores(s)) == AlnumOf(s)
  {
    if s != [] && s[|s| - 1] == '_' {
      DropTrailingUnderscoresAlnum(s[..|s| - 1]);
    }
  }

  /** Stripping underscores keeps every letter and digit. */
  lemma StripUnderscoresAlnum(s: string)
    ensures AlnumOf(StripUnderscores(s)) == AlnumOf(s)
  {
    DropLeadingUnderscoresAlnum(s);
    DropTrailingUnderscoresAlnum(DropLeadingUnderscores(s));
  }

  /** AlnumOf commutes with lower-casing, which maps letters and digits to
      letters and digits. */
  lemma {:induction false} AlnumOfLower(s: string)
    ensures AlnumOf(Lower(s)) == Lower(AlnumOf(s))
  {
    if s != [] {
      var n := |s| - 1;
      assert Lower(s) == Lower(s[..n]) + [ToLowerChar(s[n])];
      AlnumOfConcat(Lower(s[..n]), [ToLowerChar(s[n])]);
      AlnumOfLower(s[..n]);
    }
  }

  /** The shape of a normalised column name: lower-case letters, digits and
      single underscores, never at either end, and a letter first. */
  predicate IsColumnName(r: string) {
    && (forall i :: 0 <= i < |r| ==> IsAsciiLower(r[i]) || IsDigit(r[i]) || r[i] == '_')
    && NoDoubleUnderscore(r)
    && (r == [] || (IsAsciiLower(r[0]) && r[|r| - 1] != '_'))
  }

  /** Steps 1 to 4 of `clean_column_name`. */
  function NormalizedCore(name: string): string
  {
    Lower(StripUnderscores(CollapseSpaces(DropPunctuation(name))))
  }

  /** `clean_column_name(name)` for a name that is a string. */
  function CleanColumnName(name: string): (r: string)
  {
    var s := NormalizedCore(name);
    if s != [] && !IsAsciiLetter(s[0]) then "f_" + s else s
  }

  /** Lower-case letters, digits and single underscores, none at either end. */
  predicate IsLowerWordString(s: string) {
    && (forall i :: 0 <= i < |s| ==> IsAsciiLower(s[i]) || IsDigit(s[i]) || s[i] == '_')
    && NoDoubleUnderscore(s)
    && (s == [] || (s[0] != '_' && s[|s| - 1] != '_'))
  }

  /** Step 4, `.lower()`, on letters, digits and single inner underscores. */
  lemma LowerShape(s: string)
    requires IsWordString(s) && NoDoubleUnderscore(s)
    requires s == [] || (s[0] != '_' && s[|s| - 1] != '_')
    ensures IsLowerWordString(Lower(s))
  {
    var l := Lower(s);
    forall i | 0 <= i < |s|
      ensures IsAsciiLower(l[i]) || IsDigit(l[i]) || l[i] == '_'
      ensures l[i] == '_' <==> s[i] == '_'
    {
      assert l[i] == ToLowerChar(s[i]);
    }
  }

  /** Step 5, the `f_` prefix in front of a leading digit. */
  lemma PrefixShape(s: string)
    requires IsLowerWordString(s)
    ensures IsColumnName(if s != [] && !IsAsciiLetter(s[0]) then "f_" + s else s)
  {
    if s != [] && !IsAsciiLetter(s[0]) {
      var r := "f_" + s;
      assert IsDigit(s[0]);
      forall i | 0 <= i < |r| ensures IsAsciiLower(r[i]) || IsDigit(r[i]) || r[i] == '_' {
        if i >= 2 {
          assert r[i] == s[i - 2];
        }
      }
      forall i | 0 <= i < |r| - 1 ensures !(r[i] == '_' && r[i + 1] == '_') {
        if i >= 2 {
          assert r[i] == s[i - 2] && r[i + 1] == s[i - 1];
        }
      }
    } else if s != [] {
      assert IsAsciiLetter(s[0]);
    }
  }

  /** The result always has the shape of a column name. */
  lemma CleanColumnNameShape(name: string)
    ensures IsColumnName(CleanColumnName(name))
  {
    var s1 := DropPunctuation(name);
    DropPunctuationChars(name);
    var s2 := CollapseSpaces(s1);
    var s3 := StripUnderscores(s2);
    CollapseSpacesShape(s1);
    StripUnderscoresShape(s2);
    StripUnderscoresEnds(s2);
    LowerShape(s3);
    PrefixShape(Lower(s3));
  }

  /** Steps 1 to 4 keep exactly the letters and digits of the name, lower-cased. */
  lemma NormalizedCoreAlnum(name: string)
    ensures AlnumOf(NormalizedCore(name)) == Lower(AlnumOf(name))
    ensures IsWordString(NormalizedCore(name))
    ensures NormalizedCore(name) == [] || NormalizedCore(name)[0] != '_'
  {
    var s1 := DropPunctuation(name);
    DropPunctuationChars(name);
    var s2 := CollapseSpaces(s1);
    var s3 := StripUnderscores(s2);
    CollapseSpacesShape(s1);
    CollapseSpacesAlnum(s1);
    StripUnderscoresShape(s2);
    StripUnderscoresAlnum(s2);
    StripUnderscoresEnds(s2);
    AlnumOfLower(s3);
    AlnumOfDropPunctuation(name);
    LowerShape(s3);
  }

  /** The letters and digits of the result are those of the name,
      lower-cased, behind an `f` when the first of them is a digit. */
  lemma CleanColumnNameAlnum(name: string)
    ensures AlnumOf(CleanColumnName(name)) ==
      (if AlnumOf(name) != [] && IsDigit(AlnumOf(name)[0]) then "f" else "") + Lower(AlnumOf(name))
  {
    NormalizedCoreAlnum(name);
    AlnumOfChars(name);
    PrefixAlnum(NormalizedCore(name), AlnumOf(name));
  }

  /** Step 5 puts an `f` in front of the letters and digits exactly when
      the first of them is a digit. */
  lemma PrefixAlnum(s: string, a: string)
    requires AlnumOf(s) == Lower(a) && IsWordString(s) && (s == [] || s[0] != '_')
    requires forall i :: 0 <= i < |a| ==> IsAsciiAlnum(a[i])
    ensures AlnumOf(if s != [] && !IsAsciiLetter(s[0]) then "f_" + s else s) ==
      (if a != [] && IsDigit(a[0]) then "f" else "") + Lower(a)
  {
    AlnumFirst(s);
    if s == [] {
      assert |Lower(a)| == 0;
    } else {
      assert s[0] == ToLowerChar(a[0]);
      LowerKeepsKind(a[0]);
      if !IsAsciiLetter(s[0]) {
        AlnumOfPrefixed(s);
      }
    }
  }

  lemma LowerKeepsKind(c: char)
    requires IsAsciiAlnum(c)
    ensures IsDigit(c) <==> !IsAsciiLetter(ToLowerChar(c))
  {
  }

  lemma AlnumOfCons(c: char, s: string)
    ensures AlnumOf([c] + s) == (if IsAsciiAlnum(c) then [c] else []) + AlnumOf(s)
  {
    AlnumOfConcat([c], s);
    AlnumOfSingle(c);
  }

  lemma AlnumOfPair(a: char, b: char, s: string)
    requires IsAsciiAlnum(a) && !IsAsciiAlnum(b)
    ensures AlnumOf([a, b] + s) == [a] + AlnumOf(s)
  {
    var t := [b] + s;
    assert [a, b] + s == [a] + t;
    AlnumOfCons(a, t);
    AlnumOfCons(b, s);
  }

  lemma AlnumOfPrefixed(s: string)
    ensures AlnumOf("f_" + s) == "f" + AlnumOf(s)
  {
    AlnumOfPair('f', '_', s);
  }

  /** Dropping punctuation keeps every letter and digit. */
  lemma {:induction false} AlnumOfDropPunctuation(s: string)
    ensures AlnumOf(DropPunctuation(s)) == AlnumOf(s)
  {
    if s != [] {
      var n := |s| - 1;
      AlnumOfDropPunctuation(s[..n]);
      var c := s[n];
      AlnumOfConcat(DropPunctuation(s[..n]), if IsAlnumOrSpace(c) then [c] else []);
      AlnumOfConcat(s[..n], [c]);
      assert s == s[..n] + [c];
      AlnumOfSingle(c);
    }
  }

  /** For a string of letters, digits and single inner underscores, the first
      letter or digit is its first character. */
  lemma AlnumFirst(s: string)
    requires s == [] || s[0] != '_'
    requires IsWordString(s)
    ensures AlnumOf(s) == [] <==> s == []
    ensures s != [] ==> AlnumOf(s)[0] == s[0]
  {
    if s != [] {
      AlnumOfConcat([s[0]], s[1..]);
      assert [s[0]] + s[1..] == s;
      AlnumOfSingle(s[0]);
    }
  }

  /** The result is empty exactly when the name holds no ASCII letter or digit. */
  lemma CleanColumnNameEmpty(name: string)
    ensures CleanColumnName(name) == [] <==> AlnumOf(name) == []
  {
    var r := CleanColumnName(name);
    CleanColumnNameShape(name);
    CleanColumnNameAlnum(name);
    if r != [] {
      AlnumFirst(r);
    }
  }

  /** A string of letters and digits is its own AlnumOf. */
  lemma {:induction false} AlnumOfAllAlnum(s: string)
    requires forall i :: 0 <= i < |s| ==> IsAsciiAlnum(s[i])
    ensures AlnumOf(s) == s
  {
    if s != [] {
      AlnumOfAllAlnum(s[..|s| - 1]);
      assert s == s[..|s| - 1] + [s[|s| - 1]];
    }
  }

  /** Step 1 works character by character. */
  lemma {:induction false} DropPunctuationConcat(a: string, b: string)
    ensures DropPunctuation(a + b) == DropPunctuation(a) + DropPunctuation(b)
  {
    if b == [] {
      assert a + b == a;
    } else {
      var n := |b| - 1;
      assert (a + b)[..|a + b| - 1] == a + b[..n];
      DropPunctuationConcat(a, b[..n]);
    }
  }

  /** On a name without whitespace, step 1 keeps exactly the letters and
      digits. */
  lemma {:induction false} DropPunctuationNoSpace(s: string)
    requires NoSpace(s)
    ensures DropPunctuation(s) == AlnumOf(s)
  {
    if s != [] {
      DropPunctuationNoSpace(s[..|s| - 1]);
    }
  }

  /** Step 2 changes nothing in a string without whitespace. */
  lemma {:induction false} CollapseSpacesNoSpace(s: string)
    requires NoSpace(s)
    ensures CollapseSpaces(s) == s
  {
    if s != [] {
      CollapseSpacesNoSpace(s[..|s| - 1]);
      assert s == s[..|s| - 1] + [s[|s| - 1]];
    }
  }

  /** Step 2 works piece by piece where the second piece starts with a
      character that is not whitespace. */
  lemma {:induction false} CollapseSpacesConcat(a: string, b: string)
    requires b != [] && !IsSpace(b[0])
    ensures CollapseSpaces(a + b) == CollapseSpaces(a) + CollapseSpaces(b)
  {
    var n := |b| - 1;
    var c := b[n];
    assert (a + b)[..|a + b| - 1] == a + b[..n];
    if n == 0 {
      assert b[..0] == [];
      assert a + b[..n] == a;
    } else {
      CollapseSpacesConcat(a, b[..n]);
      assert (a + b[..n])[|a + b[..n]| - 1] == b[..n][n - 1];
    }
  }

  /** A run of whitespace after a character that is not whitespace becomes
      one underscore. */
  lemma {:induction false} CollapseSpacesRun(a: string, w: string)
    requires a != [] && !IsSpace(a[|a| - 1])
    requires w != [] && forall i :: 0 <= i < |w| ==> IsSpace(w[i])
    ensures CollapseSpaces(a + w) == CollapseSpaces(a) + "_"
  {
    var n := |w| - 1;
    assert (a + w)[..|a + w| - 1] == a + w[..n];
    if n == 0 {
      assert a + w[..n] == a;
    } else {
      CollapseSpacesRun(a, w[..n]);
      assert (a + w[..n])[|a + w[..n]| - 1] == w[n - 1];
    }
  }

  /** Step 3 changes nothing when neither end is an underscore. */
  lemma StripUnderscoresNone(s: string)
    requires s == [] || (s[0] != '_' && s[|s| - 1] != '_')
    ensures StripUnderscores(s) == s
  {
  }

  /** No whitespace. */
  predicate NoSpace(s: string) { forall i :: 0 <= i < |s| ==> !IsSpace(s[i]) }

  /** Letters and digits only. */
  predicate AllAlnum(s: string) { forall i :: 0 <= i < |s| ==> IsAsciiAlnum(s[i]) }

  /** Whitespace only. */
  predicate AllSpace(s: string) { forall i :: 0 <= i < |s| ==> IsSpace(s[i]) }

  lemma AlnumNotSpace(c: char)
    requires IsAsciiAlnum(c)
    ensures !IsSpace(c) && c != '_'
  {
  }

  lemma AllAlnumNoSpace(w: string)
    requires AllAlnum(w)
    ensures NoSpace(w)
  {
    forall i | 0 <= i < |w| ensures !IsSpace(w[i]) { AlnumNotSpace(w[i]); }
  }

  /** A word of letters and digits passes steps 1 and 2 unchanged. */
  lemma AlnumWord(w: string)
    requires AllAlnum(w)
    ensures DropPunctuation(w) == w && CollapseSpaces(w) == w
  {
    AllAlnumNoSpace(w);
    DropPunctuationNoSpace(w);
    AlnumOfAllAlnum(w);
    CollapseSpacesNoSpace(w);
  }

  /** A word of letters and digits is only lower-cased by steps 1 to 4. */
  lemma NormalizedCoreWord(w: string)
    requires AllAlnum(w)
    ensures NormalizedCore(w) == Lower(w)
  {
    AlnumWord(w);
    if w != [] {
      AlnumNotSpace(w[0]);
      AlnumNotSpace(w[|w| - 1]);
    }
    StripUnderscoresNone(w);
  }

  /** For a name without whitespace, steps 1 to 4 give its letters and
      digits, lower-cased: every other character, the underscore among them,
      is dropped. Underscores survive only where whitespace was. */
  lemma NormalizedCoreNoSpace(name: string)
    requires NoSpace(name)
    ensures NormalizedCore(name) == Lower(AlnumOf(name))
  {
    var a := AlnumOf(name);
    DropPunctuationNoSpace(name);
    AlnumOfChars(name);
    assert AllAlnum(a);
    AlnumWord(a);
    NormalizedCoreWord(a);
    assert NormalizedCore(name) == NormalizedCore(a);
  }

  lemma DropPunctuationSingle(c: char)
    ensures DropPunctuation([c]) == if IsAlnumOrSpace(c) then [c] else []
  {
    assert [c][..0] == [];
  }

  /** Step 1 on three words with arbitrary text between them. */
  lemma DropPunctuationWords(w1: string, g1: string, w2: string, g2: string, w3: string)
    requires AllAlnum(w1) && AllAlnum(w2) && AllAlnum(w3)
    ensures DropPunctuation(w1 + g1 + w2 + g2 + w3)
      == w1 + DropPunctuation(g1) + w2 + DropPunctuation(g2) + w3
  {
    DropPunctuationConcat(w1 + g1 + w2 + g2, w3);
    DropPunctuationConcat(w1 + g1 + w2, g2);
    DropPunctuationConcat(w1 + g1, w2);
    DropPunctuationConcat(w1, g1);
    AlnumWord(w1);
    AlnumWord(w2);
    AlnumWord(w3);
  }

  /** Step 2 on a word, a whitespace run, and the rest of the string. */
  lemma CollapseSpacesAfterWord(w: string, g: string, rest: string)
    requires w != [] && AllAlnum(w)
    requires g != [] && AllSpace(g)
    requires rest != [] && !IsSpace(rest[0])
    ensures CollapseSpaces(w + g + rest) == w + "_" + CollapseSpaces(rest)
  {
    AlnumWord(w);
    AlnumNotSpace(w[|w| - 1]);
    CollapseSpacesConcat(w + g, rest);
    CollapseSpacesRun(w, g);
  }

  lemma CollapseSpacesTwoWords(w1: string, g: string, w2: string)
    requires w1 != [] && AllAlnum(w1) && g != [] && AllSpace(g)
    requires w2 != [] && AllAlnum(w2)
    ensures CollapseSpaces(w1 + g + w2) == w1 + "_" + w2
  {
    AlnumNotSpace(w2[0]);
    CollapseSpacesAfterWord(w1, g, w2);
    AlnumWord(w2);
  }

  /** Step 2 on three words separated by whitespace runs joins them with
      single underscores. */
  lemma CollapseSpacesThreeWords(w1: string, g1: string, w2: string, g2: string, w3: string)
    requires w1 != [] && w2 != [] && w3 != []
    requires AllAlnum(w1) && AllAlnum(w2) && AllAlnum(w3)
    requires g1 != [] && AllSpace(g1) && g2 != [] && AllSpace(g2)
    ensures CollapseSpaces(w1 + g1 + w2 + g2 + w3) == w1 + "_" + w2 + "_" + w3
  {
    var t := w2 + g2 + w3;
    assert t[0] == w2[0];
    AlnumNotSpace(w2[0]);
    CollapseSpacesAfterWord(w1, g1, t);
    CollapseSpacesTwoWords(w2, g2, w3);
    assert w1 + g1 + w2 + g2 + w3 == w1 + g1 + t;
    assert w1 + "_" + (w2 + "_" + w3) == w1 + "_" + w2 + "_" + w3;
  }

  /** Three words with separators of punctuation and whitespace, each
      holding some whitespace, come out as the words lower-cased and joined
      by single underscores. */
  lemma NormalizedCoreSeparated(w1: string, g1: string, w2: string, g2: string, w3: string)
    requires w1 != [] && w2 != [] && w3 != []
    requires AllAlnum(w1) && AllAlnum(w2) && AllAlnum(w3)
    requires DropPunctuation(g1) != [] && AllSpace(DropPunctuation(g1))
    requires DropPunctuation(g2) != [] && AllSpace(DropPunctuation(g2))
    ensures NormalizedCore(w1 + g1 + w2 + g2 + w3) == Lower(w1 + "_" + w2 + "_" + w3)
  {
    var d1 := DropPunctuation(g1);
    var d2 := DropPunctuation(g2);
    var j := w1 + "_" + w2 + "_" + w3;
    DropPunctuationWords(w1, g1, w2, g2, w3);
    CollapseSpacesThreeWords(w1, d1, w2, d2, w3);
    assert j[0] == w1[0] && j[|j| - 1] == w3[|w3| - 1];
    AlnumNotSpace(w1[0]);
    AlnumNotSpace(w3[|w3| - 1]);
    StripUnderscoresNone(j);
  }

  /** An underscore between two strings contributes no letter or digit. */
  lemma AlnumOfSkip(w1: string, w2: string)
    ensures AlnumOf(w1 + "_" + w2) == AlnumOf(w1) + AlnumOf(w2)
  {
    var u := w1 + "_";
    AlnumOfConcat(u, w2);
    AlnumOfConcat(w1, "_");
    AlnumOfSingle('_');
    assert AlnumOf(u) == AlnumOf(w1);
  }

  /** Three words joined by underscores keep only the words' characters. */
  lemma AlnumOfThreeWords(w1: string, w2: string, w3: string)
    requires AllAlnum(w1) && AllAlnum(w2) && AllAlnum(w3)
    ensures AlnumOf(w1 + "_" + w2 + "_" + w3) == w1 + w2 + w3
  {
    var u := w1 + "_" + w2;
    assert w1 + "_" + w2 + "_" + w3 == u + "_" + w3;
    AlnumOfSkip(u, w3);
    AlnumOfSkip(w1, w2);
    AlnumOfAllAlnum(w1);
    AlnumOfAllAlnum(w2);
    AlnumOfAllAlnum(w3);
  }

  /** Words already joined by underscores lose the underscores: the
      normaliser does not keep its own separators. */
  lemma NormalizedCoreUnderscored(w1: string, w2: string, w3: string)
    requires AllAlnum(w1) && AllAlnum(w2) && AllAlnum(w3)
    ensures NormalizedCore(w1 + "_" + w2 + "_" + w3) == Lower(w1 + w2 + w3)
  {
    var j := w1 + "_" + w2 + "_" + w3;
    AllAlnumNoSpace(w1);
    AllAlnumNoSpace(w2);
    AllAlnumNoSpace(w3);
    assert NoSpace(j);
    NormalizedCoreNoSpace(j);
    AlnumOfThreeWords(w1, w2, w3);
  }

  /** `clean_column_name("123abc")` is `"f_123abc"`: a leading digit gets
      the `f_` prefix. */
  lemma CleanLeadingDigit()
    ensures CleanColumnName("123abc") == "f_123abc"
  {
    assert AllAlnum("123abc");
    NormalizedCoreWord("123abc");
    assert Lower("123abc") == "123abc";
  }

  lemma DollarPunctuation()
    ensures DropPunctuation(" $ ") == "  "
  {
    assert " $ " == [' '] + ['$'] + [' '];
    DropPunctuationConcat([' '] + ['$'], [' ']);
    DropPunctuationConcat([' '], ['$']);
    DropPunctuationSingle(' ');
    DropPunctuationSingle('$');
  }

  lemma SalesAmountSeparators()
    ensures DropPunctuation(" $ ") == "  " && AllSpace("  ")
    ensures DropPunctuation(" ") == " " && AllSpace(" ")
  {
    DollarPunctuation();
    DropPunctuationSingle(' ');
  }

  lemma SalesAmountLower()
    ensures Lower("Sales" + "_" + "Amount" + "_" + "2024") == "sales_amount_2024"
  {
    assert "Sales" + "_" + "Amount" + "_" + "2024" == "Sales_Amount_2024";
  }

  /** `clean_column_name("Sales $ Amount 2024")` is `"sales_amount_2024"`:
      the punctuation goes, each run of whitespace becomes one underscore,
      and letters are lower-cased. */
  lemma CleanSalesAmount()
    ensures CleanColumnName("Sales $ Amount 2024") == "sales_amount_2024"
  {
    var name := "Sales" + " $ " + "Amount" + " " + "2024";
    SalesAmountSeparators();
    assert AllAlnum("Sales") && AllAlnum("Amount") && AllAlnum("2024");
    NormalizedCoreSeparated("Sales", " $ ", "Amount", " ", "2024");
    SalesAmountLower();
    assert NormalizedCore(name) == "sales_amount_2024";
    assert name == "Sales $ Amount 2024";
  }

  /** Underscores typed into a name are dropped:
      `clean_column_name("sales_amount_2024")` is `"salesamount2024"`. */
  lemma CleanUnderscored()
    ensures CleanColumnName("sales_amount_2024") == "salesamount2024"
  {
    assert AllAlnum("sales") && AllAlnum("amount") && AllAlnum("2024");
    NormalizedCoreUnderscored("sales", "amount", "2024");
    assert "sales" + "_" + "amount" + "_" + "2024" == "sales_amount_2024";
    assert Lower("sales" + "amount" + "2024") == "salesamount2024";
  }

  /** The normaliser is not idempotent: applied to its own result
      `"sales_amount_2024"` it drops the underscores. */
  lemma CleanNotIdempotent()
    ensures CleanColumnName(CleanColumnName("Sales $ Amount 2024")) != CleanColumnName("Sales $ Amount 2024")
  {
    CleanSalesAmount();
    CleanUnderscored();
    assert "salesamount2024" != "sales_amount_2024";
  }
}
