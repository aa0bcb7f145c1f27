/**
 * `kebabCase` of website/utils/recipes.ts, which turns a recipe name into the last segment of
 * its page URL. It is three rewrites in a row: a hyphen between a lower-case letter and the
 * capital after it, one hyphen for each run of white space or underscores, and lower case.
 * White space is the ASCII white space of `\s`.
 */
module Kebab {
  import opened Strings
  import opened Seqs

  /** The ASCII characters that `\s` matches. */
  predicate IsSpace(c: char)
  {
    c == ' ' || c == '\t' || c == '\n' || c == '\r' || c == '\U{000B}' || c == '\U{000C}'
  }

  /** A character of the class `[\s_]`. */
  predicate IsSeparator(c: char)
  {
    IsSpace(c) || c == '_'
  }

  /** Neither a letter, a separator, nor the hyphen that the rewrites insert. */
  predicate IsOther(c: char)
  {
    !IsLetter(c) && !IsSeparator(c) && c != '-'
  }

  predicate NoCapitals(s: string)
  {
    forall i :: 0 <= i < |s| ==> !IsUpper(s[i])
  }

  predicate NoSeparators(s: string)
  {
    forall i :: 0 <= i < |s| ==> !IsSeparator(s[i])
  }

  /**
   * `s.replace(/([a-z])([A-Z])/g, '$1-$2')`: the pattern is tried at each index from the left;
   * a match consumes both letters and the search resumes after them.
   */
  function Hyphenate(s: string): string
    decreases |s|
  {
    if |s| < 2 then s
    else if IsLower(s[0]) && IsUpper(s[1]) then [s[0], '-', s[1]] + Hyphenate(s[2..])
    else [s[0]] + Hyphenate(s[1..])
  }

  /** `s` with its leading separators removed. */
  function SkipSeparators(s: string): (r: string)
    ensures |r| <= |s|
    ensures r == [] || !IsSeparator(r[0])
  {
    if s != [] && IsSeparator(s[0]) then SkipSeparators(s[1..]) else s
  }

  /** What is skipped is a prefix made of separators only. */
  lemma {:induction false} SkipSeparatorsSuffix(s: string)
    ensures var r := SkipSeparators(s);
      r == s[|s| - |r|..] && forall i :: 0 <= i < |s| - |r| ==> IsSeparator(s[i])
    decreases |s|
  {
    if s != [] && IsSeparator(s[0]) {
      SkipSeparatorsSuffix(s[1..]);
    }
  }

  /** A string made of separators only is skipped entirely. */
  lemma {:induction false} SkipAllSeparators(s: string)
    requires forall i :: 0 <= i < |s| ==> IsSeparator(s[i])
    ensures SkipSeparators(s) == []
    decreases |s|
  {
    if s != [] {
      SkipAllSeparators(s[1..]);
    }
  }

  /** `s.replace(/[\s_]+/g, '-')`: a greedy match replaces a whole run by a single hyphen. */
  function Collapse(s: string): (r: string)
    ensures NoSeparators(r)
    decreases |s|
  {
    if s == [] then []
    else if IsSeparator(s[0]) then "-" + Collapse(SkipSeparators(s[1..]))
    else [s[0]] + Collapse(s[1..])
  }

  /** `kebabCase(s)`: the URL segment of a recipe named `s`. */
  function KebabCase(s: string): (r: string)
    ensures NoCapitals(r)
    ensures NoSeparators(r)
  {
    ToLower(Collapse(Hyphenate(s)))
  }

  /** No lower-case letter of `a` is directly followed by a capital at the start of `b`. */
  predicate NoCamelPairAcross(a: string, b: string)
  {
    a == [] || b == [] || !(IsLower(a[|a| - 1]) && IsUpper(b[0]))
  }

  /** No run of separators continues from the end of `a` into `b`. */
  predicate NoRunAcross(a: string, b: string)
  {
    a == [] || b == [] || !IsSeparator(a[|a| - 1]) || !IsSeparator(b[0])
  }

  /** Hyphenating keeps the first and the last character and only lengthens. */
  lemma {:induction false} HyphenateEnds(s: string)
    ensures |Hyphenate(s)| >= |s|
    ensures s != [] ==> Hyphenate(s)[0] == s[0] && Hyphenate(s)[|Hyphenate(s)| - 1] == s[|s| - 1]
    decreases |s|
  {
    if |s| >= 2 {
      if IsLower(s[0]) && IsUpper(s[1]) {
        HyphenateEnds(s[2..]);
      } else {
        HyphenateEnds(s[1..]);
      }
    }
  }

  /** Where no match can straddle the cut, the first rewrite works on both halves apart. */
  lemma {:induction false} HyphenateAppend(a: string, b: string)
    requires NoCamelPairAcross(a, b)
    ensures Hyphenate(a + b) == Hyphenate(a) + Hyphenate(b)
    decreases |a|
  {
    if a == [] {
      assert a + b == b;
    } else if b == [] {
      assert a + b == a;
    } else if |a| == 1 {
      assert (a + b)[1..] == b;
    } else if IsLower(a[0]) && IsUpper(a[1]) {
      assert (a + b)[2..] == a[2..] + b;
      HyphenateAppend(a[2..], b);
    } else {
      assert (a + b)[1..] == a[1..] + b;
      HyphenateAppend(a[1..], b);
    }
  }

  /** A string without capitals holds no match of the first rewrite. */
  lemma {:induction false} HyphenateWithoutCapitals(s: string)
    requires NoCapitals(s)
    ensures Hyphenate(s) == s
    decreases |s|
  {
    if |s| >= 2 {
      HyphenateWithoutCapitals(s[1..]);
    }
  }

  lemma {:induction false} SkipSeparatorsAppend(a: string, b: string)
    ensures SkipSeparators(a + b) == if SkipSeparators(a) == [] then SkipSeparators(b) else SkipSeparators(a) + b
    decreases |a|
  {
    if a == [] {
      assert a + b == b;
    } else {
      assert (a + b)[0] == a[0] && (a + b)[1..] == a[1..] + b;
      if IsSeparator(a[0]) {
        SkipSeparatorsAppend(a[1..], b);
      }
    }
  }

  /** Where no run straddles the cut, the second rewrite works on both halves apart. */
  lemma {:induction false} CollapseAppend(a: string, b: string)
    requires NoRunAcross(a, b)
    ensures Collapse(a + b) == Collapse(a) + Collapse(b)
    decreases |a|
  {
    if a == [] {
      assert a + b == b;
    } else if b == [] {
      assert a + b == a;
    } else if !IsSeparator(a[0]) {
      assert (a + b)[0] == a[0] && (a + b)[1..] == a[1..] + b;
      CollapseAppend(a[1..], b);
    } else {
      assert (a + b)[0] == a[0] && (a + b)[1..] == a[1..] + b;
      SkipSeparatorsAppend(a[1..], b);
      var t := SkipSeparators(a[1..]);
      if t == [] {
        // the whole of `a` is one run, so `b` starts a new word
        SkipSeparatorsSuffix(a[1..]);
        assert IsSeparator(a[|a| - 1]);
        assert SkipSeparators(b) == b;
      } else {
        SkipSeparatorsSuffix(a[1..]);
        assert t[|t| - 1] == a[|a| - 1];
        CollapseAppend(t, b);
      }
    }
  }

  /** A string without separators holds no match of the second rewrite. */
  lemma {:induction false} CollapseWithoutSeparators(s: string)
    requires NoSeparators(s)
    ensures Collapse(s) == s
    decreases |s|
  {
    if s != [] {
      CollapseWithoutSeparators(s[1..]);
    }
  }

  /** The second rewrite on its own turns a string made of one run of separators into one hyphen. */
  lemma CollapseRun(r: string)
    requires r != [] && forall i :: 0 <= i < |r| ==> IsSeparator(r[i])
    ensures Collapse(r) == "-"
  {
    SkipAllSeparators(r[1..]);
  }

  /** Where no rewrite can match across the cut, `kebabCase` works on both halves apart. */
  lemma KebabCaseAppend(a: string, b: string)
    requires NoCamelPairAcross(a, b) && NoRunAcross(a, b)
    ensures KebabCase(a + b) == KebabCase(a) + KebabCase(b)
  {
    HyphenateAppend(a, b);
    HyphenateEnds(a);
    HyphenateEnds(b);
    CollapseAppend(Hyphenate(a), Hyphenate(b));
    ToLowerAppend(Collapse(Hyphenate(a)), Collapse(Hyphenate(b)));
  }

  /** A lower-case letter followed by a capital, `xY`, comes out as `x-y`. */
  lemma KebabCaseCamelPair(s: string, i: nat)
    requires i + 1 < |s| && IsLower(s[i]) && IsUpper(s[i + 1])
    ensures KebabCase(s) == KebabCase(s[..i]) + [s[i], '-', LowerChar(s[i + 1])] + KebabCase(s[i + 2..])
  {
    var tail := [s[i], s[i + 1]] + s[i + 2..];
    assert s == s[..i] + tail;
    assert tail[0] == s[i];
    KebabCaseAppend(s[..i], tail);
    KebabCaseCamelHead(s[i], s[i + 1], s[i + 2..]);
  }

  /** A camel pair at the very start: the pair and a hyphen, then the rest on its own. */
  lemma KebabCaseCamelHead(x: char, y: char, rest: string)
    requires IsLower(x) && IsUpper(y)
    ensures KebabCase([x, y] + rest) == [x, '-', LowerChar(y)] + KebabCase(rest)
  {
    var mid: string := [x, '-', y];
    assert Hyphenate([x, y] + rest) == mid + Hyphenate(rest) by {
      assert ([x, y] + rest)[2..] == rest;
    }
    assert Collapse(mid + Hyphenate(rest)) == mid + Collapse(Hyphenate(rest)) by {
      CollapseWithoutSeparators(mid);
      CollapseAppend(mid, Hyphenate(rest));
    }
    assert ToLower(mid) == [x, '-', LowerChar(y)];
    ToLowerAppend(mid, Collapse(Hyphenate(rest)));
  }

  /**
   * A maximal run of white space and underscores, between two parts that do not continue it,
   * becomes exactly one hyphen.
   */
  lemma KebabCaseSeparatorRun(a: string, r: string, b: string)
    requires r != [] && forall i :: 0 <= i < |r| ==> IsSeparator(r[i])
    requires a == [] || !IsSeparator(a[|a| - 1])
    requires b == [] || !IsSeparator(b[0])
    ensures KebabCase(a + r + b) == KebabCase(a) + "-" + KebabCase(b)
  {
    var rb := r + b;
    assert a + r + b == a + rb;
    assert NoCamelPairAcross(a, rb) && NoRunAcross(a, rb) by {
      assert rb[0] == r[0] && IsSeparator(r[0]);
    }
    KebabCaseAppend(a, rb);
    assert NoCamelPairAcross(r, b) && NoRunAcross(r, b) by {
      assert IsSeparator(r[|r| - 1]);
    }
    assert KebabCase(rb) == "-" + KebabCase(b) by {
      KebabCaseAppend(r, b);
      KebabCaseRun(r);
    }
  }

  /** The whole of `kebabCase` turns a string made of one run of separators into one hyphen. */
  lemma KebabCaseRun(r: string)
    requires r != [] && forall i :: 0 <= i < |r| ==> IsSeparator(r[i])
    ensures KebabCase(r) == "-"
  {
    HyphenateWithoutCapitals(r);
    CollapseRun(r);
    assert ToLower("-") == "-";
  }

  /** Output that has no capitals and no separators is left as it is. */
  lemma KebabCaseFixedPoint(s: string)
    requires NoCapitals(s) && NoSeparators(s)
    ensures KebabCase(s) == s
  {
    HyphenateWithoutCapitals(s);
    CollapseWithoutSeparators(s);
    ToLowerWithoutCapitals(s);
  }

  /** Applying `kebabCase` to its own output changes nothing. */
  lemma KebabCaseIdempotent(s: string)
    ensures KebabCase(KebabCase(s)) == KebabCase(s)
  {
    KebabCaseFixedPoint(KebabCase(s));
  }

  lemma {:induction false} HyphenateKeepsOthers(s: string)
    ensures Filter(IsOther, Hyphenate(s)) == Filter(IsOther, s)
    decreases |s|
  {
    if |s| >= 2 {
      assert s == [s[0]] + s[1..];
      FilterAppend(IsOther, [s[0]], s[1..]);
      if IsLower(s[0]) && IsUpper(s[1]) {
        HyphenateKeepsOthers(s[2..]);
        assert s[1..] == [s[1]] + s[2..];
        FilterAppend(IsOther, [s[1]], s[2..]);
        FilterAppend(IsOther, [s[0], '-', s[1]], Hyphenate(s[2..]));
        assert Filter(IsOther, [s[0], '-', s[1]]) == [];
      } else {
        HyphenateKeepsOthers(s[1..]);
        FilterAppend(IsOther, [s[0]], Hyphenate(s[1..]));
      }
    }
  }

  lemma {:induction false} FilterSeparators(s: string)
    requires forall i :: 0 <= i < |s| ==> IsSeparator(s[i])
    ensures Filter(IsOther, s) == []
  {
    if s != [] {
      FilterSeparators(s[1..]);
    }
  }

  lemma {:induction false} CollapseKeepsOthers(s: string)
    ensures Filter(IsOther, Collapse(s)) == Filter(IsOther, s)
    decreases |s|
  {
    if s != [] {
      assert s == [s[0]] + s[1..];
      FilterAppend(IsOther, [s[0]], s[1..]);
      if IsSeparator(s[0]) {
        var t := SkipSeparators(s[1..]);
        SkipSeparatorsSuffix(s[1..]);
        CollapseKeepsOthers(t);
        FilterAppend(IsOther, "-", Collapse(t));
        var dropped := s[1..][..|s[1..]| - |t|];
        assert s[1..] == dropped + t;
        FilterAppend(IsOther, dropped, t);
        FilterSeparators(dropped);
      } else {
        CollapseKeepsOthers(s[1..]);
        FilterAppend(IsOther, [s[0]], Collapse(s[1..]));
      }
    }
  }

  lemma {:induction false} ToLowerKeepsOthers(s: string)
    ensures Filter(IsOther, ToLower(s)) == Filter(IsOther, s)
    decreases |s|
  {
    if s != [] {
      assert s == [s[0]] + s[1..];
      ToLowerAppend([s[0]], s[1..]);
      FilterAppend(IsOther, [s[0]], s[1..]);
      FilterAppend(IsOther, ToLower([s[0]]), ToLower(s[1..]));
      ToLowerKeepsOthers(s[1..]);
    }
  }

  /**
   * Digits, punctuation and every other character that is not a letter, a separator or a
   * hyphen come through unchanged and in their order.
   */
  lemma KebabCaseKeepsOthers(s: string)
    ensures Filter(IsOther, KebabCase(s)) == Filter(IsOther, s)
  {
    HyphenateKeepsOthers(s);
    CollapseKeepsOthers(Hyphenate(s));
    ToLowerKeepsOthers(Collapse(Hyphenate(s)));
  }

  /** Hyphen counts add up over concatenation, so two parts that keep their hyphens keep them together. */
  lemma HyphensOfParts(a: string, b: string, a': string, b': string)
    requires multiset(a)['-'] <= multiset(a')['-'] && multiset(b)['-'] <= multiset(b')['-']
    ensures multiset(a + b)['-'] <= multiset(a' + b')['-']
  {
    assert multiset(a + b) == multiset(a) + multiset(b);
    assert multiset(a' + b') == multiset(a') + multiset(b');
  }

  /** The first rewrite keeps every hyphen and adds one per match. */
  lemma {:induction false} HyphenateKeepsHyphens(s: string)
    ensures multiset(s)['-'] <= multiset(Hyphenate(s))['-']
    decreases |s|
  {
    if |s| >= 2 {
      if IsLower(s[0]) && IsUpper(s[1]) {
        var pair: string, rest := [s[0], s[1]], s[2..];
        var mid: string := [s[0], '-', s[1]];
        assert s == pair + rest;
        assert Hyphenate(s) == mid + Hyphenate(rest);
        HyphenateKeepsHyphens(rest);
        assert multiset(pair)['-'] == 0;
        HyphensOfParts(pair, rest, mid, Hyphenate(rest));
      } else {
        var rest := s[1..];
        assert s == [s[0]] + rest;
        assert Hyphenate(s) == [s[0]] + Hyphenate(rest);
        HyphenateKeepsHyphens(rest);
        HyphensOfParts([s[0]], rest, [s[0]], Hyphenate(rest));
      }
    }
  }

  /** The second rewrite keeps every hyphen, since a hyphen is not a separator, and adds one per run. */
  lemma {:induction false} CollapseKeepsHyphens(s: string)
    ensures multiset(s)['-'] <= multiset(Collapse(s))['-']
    decreases |s|
  {
    if s != [] {
      if IsSeparator(s[0]) {
        var t := SkipSeparators(s[1..]);
        SkipSeparatorsSuffix(s[1..]);
        var dropped := [s[0]] + s[1..][..|s[1..]| - |t|];
        assert s == dropped + t;
        assert '-' !in dropped;
        assert Collapse(s) == "-" + Collapse(t);
        CollapseKeepsHyphens(t);
        HyphensOfParts(dropped, t, "-", Collapse(t));
      } else {
        var rest := s[1..];
        assert s == [s[0]] + rest;
        assert Collapse(s) == [s[0]] + Collapse(rest);
        CollapseKeepsHyphens(rest);
        HyphensOfParts([s[0]], rest, [s[0]], Collapse(rest));
      }
    }
  }

  /** Lower-casing neither makes nor removes a hyphen. */
  lemma {:induction false} ToLowerKeepsHyphens(s: string)
    ensures multiset(ToLower(s))['-'] == multiset(s)['-']
    decreases |s|
  {
    if s != [] {
      assert s == [s[0]] + s[1..];
      ToLowerAppend([s[0]], s[1..]);
      assert ToLower([s[0]]) == [LowerChar(s[0])];
      assert LowerChar(s[0]) == '-' <==> s[0] == '-';
      ToLowerKeepsHyphens(s[1..]);
    }
  }

  /** Every hyphen of the name is still in its slug; the rewrites only add hyphens. */
  lemma KebabCaseKeepsHyphens(s: string)
    ensures multiset(s)['-'] <= multiset(KebabCase(s))['-']
  {
    HyphenateKeepsHyphens(s);
    CollapseKeepsHyphens(Hyphenate(s));
    ToLowerKeepsHyphens(Collapse(Hyphenate(s)));
  }
}
