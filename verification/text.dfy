/** The string operations the lookups rely on, as Python's `str` performs them:
    `strip()` with no argument, `lower()`, `title()`, and substring search.
    Case mapping covers the ASCII and Latin-1 letters, which is where the
    employee names of this system live ("João", "Florianópolis"). */
module Text {

  /** Python's `str.isspace`: the characters `strip()` removes when called
      without an argument. */
  predicate IsSpace(c: char)
  {
    || ('\t' <= c <= '\r')              // tab, line feed, vertical tab, form feed, return
    || ('\U{1C}' <= c <= '\U{1F}')      // file, group, record and unit separators
    || c == ' ' || c == '\U{85}' || c == '\U{A0}' || c == '\U{1680}'
    || ('\U{2000}' <= c <= '\U{200A}')
    || c == '\U{2028}' || c == '\U{2029}' || c == '\U{202F}' || c == '\U{205F}' || c == '\U{3000}'
  }

  // ---------------------------------------------------------------- stripping

  /** The first position at or after `k` whose character is not in the class
      `p`, or `|s|`. */
  function SkipFrom(s: string, p: char -> bool, k: nat): (i: nat)
    requires k <= |s|
    ensures k <= i <= |s|
    ensures i == |s| || !p(s[i])
    decreases |s| - k
  {
    if k == |s| || !p(s[k]) then k else SkipFrom(s, p, k + 1)
  }

  lemma {:induction false} SkipFromAll(s: string, p: char -> bool, k: nat)
    requires k <= |s|
    ensures forall m :: k <= m < SkipFrom(s, p, k) ==> p(s[m])
    decreases |s| - k
  {
    if k < |s| && p(s[k]) {
      SkipFromAll(s, p, k + 1);
    }
  }

  /** Moving down from `k` but not below `lo`, the first position whose
      preceding character is not in the class `p`. */
  function SkipBack(s: string, p: char -> bool, lo: nat, k: nat): (j: nat)
    requires lo <= k <= |s|
    ensures lo <= j <= k
    ensures j == lo || !p(s[j - 1])
    decreases k - lo
  {
    if k == lo || !p(s[k - 1]) then k else SkipBack(s, p, lo, k - 1)
  }

  lemma {:induction false} SkipBackAll(s: string, p: char -> bool, lo: nat, k: nat)
    requires lo <= k <= |s|
    ensures forall m :: SkipBack(s, p, lo, k) <= m < k ==> p(s[m])
    decreases k - lo
  {
    if k > lo && p(s[k - 1]) {
      SkipBackAll(s, p, lo, k - 1);
    }
  }

  /** Where stripping the class `p` starts and ends its cut of `s`. */
  function StripStart(s: string, p: char -> bool): nat
  {
    SkipFrom(s, p, 0)
  }

  function StripEnd(s: string, p: char -> bool): nat
  {
    SkipBack(s, p, SkipFrom(s, p, 0), |s|)
  }

  /** Python's `s.strip(chars)` for the character class `p`: the leading run
      is cut, then the trailing run of what is left. */
  function Strip(s: string, p: char -> bool): (r: string)
    ensures |r| <= |s|
    ensures r == [] || (!p(r[0]) && !p(r[|r| - 1]))
  {
    s[StripStart(s, p)..StripEnd(s, p)]
  }

  /** Stripping removes only characters of the class, and all of them at
      either end: the result is a slice of `s`, and everything before and
      after it is in the class. */
  lemma StripSpec(s: string, p: char -> bool)
    ensures var i, j := StripStart(s, p), StripEnd(s, p);
            && i <= j <= |s| && Strip(s, p) == s[i..j]
            && (forall m :: 0 <= m < i ==> p(s[m]))
            && (forall m :: j <= m < |s| ==> p(s[m]))
  {
    SkipFromAll(s, p, 0);
    SkipBackAll(s, p, SkipFrom(s, p, 0), |s|);
  }

  /** A string that neither starts nor ends in the class is left alone. */
  lemma StripNoop(s: string, p: char -> bool)
    requires s == [] || (!p(s[0]) && !p(s[|s| - 1]))
    ensures Strip(s, p) == s
  {
    assert StripStart(s, p) == 0;
    assert StripEnd(s, p) == |s|;
  }

  /** `a` and `b` have characters of the class at the same positions. */
  predicate SameClass(a: string, b: string, p: char -> bool)
  {
    |a| == |b| && forall k :: 0 <= k < |a| ==> p(a[k]) == p(b[k])
  }

  lemma {:induction false} SameSkipFrom(a: string, b: string, p: char -> bool, k: nat)
    requires SameClass(a, b, p) && k <= |a|
    ensures SkipFrom(a, p, k) == SkipFrom(b, p, k)
    decreases |a| - k
  {
    if k < |a| && p(a[k]) {
      SameSkipFrom(a, b, p, k + 1);
    }
  }

  lemma {:induction false} SameSkipBack(a: string, b: string, p: char -> bool, lo: nat, k: nat)
    requires SameClass(a, b, p) && lo <= k <= |a|
    ensures SkipBack(a, p, lo, k) == SkipBack(b, p, lo, k)
    decreases k - lo
  {
    if k > lo && p(a[k - 1]) {
      SameSkipBack(a, b, p, lo, k - 1);
    }
  }

  /** Strings with the class at the same positions are cut at the same
      places. */
  lemma StripSameClass(a: string, b: string, p: char -> bool)
    requires SameClass(a, b, p)
    ensures StripStart(a, p) == StripStart(b, p) && StripEnd(a, p) == StripEnd(b, p)
  {
    SameSkipFrom(a, b, p, 0);
    SameSkipBack(a, b, p, SkipFrom(a, p, 0), |a|);
  }

  // ---------------------------------------------------------------- whitespace

  /** Neither the first nor the last character is whitespace. */
  predicate Unpadded(s: string)
  {
    s == [] || (!IsSpace(s[0]) && !IsSpace(s[|s| - 1]))
  }

  /** Python's `s.strip()`: cuts the leading and the trailing whitespace. */
  function Trim(s: string): (r: string)
    ensures |r| <= |s|
    ensures Unpadded(r)
  {
    Strip(s, IsSpace)
  }

  /** `strip()` removes only whitespace, and all of it at either end. */
  lemma TrimSpec(s: string)
    ensures var i, j := StripStart(s, IsSpace), StripEnd(s, IsSpace);
            && i <= j <= |s| && Trim(s) == s[i..j]
            && (forall m :: 0 <= m < i ==> IsSpace(s[m]))
            && (forall m :: j <= m < |s| ==> IsSpace(s[m]))
  {
    StripSpec(s, IsSpace);
  }

  /** Stripping a string that has no surrounding whitespace changes nothing. */
  lemma TrimNoop(s: string)
    requires Unpadded(s)
    ensures Trim(s) == s
  {
    StripNoop(s, IsSpace);
  }

  /** `strip()` only removes characters. */
  lemma TrimChars(s: string, c: char)
    requires c in Trim(s)
    ensures c in s
  {
    var r, i := Trim(s), StripStart(s, IsSpace);
    TrimSpec(s);
    var j :| 0 <= j < |r| && r[j] == c;
    assert s[i + j] == c;
  }

  /** `strip()` is idempotent. */
  lemma TrimIdempotent(s: string)
    ensures Trim(Trim(s)) == Trim(s)
  {
    TrimNoop(Trim(s));
  }

  // ---------------------------------------------------------------- case

  /** Characters Python considers cased, restricted to ASCII and Latin-1 (plus
      U+0178, the capital of 'ÿ'). */
  predicate IsCased(c: char)
  {
    || ('A' <= c <= 'Z') || ('a' <= c <= 'z')
    || c == 'ª' || c == 'µ' || c == 'º'
    || ('À' <= c <= 'Ö') || ('Ø' <= c <= 'ö') || ('ø' <= c <= 'ÿ')
    || c == 'Ÿ'
  }

  /** One character of `str.lower()`. */
  function LowerChar(c: char): char
  {
    if ('A' <= c <= 'Z') || ('À' <= c <= 'Þ' && c != '×') then (c as int + 32) as char
    else if c == 'Ÿ' then 'ÿ'
    else c
  }

  /** One character of `str.upper()` (and of title-casing: in this range the
      title-case of a letter is its upper-case). */
  function UpperChar(c: char): char
  {
    if ('a' <= c <= 'z') || ('à' <= c <= 'þ' && c != '÷') then (c as int - 32) as char
    else if c == 'ÿ' then 'Ÿ'
    else c
  }

  /** Python's `str.lower()`. */
  function Lower(s: string): (r: string)
    ensures |r| == |s|
    ensures forall k :: 0 <= k < |s| ==> r[k] == LowerChar(s[k])
  {
    seq(|s|, k requires 0 <= k < |s| => LowerChar(s[k]))
  }

  /** Case mapping leaves whitespace alone and never produces it. */
  lemma CaseKeepsSpace(c: char)
    ensures IsSpace(LowerChar(c)) == IsSpace(c)
    ensures IsSpace(UpperChar(c)) == IsSpace(c)
  {
  }

  /** `lower()` is idempotent. */
  lemma LowerIdempotent(s: string)
    ensures Lower(Lower(s)) == Lower(s)
  {
  }

  /** `lower()` and `strip()` commute, so `s.lower().strip()` is also
      `s.strip().lower()`. */
  lemma LowerTrimCommute(s: string)
    ensures Trim(Lower(s)) == Lower(Trim(s))
  {
    var l := Lower(s);
    forall k | 0 <= k < |s|
      ensures IsSpace(s[k]) == IsSpace(l[k])
    {
      CaseKeepsSpace(s[k]);
    }
    StripSameClass(s, l, IsSpace);
    LowerSlice(s, StripStart(s, IsSpace), StripEnd(s, IsSpace));
  }

  /** Lower-casing commutes with slicing. */
  lemma LowerSlice(s: string, i: int, j: int)
    requires 0 <= i <= j <= |s|
    ensures Lower(s)[i..j] == Lower(s[i..j])
  {
  }

  /** The key names are compared under: `s.lower().strip()`. */
  function Normalize(s: string): (r: string)
    ensures Lower(r) == r
    ensures Unpadded(r)
  {
    LowerTrimCommute(s);
    LowerIdempotent(Trim(s));
    Trim(Lower(s))
  }

  /** Normalising twice is normalising once. */
  lemma NormalizeIdempotent(s: string)
    ensures Normalize(Normalize(s)) == Normalize(s)
  {
    var n := Normalize(s);
    TrimNoop(n);
  }

  /** One character of `str.title()`, given whether the character before it
      is cased. */
  function TitleChar(prevCased: bool, c: char): char
  {
    if prevCased then LowerChar(c) else UpperChar(c)
  }

  /** Python's `str.title()`: a character is upper-cased when the character
      before it is not cased, and lower-cased otherwise. */
  function Title(s: string): (r: string)
    ensures |r| == |s|
    ensures forall k :: 0 <= k < |s| ==> r[k] == TitleChar(k > 0 && IsCased(s[k - 1]), s[k])
  {
    TitleAfter(s, false)
  }

  /** Title-casing of `s` when the character before `s` is cased iff `prevCased`. */
  function TitleAfter(s: string, prevCased: bool): (r: string)
    ensures |r| == |s|
    ensures forall k :: 0 <= k < |s| ==>
              r[k] == TitleChar(if k == 0 then prevCased else IsCased(s[k - 1]), s[k])
  {
    if s == [] then []
    else [TitleChar(prevCased, s[0])] + TitleAfter(s[1..], IsCased(s[0]))
  }

  /** The laws of the character case maps that title-casing relies on. */
  lemma CaseLaws(c: char)
    ensures LowerChar(UpperChar(c)) == LowerChar(c)
    ensures LowerChar(LowerChar(c)) == LowerChar(c)
    ensures UpperChar(UpperChar(c)) == UpperChar(c)
    ensures IsCased(LowerChar(c)) == IsCased(c)
    ensures IsCased(UpperChar(c)) == IsCased(c)
  {
  }

  /** Title-casing only changes case: lower-casing the title gives back the
      lower-case of the original. */
  lemma TitleLower(s: string)
    ensures Lower(Title(s)) == Lower(s)
  {
    forall k | 0 <= k < |s|
      ensures Lower(Title(s))[k] == Lower(s)[k]
    {
      CaseLaws(s[k]);
      var b := k > 0 && IsCased(s[k - 1]);
      assert Title(s)[k] == TitleChar(b, s[k]);
      assert LowerChar(TitleChar(b, s[k])) == LowerChar(s[k]);
    }
  }

  /** `title()` is idempotent. */
  lemma TitleIdempotent(s: string)
    ensures Title(Title(s)) == Title(s)
  {
    var t := Title(s);
    forall k | 0 <= k < |s|
      ensures Title(t)[k] == t[k]
    {
      CaseLaws(s[k]);
      var b := k > 0 && IsCased(s[k - 1]);
      assert t[k] == TitleChar(b, s[k]);
      if k > 0 {
        CaseLaws(s[k - 1]);
        assert t[k - 1] == TitleChar(k > 1 && IsCased(s[k - 2]), s[k - 1]);
        assert IsCased(t[k - 1]) == IsCased(s[k - 1]);
      }
      assert Title(t)[k] == TitleChar(b, t[k]);
    }
  }

  // ---------------------------------------------------------------- search

  /** `needle` occurs in `hay` at position `i`. */
  predicate OccursAt(hay: string, needle: string, i: int)
  {
    0 <= i && i + |needle| <= |hay| && hay[i..i + |needle|] == needle
  }

  /** Python's `needle in hay`, searched left to right. */
  predicate Contains(hay: string, needle: string)
    decreases |hay|
  {
    || (|needle| <= |hay| && hay[..|needle|] == needle)
    || (hay != [] && Contains(hay[1..], needle))
  }

  /** `Contains` holds exactly when the needle occurs at some position. */
  lemma {:induction false} ContainsIff(hay: string, needle: string)
    ensures Contains(hay, needle) <==> exists i :: OccursAt(hay, needle, i)
    decreases |hay|
  {
    if hay != [] {
      ContainsIff(hay[1..], needle);
      if exists i :: OccursAt(hay, needle, i) {
        var i :| OccursAt(hay, needle, i);
        if i > 0 {
          assert hay[1..][i - 1..i - 1 + |needle|] == needle;
          assert OccursAt(hay[1..], needle, i - 1);
        }
      }
      if exists i :: OccursAt(hay[1..], needle, i) {
        var i :| OccursAt(hay[1..], needle, i);
        assert hay[i + 1..i + 1 + |needle|] == needle;
        assert OccursAt(hay, needle, i + 1);
      }
    } else {
      if exists i :: OccursAt(hay, needle, i) {
        var i :| OccursAt(hay, needle, i);
      }
    }
    if |needle| <= |hay| && hay[..|needle|] == needle {
      assert OccursAt(hay, needle, 0);
    }
  }

  /** The empty string occurs in every string. */
  lemma ContainsEmpty(hay: string)
    ensures Contains(hay, "")
  {
  }
}
