/**
 * The two pieces of Rust string behaviour the core relies on: `to_string()` /
 * `format!("{}")` of an integer, and `str::replace`, which substitutes every
 * non-overlapping occurrence of a pattern, scanning left to right.
 *
 * On top of `Replace` sits a small theory of placeholder templates: a text
 * made of literal parts and `#name#` placeholders. Replacing `#name#` in such
 * a text is proved to fill exactly the slots called `name` and nothing else,
 * which is what the badge renderer needs to say what its output looks like.
 */
module Strings {

  // ---------------------------------------------------------------------------
  // Decimal rendering of integers (Rust's `Display` for i64)
  // ---------------------------------------------------------------------------

  function DigitChar(d: int): (c: char)
    requires 0 <= d < 10
    ensures '0' <= c <= '9'
  {
    (48 + d) as char
  }

  /** The decimal digits of `n`, most significant first, without leading zeros. */
  function NatToString(n: nat): (s: string)
    ensures |s| >= 1
    ensures n >= 10 ==> |s| >= 2
    ensures forall i :: 0 <= i < |s| ==> '0' <= s[i] <= '9'
    // no leading zero: only 0 itself starts with '0'
    ensures (s[0] == '0') == (n == 0)
    decreases n
  {
    if n < 10 then [DigitChar(n)] else NatToString(n / 10) + [DigitChar(n % 10)]
  }

  /** `i.to_string()`: a minus sign for negative numbers, then the digits. */
  function IntToString(i: int): (s: string)
    ensures |s| >= 1
    ensures forall k :: 0 <= k < |s| ==> s[k] == '-' || '0' <= s[k] <= '9'
    ensures '_' !in s && '#' !in s
  {
    if i < 0 then "-" + NatToString(-i) else NatToString(i)
  }

  /** The sign comes first and only for negative numbers; the rest are digits. */
  lemma IntToStringShape(i: int)
    ensures var s := IntToString(i);
      && (s[0] == '-') == (i < 0)
      && (s[0] != '-' ==> '0' <= s[0] <= '9')
      && forall k :: 1 <= k < |s| ==> '0' <= s[k] <= '9'
  {
    if i < 0 {
      assert IntToString(i)[1..] == NatToString(-i);
    }
  }

  /** The number a run of decimal digits denotes, most significant first. */
  function DecimalValue(s: string): (v: int)
    decreases |s|
  {
    if |s| == 0 then 0
    else DecimalValue(s[..|s| - 1]) * 10 + (s[|s| - 1] as int - '0' as int)
  }

  /** The number a decimal text with an optional leading minus denotes. */
  function SignedDecimalValue(s: string): (v: int) {
    if |s| > 0 && s[0] == '-' then -DecimalValue(s[1..]) else DecimalValue(s)
  }

  /** The digits `NatToString` prints denote `n`. */
  lemma {:induction false} NatToStringValue(n: nat)
    ensures DecimalValue(NatToString(n)) == n
    decreases n
  {
    var s := NatToString(n);
    if n < 10 {
      assert s[..0] == [];
    } else {
      assert s[..|s| - 1] == NatToString(n / 10);
      NatToStringValue(n / 10);
    }
  }

  /** What `i.to_string()` prints reads back as `i`. */
  lemma IntToStringValue(i: int)
    ensures SignedDecimalValue(IntToString(i)) == i
  {
    var s := IntToString(i);
    if i < 0 {
      var t := NatToString(-i);
      assert s == "-" + t;
      assert s[1..] == t;
      NatToStringValue(-i);
      assert SignedDecimalValue(s) == -DecimalValue(t);
    } else {
      assert s == NatToString(i) && s[0] != '-';
      assert SignedDecimalValue(s) == DecimalValue(s);
      NatToStringValue(i);
    }
  }

  /** Distinct integers print differently. */
  lemma IntToStringInjective(a: int, b: int)
    requires IntToString(a) == IntToString(b)
    ensures a == b
  {
    IntToStringValue(a);
    IntToStringValue(b);
  }

  // ---------------------------------------------------------------------------
  // str::replace
  // ---------------------------------------------------------------------------

  /** `s.replace(pat, rep)` for a non-empty pattern: leftmost, non-overlapping matches. */
  function Replace(s: string, pat: string, rep: string): string
    requires |pat| > 0
    decreases |s|
  {
    if |s| < |pat| then s
    else if s[..|pat|] == pat then rep + Replace(s[|pat|..], pat, rep)
    else [s[0]] + Replace(s[1..], pat, rep)
  }

  /** Text in which the pattern's first character never occurs is copied unchanged. */
  lemma {:induction false} ReplaceSkips(a: string, b: string, pat: string, rep: string)
    requires |pat| > 0 && pat[0] !in a
    ensures Replace(a + b, pat, rep) == a + Replace(b, pat, rep)
    decreases |a|
  {
    if |a| == 0 {
      assert a + b == b;
    } else {
      var s := a + b;
      if |s| >= |pat| {
        assert s[0] == a[0] != pat[0];
        ReplaceNoMatchHere(s, pat, rep);
        assert s[1..] == a[1..] + b;
        ReplaceSkips(a[1..], b, pat, rep);
        assert a == [a[0]] + a[1..];
      }
    }
  }

  // ---------------------------------------------------------------------------
  // Placeholder templates
  // ---------------------------------------------------------------------------

  /** The text `#n#` that stands for the placeholder called `n`. */
  function Placeholder(n: string): string {
    "#" + n + "#"
  }

  /**
   * A name that can be searched for as a placeholder: no `#` inside, and an
   * underscore among its first five characters (`svg_border`, `fill_white`,
   * `site_rank`, ...). The underscore is what a match can never find in text
   * that has none.
   */
  predicate IsPlaceholderName(n: string) {
    '#' !in n && exists k :: 0 <= k < |n| && k < 5 && n[k] == '_'
  }

  /** No underscore among the first five characters. */
  predicate UnderscoreFreeStart(c: string) {
    forall i :: 0 <= i < |c| && i < 5 ==> c[i] != '_'
  }

  /** A placeholder cannot match where no underscore occurs in the first six characters. */
  lemma NoMatchWithoutUnderscore(v: string, c: string, n: string)
    requires IsPlaceholderName(n) && |v| > 0 && '_' !in v && UnderscoreFreeStart(c)
    ensures var s, pat := v + c, Placeholder(n);
      |s| >= |pat| ==> s[..|pat|] != pat
  {
    var s, pat := v + c, Placeholder(n);
    if |s| >= |pat| {
      var k :| 0 <= k < |n| && k < 5 && n[k] == '_';
      assert pat[k + 1] == '_';
      if k + 1 < |v| {
        assert s[k + 1] == v[k + 1];
      } else {
        assert s[k + 1] == c[k + 1 - |v|];
      }
      assert s[..|pat|][k + 1] != pat[k + 1];
    }
  }

  /** Text without underscores, followed closely by none, holds no match. */
  lemma {:induction false} ReplaceSkipsValue(v: string, c: string, n: string, rep: string)
    requires IsPlaceholderName(n) && '_' !in v && UnderscoreFreeStart(c)
    ensures Replace(v + c, Placeholder(n), rep) == v + Replace(c, Placeholder(n), rep)
    decreases |v|
  {
    var pat := Placeholder(n);
    if |v| == 0 {
      assert v + c == c;
    } else {
      var s := v + c;
      NoMatchWithoutUnderscore(v, c, n);
      ReplaceNoMatchHere(s, pat, rep);
      assert s[1..] == v[1..] + c;
      ReplaceSkipsValue(v[1..], c, n, rep);
      assert v == [v[0]] + v[1..];
    }
  }

  /** No match of `#n#` starts at a different placeholder `#m#`. */
  lemma NoMatchAtOtherPlaceholder(m: string, c: string, n: string)
    requires IsPlaceholderName(n) && '#' !in m && m != n
    ensures var s, pat := Placeholder(m) + c, Placeholder(n);
      |s| >= |pat| ==> s[..|pat|] != pat
  {
    var P, pat := Placeholder(m), Placeholder(n);
    var s := P + c;
    assert P[1..|P| - 1] == m && pat[1..|pat| - 1] == n;
    if |s| >= |pat| {
      if |pat| == |P| {
        assert s[..|pat|] == P;
      } else if |pat| < |P| {
        assert pat[|pat| - 1] == '#';
        assert s[|pat| - 1] == m[|pat| - 2];
      } else {
        assert s[|P| - 1] == '#';
        assert pat[|P| - 1] == n[|P| - 2];
      }
    }
  }

  /** No match of `#n#` starts at a `#` followed by underscore-free text. */
  lemma NoMatchAtHash(c: string, n: string)
    requires IsPlaceholderName(n) && UnderscoreFreeStart(c)
    ensures var t, pat := "#" + c, Placeholder(n);
      |t| >= |pat| ==> t[..|pat|] != pat
  {
    var t, pat := "#" + c, Placeholder(n);
    if |t| >= |pat| {
      var k :| 0 <= k < |n| && k < 5 && n[k] == '_';
      assert pat[k + 1] == '_';
      assert t[k + 1] == c[k];
      assert t[..|pat|][k + 1] != pat[k + 1];
    }
  }

  /** Where no match starts, the first character is copied. */
  lemma ReplaceNoMatchHere(s: string, pat: string, rep: string)
    requires |pat| > 0 && |s| > 0
    requires |s| >= |pat| ==> s[..|pat|] != pat
    ensures Replace(s, pat, rep) == [s[0]] + Replace(s[1..], pat, rep)
  {
  }

  /** A different placeholder is left as it is. */
  lemma ReplaceSkipsOtherPlaceholder(m: string, c: string, n: string, rep: string)
    requires IsPlaceholderName(n) && '#' !in m && m != n && UnderscoreFreeStart(c)
    ensures Replace(Placeholder(m) + c, Placeholder(n), rep) == Placeholder(m) + Replace(c, Placeholder(n), rep)
  {
    var pat := Placeholder(n);
    var s, t := Placeholder(m) + c, "#" + c;
    NoMatchAtOtherPlaceholder(m, c, n);
    NoMatchAtHash(c, n);
    assert s == "#" + (m + t);
    assert s[1..] == m + t;
    assert t[1..] == c;
    ReplaceNoMatchHere(s, pat, rep);
    ReplaceSkips(m, t, pat, rep);
    ReplaceNoMatchHere(t, pat, rep);
    calc {
      Replace(s, pat, rep);
      "#" + Replace(m + t, pat, rep);
      "#" + (m + ("#" + Replace(c, pat, rep)));
      { assert "#" + (m + ("#" + Replace(c, pat, rep))) == "#" + m + "#" + Replace(c, pat, rep); }
      Placeholder(m) + Replace(c, pat, rep);
    }
  }

  /** Text with neither `#` nor `_`: no placeholder can start or sit in it. */
  predicate Plain(s: string) {
    forall i :: 0 <= i < |s| ==> s[i] != '#' && s[i] != '_'
  }

  lemma PlainJoin(a: string, b: string, c: string, d: string)
    requires Plain(a) && Plain(b) && Plain(c) && Plain(d)
    ensures Plain(a + b + c + d)
  {
  }

  lemma PlainHasNeither(s: string)
    requires Plain(s)
    ensures '#' !in s && '_' !in s
  {
  }

  /** Text of the form `#m#` with no other `#`: a placeholder left in place. */
  predicate IsPlaceholderText(s: string) {
    |s| >= 2 && s[0] == '#' && s[|s| - 1] == '#' && '#' !in s[1..|s| - 1]
  }

  lemma PlaceholderFacts(n: string)
    requires IsPlaceholderName(n)
    ensures IsPlaceholderText(Placeholder(n)) && '_' in Placeholder(n)
  {
    var P := Placeholder(n);
    assert P[1..|P| - 1] == n;
    var k :| 0 <= k < |n| && k < 5 && n[k] == '_';
    assert P[k + 1] == '_';
  }

  lemma PlaceholderInjective(m: string, n: string)
    requires Placeholder(m) == Placeholder(n)
    ensures m == n
  {
    var P := Placeholder(m);
    assert P[1..|P| - 1] == m;
  }

  lemma PlaceholdersDiffer(m: string, n: string)
    requires m != n
    ensures Placeholder(m) != Placeholder(n)
  {
    if Placeholder(m) == Placeholder(n) {
      PlaceholderInjective(m, n);
    }
  }

  /**
   * A template's text: `lits[0] + vals[0] + lits[1] + ... + vals[k-1] + lits[k]`,
   * where each `vals[i]` is a placeholder's text or the value put in its place.
   */
  function Interleave(lits: seq<string>, vals: seq<string>): string
    requires |lits| == |vals| + 1
    decreases |vals|
  {
    if |vals| == 0 then lits[0] else lits[0] + vals[0] + Interleave(lits[1..], vals[1..])
  }

  /**
   * The literal parts hold no `_`; all but the last hold no `#`; the inner
   * ones are at least five characters long.
   */
  predicate LiteralsOk(lits: seq<string>) {
    && (forall i :: 0 <= i < |lits| ==> '_' !in lits[i])
    && (forall i :: 0 <= i < |lits| - 1 ==> '#' !in lits[i])
    && (forall i :: 1 <= i < |lits| - 1 ==> |lits[i]| >= 5)
  }

  /** Every slot holds a placeholder still to be filled or a value without `_`. */
  predicate ValuesOk(vals: seq<string>) {
    forall i :: 0 <= i < |vals| ==> '_' !in vals[i] || IsPlaceholderText(vals[i])
  }

  /** The slots after `pat` has been put to `rep` wherever it stood. */
  function Substituted(vals: seq<string>, pat: string, rep: string): (r: seq<string>)
    ensures |r| == |vals|
    ensures forall i :: 0 <= i < |vals| ==> r[i] == if vals[i] == pat then rep else vals[i]
  {
    seq(|vals|, i requires 0 <= i < |vals| => if vals[i] == pat then rep else vals[i])
  }

  /** One slot's value, followed by text with an underscore-free start. */
  lemma ReplaceSlot(x: string, rest: string, n: string, v: string)
    requires '_' !in x || IsPlaceholderText(x)
    requires IsPlaceholderName(n) && UnderscoreFreeStart(rest)
    ensures Replace(x + rest, Placeholder(n), v)
         == (if x == Placeholder(n) then v else x) + Replace(rest, Placeholder(n), v)
  {
    var pat := Placeholder(n);
    if x == pat {
      assert (pat + rest)[..|pat|] == pat && (pat + rest)[|pat|..] == rest;
    } else if '_' !in x {
      ReplaceSkipsValue(x, rest, n, v);
    } else {
      var m := x[1..|x| - 1];
      assert x == Placeholder(m);
      ReplaceSkipsOtherPlaceholder(m, rest, n, v);
    }
  }

  /** Dropping the first literal and slot keeps a template well formed. */
  lemma TemplateTail(lits: seq<string>, vals: seq<string>)
    requires |lits| == |vals| + 1 && |vals| > 0 && LiteralsOk(lits) && ValuesOk(vals)
    ensures LiteralsOk(lits[1..]) && ValuesOk(vals[1..])
    ensures UnderscoreFreeStart(Interleave(lits[1..], vals[1..]))
  {
    var lits', vals' := lits[1..], vals[1..];
    assert forall i :: 0 <= i < |lits'| ==> lits'[i] == lits[i + 1];
    assert forall i :: 0 <= i < |vals'| ==> vals'[i] == vals[i + 1];
    var rest := Interleave(lits', vals');
    if |vals'| > 0 {
      assert rest == lits'[0] + (vals'[0] + Interleave(lits'[1..], vals'[1..]));
      assert forall i :: 0 <= i < 5 ==> rest[i] == lits'[0][i];
    }
  }

  /**
   * The central fact: in a well-formed template, `replace("#n#", v)` fills
   * exactly the slots that hold `#n#`, and changes nothing else.
   */
  lemma {:induction false} ReplaceFillsSlots(lits: seq<string>, vals: seq<string>, n: string, v: string)
    requires |lits| == |vals| + 1 && LiteralsOk(lits) && ValuesOk(vals) && IsPlaceholderName(n)
    ensures Replace(Interleave(lits, vals), Placeholder(n), v)
         == Interleave(lits, Substituted(vals, Placeholder(n), v))
    decreases |vals|
  {
    var pat := Placeholder(n);
    if |vals| == 0 {
      ReplaceSkipsValue(lits[0], "", n, v);
      assert lits[0] + "" == lits[0];
    } else {
      var rest := Interleave(lits[1..], vals[1..]);
      TemplateTail(lits, vals);
      ReplaceFillsSlots(lits[1..], vals[1..], n, v);
      SubstitutedTail(vals, pat, v);
      var subst := Substituted(vals, pat, v);
      calc {
        Replace(Interleave(lits, vals), pat, v);
        { assert Interleave(lits, vals) == lits[0] + (vals[0] + rest); }
        Replace(lits[0] + (vals[0] + rest), pat, v);
        { ReplaceSkips(lits[0], vals[0] + rest, pat, v); }
        lits[0] + Replace(vals[0] + rest, pat, v);
        { ReplaceSlot(vals[0], rest, n, v); }
        lits[0] + (subst[0] + Replace(rest, pat, v));
        lits[0] + (subst[0] + Interleave(lits[1..], subst[1..]));
        Interleave(lits, subst);
      }
    }
  }

  lemma SubstitutedTail(vals: seq<string>, pat: string, rep: string)
    requires |vals| > 0
    ensures Substituted(vals, pat, rep)[1..] == Substituted(vals[1..], pat, rep)
  {
  }

  /** Text appended after a template joins its last literal part. */
  lemma {:induction false} InterleaveAppend(lits: seq<string>, vals: seq<string>, t: string)
    requires |lits| == |vals| + 1
    ensures Interleave(lits, vals) + t == Interleave(lits[..|vals|] + [lits[|vals|] + t], vals)
    decreases |vals|
  {
    var lits2 := lits[..|vals|] + [lits[|vals|] + t];
    if |vals| > 0 {
      InterleaveAppend(lits[1..], vals[1..], t);
      assert lits2[1..] == lits[1..][..|vals| - 1] + [lits[1..][|vals| - 1] + t];
    }
  }


  /**
   * Filling four distinct placeholders one after the other, as a chain of
   * `replace` calls, puts each value in its slot.
   */
  lemma FillFourSlots(lits: seq<string>, n1: string, n2: string, n3: string, n4: string,
                      a: string, b: string, c: string, d: string)
    requires |lits| == 5 && LiteralsOk(lits)
    requires IsPlaceholderName(n1) && IsPlaceholderName(n2) && IsPlaceholderName(n3) && IsPlaceholderName(n4)
    requires n1 != n2 && n1 != n3 && n1 != n4 && n2 != n3 && n2 != n4 && n3 != n4
    requires '_' !in a && '_' !in b && '_' !in c && '_' !in d
    ensures var p1, p2, p3, p4 := Placeholder(n1), Placeholder(n2), Placeholder(n3), Placeholder(n4);
      Replace(Replace(Replace(Replace(Interleave(lits, [p1, p2, p3, p4]), p1, a), p2, b), p3, c), p4, d)
        == Interleave(lits, [a, b, c, d])
  {
    var p1, p2, p3, p4 := Placeholder(n1), Placeholder(n2), Placeholder(n3), Placeholder(n4);
    PlaceholderFacts(n1); PlaceholderFacts(n2); PlaceholderFacts(n3); PlaceholderFacts(n4);
    PlaceholdersDiffer(n1, n2);
    PlaceholdersDiffer(n1, n3);
    PlaceholdersDiffer(n1, n4);
    FillSlotAt(lits, [p1, p2, p3, p4], 0, n1, a);
    assert [p1, p2, p3, p4][0 := a] == [a, p2, p3, p4];
    FillLastThree(lits, a, n2, n3, n4, b, c, d);
  }

  lemma FillLastThree(lits: seq<string>, a: string, n2: string, n3: string, n4: string,
                      b: string, c: string, d: string)
    requires |lits| == 5 && LiteralsOk(lits)
    requires IsPlaceholderName(n2) && IsPlaceholderName(n3) && IsPlaceholderName(n4)
    requires n2 != n3 && n2 != n4 && n3 != n4
    requires '_' !in a && '_' !in b && '_' !in c && '_' !in d
    ensures var p2, p3, p4 := Placeholder(n2), Placeholder(n3), Placeholder(n4);
      Replace(Replace(Replace(Interleave(lits, [a, p2, p3, p4]), p2, b), p3, c), p4, d)
        == Interleave(lits, [a, b, c, d])
  {
    var p2, p3, p4 := Placeholder(n2), Placeholder(n3), Placeholder(n4);
    PlaceholderFacts(n2); PlaceholderFacts(n3); PlaceholderFacts(n4);
    PlaceholdersDiffer(n2, n3);
    PlaceholdersDiffer(n2, n4);
    FillSlotAt(lits, [a, p2, p3, p4], 1, n2, b);
    assert [a, p2, p3, p4][1 := b] == [a, b, p3, p4];
    FillLastTwo(lits, a, b, n3, n4, c, d);
  }

  lemma FillLastTwo(lits: seq<string>, a: string, b: string, n3: string, n4: string, c: string, d: string)
    requires |lits| == 5 && LiteralsOk(lits)
    requires IsPlaceholderName(n3) && IsPlaceholderName(n4) && n3 != n4
    requires '_' !in a && '_' !in b && '_' !in c && '_' !in d
    ensures var p3, p4 := Placeholder(n3), Placeholder(n4);
      Replace(Replace(Interleave(lits, [a, b, p3, p4]), p3, c), p4, d) == Interleave(lits, [a, b, c, d])
  {
    var p3, p4 := Placeholder(n3), Placeholder(n4);
    PlaceholderFacts(n3); PlaceholderFacts(n4);
    PlaceholdersDiffer(n3, n4);
    FillSlotAt(lits, [a, b, p3, p4], 2, n3, c);
    assert [a, b, p3, p4][2 := c] == [a, b, c, p4];
    PlaceholderFacts(n4);
    FillSlotAt(lits, [a, b, c, p4], 3, n4, d);
    assert [a, b, c, p4][3 := d] == [a, b, c, d];
  }

  /** Filling a placeholder that occurs in exactly one slot puts the value in that slot. */
  lemma FillSlotAt(lits: seq<string>, vals: seq<string>, k: nat, n: string, v: string)
    requires |lits| == |vals| + 1 && LiteralsOk(lits) && ValuesOk(vals) && IsPlaceholderName(n)
    requires k < |vals| && vals[k] == Placeholder(n)
    requires forall j :: 0 <= j < |vals| && j != k ==> vals[j] != Placeholder(n)
    ensures Replace(Interleave(lits, vals), Placeholder(n), v) == Interleave(lits, vals[k := v])
  {
    ReplaceFillsSlots(lits, vals, n, v);
    assert Substituted(vals, Placeholder(n), v) == vals[k := v];
  }
}
