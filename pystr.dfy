/**
 * The Python string operations the recommender, the title resolver and the
 * chat bots are built from, over `string` = `seq<char>`: `str.isspace`,
 * `str.lower`, `str.strip`, the `\s+` -> " " substitution, the trailing
 * "(dddd)" year substitution, `in` on strings, slicing `[::-1]` and
 * `" ".join`.
 */
module PyStr {
  import Seqs

  /** `str.isspace()` on one character; `\s` in a str pattern and `str.strip()` use the same set. */
  predicate IsSpace(c: char)
  {
    || c == ' '
    || ('\t' <= c <= '\r')
    || ('\U{1C}' <= c <= '\U{1F}')
    || c == '\U{85}' || c == '\U{A0}' || c == '\U{1680}'
    || ('\U{2000}' <= c <= '\U{200A}')
    || c == '\U{2028}' || c == '\U{2029}' || c == '\U{202F}' || c == '\U{205F}' || c == '\U{3000}'
  }

  predicate AllSpace(s: string)
  {
    forall i :: 0 <= i < |s| ==> IsSpace(s[i])
  }

  /** `\d` on the ASCII digits. */
  predicate IsDigit(c: char)
  {
    '0' <= c <= '9'
  }

  /**
   * `str.isalnum()` on one character, over ASCII and Latin-1: letters,
   * digits, and the Latin-1 numerals and letters (superscripts, fractions,
   * ordinal indicators, micro sign) that Python also counts.
   */
  predicate IsAlnum(c: char)
  {
    || ('0' <= c <= '9') || ('A' <= c <= 'Z') || ('a' <= c <= 'z')
    || c == '\U{AA}' || c == '\U{B2}' || c == '\U{B3}' || c == '\U{B5}' || c == '\U{B9}' || c == '\U{BA}'
    || ('\U{BC}' <= c <= '\U{BE}')
    || ('\U{C0}' <= c <= '\U{FF}' && c != '\U{D7}' && c != '\U{F7}')
  }

  /** Upper-case letters that `str.lower()` changes: ASCII and Latin-1. */
  predicate IsUpper(c: char)
  {
    ('A' <= c <= 'Z') || ('\U{C0}' <= c <= '\U{DE}' && c != '\U{D7}')
  }

  function LowerChar(c: char): (d: char)
    ensures IsSpace(d) == IsSpace(c)
    ensures IsDigit(d) == IsDigit(c)
    ensures !IsUpper(d)
    ensures !IsUpper(c) ==> d == c
  {
    if IsUpper(c) then (c as int + 32) as char else c
  }

  predicate Lowered(s: string)
  {
    forall i :: 0 <= i < |s| ==> !IsUpper(s[i])
  }

  /** `str.lower()`: every character lowered, the length kept. */
  function Lower(s: string): (r: string)
    ensures |r| == |s| && Lowered(r)
    ensures forall i :: 0 <= i < |s| ==> r[i] == LowerChar(s[i])
  {
    seq(|s|, i requires 0 <= i < |s| => LowerChar(s[i]))
  }

  lemma LowerLowered(s: string)
    requires Lowered(s)
    ensures Lower(s) == s
  {
  }

  /** `str.lstrip()`: drops the leading whitespace and nothing else. */
  function LStrip(s: string): (r: string)
    ensures |r| <= |s| && r == s[|s| - |r|..]
    ensures forall i :: 0 <= i < |s| - |r| ==> IsSpace(s[i])
    ensures r == [] || !IsSpace(r[0])
    ensures s != [] && IsSpace(s[0]) ==> |r| < |s|
  {
    if s != [] && IsSpace(s[0]) then LStrip(s[1..]) else s
  }

  /** `str.rstrip()`: drops the trailing whitespace and nothing else. */
  function RStrip(s: string): (r: string)
    ensures |r| <= |s| && r == s[..|r|]
    ensures forall i :: |r| <= i < |s| ==> IsSpace(s[i])
    ensures r == [] || !IsSpace(r[|r| - 1])
  {
    if s != [] && IsSpace(s[|s| - 1]) then RStrip(s[..|s| - 1]) else s
  }

  predicate Stripped(s: string)
  {
    s == [] || (!IsSpace(s[0]) && !IsSpace(s[|s| - 1]))
  }

  /** `str.strip()`. */
  function Strip(s: string): (r: string)
    ensures Stripped(r) && |r| <= |s|
    ensures Stripped(s) ==> r == s
    ensures r == [] <==> AllSpace(s)
  {
    StripEmpty(s);
    StripShape(s);
    StrippedFixed(s);
    RStrip(LStrip(s))
  }

  lemma StripShape(s: string)
    ensures Stripped(RStrip(LStrip(s)))
  {
    var l := LStrip(s);
    var r := RStrip(l);
    if r != [] {
      assert r[0] == l[0];
    }
  }

  lemma StrippedFixed(s: string)
    ensures Stripped(s) ==> RStrip(LStrip(s)) == s
  {
    if s != [] && Stripped(s) {
      assert LStrip(s) == s;
      assert RStrip(s) == s;
    }
  }

  lemma StripEmpty(s: string)
    ensures RStrip(LStrip(s)) == [] <==> AllSpace(s)
  {
    var l := LStrip(s);
    if l != [] {
      assert s[|s| - |l|] == l[0];
    }
    if !AllSpace(s) {
      var i :| 0 <= i < |s| && !IsSpace(s[i]);
      assert s[i] == l[i - (|s| - |l|)];
    }
  }

  /** Every whitespace character is a plain space and none follows another. */
  predicate SingleSpaced(s: string)
  {
    forall i :: 0 <= i < |s| && IsSpace(s[i]) ==> s[i] == ' ' && (i + 1 < |s| ==> !IsSpace(s[i + 1]))
  }

  /** `re.sub(r"\s+", " ", s)`: each maximal run of whitespace becomes one space. */
  function Collapse(s: string): (r: string)
    ensures (r == []) == (s == [])
    ensures r != [] ==> r[0] == if IsSpace(s[0]) then ' ' else s[0]
    decreases |s|
  {
    if s == [] then []
    else if IsSpace(s[0]) then [' '] + Collapse(LStrip(s))
    else [s[0]] + Collapse(s[1..])
  }

  lemma {:induction false} CollapseSpacing(s: string)
    ensures SingleSpaced(Collapse(s))
    decreases |s|
  {
    if s != [] {
      if IsSpace(s[0]) {
        var t := LStrip(s);
        CollapseSpacing(t);
        SingleSpacedCons(' ', Collapse(t));
      } else {
        CollapseSpacing(s[1..]);
        SingleSpacedCons(s[0], Collapse(s[1..]));
      }
    }
  }

  /** Prefixing a non-space, or a space before a non-space, keeps a text single-spaced. */
  lemma SingleSpacedCons(x: char, c: string)
    requires SingleSpaced(c)
    requires IsSpace(x) ==> x == ' ' && (c == [] || !IsSpace(c[0]))
    ensures SingleSpaced([x] + c)
  {
    var r := [x] + c;
    forall i | 0 <= i < |r| && IsSpace(r[i])
      ensures r[i] == ' ' && (i + 1 < |r| ==> !IsSpace(r[i + 1]))
    {
      if i > 0 {
        assert r[i] == c[i - 1];
        if i + 1 < |r| {
          assert r[i + 1] == c[i];
        }
      }
    }
  }

  /** Every character of the result is a space or comes from the input. */
  lemma {:induction false} CollapseChars(s: string)
    ensures forall i :: 0 <= i < |Collapse(s)| ==> Collapse(s)[i] == ' ' || Collapse(s)[i] in s
    decreases |s|
  {
    if s != [] {
      var t := if IsSpace(s[0]) then LStrip(s) else s[1..];
      CollapseChars(t);
      assert forall c :: c in t ==> c in s;
    }
  }

  /** A non-space last character survives the substitution. */
  lemma {:induction false} CollapseLast(s: string)
    requires s != [] && !IsSpace(s[|s| - 1])
    ensures Collapse(s)[|Collapse(s)| - 1] == s[|s| - 1]
    decreases |s|
  {
    if IsSpace(s[0]) {
      var t := LStrip(s);
      assert t != [] && t[|t| - 1] == s[|s| - 1];
      CollapseLast(t);
    } else if |s| > 1 {
      CollapseLast(s[1..]);
    }
  }

  /** A string with no whitespace run to shrink is left alone. */
  lemma {:induction false} CollapseSingleSpaced(s: string)
    requires SingleSpaced(s)
    ensures Collapse(s) == s
    decreases |s|
  {
    if s != [] {
      assert SingleSpaced(s[1..]);
      if IsSpace(s[0]) {
        assert LStrip(s[1..]) == s[1..];
        assert LStrip(s) == s[1..];
      }
      CollapseSingleSpaced(s[1..]);
    }
  }

  /** The form `_norm` and `title_norm` produce. */
  predicate Normal(s: string)
  {
    Lowered(s) && Stripped(s) && SingleSpaced(s)
  }

  /** `re.sub(r"\s+", " ", s.strip().lower())`. */
  function Norm(s: string): (r: string)
    ensures Normal(r)
  {
    CollapseNormal(Lower(Strip(s)));
    Collapse(Lower(Strip(s)))
  }

  lemma CollapseNormal(l: string)
    requires Lowered(l) && Stripped(l)
    ensures Normal(Collapse(l))
  {
    CollapseSpacing(l);
    CollapseChars(l);
    if l != [] {
      CollapseLast(l);
    }
    var r := Collapse(l);
    forall i | 0 <= i < |r|
      ensures !IsUpper(r[i])
    {
      if r[i] != ' ' {
        var j :| 0 <= j < |l| && l[j] == r[i];
      }
    }
  }

  lemma NormFixesNormal(s: string)
    requires Normal(s)
    ensures Norm(s) == s
  {
    LowerLowered(s);
    CollapseSingleSpaced(s);
  }

  /** `_norm` is idempotent. */
  lemma NormIdempotent(s: string)
    ensures Norm(Norm(s)) == Norm(s)
  {
    NormFixesNormal(Norm(s));
  }

  predicate NoSpace(w: string)
  {
    forall i :: 0 <= i < |w| ==> !IsSpace(w[i])
  }

  /** The leading run of non-whitespace characters of `s`. */
  function Word(s: string): (w: string)
    ensures w <= s && NoSpace(w)
    ensures |w| == |s| || IsSpace(s[|w|])
  {
    if s == [] || IsSpace(s[0]) then [] else [s[0]] + Word(s[1..])
  }

  /** `str.split()` with no separator: the maximal runs of non-whitespace, in order. */
  function Words(s: string): (ws: seq<string>)
    ensures forall k :: 0 <= k < |ws| ==> ws[k] != [] && NoSpace(ws[k])
    decreases |s|
  {
    if s == [] then []
    else if IsSpace(s[0]) then Words(s[1..])
    else
      var w := Word(s);
      var rest := Words(s[|w|..]);
      assert forall k :: 0 <= k < |rest| ==> ([w] + rest)[k + 1] == rest[k];
      [w] + rest
  }

  /** Whitespace after a word does not lengthen it. */
  lemma {:induction false} WordBeforeSpace(a: string, q: string)
    requires AllSpace(q)
    ensures Word(a + q) == Word(a)
  {
    if a == [] {
      assert a + q == q;
    } else if !IsSpace(a[0]) {
      assert (a + q)[1..] == a[1..] + q;
      WordBeforeSpace(a[1..], q);
    }
  }

  /** Leading whitespace is not a word. */
  lemma {:induction false} WordsAfterSpace(p: string, y: string)
    requires AllSpace(p)
    ensures Words(p + y) == Words(y)
    decreases |p|
  {
    if p == [] {
      assert p + y == y;
    } else {
      assert (p + y)[1..] == p[1..] + y;
      WordsAfterSpace(p[1..], y);
    }
  }

  /** Whitespace alone has no words. */
  lemma {:induction false} WordsOfSpace(q: string)
    requires AllSpace(q)
    ensures Words(q) == []
    decreases |q|
  {
    if q != [] {
      WordsOfSpace(q[1..]);
    }
  }

  /** Trailing whitespace is not a word either. */
  lemma {:induction false} WordsBeforeSpace(m: string, q: string)
    requires AllSpace(q)
    ensures Words(m + q) == Words(m)
    decreases |m|
  {
    if m == [] {
      assert m + q == q;
      WordsOfSpace(q);
    } else if IsSpace(m[0]) {
      assert (m + q)[1..] == m[1..] + q;
      WordsBeforeSpace(m[1..], q);
    } else {
      var w := Word(m);
      WordBeforeSpace(m, q);
      assert (m + q)[|w|..] == m[|w|..] + q;
      WordsBeforeSpace(m[|w|..], q);
    }
  }

  /** A space-free prefix passes through the substitution unchanged. */
  lemma {:induction false} CollapseAfterWord(w: string, y: string)
    requires NoSpace(w)
    ensures Collapse(w + y) == w + Collapse(y)
    decreases |w|
  {
    if w == [] {
      assert w + y == y;
    } else {
      var c, t := w[0], w[1..];
      assert w == [c] + t;
      assert !IsSpace(c) && NoSpace(t);
      assert w + y == [c] + (t + y);
      CollapseCons(c, t + y);
      CollapseAfterWord(t, y);
    }
  }

  /** A non-whitespace character passes through the substitution unchanged. */
  lemma CollapseCons(c: char, rest: string)
    requires !IsSpace(c)
    ensures Collapse([c] + rest) == [c] + Collapse(rest)
  {
    assert ([c] + rest)[1..] == rest;
  }

  /** On a stripped text the substitution joins the words with single spaces. */
  lemma {:induction false} CollapseJoinsWords(x: string)
    requires Stripped(x)
    ensures Collapse(x) == Join(Words(x), " ")
    decreases |x|, 1
  {
    if x != [] {
      var w := Word(x);
      var rest := x[|w|..];
      assert x == w + rest;
      assert Words(x) == [w] + Words(rest);
      CollapseAfterWord(w, rest);
      if rest == [] {
        assert Words(rest) == [];
      } else {
        assert rest[|rest| - 1] == x[|x| - 1];
        GapJoinsWords(rest);
        JoinCons(w, Words(rest));
      }
    }
  }

  /** A whitespace run followed by a stripped text collapses to one space before its words. */
  lemma {:induction false} GapJoinsWords(r: string)
    requires r != [] && IsSpace(r[0]) && !IsSpace(r[|r| - 1])
    ensures Words(r) != [] && Collapse(r) == " " + Join(Words(r), " ")
    decreases |r|, 0
  {
    var t := LStrip(r);
    LStripKeepsLast(r);
    CollapseJoinsWords(t);
    WordsLStrip(r);
    WordsNonEmpty(t);
  }

  lemma LStripKeepsLast(r: string)
    requires r != [] && !IsSpace(r[|r| - 1])
    ensures LStrip(r) != [] && LStrip(r)[|LStrip(r)| - 1] == r[|r| - 1]
  {
  }

  /** Leading whitespace is not a word. */
  lemma {:induction false} WordsLStrip(r: string)
    ensures Words(LStrip(r)) == Words(r)
  {
    if r != [] && IsSpace(r[0]) {
      WordsLStrip(r[1..]);
    }
  }

  lemma WordsNonEmpty(t: string)
    requires t != [] && !IsSpace(t[0])
    ensures Words(t) != []
  {
  }

  lemma JoinCons(w: string, ws: seq<string>)
    requires ws != []
    ensures Join([w] + ws, " ") == w + " " + Join(ws, " ")
  {
    assert ([w] + ws)[1..] == ws;
  }

  /** `str.strip()` cuts whitespace only: the result is a slice with whitespace on both sides. */
  lemma StripSlice(s: string) returns (i: nat, j: nat)
    ensures i <= j <= |s| && Strip(s) == s[i..j]
    ensures AllSpace(s[..i]) && AllSpace(s[j..])
  {
    var l := LStrip(s);
    var r := RStrip(l);
    i := |s| - |l|;
    j := i + |r|;
    assert Strip(s) == r;
    assert s[i..] == l;
    assert s[i..j] == l[..|r|];
    LStripCutsSpace(s);
    RStripCutsSpace(l);
    assert s[j..] == l[|r|..];
  }

  lemma LStripCutsSpace(s: string)
    ensures AllSpace(s[..|s| - |LStrip(s)|])
  {
    var p := s[..|s| - |LStrip(s)|];
    assert forall k :: 0 <= k < |p| ==> p[k] == s[k];
  }

  lemma RStripCutsSpace(s: string)
    ensures AllSpace(s[|RStrip(s)|..])
  {
    var q := s[|RStrip(s)|..];
    assert forall k :: 0 <= k < |q| ==> q[k] == s[|RStrip(s)| + k];
  }

  /**
   * `_norm` keeps the words of the lowered text, in order, and joins them
   * with single spaces: it agrees with `" ".join(s.lower().split())`.
   */
  lemma NormJoinsWords(s: string)
    ensures Norm(s) == Join(Words(Lower(s)), " ")
  {
    var i, j := StripSlice(s);
    var l := Lower(s);
    LowerSlice(s, i, j);
    assert Lower(Strip(s)) == l[i..j];
    WordsTrimmed(l, i, j);
    CollapseJoinsWords(l[i..j]);
  }

  lemma LowerSlice(s: string, i: nat, j: nat)
    requires i <= j <= |s| && AllSpace(s[..i]) && AllSpace(s[j..])
    ensures Lower(s[i..j]) == Lower(s)[i..j]
    ensures AllSpace(Lower(s)[..i]) && AllSpace(Lower(s)[j..])
  {
    assert forall k :: 0 <= k < i ==> s[..i][k] == s[k];
    assert forall k :: j <= k < |s| ==> s[j..][k - j] == s[k];
  }

  /** Words do not see whitespace cut from either end. */
  lemma WordsTrimmed(l: string, i: nat, j: nat)
    requires i <= j <= |l| && AllSpace(l[..i]) && AllSpace(l[j..])
    ensures Words(l) == Words(l[i..j])
  {
    assert l == l[..i] + (l[i..j] + l[j..]);
    WordsAfterSpace(l[..i], l[i..j] + l[j..]);
    WordsBeforeSpace(l[i..j], l[j..]);
  }

  /** `s` ends (before its trailing whitespace is removed) in "(dddd)". */
  predicate HasYearSuffix(t: string)
  {
    && |t| >= 6
    && t[|t| - 6] == '(' && t[|t| - 1] == ')'
    && IsDigit(t[|t| - 5]) && IsDigit(t[|t| - 4]) && IsDigit(t[|t| - 3]) && IsDigit(t[|t| - 2])
  }

  /**
   * `re.sub(r"\s*\(\d{4}\)\s*$", "", s).strip()`: the one trailing year in
   * parentheses, with the whitespace around it, is cut and the rest stripped.
   */
  function StripYear(s: string): (r: string)
    ensures Stripped(r) && |r| <= |s|
    ensures !HasYearSuffix(RStrip(s)) ==> r == Strip(s)
  {
    var t := RStrip(s);
    if HasYearSuffix(t) then Strip(t[..|t| - 6]) else Strip(s)
  }

  lemma {:induction false} RStripTrailingSpace(x: string, w: string)
    requires AllSpace(w)
    ensures RStrip(x + w) == RStrip(x)
    decreases |w|
  {
    if w != [] {
      assert (x + w)[..|x + w| - 1] == x + w[..|w| - 1];
      RStripTrailingSpace(x, w[..|w| - 1]);
    } else {
      assert x + w == x;
    }
  }

  lemma {:induction false} LStripAppend(a: string, b: string)
    ensures LStrip(a + b) == if AllSpace(a) then LStrip(b) else LStrip(a) + b
    decreases |a|
  {
    if a == [] {
      assert a + b == b;
    } else {
      assert (a + b)[1..] == a[1..] + b;
      LStripAppend(a[1..], b);
    }
  }

  /** Stripping "a   (1995)  " by year gives exactly `a` stripped. */
  lemma YearSuffixRemoved(a: string, w1: string, year: string, w2: string)
    requires AllSpace(w1) && AllSpace(w2)
    requires |year| == 4 && forall i :: 0 <= i < 4 ==> IsDigit(year[i])
    ensures StripYear(a + w1 + "(" + year + ")" + w2) == Strip(a)
  {
    YearSuffixFound(a, w1, year, w2);
    StripTrailingSpace(a, w1);
  }

  /** The year suffix is what the trailing match finds, and what precedes it is `a + w1`. */
  lemma YearSuffixFound(a: string, w1: string, year: string, w2: string)
    requires AllSpace(w2)
    requires |year| == 4 && forall i :: 0 <= i < 4 ==> IsDigit(year[i])
    ensures var t := a + w1 + "(" + year + ")";
      RStrip(t + w2) == t && HasYearSuffix(t) && t[..|t| - 6] == a + w1
  {
    var t := a + w1 + "(" + year + ")";
    RStripTrailingSpace(t, w2);
    assert RStrip(t) == t;
    assert t[..|t| - 6] == a + w1;
  }

  /** Trailing whitespace does not change the stripped text. */
  lemma StripTrailingSpace(a: string, w: string)
    requires AllSpace(w)
    ensures Strip(a + w) == Strip(a)
  {
    LStripAppend(a, w);
    if AllSpace(a) {
      assert LStrip(w) == [];
      assert LStrip(a) == [];
    } else {
      RStripTrailingSpace(LStrip(a), w);
    }
  }

  /** `q in s` on strings: a literal substring test. */
  predicate Contains(s: string, q: string)
  {
    q <= s || (s != [] && Contains(s[1..], q))
  }

  predicate OccursAt(s: string, q: string, i: int)
  {
    0 <= i <= |s| - |q| && s[i..i + |q|] == q
  }

  /** An occurrence at position `i` makes `Contains` hold. */
  lemma {:induction false} OccurrenceContained(s: string, q: string, i: nat)
    requires OccursAt(s, q, i)
    ensures Contains(s, q)
  {
    if i == 0 {
      assert s[..|q|] == q;
    } else {
      assert s[1..][i - 1..i - 1 + |q|] == s[i..i + |q|];
      OccurrenceContained(s[1..], q, i - 1);
    }
  }

  /** `Contains` holds exactly when `q` occurs at some position of `s`. */
  lemma {:induction false} ContainsAt(s: string, q: string)
    ensures Contains(s, q) <==> exists i :: OccursAt(s, q, i)
  {
    if exists i :: OccursAt(s, q, i) {
      var i :| OccursAt(s, q, i);
      OccurrenceContained(s, q, i);
    }
    if q <= s {
      assert s[0..|q|] == q;
      assert OccursAt(s, q, 0);
    } else if s != [] {
      ContainsAt(s[1..], q);
      if Contains(s[1..], q) {
        var i :| OccursAt(s[1..], q, i);
        assert s[i + 1..i + 1 + |q|] == s[1..][i..i + |q|];
        assert OccursAt(s, q, i + 1);
      }
    }
  }

  /** `s[::-1]`. */
  function Reverse(s: string): (r: string)
    ensures |r| == |s|
  {
    if s == [] then [] else Reverse(s[1..]) + [s[0]]
  }

  lemma {:induction false} ReverseAt(s: string, k: nat)
    requires k < |s|
    ensures Reverse(s)[k] == s[|s| - 1 - k]
  {
    if k < |s| - 1 {
      ReverseAt(s[1..], k);
    }
  }

  /** Reversing twice gives the text back. */
  lemma ReverseReverse(s: string)
    ensures Reverse(Reverse(s)) == s
  {
    forall k | 0 <= k < |s|
      ensures Reverse(Reverse(s))[k] == s[k]
    {
      ReverseAt(Reverse(s), k);
      ReverseAt(s, |s| - 1 - k);
    }
  }

  /** `sep.join(xs)`. */
  function Join(xs: seq<string>, sep: string): string
  {
    if xs == [] then [] else if |xs| == 1 then xs[0] else xs[0] + sep + Join(xs[1..], sep)
  }

  /** `s.split(c)` for a one-character separator. */
  function Split(s: string, c: char): (r: seq<string>)
    ensures |r| > 0
    decreases |s|
  {
    if c in s then
      var i := Seqs.IndexOf(s, c);
      [s[..i]] + Split(s[i + 1..], c)
    else [s]
  }

  /** Splitting a join on its separator recovers the parts. */
  lemma {:induction false} SplitJoin(xs: seq<string>, c: char)
    requires xs != []
    requires forall k :: 0 <= k < |xs| ==> c !in xs[k]
    ensures Split(Join(xs, [c]), c) == xs
  {
    if |xs| > 1 {
      var rest := Join(xs[1..], [c]);
      var s := xs[0] + [c] + rest;
      assert s[|xs[0]|] == c;
      assert forall j :: 0 <= j < |xs[0]| ==> s[j] == xs[0][j];
      assert Seqs.IndexOf(s, c) == |xs[0]|;
      assert s[..|xs[0]|] == xs[0];
      assert s[|xs[0]| + 1..] == rest;
      SplitJoin(xs[1..], c);
    }
  }
}
