/**
 * The JavaScript string primitives the blog relies on, over strings of
 * characters: the `\s` class, `trim`, the length of `split(/\s+/)`,
 * `includes`, the part of `toLowerCase` the site's text needs, the id chain
 * `.replace(/[^a-z0-9]+/g, '-').replace(/(^-|-$)/g, '')` shared by admin
 * slugs and heading anchors, and the decimal rendering of an integer.
 */
module JsText {
  import opened Seqs

  /** JavaScript's `\s`: the WhiteSpace and LineTerminator characters of ECMAScript. */
  predicate IsWhitespace(c: char)
  {
    || c == ' ' || c == '\t' || c == '\n' || c == '\r' || c == '\U{000B}' || c == '\U{000C}'
    || c == '\U{00A0}' || c == '\U{1680}' || ('\U{2000}' <= c <= '\U{200A}')
    || c == '\U{2028}' || c == '\U{2029}' || c == '\U{202F}' || c == '\U{205F}'
    || c == '\U{3000}' || c == '\U{FEFF}'
  }

  /** The characters that end a line for `^`, `$` and `.` in a multiline regular expression. */
  predicate IsLineTerminator(c: char)
  {
    c == '\n' || c == '\r' || c == '\U{2028}' || c == '\U{2029}'
  }

  lemma LineTerminatorIsWhitespace(c: char)
    requires IsLineTerminator(c)
    ensures IsWhitespace(c)
  {
  }

  // ---------------------------------------------------------------------------
  // trim
  // ---------------------------------------------------------------------------

  /** Drops the leading whitespace. */
  function TrimStart(s: string): (r: string)
    ensures |r| <= |s| && r == s[|s| - |r|..]
    ensures r == [] || !IsWhitespace(r[0])
    ensures forall i | 0 <= i < |s| - |r| :: IsWhitespace(s[i])
  {
    if s != [] && IsWhitespace(s[0]) then TrimStart(s[1..]) else s
  }

  /** Drops the trailing whitespace. */
  function TrimEnd(s: string): (r: string)
    ensures |r| <= |s| && r == s[..|r|]
    ensures r == [] || !IsWhitespace(r[|r| - 1])
    ensures forall i | |r| <= i < |s| :: IsWhitespace(s[i])
  {
    if s != [] && IsWhitespace(s[|s| - 1]) then TrimEnd(s[..|s| - 1]) else s
  }

  /** `s.trim()`: empty exactly when `s` is whitespace only; otherwise it starts and ends with non-whitespace. */
  function Trim(s: string): (r: string)
    ensures r == [] || (!IsWhitespace(r[0]) && !IsWhitespace(r[|r| - 1]))
    ensures r == [] <==> forall i | 0 <= i < |s| :: IsWhitespace(s[i])
  {
    var t := TrimStart(s);
    var r := TrimEnd(t);
    assert r != [] ==> r[0] == t[0];
    assert t != [] ==> r != [];
    r
  }

  /** What `trim` keeps is the text between a whitespace-only prefix and a whitespace-only suffix. */
  lemma TrimRemovesOuterWhitespace(s: string)
    ensures exists a, b | 0 <= a <= b <= |s| ::
      && Trim(s) == s[a..b]
      && (forall i | 0 <= i < a :: IsWhitespace(s[i]))
      && (forall i | b <= i < |s| :: IsWhitespace(s[i]))
  {
    var t := TrimStart(s);
    var r := TrimEnd(t);
    var a := |s| - |t|;
    TrimEndInSlice(s, a, t, r);
    assert Trim(s) == r;
    assert r == s[a..a + |r|];
  }

  /** Trimming the end of the suffix `t` of `s` from `a` on leaves a slice of `s` followed by whitespace. */
  lemma TrimEndInSlice(s: string, a: nat, t: string, r: string)
    requires a <= |s| && t == s[a..] && r == TrimEnd(t)
    ensures a + |r| <= |s| && r == s[a..a + |r|]
    ensures forall i | a + |r| <= i < |s| :: IsWhitespace(s[i])
  {
    forall k | 0 <= k < |r| ensures r[k] == s[a + k] {
      assert r[k] == t[k];
    }
    forall i | a + |r| <= i < |s| ensures IsWhitespace(s[i]) {
      assert s[i] == t[i - a];
    }
  }

  // ---------------------------------------------------------------------------
  // words and the length of split(/\s+/)
  // ---------------------------------------------------------------------------

  /** The number of maximal runs of non-whitespace characters (words); counts each run at its last character. */
  function TokenCount(s: string): nat
  {
    if s == [] then 0
    else if IsWhitespace(s[0]) || (|s| > 1 && !IsWhitespace(s[1])) then TokenCount(s[1..])
    else 1 + TokenCount(s[1..])
  }

  /** The number of maximal runs of whitespace characters; counts each run at its last character. */
  function GapCount(s: string): nat
  {
    if s == [] then 0
    else if !IsWhitespace(s[0]) || (|s| > 1 && IsWhitespace(s[1])) then GapCount(s[1..])
    else 1 + GapCount(s[1..])
  }

  /**
   * `s.split(/\s+/).length`: the pattern matches exactly the maximal
   * whitespace runs, and a split yields one more piece than it has matches.
   */
  function SplitLength(s: string): nat
  {
    GapCount(s) + 1
  }

  /** In a text ending in a word, words and gaps alternate. */
  lemma {:induction false} TokensAndGapsAlternate(s: string)
    requires s != [] && !IsWhitespace(s[|s| - 1])
    ensures TokenCount(s) == GapCount(s) + (if IsWhitespace(s[0]) then 0 else 1)
  {
    if |s| > 1 {
      TokensAndGapsAlternate(s[1..]);
    }
  }

  lemma {:induction false} TokenCountTrimStart(s: string)
    ensures TokenCount(TrimStart(s)) == TokenCount(s)
  {
    if s != [] && IsWhitespace(s[0]) {
      TokenCountTrimStart(s[1..]);
    }
  }

  lemma {:induction false} TokenCountDropSpace(s: string)
    requires s != [] && IsWhitespace(s[|s| - 1])
    ensures TokenCount(s[..|s| - 1]) == TokenCount(s)
  {
    if |s| > 1 {
      TokenCountDropSpace(s[1..]);
      assert s[1..][..|s| - 2] == s[..|s| - 1][1..];
    }
  }

  lemma {:induction false} TokenCountTrimEnd(s: string)
    ensures TokenCount(TrimEnd(s)) == TokenCount(s)
  {
    if s != [] && IsWhitespace(s[|s| - 1]) {
      TokenCountDropSpace(s);
      TokenCountTrimEnd(s[..|s| - 1]);
    }
  }

  lemma TokenCountTrim(s: string)
    ensures TokenCount(Trim(s)) == TokenCount(s)
  {
    TokenCountTrimStart(s);
    TokenCountTrimEnd(TrimStart(s));
  }

  /**
   * `text.trim().split(/\s+/).length` is the number of words, except that a
   * whitespace-only text still yields one (empty) piece.
   */
  lemma SplitLengthOfTrim(s: string)
    ensures SplitLength(Trim(s)) == if TokenCount(s) == 0 then 1 else TokenCount(s)
    ensures TokenCount(s) == 0 <==> forall i | 0 <= i < |s| :: IsWhitespace(s[i])
  {
    TokenCountTrim(s);
    var t := Trim(s);
    if t != [] {
      TokensAndGapsAlternate(t);
      assert TokenCount(t) == GapCount(t) + 1;
    } else {
      assert TokenCount(t) == 0 && GapCount(t) == 0;
    }
  }

  // ---------------------------------------------------------------------------
  // includes
  // ---------------------------------------------------------------------------

  predicate StartsWith(s: string, prefix: string)
  {
    |prefix| <= |s| && s[..|prefix|] == prefix
  }

  /** `s.includes(sub)`. */
  predicate Includes(s: string, sub: string)
  {
    StartsWith(s, sub) || (s != [] && Includes(s[1..], sub))
  }

  /** `sub` occurs in `s` starting at index `i`. */
  ghost predicate OccursAt(s: string, sub: string, i: nat)
  {
    i + |sub| <= |s| && s[i..i + |sub|] == sub
  }

  /** `includes` holds exactly when `sub` occurs at some position of `s`. */
  lemma {:induction false} IncludesIffOccurs(s: string, sub: string)
    ensures Includes(s, sub) <==> exists i: nat :: OccursAt(s, sub, i)
  {
    if StartsWith(s, sub) {
      assert OccursAt(s, sub, 0);
    }
    if s != [] {
      IncludesIffOccurs(s[1..], sub);
      if exists i: nat :: OccursAt(s, sub, i) {
        var i: nat :| OccursAt(s, sub, i);
        if i > 0 {
          assert s[1..][i - 1..i - 1 + |sub|] == sub;
          assert OccursAt(s[1..], sub, i - 1);
        }
      }
      if Includes(s[1..], sub) {
        var i: nat :| OccursAt(s[1..], sub, i);
        assert s[i + 1..i + 1 + |sub|] == sub;
        assert OccursAt(s, sub, i + 1);
      }
    } else {
      if exists i: nat :: OccursAt(s, sub, i) {
        var i: nat :| OccursAt(s, sub, i);
        assert s[..|sub|] == sub;
      }
    }
  }

  /** A text can only include what fits in it. */
  lemma IncludesNeedsRoom(s: string, sub: string)
    requires Includes(s, sub)
    ensures |sub| <= |s|
  {
    IncludesIffOccurs(s, sub);
    var i: nat :| OccursAt(s, sub, i);
  }

  // ---------------------------------------------------------------------------
  // toLowerCase, for ASCII and the upper-case Turkish letters the site uses
  // ---------------------------------------------------------------------------

  function LowerChar(c: char): char
  {
    if 'A' <= c <= 'Z' then (c as int + 32) as char
    else if c == '\U{011E}' then '\U{011F}'  // Ğ -> ğ
    else if c == '\U{00DC}' then '\U{00FC}'  // Ü -> ü
    else if c == '\U{015E}' then '\U{015F}'  // Ş -> ş
    else if c == '\U{00D6}' then '\U{00F6}'  // Ö -> ö
    else if c == '\U{00C7}' then '\U{00E7}'  // Ç -> ç
    else c
  }

  /** `s.toLowerCase()`, character by character. */
  function ToLower(s: string): (r: string)
    ensures |r| == |s|
    ensures forall i | 0 <= i < |s| :: r[i] == LowerChar(s[i])
  {
    seq(|s|, i requires 0 <= i < |s| => LowerChar(s[i]))
  }

  lemma LowerCharNoUpperAscii(c: char)
    ensures !('A' <= LowerChar(c) <= 'Z')
  {
  }

  // ---------------------------------------------------------------------------
  // .replace(/[^a-z0-9]+/g, '-').replace(/(^-|-$)/g, '')
  // ---------------------------------------------------------------------------

  predicate IsLowerAlnum(c: char)
  {
    'a' <= c <= 'z' || '0' <= c <= '9'
  }

  /** Drops a leading run of characters outside [a-z0-9]. */
  function SkipNonAlnum(s: string): (r: string)
    ensures |r| <= |s| && r == s[|s| - |r|..]
    ensures r != [] ==> IsLowerAlnum(r[0])
  {
    if s != [] && !IsLowerAlnum(s[0]) then
      var r := SkipNonAlnum(s[1..]);
      assert s[1..][|s| - 1 - |r|..] == s[|s| - |r|..];
      r
    else s
  }

  /** What `SkipNonAlnum` drops is all outside [a-z0-9]. */
  lemma {:induction false} SkipNonAlnumDropsOthers(s: string)
    ensures forall i | 0 <= i < |s| - |SkipNonAlnum(s)| :: !IsLowerAlnum(s[i])
  {
    if s != [] && !IsLowerAlnum(s[0]) {
      SkipNonAlnumDropsOthers(s[1..]);
      forall i | 1 <= i < |s| - |SkipNonAlnum(s)| ensures !IsLowerAlnum(s[i]) {
        assert s[i] == s[1..][i - 1];
      }
    }
  }

  lemma {:induction false} SkipNonAlnumKeepsAlnums(s: string)
    ensures Filter(SkipNonAlnum(s), IsLowerAlnum) == Filter(s, IsLowerAlnum)
  {
    if s != [] && !IsLowerAlnum(s[0]) {
      SkipNonAlnumKeepsAlnums(s[1..]);
    }
  }

  /** `s.replace(/[^a-z0-9]+/g, '-')`: every maximal run outside [a-z0-9] becomes one '-'. */
  function CollapseNonAlnum(s: string): (r: string)
    ensures s == [] <==> r == []
    ensures s != [] ==> r[0] == (if IsLowerAlnum(s[0]) then s[0] else '-')
    ensures forall i | 0 <= i < |r| :: IsLowerAlnum(r[i]) || r[i] == '-'
    ensures forall i | 0 <= i < |r| - 1 :: !(r[i] == '-' && r[i + 1] == '-')
    decreases |s|
  {
    if s == [] then []
    else if IsLowerAlnum(s[0]) then [s[0]] + CollapseNonAlnum(s[1..])
    else "-" + CollapseNonAlnum(SkipNonAlnum(s[1..]))
  }

  lemma {:induction false} CollapseKeepsAlnums(s: string)
    ensures Filter(CollapseNonAlnum(s), IsLowerAlnum) == Filter(s, IsLowerAlnum)
    decreases |s|
  {
    if s != [] {
      assert s == [s[0]] + s[1..];
      FilterAppend([s[0]], s[1..], IsLowerAlnum);
      if IsLowerAlnum(s[0]) {
        CollapseKeepsAlnums(s[1..]);
        FilterAppend([s[0]], CollapseNonAlnum(s[1..]), IsLowerAlnum);
      } else {
        SkipNonAlnumKeepsAlnums(s[1..]);
        CollapseKeepsAlnums(SkipNonAlnum(s[1..]));
        FilterAppend("-", CollapseNonAlnum(SkipNonAlnum(s[1..])), IsLowerAlnum);
      }
    }
  }

  /** `s.replace(/(^-|-$)/g, '')`: removes one '-' at the start and one at the end. */
  function StripEdgeDashes(s: string): string
  {
    var a := if s != [] && s[0] == '-' then s[1..] else s;
    if a != [] && a[|a| - 1] == '-' then a[..|a| - 1] else a
  }

  lemma StripEdgeDashesKeepsAlnums(s: string)
    ensures Filter(StripEdgeDashes(s), IsLowerAlnum) == Filter(s, IsLowerAlnum)
  {
    var a := if s != [] && s[0] == '-' then s[1..] else s;
    if s != [] && s[0] == '-' {
      assert s == "-" + a;
      FilterAppend("-", a, IsLowerAlnum);
    }
    if a != [] && a[|a| - 1] == '-' {
      assert a == a[..|a| - 1] + "-";
      FilterAppend(a[..|a| - 1], "-", IsLowerAlnum);
    }
  }

  /**
   * The id chain shared by admin slugs and heading anchors: only [a-z0-9-],
   * no '-' at either end and never "--".
   */
  function Hyphenate(s: string): (r: string)
    ensures forall i | 0 <= i < |r| :: IsLowerAlnum(r[i]) || r[i] == '-'
    ensures r == [] || (r[0] != '-' && r[|r| - 1] != '-')
    ensures forall i | 0 <= i < |r| - 1 :: !(r[i] == '-' && r[i + 1] == '-')
  {
    var c := CollapseNonAlnum(s);
    var a := if c != [] && c[0] == '-' then c[1..] else c;
    assert forall i | 0 <= i < |a| - 1 :: !(a[i] == '-' && a[i + 1] == '-');
    assert a != [] ==> a[0] != '-';
    var r := if a != [] && a[|a| - 1] == '-' then a[..|a| - 1] else a;
    assert r == StripEdgeDashes(c);
    assert r != [] ==> r[0] == a[0];
    r
  }

  /** The letters and digits of `s`, in order, are exactly those of `Hyphenate(s)`. */
  lemma HyphenateKeepsAlnums(s: string)
    ensures Filter(Hyphenate(s), IsLowerAlnum) == Filter(s, IsLowerAlnum)
  {
    CollapseKeepsAlnums(s);
    StripEdgeDashesKeepsAlnums(CollapseNonAlnum(s));
  }

  /** A leading run of letters and digits passes through the collapse unchanged. */
  lemma {:induction false} CollapseKeepsWord(w: string, rest: string)
    requires forall i | 0 <= i < |w| :: IsLowerAlnum(w[i])
    ensures CollapseNonAlnum(w + rest) == w + CollapseNonAlnum(rest)
  {
    if w != [] {
      assert (w + rest)[1..] == w[1..] + rest;
      CollapseKeepsWord(w[1..], rest);
    } else {
      assert w + rest == rest;
    }
  }
  lemma {:induction false} SkipRun(run: string, rest: string)
    requires forall i | 0 <= i < |run| :: !IsLowerAlnum(run[i])
    requires rest == [] || IsLowerAlnum(rest[0])
    ensures SkipNonAlnum(run + rest) == rest
  {
    if run != [] {
      assert (run + rest)[1..] == run[1..] + rest;
      SkipRun(run[1..], rest);
    } else {
      assert run + rest == rest;
    }
  }
  /** A run of other characters collapses to one '-'. */
  lemma CollapseRun(run: string, rest: string)
    requires run != [] && forall i | 0 <= i < |run| :: !IsLowerAlnum(run[i])
    requires rest == [] || IsLowerAlnum(rest[0])
    ensures CollapseNonAlnum(run + rest) == "-" + CollapseNonAlnum(rest)
  {
    assert (run + rest)[1..] == run[1..] + rest;
    assert (run + rest)[0] == run[0];
    SkipRun(run[1..], rest);
  }
  /** A word followed by a run of other characters: the run becomes one '-'. */
  lemma CollapseWordThenRun(w: string, run: string, rest: string)
    requires run != [] && rest != [] && IsLowerAlnum(rest[0])
    requires forall i | 0 <= i < |w| :: IsLowerAlnum(w[i])
    requires forall i | 0 <= i < |run| :: !IsLowerAlnum(run[i])
    ensures CollapseNonAlnum(w + run + rest) == w + "-" + CollapseNonAlnum(rest)
  {
    var tail := run + rest;
    assert w + run + rest == w + tail;
    CollapseRun(run, rest);
    CollapseKeepsWord(w, tail);
  }

  /** Two words with a run of other characters between them: the run becomes one '-'. */
  lemma CollapseTwoWords(w1: string, sep: string, w2: string, tail: string)
    requires w1 != [] && w2 != [] && sep != []
    requires forall i | 0 <= i < |w1| :: IsLowerAlnum(w1[i])
    requires forall i | 0 <= i < |w2| :: IsLowerAlnum(w2[i])
    requires forall i | 0 <= i < |sep| :: !IsLowerAlnum(sep[i])
    ensures CollapseNonAlnum(w1 + sep + w2 + tail) == w1 + "-" + w2 + CollapseNonAlnum(tail)
  {
    var u := w2 + tail;
    assert u[0] == w2[0];
    CollapseWordThenRun(w1, sep, u);
    CollapseKeepsWord(w2, tail);
    assert w1 + sep + w2 + tail == w1 + sep + u;
    assert w1 + "-" + (w2 + CollapseNonAlnum(tail)) == w1 + "-" + w2 + CollapseNonAlnum(tail);
  }

  lemma CollapseTail(tail: string)
    requires forall i | 0 <= i < |tail| :: !IsLowerAlnum(tail[i])
    ensures CollapseNonAlnum(tail) == if tail == [] then [] else "-"
  {
    if tail != [] {
      CollapseRun(tail, []);
      assert tail + [] == tail;
    }
  }

  /**
   * Two words separated by a run of other characters, with or without such a
   * run after them, come out joined by a single '-'.
   */
  lemma HyphenateTwoWords(w1: string, sep: string, w2: string, tail: string)
    requires w1 != [] && w2 != [] && sep != []
    requires forall i | 0 <= i < |w1| :: IsLowerAlnum(w1[i])
    requires forall i | 0 <= i < |w2| :: IsLowerAlnum(w2[i])
    requires forall i | 0 <= i < |sep| :: !IsLowerAlnum(sep[i])
    requires forall i | 0 <= i < |tail| :: !IsLowerAlnum(tail[i])
    ensures Hyphenate(w1 + sep + w2 + tail) == w1 + "-" + w2
  {
    CollapseTwoWords(w1, sep, w2, tail);
    CollapseTail(tail);
    var c := w1 + "-" + w2;
    assert c[0] == w1[0];
    assert c[|c| - 1] == w2[|w2| - 1];
    if tail != [] {
      assert (c + "-")[..|c|] == c;
    }
  }

  // ---------------------------------------------------------------------------
  // decimal rendering of integers (template-literal interpolation)
  // ---------------------------------------------------------------------------

  function DigitChar(d: nat): (c: char)
    requires d < 10
    ensures '0' <= c <= '9' && c as int - '0' as int == d
  {
    (d + '0' as int) as char
  }

  /** The decimal digits of `n`, most significant first. */
  function NatToString(n: nat): (r: string)
    ensures |r| >= 1
    ensures forall i | 0 <= i < |r| :: '0' <= r[i] <= '9'
    decreases n
  {
    if n < 10 then [DigitChar(n)] else NatToString(n / 10) + [DigitChar(n % 10)]
  }

  /** The value a string of decimal digits denotes. */
  function DigitsValue(s: string): int
  {
    if s == [] then 0 else 10 * DigitsValue(s[..|s| - 1]) + (s[|s| - 1] as int - '0' as int)
  }

  lemma {:induction false} NatToStringRoundTrip(n: nat)
    ensures DigitsValue(NatToString(n)) == n
    decreases n
  {
    if n >= 10 {
      NatToStringRoundTrip(n / 10);
      var r := NatToString(n);
      assert r[..|r| - 1] == NatToString(n / 10);
    }
  }

  /** `String(n)` for an integer: its decimal digits, after a '-' when it is negative. */
  function IntToString(n: int): (r: string)
    ensures |r| >= 1
    ensures n >= 0 ==> DigitsValue(r) == n
    ensures n < 0 ==> r[0] == '-' && DigitsValue(r[1..]) == -n
  {
    if n < 0 then
      NatToStringRoundTrip(-n);
      var digits := NatToString(-n);
      assert ("-" + digits)[1..] == digits;
      "-" + digits
    else
      NatToStringRoundTrip(n);
      NatToString(n)
  }
}
