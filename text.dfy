/**
 * String operations shared by the model: prefix and substring tests, the
 * whitespace classes of JavaScript and Python, trimming, replacement of
 * maximal character runs (the behaviour of a global `/[…]+/g` or
 * `/x{n,}/g` replacement), decimal rendering, UTF-8 length and ASCII case.
 * Strings are sequences of Unicode scalar values.
 */
module Text {

  predicate StartsWith(s: string, prefix: string) {
    |prefix| <= |s| && s[..|prefix|] == prefix
  }

  predicate EndsWith(s: string, suffix: string) {
    |suffix| <= |s| && s[|s| - |suffix|..] == suffix
  }

  /** `s.includes(sub)` / Python's `sub in s`. */
  predicate Contains(s: string, sub: string)
    decreases |s|
  {
    StartsWith(s, sub) || (s != [] && Contains(s[1..], sub))
  }

  /** Concatenation of `parts` with `sep` between neighbours (`Array.join`). */
  function Join(parts: seq<string>, sep: string): string
    decreases |parts|
  {
    if |parts| == 0 then ""
    else if |parts| == 1 then parts[0]
    else parts[0] + sep + Join(parts[1..], sep)
  }

  /** Joining one more part appends the separator and the part. */
  lemma {:induction false} JoinSnoc(xs: seq<string>, y: string, sep: string)
    requires xs != []
    ensures Join(xs + [y], sep) == Join(xs, sep) + sep + y
    decreases |xs|
  {
    assert (xs + [y])[0] == xs[0];
    if |xs| == 1 {
      assert (xs + [y])[1..] == [y];
    } else {
      assert (xs + [y])[1..] == xs[1..] + [y];
      JoinSnoc(xs[1..], y, sep);
    }
  }

  /** Index just after the last occurrence of `c` in `s`, or 0 when `c` does not occur. */
  function AfterLast(s: string, c: char): (i: nat)
    ensures i <= |s|
    ensures i > 0 ==> s[i - 1] == c
    ensures forall j :: i <= j < |s| ==> s[j] != c
    decreases |s|
  {
    if s == [] then 0
    else if s[|s| - 1] == c then |s|
    else AfterLast(s[..|s| - 1], c)
  }

  /** Appending characters other than `c` does not move the last `c`. */
  lemma {:induction false} AfterLastConcat(a: string, b: string, c: char)
    requires c !in b
    ensures AfterLast(a + b, c) == AfterLast(a, c)
    decreases |b|
  {
    if b != [] {
      assert (a + b)[..|a + b| - 1] == a + b[..|b| - 1];
      AfterLastConcat(a, b[..|b| - 1], c);
    } else {
      assert a + b == a;
    }
  }

  /** The part of `s` before the first `c` (`s.split(c)[0]`). */
  function BeforeFirst(s: string, c: char): (r: string)
    ensures StartsWith(s, r)
    ensures c !in r
    ensures |r| < |s| ==> s[|r|] == c
    decreases |s|
  {
    if s == [] || s[0] == c then "" else [s[0]] + BeforeFirst(s[1..], c)
  }

  /** The part before the first `c` of `a + [c] + b` is `a` when `c` does not occur in `a`. */
  lemma {:induction false} BeforeFirstConcat(a: string, b: string, c: char)
    requires c !in a
    ensures BeforeFirst(a + [c] + b, c) == a
    decreases |a|
  {
    if a != [] {
      assert (a + [c] + b)[1..] == a[1..] + [c] + b;
      BeforeFirstConcat(a[1..], b, c);
    }
  }

  // ---------------------------------------------------------------------------
  // Whitespace classes
  // ---------------------------------------------------------------------------

  /** JavaScript `\s`, also the set `String.prototype.trim` removes. */
  predicate IsJsSpace(c: char) {
    c == ' ' || c == '\t' || c == '\n' || c == '\r' || c == '\U{000B}' || c == '\U{000C}'
    || c == '\U{00A0}' || c == '\U{1680}' || ('\U{2000}' <= c <= '\U{200A}')
    || c == '\U{2028}' || c == '\U{2029}' || c == '\U{202F}' || c == '\U{205F}'
    || c == '\U{3000}' || c == '\U{FEFF}'
  }

  /** Python `str.isspace`, the set `str.strip()` removes. */
  predicate IsPySpace(c: char) {
    c == ' ' || ('\t' <= c <= '\r') || ('\U{001C}' <= c <= '\U{001F}')
    || c == '\U{0085}' || c == '\U{00A0}' || c == '\U{1680}' || ('\U{2000}' <= c <= '\U{200A}')
    || c == '\U{2028}' || c == '\U{2029}' || c == '\U{202F}' || c == '\U{205F}' || c == '\U{3000}'
  }

  predicate IsNewline(c: char) { c == '\n' }

  predicate IsSpaceOrTab(c: char) { c == ' ' || c == '\t' }

  predicate IsNewlineOrJsSpace(c: char) { c == '\n' || IsJsSpace(c) }

  // ---------------------------------------------------------------------------
  // Trimming
  // ---------------------------------------------------------------------------

  /** `s` without its longest prefix of characters satisfying `p`. */
  function TrimStart(s: string, p: char -> bool): (r: string)
    ensures |r| <= |s| && r == s[|s| - |r|..]
    ensures r == [] || !p(r[0])
    ensures forall i :: 0 <= i < |s| - |r| ==> p(s[i])
    decreases |s|
  {
    if s != [] && p(s[0]) then TrimStart(s[1..], p) else s
  }

  /** `s` without its longest suffix of characters satisfying `p`. */
  function TrimEnd(s: string, p: char -> bool): (r: string)
    ensures |r| <= |s| && r == s[..|r|]
    ensures r == [] || !p(r[|r| - 1])
    ensures forall i :: |r| <= i < |s| ==> p(s[i])
    decreases |s|
  {
    if s != [] && p(s[|s| - 1]) then TrimEnd(s[..|s| - 1], p) else s
  }

  function Trim(s: string, p: char -> bool): string {
    TrimEnd(TrimStart(s, p), p)
  }

  /** JavaScript `s.trim()`. */
  function JsTrim(s: string): string { Trim(s, IsJsSpace) }

  /** Python `s.strip()`. */
  function PyStrip(s: string): string { Trim(s, IsPySpace) }

  /** Some character of `s` is not JavaScript whitespace: `s.trim()` is truthy. */
  predicate JsNonBlank(s: string) {
    exists i :: 0 <= i < |s| && !IsJsSpace(s[i])
  }

  lemma JsNonBlankTrim(s: string)
    ensures JsNonBlank(s) <==> JsTrim(s) != ""
  {
    TrimEmpty(s, IsJsSpace);
  }

  /** Trimming leaves nothing exactly when every character satisfies `p`. */
  lemma TrimEmpty(s: string, p: char -> bool)
    ensures Trim(s, p) == "" <==> forall i :: 0 <= i < |s| ==> p(s[i])
  {
    var t := TrimStart(s, p);
    if t != [] {
      assert !p(t[0]);
      assert t[0] == s[|s| - |t|];
    }
  }

  /** A string that starts and ends outside the class is its own trim. */
  lemma TrimFixed(s: string, p: char -> bool)
    requires s == [] || (!p(s[0]) && !p(s[|s| - 1]))
    ensures Trim(s, p) == s
  {
  }

  /** A trimmed string starts and ends outside the class, so trimming it again changes nothing. */
  lemma TrimEnds(s: string, p: char -> bool)
    ensures var r := Trim(s, p); r == [] || (!p(r[0]) && !p(r[|r| - 1]))
    ensures Trim(Trim(s, p), p) == Trim(s, p)
  {
    var t := TrimStart(s, p);
    var r := TrimEnd(t, p);
    if r != [] {
      assert r[0] == t[0];
    }
    TrimFixed(r, p);
  }

  /** Trimming yields a contiguous piece of the input. */
  lemma TrimIsSlice(s: string, p: char -> bool)
    ensures exists a, b :: 0 <= a <= b <= |s| && Trim(s, p) == s[a..b]
  {
    var t := TrimStart(s, p);
    var a := |s| - |t|;
    var r := TrimEnd(t, p);
    assert t == s[a..];
    assert r == t[..|r|];
    assert s[a..][..|r|] == s[a..a + |r|];
    assert Trim(s, p) == s[a..a + |r|];
  }

  // ---------------------------------------------------------------------------
  // Replacement of maximal runs
  // ---------------------------------------------------------------------------

  /** `s.trim()` is the slice of `s` that starts where the leading whitespace ends. */
  lemma JsTrimSlice(s: string) returns (lo: nat, hi: nat)
    ensures lo <= hi <= |s| && JsTrim(s) == s[lo..hi]
  {
    lo := |s| - |TrimStart(s, IsJsSpace)|;
    hi := lo + |JsTrim(s)|;
  }

  /** `s.trim()` starts and ends with a non-whitespace character, or is empty. */
  lemma JsTrimEnds(s: string)
    ensures var r := JsTrim(s); r == [] || (!IsJsSpace(r[0]) && !IsJsSpace(r[|r| - 1]))
  {
    var t := TrimStart(s, IsJsSpace);
    var r := TrimEnd(t, IsJsSpace);
    if r != [] {
      assert r[0] == t[0];
    }
  }

  /** Trimming removes only characters of the trimmed class. */
  lemma TrimKeepsOthers(s: string, p: char -> bool, c: char)
    requires !p(c)
    ensures multiset(Trim(s, p))[c] == multiset(s)[c]
  {
    var t := TrimStart(s, p);
    var k := |s| - |t|;
    MultisetSplit(s, k, c);
    assert forall i :: 0 <= i < k ==> s[..k][i] == s[i];
    NoneOf(s[..k], p, c);
    var r := TrimEnd(t, p);
    MultisetSplit(t, |r|, c);
    assert forall i :: 0 <= i < |t| - |r| ==> t[|r|..][i] == t[|r| + i];
    NoneOf(t[|r|..], p, c);
  }

  /** Length of the longest prefix of `s` whose characters satisfy `p`. */
  function RunLength(s: string, p: char -> bool): (k: nat)
    ensures k <= |s|
    ensures forall i :: 0 <= i < k ==> p(s[i])
    ensures k < |s| ==> !p(s[k])
    decreases |s|
  {
    if s != [] && p(s[0]) then 1 + RunLength(s[1..], p) else 0
  }

  /**
   * Global regular-expression replacement of a greedy pattern `[p]{minLen,}`:
   * scanning left to right, every maximal run of characters satisfying `p`
   * whose length is at least `minLen` is replaced by `rep`; shorter runs and
   * all other characters are kept.
   */
  function ReplaceRuns(s: string, p: char -> bool, minLen: nat, rep: string): string
    decreases |s|
  {
    if s == [] then []
    else if !p(s[0]) then [s[0]] + ReplaceRuns(s[1..], p, minLen, rep)
    else
      var k := RunLength(s, p);
      (if k >= minLen then rep else s[..k]) + ReplaceRuns(s[k..], p, minLen, rep)
  }

  /** No two neighbouring characters both satisfy `p`. */
  ghost predicate NoAdjacent(s: string, p: char -> bool) {
    forall i :: 0 <= i < |s| - 1 ==> !(p(s[i]) && p(s[i + 1]))
  }

  /** No three consecutive newlines. */
  ghost predicate NoTripleNewline(s: string) {
    forall i :: 0 <= i < |s| - 2 ==> !(s[i] == '\n' && s[i + 1] == '\n' && s[i + 2] == '\n')
  }

  /**
   * Replacing every run of `p` characters by the single character `c`
   * (which satisfies `p`) leaves no two neighbouring `p` characters, every
   * remaining `p` character is `c`, and the first character is a `p`
   * character exactly when the input's was.
   */
  lemma {:induction false} CollapsedRuns(s: string, p: char -> bool, c: char)
    requires p(c)
    ensures var r := ReplaceRuns(s, p, 1, [c]);
      && NoAdjacent(r, p)
      && (forall i :: 0 <= i < |r| && p(r[i]) ==> r[i] == c)
      && (r != [] <==> s != [])
      && (r != [] ==> (p(r[0]) <==> p(s[0])))
    decreases |s|
  {
    if s == [] {
    } else if !p(s[0]) {
      CollapsedRuns(s[1..], p, c);
    } else {
      var k := RunLength(s, p);
      CollapsedRuns(s[k..], p, c);
      var rest := ReplaceRuns(s[k..], p, 1, [c]);
      var r := ReplaceRuns(s, p, 1, [c]);
      assert r == [c] + rest;
      forall i | 0 <= i < |r| - 1
        ensures !(p(r[i]) && p(r[i + 1]))
      {
        if i > 0 {
          assert r[i] == rest[i - 1] && r[i + 1] == rest[i];
        } else {
          assert rest != [] ==> !p(s[k..][0]);
        }
      }
    }
  }

  /** Joining two pieces free of triple newlines, with a non-newline at the seam, stays free of them. */
  lemma NoTripleAppend(a: string, b: string)
    requires NoTripleNewline(a) && NoTripleNewline(b)
    requires (a == [] || a[|a| - 1] != '\n') || (b == [] || b[0] != '\n')
    ensures NoTripleNewline(a + b)
  {
    var r := a + b;
    forall i | 0 <= i < |r| - 2
      ensures !(r[i] == '\n' && r[i + 1] == '\n' && r[i + 2] == '\n')
    {
      if i >= |a| {
        assert r[i] == b[i - |a|] && r[i + 1] == b[i + 1 - |a|] && r[i + 2] == b[i + 2 - |a|];
      } else if i + 2 < |a| {
        assert r[i] == a[i] && r[i + 1] == a[i + 1] && r[i + 2] == a[i + 2];
      } else if i + 2 == |a| {
        assert r[i + 1] == a[|a| - 1] && r[i + 2] == b[0];
      } else {
        assert r[i] == a[|a| - 1] && r[i + 1] == b[0];
      }
    }
  }

  /**
   * Replacing every run of three or more newlines by two newlines leaves
   * no three consecutive newlines; shorter runs survive unchanged.
   */
  lemma {:induction false} CappedNewlineRuns(s: string)
    ensures NoTripleNewline(ReplaceRuns(s, IsNewline, 3, "\n\n"))
    decreases |s|
  {
    if s == [] {
    } else if !IsNewline(s[0]) {
      CappedNewlineRuns(s[1..]);
      NoTripleAppend([s[0]], ReplaceRuns(s[1..], IsNewline, 3, "\n\n"));
    } else {
      var k := RunLength(s, IsNewline);
      var piece := if k >= 3 then "\n\n" else s[..k];
      var rest := ReplaceRuns(s[k..], IsNewline, 3, "\n\n");
      CappedNewlineRuns(s[k..]);
      ReplacedStart(s[k..], IsNewline, 3, "\n\n");
      NoTripleAppend(piece, rest);
    }
  }

  /** The result of a run replacement starts with a `p` character only if the input does (when `rep` is non-empty). */
  lemma ReplacedStart(s: string, p: char -> bool, minLen: nat, rep: string)
    requires |rep| > 0 || minLen == 0
    ensures var r := ReplaceRuns(s, p, minLen, rep);
      (r != [] && p(r[0])) ==> (s != [] && p(s[0]))
  {
  }

  /** Replacing runs keeps the count of every character outside the class that the replacement does not contain. */
  lemma {:induction false} ReplaceRunsKeepsOthers(s: string, p: char -> bool, minLen: nat, rep: string, c: char)
    requires c !in rep
    requires !p(c)
    ensures multiset(ReplaceRuns(s, p, minLen, rep))[c] == multiset(s)[c]
    decreases |s|
  {
    if s == [] {
    } else if !p(s[0]) {
      ReplaceRunsKeepsOthers(s[1..], p, minLen, rep, c);
      KeepsOthersOne(s, p, minLen, rep, c);
    } else {
      ReplaceRunsKeepsOthers(s[RunLength(s, p)..], p, minLen, rep, c);
      KeepsOthersRun(s, p, minLen, rep, c);
    }
  }

  lemma KeepsOthersOne(s: string, p: char -> bool, minLen: nat, rep: string, c: char)
    requires s != [] && !p(s[0])
    requires multiset(ReplaceRuns(s[1..], p, minLen, rep))[c] == multiset(s[1..])[c]
    ensures multiset(ReplaceRuns(s, p, minLen, rep))[c] == multiset(s)[c]
  {
    var tail := ReplaceRuns(s[1..], p, minLen, rep);
    assert ReplaceRuns(s, p, minLen, rep) == [s[0]] + tail;
    MultisetSplit(s, 1, c);
    CountAppend([s[0]], tail, c);
  }

  lemma KeepsOthersRun(s: string, p: char -> bool, minLen: nat, rep: string, c: char)
    requires s != [] && p(s[0])
    requires c !in rep
    requires !p(c)
    requires var k := RunLength(s, p);
      multiset(ReplaceRuns(s[k..], p, minLen, rep))[c] == multiset(s[k..])[c]
    ensures multiset(ReplaceRuns(s, p, minLen, rep))[c] == multiset(s)[c]
  {
    var k := RunLength(s, p);
    var tail := ReplaceRuns(s[k..], p, minLen, rep);
    MultisetSplit(s, k, c);
    NoneOf(s[..k], p, c);
    if k >= minLen {
      assert ReplaceRuns(s, p, minLen, rep) == rep + tail;
      assert c !in multiset(rep);
      CountAppend(rep, tail, c);
    } else {
      assert ReplaceRuns(s, p, minLen, rep) == s[..k] + tail;
      CountAppend(s[..k], tail, c);
    }
  }

  lemma CountAppend(a: string, b: string, c: char)
    ensures multiset(a + b)[c] == multiset(a)[c] + multiset(b)[c]
  {
  }

  /** Counting a character in a string counts it in the two halves of any split. */
  lemma MultisetSplit(s: string, k: nat, c: char)
    requires k <= |s|
    ensures multiset(s)[c] == multiset(s[..k])[c] + multiset(s[k..])[c]
  {
    assert s == s[..k] + s[k..];
  }

  /** A sequence of `p` characters contains no character outside `p`. */
  lemma {:induction false} NoneOf(s: string, p: char -> bool, c: char)
    requires forall i :: 0 <= i < |s| ==> p(s[i])
    requires !p(c)
    ensures multiset(s)[c] == 0
    decreases |s|
  {
    if s != [] {
      NoneOf(s[1..], p, c);
      assert s == [s[0]] + s[1..];
    }
  }

  /** A slice of a string whose only `p` character is `c` has no other `p` character either. */
  lemma OnlyCharSlice(s: string, p: char -> bool, c: char, a: nat, b: nat)
    requires a <= b <= |s|
    requires forall i :: 0 <= i < |s| && p(s[i]) ==> s[i] == c
    ensures forall i :: 0 <= i < b - a && p(s[a..b][i]) ==> s[a..b][i] == c
  {
    forall i | 0 <= i < b - a && p(s[a..b][i])
      ensures s[a..b][i] == c
    {
      assert s[a..b][i] == s[a + i];
    }
  }

  /** A slice of a string without neighbouring `p` characters has none either. */
  lemma NoAdjacentSlice(s: string, p: char -> bool, a: nat, b: nat)
    requires a <= b <= |s|
    requires NoAdjacent(s, p)
    ensures NoAdjacent(s[a..b], p)
  {
    var t := s[a..b];
    forall i | 0 <= i < |t| - 1
      ensures !(p(t[i]) && p(t[i + 1]))
    {
      assert t[i] == s[a + i] && t[i + 1] == s[a + i + 1];
    }
  }

  /** A slice of a string without triple newlines has none either. */
  lemma NoTripleSlice(s: string, a: nat, b: nat)
    requires a <= b <= |s|
    requires NoTripleNewline(s)
    ensures NoTripleNewline(s[a..b])
  {
    var t := s[a..b];
    forall i | 0 <= i < |t| - 2
      ensures !(t[i] == '\n' && t[i + 1] == '\n' && t[i + 2] == '\n')
    {
      assert t[i] == s[a + i] && t[i + 1] == s[a + i + 1] && t[i + 2] == s[a + i + 2];
    }
  }

  // ---------------------------------------------------------------------------
  // Decimal numbers
  // ---------------------------------------------------------------------------

  predicate IsDigit(c: char) { '0' <= c <= '9' }

  function DigitChar(d: nat): (c: char)
    requires d < 10
    ensures IsDigit(c)
  {
    ['0', '1', '2', '3', '4', '5', '6', '7', '8', '9'][d]
  }

  function DigitValue(c: char): (d: nat)
    requires IsDigit(c)
    ensures d < 10
  {
    (c as int) - ('0' as int)
  }

  /** Decimal rendering of a natural number, as `${n}` or `str(n)` produce it. */
  function NatToString(n: nat): (r: string)
    ensures |r| > 0
    ensures forall i :: 0 <= i < |r| ==> IsDigit(r[i])
    ensures r[0] == '0' ==> n == 0 && r == "0"
  {
    if n < 10 then [DigitChar(n)] else NatToString(n / 10) + [DigitChar(n % 10)]
  }

  /** The value of a string of decimal digits. */
  function DigitsValue(s: string): nat
    requires forall i :: 0 <= i < |s| ==> IsDigit(s[i])
    decreases |s|
  {
    if s == [] then 0 else DigitsValue(s[..|s| - 1]) * 10 + DigitValue(s[|s| - 1])
  }

  /** Reading back a rendered number gives the number. */
  lemma {:induction false} NatToStringValue(n: nat)
    ensures DigitsValue(NatToString(n)) == n
  {
    var r := NatToString(n);
    if n < 10 {
      assert DigitValue(DigitChar(n)) == n;
    } else {
      NatToStringValue(n / 10);
      assert r[..|r| - 1] == NatToString(n / 10);
      assert DigitValue(DigitChar(n % 10)) == n % 10;
    }
  }

  /** Distinct numbers have distinct renderings. */
  lemma NatToStringInjective(m: nat, n: nat)
    requires NatToString(m) == NatToString(n)
    ensures m == n
  {
    NatToStringValue(m);
    NatToStringValue(n);
  }

  // ---------------------------------------------------------------------------
  // Encodings and case
  // ---------------------------------------------------------------------------

  /** Number of bytes `Buffer.from(s)` (UTF-8) occupies. */
  function Utf8Length(s: string): nat
    decreases |s|
  {
    if s == [] then 0
    else (if s[0] < '\U{0080}' then 1 else if s[0] < '\U{0800}' then 2 else if s[0] < '\U{10000}' then 3 else 4)
         + Utf8Length(s[1..])
  }

  predicate IsAsciiUpper(c: char) { 'A' <= c <= 'Z' }

  function AsciiLowerChar(c: char): char {
    if IsAsciiUpper(c) then (c as int + 32) as char else c
  }

  /** Lower-casing of the ASCII letters, every other character unchanged. */
  function AsciiLower(s: string): (r: string)
    ensures |r| == |s|
    ensures forall i :: 0 <= i < |s| ==> r[i] == AsciiLowerChar(s[i])
  {
    seq(|s|, i requires 0 <= i < |s| => AsciiLowerChar(s[i]))
  }
}
