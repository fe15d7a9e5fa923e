/**
 * `normalize_text` of the voice-verification script, which makes the
 * script's text and the recognised speech comparable: punctuation runs
 * removed, katakana turned into hiragana, letters lower-cased. The model
 * follows the code as written (`Normalize`) and also gives the normaliser
 * it evidently means (`NormalizeIntended`).
 */
module VerifyVoices {
  import opened Text

  // ---------------------------------------------------------------------------
  // Character classes and the kana table
  // ---------------------------------------------------------------------------

  /**
   * The characters of the class `[、。！？!?,.\\s]` in a raw string: the
   * doubled backslash is one literal backslash, so the class holds `\` and
   * the letter `s`, not the whitespace escape.
   */
  const RemovedChars := "、。！？!?,.\\s"

  predicate IsRemoved(c: char) { c in RemovedChars }

  /** The two `str.maketrans` strings, each written as four literals that concatenate to the script's. */
  const Katakana := Katakana1 + Katakana2 + Katakana3 + Katakana4
  const Hiragana := Hiragana1 + Hiragana2 + Hiragana3 + Hiragana4

  const Katakana1 := "アイウエオカキクケコサシスセソ"
  const Katakana2 := "タチツテトナニヌネノハヒフヘホ"
  const Katakana3 := "マミムメモヤユヨラリルレロワヲン"
  const Katakana4 := "ァィゥェォッャュョー"
  const Hiragana1 := "あいうえおかきくけこさしすせそ"
  const Hiragana2 := "たちつてとなにぬねのはひふへほ"
  const Hiragana3 := "まみむめもやゆよらりるれろわをん"
  const Hiragana4 := "ぁぃぅぇぉっゃゅょー"

  /** The hiragana of a katakana letter (`ァ` to `ヶ` sit 0x60 above `ぁ` to `ゖ`); every other character as it is. */
  function Hira(c: char): (h: char)
    ensures IsAsciiUpper(h) <==> IsAsciiUpper(c)
  {
    if 'ァ' <= c <= 'ヶ' then (c as int - 0x60) as char else c
  }

  lemma HiraIdempotent(c: char)
    ensures Hira(Hira(c)) == Hira(c)
  {
  }

  /** `str.maketrans(from, to)`: the pairs in order, a later one replacing an earlier one for the same key. */
  function MakeTrans(from: string, to: string): map<char, char>
    requires |from| == |to|
    decreases |from|
  {
    if from == [] then map[]
    else
      var n := |from| - 1;
      MakeTrans(from[..n], to[..n])[from[n] := to[n]]
  }

  /** A table whose every target is `f` of its key maps exactly the keys listed, each to `f` of itself. */
  lemma {:induction false} MakeTransFollows(from: string, to: string, f: char -> char)
    requires |from| == |to|
    requires forall i :: 0 <= i < |from| ==> to[i] == f(from[i])
    ensures forall c :: c in MakeTrans(from, to) <==> c in from
    ensures forall c :: c in MakeTrans(from, to) ==> MakeTrans(from, to)[c] == f(c)
    decreases |from|
  {
    if from != [] {
      var n := |from| - 1;
      assert from == from[..n] + [from[n]];
      MakeTransFollows(from[..n], to[..n], f);
    }
  }

  /**
   * Two strings of the same length pairing katakana with hiragana: each
   * letter of `kana` is a katakana letter or the long-vowel mark, the
   * letter of `hira` in the same place is its hiragana, and the voiced
   * `ガ` is not among them.
   */
  predicate KanaRow(kana: string, hira: string) {
    && |kana| == |hira|
    && forall i :: 0 <= i < |kana| ==>
      && hira[i] == Hira(kana[i])
      && ('ァ' <= kana[i] <= 'ヶ' || kana[i] == 'ー')
      && kana[i] != 'ガ'
  }

  lemma KanaRowConcat(k1: string, h1: string, k2: string, h2: string)
    requires KanaRow(k1, h1) && KanaRow(k2, h2)
    ensures KanaRow(k1 + k2, h1 + h2)
  {
    forall i | |k1| <= i < |k1| + |k2| ensures (h1 + h2)[i] == h2[i - |k1|] && (k1 + k2)[i] == k2[i - |k1|] {
    }
  }

  lemma KanaRow1()
    ensures KanaRow(Katakana1, Hiragana1)
  {
    forall i | 0 <= i < |Katakana1| ensures Hiragana1[i] == Hira(Katakana1[i]) && 'ァ' <= Katakana1[i] <= 'ヶ' && Katakana1[i] != 'ガ' {
      assert i == 0 || i == 1 || i == 2 || i == 3 || i == 4 || i == 5 || i == 6 || i == 7
        || i == 8 || i == 9 || i == 10 || i == 11 || i == 12 || i == 13 || i == 14;
    }
  }

  lemma KanaRow2()
    ensures KanaRow(Katakana2, Hiragana2)
  {
    forall i | 0 <= i < |Katakana2| ensures Hiragana2[i] == Hira(Katakana2[i]) && 'ァ' <= Katakana2[i] <= 'ヶ' && Katakana2[i] != 'ガ' {
      assert i == 0 || i == 1 || i == 2 || i == 3 || i == 4 || i == 5 || i == 6 || i == 7
        || i == 8 || i == 9 || i == 10 || i == 11 || i == 12 || i == 13 || i == 14;
    }
  }

  lemma KanaRow3()
    ensures KanaRow(Katakana3, Hiragana3)
  {
    forall i | 0 <= i < |Katakana3| ensures Hiragana3[i] == Hira(Katakana3[i]) && 'ァ' <= Katakana3[i] <= 'ヶ' && Katakana3[i] != 'ガ' {
      assert i == 0 || i == 1 || i == 2 || i == 3 || i == 4 || i == 5 || i == 6 || i == 7
        || i == 8 || i == 9 || i == 10 || i == 11 || i == 12 || i == 13 || i == 14 || i == 15;
    }
  }

  lemma KanaRow4()
    ensures KanaRow(Katakana4, Hiragana4)
  {
    forall i | 0 <= i < |Katakana4| ensures Hiragana4[i] == Hira(Katakana4[i]) && ('ァ' <= Katakana4[i] <= 'ヶ' || Katakana4[i] == 'ー') && Katakana4[i] != 'ガ' {
      assert i == 0 || i == 1 || i == 2 || i == 3 || i == 4 || i == 5 || i == 6 || i == 7 || i == 8 || i == 9;
    }
  }

  /**
   * The table of the script: the 56 listed katakana, each the hiragana of
   * the letter in the same place (the long-vowel mark maps to itself); no
   * voiced letter such as `ガ` is among them.
   */
  lemma KanaPaired()
    ensures |Katakana| == 56
    ensures KanaRow(Katakana, Hiragana)
  {
    KanaRow1();
    KanaRow2();
    KanaRow3();
    KanaRow4();
    KanaRowConcat(Katakana1, Hiragana1, Katakana2, Hiragana2);
    KanaRowConcat(Katakana1 + Katakana2, Hiragana1 + Hiragana2, Katakana3, Hiragana3);
    KanaRowConcat(Katakana1 + Katakana2 + Katakana3, Hiragana1 + Hiragana2 + Hiragana3, Katakana4, Hiragana4);
  }

  const KanaTable: map<char, char> := MakeTrans(Katakana, Hiragana)

  /** What the table does: the listed katakana become their hiragana, nothing else is touched. */
  lemma KanaTableShape()
    ensures forall c :: c in KanaTable <==> c in Katakana
    ensures forall c :: c in KanaTable ==> KanaTable[c] == Hira(c)
  {
    KanaPaired();
    MakeTransFollows(Katakana, Hiragana, Hira);
  }

  // ---------------------------------------------------------------------------
  // The building blocks
  // ---------------------------------------------------------------------------

  /** The characters of `s` outside the class, in order. */
  function Filter(s: string, p: char -> bool): (r: string)
    ensures |r| <= |s|
    ensures forall i :: 0 <= i < |r| ==> !p(r[i]) && r[i] in s
    decreases |s|
  {
    if s == [] then []
    else (if p(s[0]) then [] else [s[0]]) + Filter(s[1..], p)
  }

  /** A prefix of class characters is dropped. */
  lemma {:induction false} FilterSkip(s: string, p: char -> bool, k: nat)
    requires k <= |s|
    requires forall i :: 0 <= i < k ==> p(s[i])
    ensures Filter(s, p) == Filter(s[k..], p)
    decreases k
  {
    if k > 0 {
      FilterSkip(s[1..], p, k - 1);
      assert s[1..][k - 1..] == s[k..];
    }
  }

  /** `re.sub(class + '+', '', s)`, that is the runs replaced by nothing, leaves exactly the characters outside the class. */
  lemma {:induction false} RemoveRunsIsFilter(s: string, p: char -> bool)
    ensures ReplaceRuns(s, p, 1, "") == Filter(s, p)
    decreases |s|
  {
    if s != [] {
      if !p(s[0]) {
        RemoveRunsIsFilter(s[1..], p);
      } else {
        var k := RunLength(s, p);
        RemoveRunsIsFilter(s[k..], p);
        FilterSkip(s, p, k);
        assert ReplaceRuns(s, p, 1, "") == "" + ReplaceRuns(s[k..], p, 1, "");
      }
    }
  }

  /** A string with no class character is its own filtering. */
  lemma {:induction false} FilterNone(s: string, p: char -> bool)
    requires forall i :: 0 <= i < |s| ==> !p(s[i])
    ensures Filter(s, p) == s
    decreases |s|
  {
    if s != [] {
      FilterNone(s[1..], p);
    }
  }

  /** Each character through `f`. */
  function MapChars(s: string, f: char -> char): (r: string)
    ensures |r| == |s|
    ensures forall i :: 0 <= i < |s| ==> r[i] == f(s[i])
  {
    seq(|s|, i requires 0 <= i < |s| => f(s[i]))
  }

  lemma MapCharsConcat(a: string, b: string, f: char -> char)
    ensures MapChars(a + b, f) == MapChars(a, f) + MapChars(b, f)
  {
  }

  /** Filtering commutes with a character map that neither brings characters into the class nor takes them out. */
  lemma {:induction false} FilterMapChars(s: string, p: char -> bool, f: char -> char)
    requires forall c :: p(f(c)) <==> p(c)
    ensures Filter(MapChars(s, f), p) == MapChars(Filter(s, p), f)
    decreases |s|
  {
    if s != [] {
      var m := MapChars(s, f);
      var head := if p(s[0]) then [] else [s[0]];
      assert m[1..] == MapChars(s[1..], f);
      assert Filter(m, p) == MapChars(head, f) + Filter(MapChars(s[1..], f), p) by {
        assert m[0] == f(s[0]);
        assert p(m[0]) <==> p(s[0]);
      }
      FilterMapChars(s[1..], p, f);
      MapCharsConcat(head, Filter(s[1..], p), f);
    }
  }

  /** `str.translate` with a character-to-character table. */
  function Translate(s: string, table: map<char, char>): (r: string)
    ensures |r| == |s|
    ensures forall i :: 0 <= i < |s| && s[i] !in table ==> r[i] == s[i]
    ensures forall i :: 0 <= i < |s| && s[i] in table ==> r[i] == table[s[i]]
  {
    seq(|s|, i requires 0 <= i < |s| => if s[i] in table then table[s[i]] else s[i])
  }

  // ---------------------------------------------------------------------------
  // normalize_text as written
  // ---------------------------------------------------------------------------

  /** `normalize_text`: remove the class runs, translate with the kana table, lower-case. */
  function Normalize(text: string): string {
    AsciiLower(Translate(ReplaceRuns(text, IsRemoved, 1, ""), KanaTable))
  }

  /** What `normalize_text` does to one character that survives the removal. */
  function NormalizeChar(c: char): char {
    AsciiLowerChar(if c in Katakana then Hira(c) else c)
  }

  /** Character by character: the characters outside the class, each through `NormalizeChar`. */
  lemma NormalizeByChar(text: string)
    ensures Normalize(text) == MapChars(Filter(text, IsRemoved), NormalizeChar)
  {
    RemoveRunsIsFilter(text, IsRemoved);
    KanaTableShape();
  }

  /**
   * The result is never longer than the text, and no punctuation of the
   * class is left; an `s` in the result can only come from an `S` in the
   * text (the class drops every `s` before the lower-casing).
   */
  lemma NormalizeRemoves(text: string)
    ensures |Normalize(text)| <= |text|
    ensures var r := Normalize(text);
      forall i :: 0 <= i < |r| ==> !IsRemoved(r[i]) || (r[i] == 's' && 'S' in text)
  {
    NormalizeByChar(text);
    var f := Filter(text, IsRemoved);
    forall i | 0 <= i < |f| ensures !IsRemoved(NormalizeChar(f[i])) || (NormalizeChar(f[i]) == 's' && f[i] == 'S') {
      KanaThenLower(f[i], f[i] in Katakana);
    }
  }

  /**
   * Turning a character outside the class into hiragana or not, then
   * lower-casing it, keeps it outside the class unless it is an `S`.
   */
  lemma KanaThenLower(c: char, toHira: bool)
    requires !IsRemoved(c)
    ensures var d := AsciiLowerChar(if toHira then Hira(c) else c);
      !IsRemoved(d) || (d == 's' && c == 'S')
  {
  }

  /** Each listed katakana letter alone normalises to its hiragana. */
  lemma KatakanaFolded(i: nat)
    requires i < |Katakana|
    ensures Normalize([Katakana[i]]) == [Hiragana[i]]
  {
    KanaPaired();
    var k := Katakana[i];
    NormalizeByChar([k]);
    assert !IsRemoved(k);
    assert Filter([k], IsRemoved) == [k];
    assert NormalizeChar(k) == Hiragana[i];
  }

  /** A single character: dropped when it is in the class, otherwise through `NormalizeChar`. */
  lemma NormalizeOne(c: char)
    ensures Normalize([c]) == if IsRemoved(c) then [] else [NormalizeChar(c)]
  {
    NormalizeByChar([c]);
    assert [c][1..] == [];
    assert Filter([c], IsRemoved) == if IsRemoved(c) then [] else [c];
  }

  /** An ASCII character is not in the kana table, so it is only lower-cased. */
  lemma AsciiNotKana(c: char)
    requires c < '\U{0080}'
    ensures NormalizeChar(c) == AsciiLowerChar(c)
  {
    KanaPaired();
    assert c !in Katakana;
  }

  /** The whitespace escape is not in the class: a space stays. */
  lemma SpaceKept()
    ensures Normalize(" ") == " "
  {
    AsciiNotKana(' ');
    NormalizeOne(' ');
  }

  /** The class holds the letter `s`: a lower-case `s` is dropped. */
  lemma LowerSDropped()
    ensures Normalize("s") == ""
  {
    NormalizeOne('s');
  }

  /** An upper-case `S` passes the class and is lower-cased afterwards. */
  lemma UpperSLowered()
    ensures Normalize("S") == "s"
  {
    AsciiNotKana('S');
    NormalizeOne('S');
  }

  /** So normalising twice differs from normalising once, and `S` and `s` differ. */
  lemma RegexClassWitness()
    ensures Normalize(Normalize("S")) != Normalize("S")
    ensures Normalize("S") != Normalize("s")
  {
    UpperSLowered();
    LowerSDropped();
  }

  /** A voiced katakana letter is not in the table: `ガ` stays katakana while `が` is already hiragana. */
  lemma VoicedKanaWitness()
    ensures Normalize("ガ") == "ガ"
    ensures Normalize("が") == "が"
    ensures Hira('ガ') == 'が'
  {
    assert 'ガ' !in Katakana && 'が' !in Katakana by {
      KanaPaired();
    }
    assert !IsRemoved('ガ') && !IsRemoved('が');
    NormalizeOne('ガ');
    NormalizeOne('が');
  }

  // ---------------------------------------------------------------------------
  // normalize_text as intended
  // ---------------------------------------------------------------------------

  /** The class with `\s` as the whitespace escape: the listed punctuation and every whitespace character. */
  predicate IsRemovedIntended(c: char) {
    c in "、。！？!?,." || IsPySpace(c)
  }

  /** Every katakana letter to its hiragana, then ASCII lower case. */
  function IntendedChar(c: char): char {
    AsciiLowerChar(Hira(c))
  }

  /** The comparison key the script evidently wants: punctuation and whitespace gone, katakana as hiragana, lower case. */
  function NormalizeIntended(text: string): (r: string)
    ensures forall i :: 0 <= i < |r| ==> !IsRemovedIntended(r[i])
  {
    var f := Filter(text, IsRemovedIntended);
    assert forall i :: 0 <= i < |f| ==> !IsRemovedIntended(IntendedChar(f[i])) by {
      forall i | 0 <= i < |f| ensures !IsRemovedIntended(IntendedChar(f[i])) {
        IntendedKeepsClass(f[i]);
      }
    }
    MapChars(f, IntendedChar)
  }

  /** The per-character step neither brings a character into the class nor takes one out, and is idempotent. */
  lemma IntendedKeepsClass(c: char)
    ensures IsRemovedIntended(IntendedChar(c)) <==> IsRemovedIntended(c)
    ensures IntendedChar(IntendedChar(c)) == IntendedChar(c)
  {
    HiraIdempotent(c);
  }

  /** Normalising twice is normalising once. */
  lemma NormalizeIntendedIdempotent(text: string)
    ensures NormalizeIntended(NormalizeIntended(text)) == NormalizeIntended(text)
  {
    var r := NormalizeIntended(text);
    var f := Filter(text, IsRemovedIntended);
    FilterNone(r, IsRemovedIntended);
    forall i | 0 <= i < |r| ensures IntendedChar(r[i]) == r[i] {
      IntendedKeepsClass(f[i]);
    }
  }

  /** Upper and lower case ASCII letters normalise alike: `S` and `s` give the same key. */
  lemma NormalizeIntendedIgnoresCase(text: string)
    ensures NormalizeIntended(AsciiLower(text)) == NormalizeIntended(text)
  {
    assert AsciiLower(text) == MapChars(text, AsciiLowerChar);
    forall c ensures IsRemovedIntended(AsciiLowerChar(c)) <==> IsRemovedIntended(c) {
    }
    FilterMapChars(text, IsRemovedIntended, AsciiLowerChar);
    var f := Filter(text, IsRemovedIntended);
    assert MapChars(MapChars(f, AsciiLowerChar), IntendedChar) == MapChars(f, IntendedChar);
  }

  /** Katakana and hiragana normalise alike, voiced letters included: `ガ` and `が` give the same key. */
  lemma NormalizeIntendedIgnoresKana(text: string)
    ensures NormalizeIntended(MapChars(text, Hira)) == NormalizeIntended(text)
  {
    forall c ensures IsRemovedIntended(Hira(c)) <==> IsRemovedIntended(c) {
    }
    FilterMapChars(text, IsRemovedIntended, Hira);
    var f := Filter(text, IsRemovedIntended);
    forall i | 0 <= i < |f| ensures IntendedChar(Hira(f[i])) == IntendedChar(f[i]) {
      HiraIdempotent(f[i]);
    }
    assert MapChars(MapChars(f, Hira), IntendedChar) == MapChars(f, IntendedChar);
  }
}
