/**
 * The parts of Python's `pathlib.PurePosixPath` the skill scripts use:
 * the final component (`name`), its extension (`suffix`) and
 * `with_suffix`. A path is its string in pathlib's normal form: no
 * trailing `/`, no empty or `.` components, `.` for the empty path;
 * `FromString` puts a string into that form, as `PurePosixPath(s)` does.
 */
module PurePath {
  import opened Wrappers
  import opened Text

  /** The text after the last `/`. */
  function Component(p: string): (r: string)
    ensures |r| <= |p|
  {
    p[AfterLast(p, '/')..]
  }

  /** `name`: the last component, empty for the root and for `.`. */
  function Name(p: string): (r: string)
    ensures '/' !in r
    ensures EndsWith(p, r)
  {
    var n := Component(p);
    if n == "." then "" else n
  }

  /**
   * `suffix` of a name: the part from its last `.`, when that dot is
   * neither the name's first nor its last character (a dot file such as
   * `.env` has none).
   */
  function Suffix(name: string): (r: string)
    ensures r == "" || (|r| >= 2 && r[0] == '.' && |r| < |name|)
    ensures forall k :: 1 <= k < |r| ==> r[k] != '.'
    ensures EndsWith(name, r)
  {
    var i := AfterLast(name, '.');
    if 2 <= i < |name| then name[i - 1..] else ""
  }

  /** The suffixes `with_suffix` accepts: empty, or a `.` followed by at least one character, without a separator. */
  predicate ValidSuffix(suffix: string) {
    suffix == "" || (|suffix| >= 2 && suffix[0] == '.' && '/' !in suffix)
  }

  /** A suffix that `suffix` reads back whole: one leading dot and no other. */
  predicate SimpleSuffix(ext: string) {
    |ext| >= 2 && ext[0] == '.' && '.' !in ext[1..] && '/' !in ext
  }

  /**
   * `with_suffix(suffix)`: the name's suffix replaced; `None` where pathlib
   * raises `ValueError` (an invalid suffix, or a path with an empty name).
   */
  function WithSuffix(p: string, suffix: string): (r: Option<string>)
    ensures r.None? <==> !ValidSuffix(suffix) || Name(p) == ""
    ensures r.Some? ==> StartsWith(r.value, p[..|p| - |Suffix(Name(p))|]) && EndsWith(r.value, suffix)
  {
    if !ValidSuffix(suffix) || Name(p) == "" then None
    else
      var oldSuffix := Suffix(Name(p));
      Some(p[..|p| - |oldSuffix|] + suffix)
  }

  /** The prefix of `p` up to its last `/` ends with that `/`. */
  lemma AfterLastPrefix(p: string, c: char)
    ensures AfterLast(p[..AfterLast(p, c)], c) == AfterLast(p, c)
  {
    var k := AfterLast(p, c);
    if k > 0 {
      assert p[..k][k - 1] == c;
    }
  }

  /** No `c` follows the last `c`. */
  lemma NoneAfterLast(p: string, c: char, j: nat)
    requires AfterLast(p, c) <= j <= |p|
    ensures c !in p[AfterLast(p, c)..j]
  {
    var k := AfterLast(p, c);
    forall i | 0 <= i < j - k ensures p[k..j][i] != c {
      assert p[k..j][i] == p[k + i];
    }
  }

  /** Cutting a string after its last `c` keeps that `c` the last. */
  lemma AfterLastOfPrefix(p: string, c: char, j: nat)
    requires AfterLast(p, c) <= j <= |p|
    ensures AfterLast(p[..j], c) == AfterLast(p, c)
  {
    var k := AfterLast(p, c);
    var head, tail := p[..k], p[k..j];
    assert p[..j] == head + tail;
    NoneAfterLast(p, c, j);
    AfterLastConcat(head, tail, c);
    AfterLastPrefix(p, c);
  }

  /** Cutting a path inside its last component keeps the component's start. */
  lemma ComponentPrefix(p: string, j: nat)
    requires AfterLast(p, '/') <= j <= |p|
    ensures Component(p[..j]) == p[AfterLast(p, '/')..j]
  {
    var k := AfterLast(p, '/');
    AfterLastOfPrefix(p, '/', j);
    assert p[..j][k..] == p[k..j];
  }

  /** Appending text without a separator extends the last component, which then is the name. */
  lemma NameAppend(p: string, ext: string)
    requires Component(p) != "" && |ext| >= 2 && '/' !in ext
    ensures Name(p + ext) == Component(p) + ext
  {
    AfterLastConcat(p, ext, '/');
    var k := AfterLast(p, '/');
    assert Component(p) == p[k..];
    assert (p + ext)[k..] == p[k..] + ext;
    assert |p[k..] + ext| >= 2;
  }

  /** A simple suffix appended to a non-empty name is the suffix of the result. */
  lemma SuffixAppend(name: string, ext: string)
    requires name != "" && SimpleSuffix(ext)
    ensures Suffix(name + ext) == ext
  {
    var dotted := name + ['.'];
    AfterLastConcat(dotted, ext[1..], '.');
    assert name + ext == dotted + ext[1..];
    assert AfterLast(dotted, '.') == |name| + 1;
    assert (name + ext)[|name|..] == ext;
  }

  /** Appending a simple suffix to a path whose last component is not empty makes it the name's suffix. */
  lemma AppendSuffix(p: string, ext: string)
    requires Component(p) != ""
    requires SimpleSuffix(ext)
    ensures Name(p + ext) == Component(p) + ext
    ensures Suffix(Name(p + ext)) == ext
  {
    NameAppend(p, ext);
    SuffixAppend(Component(p), ext);
  }

  /** The old suffix lies inside the name, after the last `/`. */
  lemma SuffixInsideName(p: string)
    requires Name(p) != ""
    ensures AfterLast(p, '/') < |p| - |Suffix(Name(p))|
  {
    assert Name(p) == Component(p);
  }

  /** `with_suffix` on a path with a name cuts off the old suffix, which leaves the last component non-empty, and appends the new one. */
  lemma WithSuffixCut(p: string, ext: string)
    requires Name(p) != "" && ValidSuffix(ext)
    ensures var j := |p| - |Suffix(Name(p))|;
      0 <= j <= |p| && Component(p[..j]) != "" && WithSuffix(p, ext) == Some(p[..j] + ext)
  {
    var j := |p| - |Suffix(Name(p))|;
    assert 0 <= j <= |p| && Component(p[..j]) != "" by {
      SuffixInsideName(p);
      ComponentPrefix(p, j);
      assert |Component(p[..j])| == j - AfterLast(p, '/');
    }
  }

  /** Setting a simple suffix on a path with a name and reading it back gives that suffix. */
  lemma WithSuffixRoundTrip(p: string, ext: string)
    requires Name(p) != ""
    requires SimpleSuffix(ext)
    ensures WithSuffix(p, ext).Some?
    ensures Suffix(Name(WithSuffix(p, ext).value)) == ext
  {
    WithSuffixCut(p, ext);
    AppendSuffix(p[..|p| - |Suffix(Name(p))|], ext);
  }

  // ---------------------------------------------------------------------------
  // From a string to a path
  // ---------------------------------------------------------------------------

  /** The components pathlib keeps of one piece between separators: none for an empty or `.` piece. */
  function Kept(piece: string): seq<string> {
    if piece == "" || piece == "." then [] else [piece]
  }

  /** Components pathlib keeps: non-empty, not `.`, without a separator. */
  predicate CleanParts(cs: seq<string>) {
    forall k :: 0 <= k < |cs| ==> cs[k] != "" && cs[k] != "." && '/' !in cs[k]
  }

  /** The components of a path string: its pieces between separators, without the empty and `.` ones, in order. */
  function Parts(s: string): (cs: seq<string>)
    ensures CleanParts(cs)
    decreases |s|
  {
    var head := BeforeFirst(s, '/');
    if |head| == |s| then Kept(s)
    else Kept(head) + Parts(s[|head| + 1..])
  }

  /** The anchor: exactly two leading separators are kept as they are, any other leading run becomes one. */
  function Anchor(s: string): (a: string)
    ensures a == "" || a == "/" || a == "//"
    ensures a == "" <==> !StartsWith(s, "/")
  {
    if StartsWith(s, "//") && !StartsWith(s, "///") then "//"
    else if StartsWith(s, "/") then "/"
    else ""
  }

  /** `str(PurePosixPath(s))`: the anchor and the kept components joined with `/`, or `.` when there are neither. */
  function FromString(s: string): (p: string)
    ensures p != ""
  {
    var cs := Parts(s);
    if Anchor(s) == "" && cs == [] then "." else
      assert Anchor(s) != "" || Join(cs, "/") != "" by {
        if cs != [] { JoinFirst(cs, "/"); }
      }
      Anchor(s) + Join(cs, "/")
  }

  lemma JoinFirst(cs: seq<string>, sep: string)
    requires cs != []
    ensures StartsWith(Join(cs, sep), cs[0])
  {
    if |cs| > 1 {
      assert Join(cs, sep) == cs[0] + (sep + Join(cs[1..], sep));
    }
  }

  /** A piece without a separator after a separator (or at the start) is the last component. */
  lemma ComponentAfterSep(a: string, c: string)
    requires a == [] || a[|a| - 1] == '/'
    requires '/' !in c
    ensures Component(a + c) == c
  {
    AfterLastConcat(a, c, '/');
    assert AfterLast(a, '/') == |a|;
    assert (a + c)[|a|..] == c;
  }

  /** The last component of joined components, after a separator or nothing, is the last of them. */
  lemma ComponentOfJoin(anchor: string, cs: seq<string>)
    requires anchor == [] || anchor[|anchor| - 1] == '/'
    requires cs != [] && '/' !in cs[|cs| - 1]
    ensures Component(anchor + Join(cs, "/")) == cs[|cs| - 1]
  {
    if |cs| == 1 {
      assert Join(cs, "/") == cs[0];
      ComponentAfterSep(anchor, cs[0]);
    } else {
      ComponentOfLongJoin(anchor, cs);
    }
  }

  lemma ComponentOfLongJoin(anchor: string, cs: seq<string>)
    requires |cs| > 1 && '/' !in cs[|cs| - 1]
    ensures Component(anchor + Join(cs, "/")) == cs[|cs| - 1]
  {
    var last := cs[|cs| - 1];
    var init := cs[..|cs| - 1];
    assert cs == init + [last];
    var j := Join(init, "/");
    JoinSnoc(init, last, "/");
    ComponentAfterText(anchor + j, last);
    var p := anchor + Join(cs, "/");
    assert p == anchor + (j + "/" + last);
    RegroupConcat(anchor, j, "/", last);
  }

  lemma RegroupConcat(a: string, b: string, c: string, d: string)
    ensures a + (b + c + d) == a + b + c + d
  {
  }

  lemma ComponentAfterText(x: string, last: string)
    requires '/' !in last
    ensures Component(x + "/" + last) == last
  {
    var a := x + "/";
    assert a[|a| - 1] == '/';
    ComponentAfterSep(a, last);
  }

  /** The name of a path made from a string is its last kept component, or empty when there is none. */
  lemma NameOfFromString(s: string)
    ensures var cs := Parts(s);
      Name(FromString(s)) == if cs == [] then "" else cs[|cs| - 1]
  {
    var cs := Parts(s);
    if cs == [] {
      assert Join(cs, "/") == "";
      var p := FromString(s);
      assert p == "." || p == "/" || p == "//";
      assert AfterLast(p, '/') == |p| || p == ".";
    } else {
      assert '/' !in cs[|cs| - 1];
      ComponentOfJoin(Anchor(s), cs);
    }
  }

  /** A string without separators splits into itself, unless it is empty or `.`. */
  lemma PartsOfPiece(c: string)
    requires '/' !in c
    ensures Parts(c) == Kept(c)
  {
    assert |BeforeFirst(c, '/')| == |c|;
  }

  /** Leading separators contribute no component. */
  lemma PartsAfterSep(x: string)
    ensures Parts("/" + x) == Parts(x)
  {
    assert BeforeFirst("/" + x, '/') == "";
    assert ("/" + x)[1..] == x;
  }

  /** Splitting joined clean components gives them back. */
  lemma {:induction false} PartsOfJoin(cs: seq<string>)
    requires CleanParts(cs)
    ensures Parts(Join(cs, "/")) == cs
    decreases |cs|
  {
    if cs == [] {
      assert Parts("") == [];
    } else if |cs| == 1 {
      PartsOfPiece(cs[0]);
    } else {
      var rest := Join(cs[1..], "/");
      assert Join(cs, "/") == cs[0] + ['/'] + rest;
      BeforeFirstConcat(cs[0], rest, '/');
      assert (cs[0] + ['/'] + rest)[|cs[0]| + 1..] == rest;
      assert CleanParts(cs[1..]);
      PartsOfJoin(cs[1..]);
      assert cs == [cs[0]] + cs[1..];
    }
  }

  /** Joined clean components do not start with a separator. */
  lemma JoinHead(cs: seq<string>)
    requires cs != [] && CleanParts(cs)
    ensures Join(cs, "/") != "" && Join(cs, "/")[0] != '/'
  {
    JoinFirst(cs, "/");
    assert cs[0] != "" && '/' !in cs[0];
    assert Join(cs, "/")[0] == cs[0][0];
  }

  /** An anchor followed by joined clean components splits back into them. */
  lemma PartsOfAnchored(a: string, cs: seq<string>)
    requires a == "" || a == "/" || a == "//"
    requires CleanParts(cs)
    ensures Parts(a + Join(cs, "/")) == cs
  {
    var j := Join(cs, "/");
    PartsOfJoin(cs);
    if a == "/" {
      assert a + j == "/" + j;
      PartsAfterSep(j);
    } else if a == "//" {
      assert a + j == "/" + ("/" + j);
      PartsAfterSep("/" + j);
      PartsAfterSep(j);
    } else {
      assert a + j == j;
    }
  }

  /** An anchor followed by joined clean components keeps that anchor. */
  lemma AnchorOfAnchored(a: string, cs: seq<string>)
    requires a == "" || a == "/" || a == "//"
    requires CleanParts(cs)
    ensures Anchor(a + Join(cs, "/")) == a
  {
    var p := a + Join(cs, "/");
    if cs != [] {
      JoinHead(cs);
      assert p[|a|] != '/';
    } else {
      assert p == a;
    }
  }

  /** A path made from a string is already in normal form: making it again changes nothing. */
  lemma FromStringIdempotent(s: string)
    ensures FromString(FromString(s)) == FromString(s)
  {
    var cs, a := Parts(s), Anchor(s);
    if a == "" && cs == [] {
      PartsOfPiece(".");
      assert Anchor(".") == "";
    } else {
      PartsOfAnchored(a, cs);
      AnchorOfAnchored(a, cs);
    }
  }

  /** A trailing separator or a trailing `.` component does not change a relative one-component path. */
  lemma TrailingPiecesDropped(s: string)
    requires s != "" && s != "." && '/' !in s
    ensures FromString(s + "/") == s && FromString(s + "/.") == s
  {
    BeforeFirstConcat(s, "", '/');
    assert s + "/" == s + ['/'] + "";
    assert (s + "/")[|s| + 1..] == "";
    assert Parts("") == [];
    BeforeFirstConcat(s, ".", '/');
    assert s + "/." == s + ['/'] + ".";
    assert (s + "/.")[|s| + 1..] == ".";
    PartsOfPiece(".");
    assert (s + "/")[0] == s[0] && (s + "/.")[0] == s[0];
  }
}
