/**
 * Node's `path.posix.normalize` and `path.posix.join`: a path is split at
 * `/` into pieces; empty and `.` pieces are dropped, and `..` takes back
 * the segment before it, or is kept at the start of a relative path when
 * there is nothing to take back. A leading `/` and a trailing `/` survive.
 */
module NodePath {
  import opened Text

  /** The pieces of `s` between separators, in order (`s.split("/")`). */
  function Pieces(s: string): (ps: seq<string>)
    ensures |ps| >= 1
    decreases |s|
  {
    var i := AfterLast(s, '/');
    if i == 0 then [s]
    else Pieces(s[..i - 1]) + [s[i..]]
  }

  /** A segment as `normalize` keeps it: neither empty nor `.`. */
  predicate Segment(x: string) {
    x != "" && x != "."
  }

  /** One piece pushed onto the segments so far (one round of `normalizeString`). */
  function Step(segs: seq<string>, piece: string, allowAboveRoot: bool): seq<string> {
    if piece == "" || piece == "." then segs
    else if piece == ".." then
      if segs != [] && segs[|segs| - 1] != ".." then segs[..|segs| - 1]
      else if allowAboveRoot then segs + [".."]
      else segs
    else segs + [piece]
  }

  /**
   * `normalizeString`: the pieces pushed from left to right. Every result
   * is a segment, an absolute path keeps no `..`, and in a relative one the
   * `..` segments all come first.
   */
  function Segments(pieces: seq<string>, allowAboveRoot: bool): (segs: seq<string>)
    ensures forall k :: 0 <= k < |segs| ==> Segment(segs[k])
    ensures !allowAboveRoot ==> ".." !in segs
    ensures forall i, j :: 0 <= i < j < |segs| && segs[j] == ".." ==> segs[i] == ".."
    decreases |pieces|
  {
    if pieces == [] then []
    else Step(Segments(pieces[..|pieces| - 1], allowAboveRoot), pieces[|pieces| - 1], allowAboveRoot)
  }

  /** The string of an absolute or relative list of segments, with a trailing separator when the input had one. */
  function Render(absolute: bool, segs: seq<string>, trailing: bool): string {
    if segs == [] then (if absolute then "/" else if trailing then "./" else ".")
    else (if absolute then "/" else "") + Join(segs, "/") + (if trailing then "/" else "")
  }

  /** `path.posix.normalize`. */
  function Normalize(p: string): string {
    if p == "" then "."
    else
      var absolute := p[0] == '/';
      Render(absolute, Segments(Pieces(p), !absolute), p[|p| - 1] == '/')
  }

  /** `path.posix.join(dir, name)`: the non-empty arguments joined with `/`, then normalised. */
  function JoinPath(dir: string, name: string): string {
    var joined := if dir == "" then name else if name == "" then dir else dir + "/" + name;
    Normalize(joined)
  }

  /** A piece after a last separator is the last piece. */
  lemma PiecesSnoc(a: string, b: string)
    requires '/' !in b
    ensures Pieces(a + "/" + b) == Pieces(a) + [b]
  {
    var s := a + "/" + b;
    AfterLastConcat(a + "/", b, '/');
    assert (a + "/")[|a|] == '/';
    assert AfterLast(a + "/", '/') == |a| + 1;
    assert s[..|a|] == a;
    assert s[|a| + 1..] == b;
  }

  /**
   * Joining a directory with an entry name (never empty, `.` or `..`)
   * appends the name as one more segment, in whatever form the directory
   * is written: a trailing separator, `.` pieces and `..` pieces in it are
   * normalised away.
   */
  lemma JoinSegment(dir: string, name: string)
    requires dir != "" && Segment(name) && name != ".." && '/' !in name
    ensures var absolute := dir[0] == '/';
      JoinPath(dir, name) == Render(absolute, Segments(Pieces(dir), !absolute) + [name], false)
  {
    var s := dir + "/" + name;
    PiecesSnoc(dir, name);
    assert s[0] == dir[0];
    var ps := Pieces(dir) + [name];
    assert ps[..|ps| - 1] == Pieces(dir);
  }

  /** Joining nothing with an entry name gives the name. */
  lemma JoinOntoEmpty(name: string)
    requires Segment(name) && name != ".." && '/' !in name
    ensures JoinPath("", name) == name
  {
    assert AfterLast(name, '/') == 0;
    assert Pieces(name) == [name];
    assert [name][..0] == [];
    assert Segments([name], true) == [name];
    assert name[0] != '/' && name[|name| - 1] != '/';
    assert "" + Join([name], "/") + "" == name;
  }

  /** Two relative segments render joined by one separator. */
  lemma RenderPair(first: string, name: string)
    ensures Render(false, [first] + [name], false) == first + "/" + name
  {
    assert [first] + [name] == [first, name];
    assert Join([first, name], "/") == first + "/" + Join([name], "/");
  }

  /** A piece without a separator is the only piece. */
  lemma PiecesOfPiece(s: string)
    requires '/' !in s
    ensures Pieces(s) == [s]
  {
    assert AfterLast(s, '/') == 0;
  }

  /** A trailing separator on the directory is dropped: `src/` is `src`. */
  lemma JoinTrailingSeparator(d: string, name: string)
    requires Segment(d) && d != ".." && '/' !in d
    requires Segment(name) && name != ".." && '/' !in name
    ensures JoinPath(d + "/", name) == d + "/" + name
  {
    PiecesOfPiece(d);
    assert d + "/" == d + "/" + "";
    PiecesSnoc(d, "");
    var ps := [d, ""];
    assert ps[..1] == [d] && [d][..0] == [];
    assert Segments([d], true) == [d];
    assert Segments(ps, true) == Step([d], "", true);
    assert (d + "/")[0] == d[0];
    JoinSegment(d + "/", name);
    RenderPair(d, name);
  }

  /** A leading `.` piece is dropped: `./src` is `src`. */
  lemma JoinDotPrefix(d: string, name: string)
    requires Segment(d) && d != ".." && '/' !in d
    requires Segment(name) && name != ".." && '/' !in name
    ensures JoinPath("./" + d, name) == d + "/" + name
  {
    PiecesOfPiece(".");
    assert "./" + d == "." + "/" + d;
    PiecesSnoc(".", d);
    var ps := [".", d];
    assert ps[..1] == ["."] && ["."][..0] == [];
    assert Segments(ps, true) == [d];
    JoinSegment("./" + d, name);
    RenderPair(d, name);
  }

  /** A `..` piece takes back the piece before it: `src/x/..` is `src`. */
  lemma JoinParentPiece(d: string, x: string, name: string)
    requires Segment(d) && d != ".." && '/' !in d
    requires Segment(x) && x != ".." && '/' !in x
    requires Segment(name) && name != ".." && '/' !in name
    ensures JoinPath(d + "/" + x + "/..", name) == d + "/" + name
  {
    PiecesOfPiece(d);
    PiecesSnoc(d, x);
    PiecesSnoc(d + "/" + x, "..");
    assert d + "/" + x + "/.." == d + "/" + x + "/" + "..";
    var ps := [d, x, ".."];
    assert Pieces(d + "/" + x + "/..") == [d] + [x] + [".."];
    assert [d] + [x] + [".."] == ps;
    assert ps[..2] == [d, x] && [d, x][..1] == [d] && [d][..0] == [];
    assert Segments([d], true) == [d];
    assert Segments([d, x], true) == Step([d], x, true) == [d, x];
    assert Segments(ps, true) == Step([d, x], "..", true) == [d];
    assert (d + "/" + x + "/..")[0] == d[0];
    JoinSegment(d + "/" + x + "/..", name);
    RenderPair(d, name);
  }

  /** `.` adds nothing. */
  lemma JoinDot(name: string)
    requires Segment(name) && name != ".." && '/' !in name
    ensures JoinPath(".", name) == name
  {
    PiecesOfPiece(".");
    assert ["."][..0] == [];
    assert Segments(["."], true) == [];
    JoinSegment(".", name);
    assert [] + [name] == [name];
  }

  /** A string `Normalize` leaves as it is, with at least one segment and no trailing separator. */
  predicate NormalDirectory(dir: string) {
    dir != "" && Normalize(dir) == dir && dir != "/" && dir != "." && dir[|dir| - 1] != '/'
  }

  /** Two names after two last separators are the last two pieces. */
  lemma PiecesSnocTwo(dir: string, a: string, b: string)
    requires '/' !in a && '/' !in b
    ensures Pieces(dir + "/" + (a + "/" + b)) == Pieces(dir) + [a] + [b]
  {
    assert dir + "/" + (a + "/" + b) == (dir + "/" + a) + "/" + b;
    PiecesSnoc(dir, a);
    PiecesSnoc(dir + "/" + a, b);
  }

  /** Pushing a segment other than `..` appends it. */
  lemma SegmentsSnoc(ps: seq<string>, a: string, allowAboveRoot: bool)
    requires Segment(a) && a != ".."
    ensures Segments(ps + [a], allowAboveRoot) == Segments(ps, allowAboveRoot) + [a]
  {
    assert (ps + [a])[..|ps|] == ps;
  }

  /** Joining a directory with two entry names appends both to the directory's normalised segments. */
  lemma JoinTwoSegments(dir: string, a: string, b: string)
    requires dir != ""
    requires Segment(a) && a != ".." && '/' !in a
    requires Segment(b) && b != ".." && '/' !in b
    ensures var absolute := dir[0] == '/';
      JoinPath(dir, a + "/" + b) == Render(absolute, Segments(Pieces(dir), !absolute) + [a] + [b], false)
  {
    var absolute := dir[0] == '/';
    var s := dir + "/" + (a + "/" + b);
    PiecesSnocTwo(dir, a, b);
    SegmentsSnoc(Pieces(dir), a, !absolute);
    SegmentsSnoc(Pieces(dir) + [a], b, !absolute);
    assert s[0] == dir[0];
    assert s[|s| - 1] == b[|b| - 1];
  }

  /** A normal directory is rendered from at least one segment, with no trailing separator. */
  lemma NormalDirectorySegments(dir: string)
    requires NormalDirectory(dir)
    ensures var absolute := dir[0] == '/';
      var segs := Segments(Pieces(dir), !absolute);
      segs != [] && dir == Render(absolute, segs, false)
  {
  }

  /** One or two more segments render after a separator. */
  lemma RenderSnoc(absolute: bool, segs: seq<string>, a: string, b: string)
    requires segs != []
    ensures Render(absolute, segs + [a], false) == Render(absolute, segs, false) + "/" + a
    ensures Render(absolute, segs + [a] + [b], false) == Render(absolute, segs, false) + "/" + a + "/" + b
  {
    JoinSnoc(segs, a, "/");
    JoinSnoc(segs + [a], b, "/");
  }

  /** A normal directory joined with `a/b` is the plain concatenation `dir/a/b`. */
  lemma JoinNormalDirectory(dir: string, a: string, b: string)
    requires NormalDirectory(dir)
    requires Segment(a) && a != ".." && '/' !in a
    requires Segment(b) && b != ".." && '/' !in b
    ensures JoinPath(dir, a + "/" + b) == dir + "/" + a + "/" + b
  {
    NormalDirectorySegments(dir);
    JoinTwoSegments(dir, a, b);
    RenderSnoc(dir[0] == '/', Segments(Pieces(dir), dir[0] != '/'), a, b);
  }

  /** A normal directory joined with one entry name is the plain concatenation `dir/name`. */
  lemma JoinNormalDirectoryName(dir: string, name: string)
    requires NormalDirectory(dir)
    requires Segment(name) && name != ".." && '/' !in name
    ensures JoinPath(dir, name) == dir + "/" + name
  {
    NormalDirectorySegments(dir);
    JoinSegment(dir, name);
    RenderSnoc(dir[0] == '/', Segments(Pieces(dir), dir[0] != '/'), name, name);
  }

  /** A trailing separator on a non-empty directory changes nothing when `a/b` is joined onto it. */
  lemma JoinAfterTrailingSeparator(dir: string, a: string, b: string)
    requires dir != ""
    requires Segment(a) && a != ".." && '/' !in a
    requires Segment(b) && b != ".." && '/' !in b
    ensures JoinPath(dir + "/", a + "/" + b) == JoinPath(dir, a + "/" + b)
  {
    var absolute := dir[0] == '/';
    assert dir + "/" == dir + "/" + "";
    PiecesSnoc(dir, "");
    var ps := Pieces(dir) + [""];
    assert ps[..|ps| - 1] == Pieces(dir);
    assert Segments(ps, !absolute) == Segments(Pieces(dir), !absolute);
    assert (dir + "/")[0] == dir[0];
    JoinTwoSegments(dir + "/", a, b);
    JoinTwoSegments(dir, a, b);
  }
}
