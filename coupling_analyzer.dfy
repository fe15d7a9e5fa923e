/**
 * The TypeScript coupling analyzer's scoring and discovery rules (Vlad
 * Khononov's balanced-coupling model): volatility from git change counts,
 * module distance from directory paths, the balance score, the file and
 * import filters, and import path resolution. Scores are idealised as real
 * numbers; the file system and `path.resolve` are parameters, and
 * `path.join` is `NodePath.JoinPath`.
 */
module CouplingAnalyzer {
  import opened Wrappers
  import opened Text
  import opened NodePath

  // ---------------------------------------------------------------------------
  // Volatility
  // ---------------------------------------------------------------------------

  datatype VolatilityLevel = Low | Medium | High | Unknown

  /** Low < Medium < High; Unknown is not ranked. */
  function Rank(level: VolatilityLevel): nat {
    match level
    case Low => 0
    case Medium => 1
    case High => 2
    case Unknown => 0
  }

  /** `getVolatilityLevel`: at most 2 changes is Low, at most 10 Medium, more High. */
  function VolatilityLevelOf(changes: int): (level: VolatilityLevel)
    ensures level != Unknown
    ensures level == Low <==> changes <= 2
    ensures level == High <==> changes > 10
  {
    if changes <= 2 then Low
    else if changes <= 10 then Medium
    else High
  }

  /** More changes never give a lower level. */
  lemma VolatilityLevelMonotone(a: int, b: int)
    requires a <= b
    ensures Rank(VolatilityLevelOf(a)) <= Rank(VolatilityLevelOf(b))
  {
  }

  /** `getVolatilityScore`: Low 0, Medium 0.5, High 1, Unknown 0.25. */
  function VolatilityScore(level: VolatilityLevel): (score: real)
    ensures 0.0 <= score <= 1.0
    ensures level == Unknown ==> score == 0.25
  {
    match level
    case Low => 0.0
    case Medium => 0.5
    case High => 1.0
    case Unknown => 0.25
  }

  /** The score orders the ranked levels strictly, and Unknown sits between Low and Medium. */
  lemma VolatilityScoreOrder(a: VolatilityLevel, b: VolatilityLevel)
    requires a != Unknown && b != Unknown
    ensures Rank(a) < Rank(b) <==> VolatilityScore(a) < VolatilityScore(b)
    ensures VolatilityScore(Low) < VolatilityScore(Unknown) < VolatilityScore(Medium)
  {
  }

  /**
   * The change counts `getGitVolatility` builds: the number of times each
   * non-blank line of the git log output occurs. Blank lines (only JavaScript
   * whitespace, so that `trim()` is empty) are skipped; other lines are counted as they are, untrimmed.
   */
  function Counts(lines: seq<string>): map<string, nat>
    decreases |lines|
  {
    if lines == [] then map[] else CountLine(Counts(lines[..|lines| - 1]), lines[|lines| - 1])
  }

  /** One line's contribution: a non-blank line adds one to its count. */
  function CountLine(m: map<string, nat>, line: string): map<string, nat> {
    if JsNonBlank(line) then m[line := (if line in m then m[line] else 0) + 1] else m
  }

  lemma CountsSnoc(lines: seq<string>, i: nat)
    requires i < |lines|
    ensures Counts(lines[..i + 1]) == CountLine(Counts(lines[..i]), lines[i])
  {
    assert lines[..i + 1][..i] == lines[..i];
  }

  /** `getGitVolatility`'s counting loop. */
  method CountChanges(lines: seq<string>) returns (counts: map<string, nat>)
    ensures counts == Counts(lines)
    ensures forall l :: l in counts <==> l in lines && JsNonBlank(l)
    ensures forall l :: l in counts ==> counts[l] == Occurrences(lines, l)
  {
    counts := map[];
    var i := 0;
    while i < |lines|
      invariant 0 <= i <= |lines|
      invariant counts == Counts(lines[..i])
    {
      var line := lines[i];
      CountsSnoc(lines, i);
      if JsNonBlank(line) {
        var count := if line in counts then counts[line] else 0;
        counts := counts[line := count + 1];
      }
      i := i + 1;
    }
    assert lines[..i] == lines;
    CountsMeaning(lines);
  }

  /** How many times `l` occurs in `lines`. */
  function Occurrences(lines: seq<string>, l: string): (n: nat)
    ensures n <= |lines|
    decreases |lines|
  {
    if lines == [] then 0
    else Occurrences(lines[..|lines| - 1], l) + (if lines[|lines| - 1] == l then 1 else 0)
  }

  /** Exactly the non-blank lines are counted, each with its number of occurrences. */
  lemma {:induction false} CountsMeaning(lines: seq<string>)
    ensures forall l :: l in Counts(lines) <==> l in lines && JsNonBlank(l)
    ensures forall l :: l in Counts(lines) ==> Counts(lines)[l] == Occurrences(lines, l)
    decreases |lines|
  {
    if lines != [] {
      var init := lines[..|lines| - 1];
      var line := lines[|lines| - 1];
      CountsMeaning(init);
      assert lines == init + [line];
      if line !in init {
        OccurrencesAbsent(init, line);
      }
    }
  }

  lemma {:induction false} OccurrencesAbsent(lines: seq<string>, l: string)
    requires l !in lines
    ensures Occurrences(lines, l) == 0
    decreases |lines|
  {
    if lines != [] {
      assert lines[..|lines| - 1] <= lines;
      OccurrencesAbsent(lines[..|lines| - 1], l);
    }
  }

  /** `volatilityMap.get(path) || 0`. */
  function ChangesOf(counts: map<string, nat>, path: string): nat {
    if path in counts then counts[path] else 0
  }

  /** The level of an import target: Unknown when the target has no recorded change. */
  function TargetLevel(changes: nat): (level: VolatilityLevel)
    ensures level == Unknown <==> changes == 0
    ensures changes > 0 ==> level == VolatilityLevelOf(changes)
  {
    if changes > 0 then VolatilityLevelOf(changes) else Unknown
  }

  // ---------------------------------------------------------------------------
  // Strength
  // ---------------------------------------------------------------------------

  /** `STRENGTH_SCORES[type] || 0.75`: an import type not in the table scores as Functional. */
  function StrengthScore(importType: string): (score: real)
    ensures 0.0 < score <= 1.0
    ensures importType !in {"Intrusive", "Functional", "Model", "Contract"} ==> score == 0.75
  {
    if importType == "Intrusive" then 1.0
    else if importType == "Functional" then 0.75
    else if importType == "Model" then 0.5
    else if importType == "Contract" then 0.25
    else 0.75
  }

  // ---------------------------------------------------------------------------
  // Distance
  // ---------------------------------------------------------------------------

  datatype DistanceType = SameModule | SiblingModule | DistantModule | External

  function DistanceScore(t: DistanceType): real {
    match t
    case SameModule => 0.25
    case SiblingModule => 0.5
    case DistantModule => 0.75
    case External => 1.0
  }

  /** `path.dirname` of a normalised relative path: `.` when it has no separator. */
  function Dirname(p: string): (d: string)
    ensures d == "." || d == "/" || (|d| < |p| && StartsWith(p, d + "/"))
  {
    var i := AfterLast(p, '/');
    if i == 0 then "."
    else if i == 1 then "/"
    else
      assert p[..i - 1] + "/" == p[..i];
      p[..i - 1]
  }

  /** The first segment of a directory path, `dir.split("/")[0]`. */
  function FirstSegment(dir: string): string { BeforeFirst(dir, '/') }

  /**
   * `calculateDistance` on the two paths already made relative to the root:
   * the same directory is the same module, directories with the same first
   * segment are siblings, anything else is distant. External is never produced.
   */
  function DistanceOf(sourceRel: string, targetRel: string): (t: DistanceType)
    ensures t != External
    ensures t == SameModule <==> Dirname(sourceRel) == Dirname(targetRel)
    ensures t == SiblingModule <==>
      Dirname(sourceRel) != Dirname(targetRel) && FirstSegment(Dirname(sourceRel)) == FirstSegment(Dirname(targetRel))
  {
    var sourceDir := Dirname(sourceRel);
    var targetDir := Dirname(targetRel);
    if sourceDir == targetDir then SameModule
    else if FirstSegment(sourceDir) == FirstSegment(targetDir) then SiblingModule
    else DistantModule
  }

  /** `calculateDistance`, with `path.relative` a parameter. */
  function CalculateDistance(sourcePath: string, targetPath: string, rootDir: string,
                             relative: (string, string) -> string): (r: (real, DistanceType))
    ensures r.0 == DistanceScore(r.1) && r.1 == DistanceOf(relative(rootDir, sourcePath), relative(rootDir, targetPath))
    ensures r.0 in {0.25, 0.5, 0.75}
  {
    var t := DistanceOf(relative(rootDir, sourcePath), relative(rootDir, targetPath));
    (DistanceScore(t), t)
  }

  /** Distance is symmetric: swapping source and target gives the same module distance. */
  lemma DistanceSymmetric(a: string, b: string)
    ensures DistanceOf(a, b) == DistanceOf(b, a)
  {
  }

  /** Two files at the root and a file in a subdirectory are distant: `.` is its own first segment. */
  lemma RootFileIsDistant(rootFile: string, nested: string)
    requires '/' !in rootFile
    requires var d := Dirname(nested); d != "." && FirstSegment(d) != "."
    ensures DistanceOf(rootFile, nested) == DistantModule
  {
    assert AfterLast(rootFile, '/') == 0;
  }

  // ---------------------------------------------------------------------------
  // Balance
  // ---------------------------------------------------------------------------

  function AbsReal(x: real): real { if x < 0.0 then -x else x }

  function MinReal(a: real, b: real): real { if a <= b then a else b }

  /**
   * `calculateBalanceScore`: `min(1, 0.6·strength·volatility +
   * 0.4·|strength − (1 − distance)|)`. Never above 1, and never negative for
   * non-negative strength and volatility.
   */
  function BalanceScore(strength: real, distance: real, volatility: real): (r: real)
    ensures r <= 1.0
    ensures strength >= 0.0 && volatility >= 0.0 ==> r >= 0.0
  {
    var volatilityRisk := strength * volatility * 0.6;
    var distanceMismatch := AbsReal(strength - (1.0 - distance)) * 0.4;
    assert strength >= 0.0 && volatility >= 0.0 ==> volatilityRisk >= 0.0;
    MinReal(1.0, volatilityRisk + distanceMismatch)
  }

  /** A perfectly balanced low-volatility coupling scores 0: strength equal to 1 − distance. */
  lemma BalancedScoresZero(strength: real, distance: real)
    requires strength == 1.0 - distance
    ensures BalanceScore(strength, distance, 0.0) == 0.0
  {
  }

  /** One coupling's scores, as `analyze` records them for an import. */
  datatype Coupling = Coupling(strength: real, distance: real, distanceType: DistanceType,
                               volatility: real, volatilityLevel: VolatilityLevel, balanceScore: real)

  /** The coupling of one import: every score lies in [0, 1]. */
  function CouplingOf(importType: string, sourceRel: string, targetRel: string, targetChanges: nat): (c: Coupling)
    ensures 0.0 < c.strength <= 1.0 && 0.0 <= c.distance <= 1.0 && 0.0 <= c.volatility <= 1.0
    ensures 0.0 <= c.balanceScore <= 1.0
    ensures c.volatilityLevel == Unknown <==> targetChanges == 0
  {
    var strength := StrengthScore(importType);
    var t := DistanceOf(sourceRel, targetRel);
    var level := TargetLevel(targetChanges);
    var volatility := VolatilityScore(level);
    Coupling(strength, DistanceScore(t), t, volatility, level, BalanceScore(strength, DistanceScore(t), volatility))
  }

  // ---------------------------------------------------------------------------
  // File discovery
  // ---------------------------------------------------------------------------

  const ExcludeDirs: seq<string> := ["node_modules", ".git", "dist", "build", ".next", ".expo"]
  const ExcludePatterns: seq<string> := [".d.ts", ".stories.", ".test.", ".spec."]
  const Extensions: seq<string> := [".ts", ".tsx", ".js", ".jsx"]

  /** Index of the last `.` in `s`, if any. */
  function LastDot(s: string): (r: Option<nat>)
    ensures r.Some? ==> r.value < |s| && s[r.value] == '.' && '.' !in s[r.value + 1..]
    ensures r.None? ==> '.' !in s
  {
    var i := AfterLast(s, '.');
    if i == 0 then None else Some(i - 1)
  }

  /**
   * `path.extname` of an entry name (no separator): from the last `.` on,
   * except that a name whose only dot is its first character, or the name
   * `..`, has none.
   */
  function Extname(name: string): (ext: string)
    ensures ext == "" || (StartsWith(ext, ".") && EndsWith(name, ext) && '.' !in ext[1..])
  {
    match LastDot(name)
    case None => ""
    case Some(i) =>
      if i == 0 || name == ".." then ""
      else
        assert name[i..][1..] == name[i + 1..];
        name[i..]
  }

  /** A file the walk collects: a TypeScript or JavaScript extension, and none of the excluded patterns in its name. */
  predicate Wanted(name: string) {
    Extname(name) in Extensions && forall j :: 0 <= j < |ExcludePatterns| ==> !Contains(name, ExcludePatterns[j])
  }

  lemma {:induction false} ContainsSuffix(s: string, t: string)
    ensures Contains(s + t, t)
    decreases |s|
  {
    if s == [] {
      assert (s + t)[..|t|] == t;
    } else {
      ContainsSuffix(s[1..], t);
      assert (s + t)[1..] == s[1..] + t;
    }
  }

  /** A declaration file has extension `.ts` but is never collected. */
  lemma DeclarationFilesSkipped(stem: string)
    requires stem != [] && '.' !in stem
    ensures Extname(stem + ".d.ts") == ".ts"
    ensures !Wanted(stem + ".d.ts")
  {
    var name := stem + ".d.ts";
    assert name[|stem| + 2] == '.' && name[|stem| + 3..] == "ts";
    assert AfterLast(name, '.') == |stem| + 3 by {
      assert name[|name| - 1] == 's' && name[|name| - 2] == 't' && name[|name| - 3] == '.';
      assert name[..|name| - 1][..|name| - 2] == name[..|name| - 2];
    }
    assert name[|stem| + 2..] == ".ts";
    ContainsSuffix(stem, ".d.ts");
    assert ExcludePatterns[0] == ".d.ts";
  }

  /** The name of a directory entry: never empty, `.` or `..`, never holding a separator. */
  type EntryName = s: string | Segment(s) && s != ".." && '/' !in s witness "a"

  /** A directory entry as `readdirSync(..., {withFileTypes: true})` reports it. */
  datatype Node =
    | DirNode(name: EntryName, children: seq<Node>)
    | FileNode(name: EntryName)
    | OtherNode(name: EntryName)

  /**
   * The paths the walk collects under `dir`, in visiting order; `join` is
   * `path.join`, which `FindTypeScriptFiles` supplies as `NodePath.JoinPath`.
   */
  function Collected(join: (string, string) -> string, dir: string, entries: seq<Node>): seq<string>
    decreases entries, 1
  {
    if entries == [] then [] else CollectedOne(join, dir, entries[0]) + Collected(join, dir, entries[1..])
  }

  function CollectedOne(join: (string, string) -> string, dir: string, e: Node): seq<string>
    decreases e, 0
  {
    match e
    case DirNode(n, children) => if n in ExcludeDirs then [] else Collected(join, join(dir, n), children)
    case FileNode(n) => if Wanted(n) then [join(dir, n)] else []
    case OtherNode(_) => []
  }

  /** The directory reached from `dir` by entering the directories named `ds` in turn. */
  function Descend(join: (string, string) -> string, dir: string, ds: seq<string>): string
    decreases |ds|
  {
    if ds == [] then dir else Descend(join, join(dir, ds[0]), ds[1..])
  }

  /** Names of directories the walk enters: entry names that are not excluded. */
  predicate KeptDirs(ds: seq<string>) {
    forall k :: 0 <= k < |ds| ==> ds[k] != "" && '/' !in ds[k] && ds[k] !in ExcludeDirs
  }

  /** `p` is a wanted file's entry name joined to `dir` through kept directories only. */
  ghost predicate WantedBelow(join: (string, string) -> string, dir: string, p: string) {
    exists ds: seq<string>, n: string ::
      KeptDirs(ds) && n != "" && '/' !in n && Wanted(n) && p == join(Descend(join, dir, ds), n)
  }

  /**
   * Every collected path is a wanted file's own name joined to the starting
   * directory through directories that are not excluded.
   */
  lemma {:induction false} CollectedAreWanted(join: (string, string) -> string, dir: string, entries: seq<Node>)
    ensures forall p :: p in Collected(join, dir, entries) ==> WantedBelow(join, dir, p)
    decreases entries, 1
  {
    if entries != [] {
      CollectedOneAreWanted(join, dir, entries[0]);
      CollectedAreWanted(join, dir, entries[1..]);
    }
  }

  lemma {:induction false} CollectedOneAreWanted(join: (string, string) -> string, dir: string, e: Node)
    ensures forall p :: p in CollectedOne(join, dir, e) ==> WantedBelow(join, dir, p)
    decreases e, 0
  {
    match e
    case DirNode(n, children) =>
      if n !in ExcludeDirs {
        var sub := join(dir, n);
        CollectedAreWanted(join, sub, children);
        forall p | p in CollectedOne(join, dir, e) ensures WantedBelow(join, dir, p) {
          var ds: seq<string>, m: string :| KeptDirs(ds) && m != "" && '/' !in m && Wanted(m) && p == join(Descend(join, sub, ds), m);
          assert ([n] + ds)[1..] == ds;
          assert KeptDirs([n] + ds);
          assert p == join(Descend(join, dir, [n] + ds), m);
        }
      }
    case FileNode(n) =>
      if Wanted(n) {
        assert KeptDirs([]);
        assert join(dir, n) == join(Descend(join, dir, []), n);
      }
    case OtherNode(_) =>
  }

  /** A file is collected exactly when its name is wanted; an excluded directory contributes nothing. */
  lemma EntryRule(join: (string, string) -> string, dir: string, e: Node)
    ensures e.FileNode? ==> (CollectedOne(join, dir, e) != [] <==> Wanted(e.name))
    ensures e.DirNode? && e.name in ExcludeDirs ==> CollectedOne(join, dir, e) == []
    ensures e.OtherNode? ==> CollectedOne(join, dir, e) == []
  {
  }

  /** `walk`: appends what `entries` (the listing of `currentDir`) contributes to `files`, recursing into kept directories. */
  method Walk(join: (string, string) -> string, currentDir: string, entries: seq<Node>, files: seq<string>) returns (out: seq<string>)
    ensures out == files + Collected(join, currentDir, entries)
    decreases entries, 1
  {
    out := files;
    var i := 0;
    while i < |entries|
      invariant 0 <= i <= |entries|
      invariant out == files + Collected(join, currentDir, entries[..i])
      decreases |entries| - i
    {
      CollectedSnoc(join, currentDir, entries, i);
      out := WalkEntry(join, currentDir, entries[i], out);
      assert out == (files + Collected(join, currentDir, entries[..i])) + CollectedOne(join, currentDir, entries[i]);
      i := i + 1;
    }
    assert entries[..i] == entries;
  }

  /** One entry of a listing: a kept directory is walked, a wanted file is appended, anything else is skipped. */
  method WalkEntry(join: (string, string) -> string, currentDir: string, entry: Node, files: seq<string>) returns (out: seq<string>)
    ensures out == files + CollectedOne(join, currentDir, entry)
    decreases entry, 0
  {
    var fullPath := join(currentDir, entry.name);
    out := files;
    match entry {
      case DirNode(n, children) =>
        if n !in ExcludeDirs {
          out := Walk(join, fullPath, children, out);
        }
      case FileNode(n) =>
        if Extname(n) in Extensions {
          if forall j | 0 <= j < |ExcludePatterns| :: !Contains(n, ExcludePatterns[j]) {
            out := out + [fullPath];
          }
        }
      case OtherNode(_) =>
    }
  }

  lemma {:induction false} CollectedSnoc(join: (string, string) -> string, dir: string, entries: seq<Node>, i: nat)
    requires i < |entries|
    ensures Collected(join, dir, entries[..i + 1]) == Collected(join, dir, entries[..i]) + CollectedOne(join, dir, entries[i])
    decreases i
  {
    if i == 0 {
      assert entries[..1] == [entries[0]];
    } else {
      assert entries[..i + 1][1..] == entries[1..][..i];
      assert entries[..i][1..] == entries[1..][..i - 1];
      CollectedSnoc(join, dir, entries[1..], i - 1);
    }
  }

  /** `findTypeScriptFiles`: the collected paths of the tree under `dir`, listed as `tree`. */
  method FindTypeScriptFiles(dir: string, tree: seq<Node>) returns (files: seq<string>)
    ensures files == Collected(JoinPath, dir, tree)
    ensures forall p :: p in files ==> WantedBelow(JoinPath, dir, p)
  {
    files := Walk(JoinPath, dir, tree, []);
    CollectedAreWanted(JoinPath, dir, tree);
  }

  /** A start directory written with a trailing `/` yields `src/a.ts`, not `src//a.ts`: `path.join` normalises. */
  lemma TrailingSeparatorNotDoubled(d: string, n: EntryName)
    requires Segment(d) && d != ".." && '/' !in d && Wanted(n)
    ensures Collected(JoinPath, d + "/", [FileNode(n)]) == [d + "/" + n]
  {
    JoinTrailingSeparator(d, n);
    assert [FileNode(n)][1..] == [];
  }

  // ---------------------------------------------------------------------------
  // Imports
  // ---------------------------------------------------------------------------

  /** Only relative imports and the `@/` and `~/` root aliases are analysed; packages are skipped. */
  predicate IsLocalImport(source: string) {
    StartsWith(source, ".") || StartsWith(source, "@/") || StartsWith(source, "~/")
  }

  /** The import sources `extractImports` keeps, in order, out of those its pattern matched. */
  function KeptImports(sources: seq<string>): (kept: seq<string>)
    ensures forall s :: s in kept <==> s in sources && IsLocalImport(s)
    ensures |kept| <= |sources|
    decreases |sources|
  {
    if sources == [] then []
    else (if IsLocalImport(sources[0]) then [sources[0]] else []) + KeptImports(sources[1..])
  }

  /**
   * Keeping distributes over concatenation, so the kept sources of a longer
   * list are those of its parts, in the same order.
   */
  lemma {:induction false} KeptImportsAppend(a: seq<string>, b: seq<string>)
    ensures KeptImports(a + b) == KeptImports(a) + KeptImports(b)
    decreases |a|
  {
    if a == [] {
      assert a + b == b;
    } else {
      assert (a + b)[0] == a[0] && (a + b)[1..] == a[1..] + b;
      KeptImportsAppend(a[1..], b);
    }
  }

  /** One source alone is kept exactly when it is local. */
  lemma KeptImportsOne(source: string)
    ensures KeptImports([source]) == if IsLocalImport(source) then [source] else []
  {
    assert [source][1..] == [];
  }

  const IndexFiles: seq<string> := ["index.ts", "index.tsx", "index.js", "index.jsx"]

  /** The candidates `resolveImportPath` tries: the base, the base with each extension, then each index file inside it. */
  function Candidates(basePath: string): (c: seq<string>)
    ensures |c| == 9 && c[0] == basePath
    ensures forall k :: 0 <= k < 4 ==> c[1 + k] == basePath + Extensions[k] && c[5 + k] == JoinPath(basePath, IndexFiles[k])
  {
    var withExt := seq(4, k requires 0 <= k < 4 => basePath + Extensions[k]);
    var inDir := seq(4, k requires 0 <= k < 4 => JoinPath(basePath, IndexFiles[k]));
    [basePath] + withExt + inDir
  }

  /** The base path: root aliases are rebased on the root directory, anything else resolved against the importing file's directory. */
  function BasePath(fromPath: string, importSource: string, rootDir: string, resolve: (string, string) -> string): string {
    if StartsWith(importSource, "@/") || StartsWith(importSource, "~/") then JoinPath(rootDir, importSource[2..])
    else resolve(Dirname(fromPath), importSource)
  }

  /** The first of `candidates` that exists, if any. */
  function FirstExisting(candidates: seq<string>, exists_: string -> bool): (r: Option<nat>)
    ensures r.Some? ==> r.value < |candidates| && exists_(candidates[r.value])
                        && forall k :: 0 <= k < r.value ==> !exists_(candidates[k])
    ensures r.None? ==> forall k :: 0 <= k < |candidates| ==> !exists_(candidates[k])
    decreases |candidates|
  {
    if candidates == [] then None
    else if exists_(candidates[0]) then Some(0)
    else
      match FirstExisting(candidates[1..], exists_)
      case None => None
      case Some(k) => Some(k + 1)
  }

  /** `resolveImportPath`: the first existing candidate, or the base path when none exists. */
  method ResolveImportPath(fromPath: string, importSource: string, rootDir: string,
                           resolve: (string, string) -> string, exists_: string -> bool) returns (r: string)
    ensures var base := BasePath(fromPath, importSource, rootDir, resolve);
      match FirstExisting(Candidates(base), exists_)
      case Some(k) => r == Candidates(base)[k]
      case None => r == base
  {
    var basePath := BasePath(fromPath, importSource, rootDir, resolve);
    r := FirstCandidate(Candidates(basePath), basePath, exists_);
  }

  /** The loop over the candidates: the first that exists, or `fallback`. */
  method FirstCandidate(candidates: seq<string>, fallback: string, exists_: string -> bool) returns (r: string)
    ensures match FirstExisting(candidates, exists_)
      case Some(k) => r == candidates[k]
      case None => r == fallback
  {
    var i := 0;
    while i < |candidates|
      invariant 0 <= i <= |candidates|
      invariant forall k :: 0 <= k < i ==> !exists_(candidates[k])
    {
      if exists_(candidates[i]) {
        return candidates[i];
      }
      i := i + 1;
    }
    return fallback;
  }
}
