/**
 * The `.env` loading shared by the Gemini skill scripts: candidate files
 * are read in a fixed order, each line is stripped and split at its first
 * `=`, and every pair goes through `os.environ.setdefault`, so variables
 * already set and pairs seen earlier win.
 */
module DotEnv {
  import opened Wrappers
  import opened Text

  /** A `NAME=value` pair read from a `.env` line. */
  datatype Entry = Entry(key: string, value: string)

  /**
   * One line: `None` for a blank line, a `#` comment or a line without
   * `=`; otherwise the stripped text before the first `=` and the stripped
   * text after it.
   */
  function ParseLine(rawLine: string): (r: Option<Entry>)
    ensures r.Some? <==> var line := PyStrip(rawLine); line != "" && line[0] != '#' && '=' in line
  {
    SplitLine(rawLine, IsPySpace)
  }

  /** `ParseLine` with the stripped whitespace class `p` as a parameter. */
  function SplitLine(rawLine: string, p: char -> bool): (r: Option<Entry>)
    ensures r.Some? <==> var line := Trim(rawLine, p); line != "" && line[0] != '#' && '=' in line
  {
    var line := Trim(rawLine, p);
    if line == "" || line[0] == '#' || '=' !in line then None
    else
      Some(Entry(Trim(BeforeFirst(line, '='), p), Trim(AfterFirst(line, '='), p)))
  }

  /** The part of `s` after its first `c` (the second half of `s.split(c, 1)`). */
  function AfterFirst(s: string, c: char): string
    decreases |s|
  {
    if s == [] then "" else if s[0] == c then s[1..] else AfterFirst(s[1..], c)
  }

  /** The part after the first `c` of `a + [c] + b` is `b` when `c` does not occur in `a`. */
  lemma {:induction false} AfterFirstConcat(a: string, b: string, c: char)
    requires c !in a
    ensures AfterFirst(a + [c] + b, c) == b
    decreases |a|
  {
    if a == [] {
      assert (a + [c] + b)[1..] == b;
    } else {
      assert (a + [c] + b)[1..] == a[1..] + [c] + b;
      AfterFirstConcat(a[1..], b, c);
    }
  }

  /** Stripping only removes characters. */
  lemma TrimNoNewChars(s: string, p: char -> bool, c: char)
    requires c !in s
    ensures c !in Trim(s, p)
  {
    TrimIsSlice(s, p);
    var a, b :| 0 <= a <= b <= |s| && Trim(s, p) == s[a..b];
    forall i | 0 <= i < b - a ensures s[a..b][i] != c {
      assert s[a..b][i] == s[a + i];
    }
  }

  /** `s` neither starts nor ends with a character of the class `p`. */
  predicate Unpadded(s: string, p: char -> bool) {
    s == [] || (!p(s[0]) && !p(s[|s| - 1]))
  }

  /** A key read from a line holds no `=`, and neither key nor value starts or ends with whitespace. */
  lemma ParsedEntryShape(rawLine: string)
    requires ParseLine(rawLine).Some?
    ensures var e := ParseLine(rawLine).value;
      '=' !in e.key && Unpadded(e.key, IsPySpace) && Unpadded(e.value, IsPySpace)
  {
    SplitEntryShape(rawLine, IsPySpace);
  }

  lemma SplitEntryShape(rawLine: string, p: char -> bool)
    requires SplitLine(rawLine, p).Some?
    ensures var e := SplitLine(rawLine, p).value;
      '=' !in e.key && Unpadded(e.key, p) && Unpadded(e.value, p)
  {
    var line := Trim(rawLine, p);
    var before := BeforeFirst(line, '=');
    var after := AfterFirst(line, '=');
    TrimNoNewChars(before, p, '=');
    TrimEnds(before, p);
    TrimEnds(after, p);
  }

  /** Joining two unpadded strings with a character outside the class gives an unpadded string. */
  lemma JoinedUnpadded(key: string, value: string, p: char -> bool)
    requires !p('=') && Unpadded(key, p) && Unpadded(value, p)
    ensures Unpadded(key + "=" + value, p)
  {
    var line := key + "=" + value;
    if key != "" {
      assert line[0] == key[0];
    }
    if value != "" {
      assert line[|line| - 1] == value[|value| - 1];
    }
  }

  /** An unpadded key without `=` and an unpadded value are read back from `key=value`. */
  lemma ParseLineRoundTrip(key: string, value: string)
    requires '=' !in key && (key == "" || key[0] != '#')
    requires Unpadded(key, IsPySpace) && Unpadded(value, IsPySpace)
    ensures ParseLine(key + "=" + value) == Some(Entry(key, value))
  {
    SplitLineRoundTrip(key, value, IsPySpace);
  }

  lemma SplitLineRoundTrip(key: string, value: string, p: char -> bool)
    requires !p('=')
    requires '=' !in key && (key == "" || key[0] != '#')
    requires Unpadded(key, p) && Unpadded(value, p)
    ensures SplitLine(key + "=" + value, p) == Some(Entry(key, value))
  {
    var line := key + "=" + value;
    assert line != "" && line[0] != '#' && '=' in line by {
      assert line[|key|] == '=';
    }
    assert Trim(line, p) == line by {
      JoinedUnpadded(key, value, p);
      TrimFixed(line, p);
    }
    assert BeforeFirst(line, '=') == key && AfterFirst(line, '=') == value by {
      assert line == key + ['='] + value;
      BeforeFirstConcat(key, value, '=');
      AfterFirstConcat(key, value, '=');
    }
    assert Trim(key, p) == key && Trim(value, p) == value by {
      TrimFixed(key, p);
      TrimFixed(value, p);
    }
  }

  /** The pairs a file contributes, in line order, each line read by `read`. */
  function FileEntries(lines: seq<string>, read: string -> Option<Entry>): seq<Entry>
    decreases |lines|
  {
    if lines == [] then []
    else FileEntries(lines[..|lines| - 1], read) + Found(read(lines[|lines| - 1]))
  }

  function Found(e: Option<Entry>): (r: seq<Entry>)
    ensures |r| <= 1
  {
    if e.Some? then [e.value] else []
  }

  /**
   * How a line is read: `ParseLine`, and with `nonEmptyOnly` the extra
   * check that both the key and the value are non-empty.
   */
  function ReadLine(rawLine: string, nonEmptyOnly: bool): (r: Option<Entry>)
    ensures nonEmptyOnly && r.Some? ==> r.value.key != "" && r.value.value != ""
  {
    match ParseLine(rawLine)
    case None => None
    case Some(e) => if nonEmptyOnly && (e.key == "" || e.value == "") then None else Some(e)
  }

  function Reader(nonEmptyOnly: bool): string -> Option<Entry> {
    line => ReadLine(line, nonEmptyOnly)
  }

  /** The pairs of all candidate files in order; `None` is a candidate that does not exist. */
  function Entries(files: seq<Option<seq<string>>>, read: string -> Option<Entry>): seq<Entry>
    decreases |files|
  {
    if files == [] then []
    else Entries(files[..|files| - 1], read) + CandidateEntries(files[|files| - 1], read)
  }

  /** The pairs of one candidate file; a missing file contributes none. */
  function CandidateEntries(file: Option<seq<string>>, read: string -> Option<Entry>): seq<Entry> {
    if file.Some? then FileEntries(file.value, read) else []
  }

  /** The environment after `setdefault` of each pair in order. */
  function SetDefaults(vars: map<string, string>, entries: seq<Entry>): map<string, string>
    decreases |entries|
  {
    if entries == [] then vars
    else
      var before := SetDefaults(vars, entries[..|entries| - 1]);
      var e := entries[|entries| - 1];
      WithDefault(before, e.key, e.value)
  }

  /** Some pair has an empty key: `os.environ` refuses to set it and raises (on POSIX the underlying `setenv` fails with an `OSError`). */
  predicate HasEmptyKey(entries: seq<Entry>) {
    exists i :: 0 <= i < |entries| && entries[i].key == ""
  }

  /** Every pair read from a line of a file is among the file's pairs. */
  lemma {:induction false} FoundInFile(lines: seq<string>, j: nat, read: string -> Option<Entry>)
    requires j < |lines| && read(lines[j]).Some?
    ensures read(lines[j]).value in FileEntries(lines, read)
    decreases |lines|
  {
    var init := lines[..|lines| - 1];
    if j < |lines| - 1 {
      assert init[j] == lines[j];
      FoundInFile(init, j, read);
    }
  }

  /** A line whose pair has an empty key gives the file an empty key. */
  lemma EmptyKeyInFile(lines: seq<string>, j: nat, read: string -> Option<Entry>)
    requires j < |lines| && read(lines[j]).Some? && read(lines[j]).value.key == ""
    ensures HasEmptyKey(FileEntries(lines, read))
  {
    FoundInFile(lines, j, read);
    var all := FileEntries(lines, read);
    var i :| 0 <= i < |all| && all[i] == read(lines[j]).value;
  }

  /** Two lists of pairs together have an empty key exactly when one of them has. */
  lemma HasEmptyKeyConcat(a: seq<Entry>, b: seq<Entry>)
    ensures HasEmptyKey(a + b) <==> HasEmptyKey(a) || HasEmptyKey(b)
  {
    if HasEmptyKey(a) {
      var i :| 0 <= i < |a| && a[i].key == "";
      assert (a + b)[i] == a[i];
    }
    if HasEmptyKey(b) {
      var i :| 0 <= i < |b| && b[i].key == "";
      assert (a + b)[|a| + i] == b[i];
    }
    if HasEmptyKey(a + b) {
      var i :| 0 <= i < |a + b| && (a + b)[i].key == "";
      if i >= |a| {
        assert b[i - |a|] == (a + b)[i];
      }
    }
  }

  /** The environment after one `setdefault(key, value)`: a variable that is already set is left alone. */
  function WithDefault(vars: map<string, string>, key: string, value: string): map<string, string> {
    if key in vars then vars else vars[key := value]
  }

  /** The value of the first pair for `key`. */
  function FirstValue(entries: seq<Entry>, key: string): (r: Option<string>)
    ensures r.Some? <==> exists i :: 0 <= i < |entries| && entries[i].key == key
    decreases |entries|
  {
    if entries == [] then None
    else if entries[0].key == key then Some(entries[0].value)
    else
      var r := FirstValue(entries[1..], key);
      assert forall i :: 1 <= i < |entries| ==> entries[i] == entries[1..][i - 1];
      r
  }

  /** A pair appended after the others only decides a key no earlier pair has. */
  lemma {:induction false} FirstValueSnoc(entries: seq<Entry>, e: Entry, key: string)
    ensures FirstValue(entries + [e], key) ==
      if FirstValue(entries, key).Some? then FirstValue(entries, key)
      else if e.key == key then Some(e.value) else None
    decreases |entries|
  {
    if entries != [] {
      assert (entries + [e])[1..] == entries[1..] + [e];
      FirstValueSnoc(entries[1..], e, key);
    }
  }

  /**
   * `setdefault` never overwrites: a variable that was set keeps its value,
   * and an unset one takes the value of the first pair for it.
   */
  lemma {:induction false} SetDefaultsLookup(vars: map<string, string>, entries: seq<Entry>, key: string)
    ensures key in SetDefaults(vars, entries) <==> key in vars || FirstValue(entries, key).Some?
    ensures key in vars ==> SetDefaults(vars, entries)[key] == vars[key]
    ensures key !in vars && FirstValue(entries, key).Some? ==>
      SetDefaults(vars, entries)[key] == FirstValue(entries, key).value
    decreases |entries|
  {
    if entries != [] {
      var init := entries[..|entries| - 1];
      var e := entries[|entries| - 1];
      SetDefaultsLookup(vars, init, key);
      assert init + [e] == entries;
      FirstValueSnoc(init, e, key);
    }
  }

  /** The first pair of a concatenation for a key comes from the first part when it has one. */
  lemma {:induction false} FirstValueConcat(a: seq<Entry>, b: seq<Entry>, key: string)
    ensures FirstValue(a + b, key) == if FirstValue(a, key).Some? then FirstValue(a, key) else FirstValue(b, key)
    decreases |a|
  {
    if a != [] {
      assert (a + b)[1..] == a[1..] + b;
      FirstValueConcat(a[1..], b, key);
    } else {
      assert a + b == b;
    }
  }

  /** The pairs of a list of files are those of its first files followed by those of the rest. */
  lemma {:induction false} EntriesConcat(f: seq<Option<seq<string>>>, g: seq<Option<seq<string>>>, read: string -> Option<Entry>)
    ensures Entries(f + g, read) == Entries(f, read) + Entries(g, read)
    decreases |g|
  {
    if g == [] {
      assert f + g == f;
      AppendEmpty(Entries(f, read));
    } else {
      var init := g[..|g| - 1];
      var last := g[|g| - 1];
      assert g == init + [last];
      assert f + g == (f + init) + [last];
      EntriesSnoc(f + init, last, read);
      EntriesSnoc(init, last, read);
      EntriesConcat(f, init, read);
      AppendAssoc(Entries(f, read), Entries(init, read), CandidateEntries(last, read));
    }
  }

  /** One more candidate file appends its pairs. */
  lemma EntriesSnoc(files: seq<Option<seq<string>>>, file: Option<seq<string>>, read: string -> Option<Entry>)
    ensures Entries(files + [file], read) == Entries(files, read) + CandidateEntries(file, read)
  {
    assert (files + [file])[..|files|] == files;
  }

  /** Candidates are consulted in order: the earliest file that defines a key supplies its value. */
  lemma EarliestFileWins(files: seq<Option<seq<string>>>, read: string -> Option<Entry>, i: nat, key: string)
    requires i < |files| && files[i].Some?
    requires FirstValue(FileEntries(files[i].value, read), key).Some?
    requires forall j :: 0 <= j < i ==> files[j].None? || FirstValue(FileEntries(files[j].value, read), key).None?
    ensures FirstValue(Entries(files, read), key) == FirstValue(FileEntries(files[i].value, read), key)
  {
    var pre, post := files[..i], files[i + 1..];
    var a := Entries(pre, read);
    var b := FileEntries(files[i].value, read);
    var c := Entries(post, read);
    assert FirstValue(a, key).None? by {
      forall j | 0 <= j < |pre|
        ensures pre[j].None? || FirstValue(FileEntries(pre[j].value, read), key).None?
      {
        assert pre[j] == files[j];
      }
      EarlierFilesSilent(pre, read, key);
    }
    assert Entries(files, read) == (a + b) + c by {
      var upTo := files[..i + 1];
      assert upTo == pre + [files[i]];
      assert files == upTo + post;
      EntriesConcat(upTo, post, read);
      EntriesSnoc(pre, files[i], read);
    }
    assert FirstValue((a + b) + c, key) == FirstValue(b, key) by {
      FirstValueConcat(a + b, c, key);
      FirstValueConcat(a, b, key);
    }
  }

  /** Files that do not define a key contribute no pair for it. */
  lemma {:induction false} EarlierFilesSilent(files: seq<Option<seq<string>>>, read: string -> Option<Entry>, key: string)
    requires forall j :: 0 <= j < |files| ==> files[j].None? || FirstValue(FileEntries(files[j].value, read), key).None?
    ensures FirstValue(Entries(files, read), key).None?
    decreases |files|
  {
    if files != [] {
      var init := files[..|files| - 1];
      var last := files[|files| - 1];
      EarlierFilesSilent(init, read, key);
      FirstValueConcat(Entries(init, read), CandidateEntries(last, read), key);
    }
  }

  /** The pairs of the first `j + 1` lines extend those of the first `j`. */
  lemma FileEntriesPrefix(lines: seq<string>, j: nat, read: string -> Option<Entry>)
    requires j <= |lines|
    ensures j == 0 ==> FileEntries(lines[..j], read) == []
    ensures 0 < j ==> FileEntries(lines[..j], read) == FileEntries(lines[..j - 1], read) + Found(read(lines[j - 1]))
  {
    if 0 < j {
      assert lines[..j][..j - 1] == lines[..j - 1];
    }
  }

  /** The pairs of the first `i + 1` candidates extend those of the first `i`. */
  lemma EntriesPrefix(files: seq<Option<seq<string>>>, i: nat, read: string -> Option<Entry>)
    requires i <= |files|
    ensures i == 0 ==> Entries(files[..i], read) == []
    ensures 0 < i ==> Entries(files[..i], read) == Entries(files[..i - 1], read) + CandidateEntries(files[i - 1], read)
  {
    if 0 < i {
      assert files[..i][..i - 1] == files[..i - 1];
    }
  }

  /** One more pair: `setdefault` of that pair on the environment built so far. */
  lemma SetDefaultsSnoc(vars: map<string, string>, entries: seq<Entry>, e: Entry)
    ensures SetDefaults(vars, entries + [e]) == WithDefault(SetDefaults(vars, entries), e.key, e.value)
  {
    assert (entries + [e])[..|entries|] == entries;
  }

  /** One more line of a file: its pair, if any, is set as a default. */
  lemma LineStep(initial: map<string, string>, lines: seq<string>, j: nat, read: string -> Option<Entry>, vars: map<string, string>)
    requires j < |lines|
    requires vars == SetDefaults(initial, FileEntries(lines[..j], read))
    ensures var parsed := read(lines[j]);
      SetDefaults(initial, FileEntries(lines[..j + 1], read)) ==
        if parsed.None? then vars else WithDefault(vars, parsed.value.key, parsed.value.value)
  {
    var before := FileEntries(lines[..j], read);
    var parsed := read(lines[j]);
    FileEntriesPrefix(lines, j + 1, read);
    assert lines[..j + 1][..j] == lines[..j];
    if parsed.Some? {
      SetDefaultsSnoc(initial, before, parsed.value);
    } else {
      AppendEmpty(before);
    }
  }

  /** One more candidate file: the defaults of its pairs are set on top of the earlier files'. */
  lemma LoadStep(initial: map<string, string>, files: seq<Option<seq<string>>>, i: nat, read: string -> Option<Entry>,
                 before: map<string, string>)
    requires i < |files|
    requires before == SetDefaults(initial, Entries(files[..i], read))
    ensures SetDefaults(initial, Entries(files[..i + 1], read)) == SetDefaults(before, CandidateEntries(files[i], read))
  {
    EntriesPrefix(files, i + 1, read);
    SetDefaultsConcat(initial, Entries(files[..i], read), CandidateEntries(files[i], read));
  }

  /** Setting the defaults of two lists is setting those of the first, then those of the second. */
  lemma {:induction false} SetDefaultsConcat(vars: map<string, string>, a: seq<Entry>, b: seq<Entry>)
    ensures SetDefaults(vars, a + b) == SetDefaults(SetDefaults(vars, a), b)
    decreases |b|
  {
    if b == [] {
      AppendEmpty(a);
    } else {
      var init, last := b[..|b| - 1], b[|b| - 1];
      SetDefaultsConcat(vars, a, init);
      assert b == init + [last];
      AppendAssoc(a, init, [last]);
      SetDefaultsSnoc(vars, a + init, last);
      SetDefaultsSnoc(SetDefaults(vars, a), init, last);
    }
  }

  lemma AppendEmpty(a: seq<Entry>)
    ensures a + [] == a
  {
  }

  lemma AppendAssoc(a: seq<Entry>, b: seq<Entry>, c: seq<Entry>)
    ensures (a + b) + c == a + (b + c)
  {
  }

  /** `os.environ`: the process environment the scripts read and extend. */
  class Environ {
    var vars: map<string, string>

    constructor(initial: map<string, string>)
      ensures vars == initial
    {
      vars := initial;
    }

    /** `os.environ.setdefault(key, value)`. */
    method SetDefault(key: string, value: string)
      modifies this
      ensures vars == WithDefault(old(vars), key, value)
      ensures key in old(vars) ==> vars == old(vars)
    {
      if key !in vars {
        vars := vars[key := value];
      }
    }

    /**
     * The loading loop over the candidate files (`None` where the file does
     * not exist) and their lines; `nonEmptyOnly` adds the check that both
     * the key and the value are non-empty.
     */
    method Load(files: seq<Option<seq<string>>>, read: string -> Option<Entry>)
      modifies this
      ensures vars == SetDefaults(old(vars), Entries(files, read))
    {
      ghost var initial := vars;
      var i := 0;
      EntriesPrefix(files, 0, read);
      while i < |files|
        invariant 0 <= i <= |files|
        invariant vars == SetDefaults(initial, Entries(files[..i], read))
      {
        LoadStep(initial, files, i, read, vars);
        LoadCandidate(files[i], read);
        i := i + 1;
      }
      assert files[..i] == files;
    }

    /** One candidate file: its pairs set as defaults when it exists. */
    method LoadCandidate(file: Option<seq<string>>, read: string -> Option<Entry>)
      modifies this
      ensures vars == SetDefaults(old(vars), CandidateEntries(file, read))
    {
      if file.Some? {
        LoadFile(file.value, read);
      }
    }

    /** The lines of one existing file, each pair read from a line set as a default. */
    method LoadFile(lines: seq<string>, read: string -> Option<Entry>)
      modifies this
      ensures vars == SetDefaults(old(vars), FileEntries(lines, read))
    {
      ghost var initial := vars;
      var j := 0;
      FileEntriesPrefix(lines, 0, read);
      while j < |lines|
        invariant 0 <= j <= |lines|
        invariant vars == SetDefaults(initial, FileEntries(lines[..j], read))
      {
        LoadLine(initial, lines, j, read);
        j := j + 1;
      }
      assert lines[..j] == lines;
    }

    /** Line `j` of a file: its pair, if any, set as a default on top of the earlier lines'. */
    method LoadLine(ghost initial: map<string, string>, lines: seq<string>, j: nat, read: string -> Option<Entry>)
      requires j < |lines|
      requires vars == SetDefaults(initial, FileEntries(lines[..j], read))
      modifies this
      ensures vars == SetDefaults(initial, FileEntries(lines[..j + 1], read))
    {
      var parsed := read(lines[j]);
      LineStep(initial, lines, j, read, vars);
      if parsed.Some? {
        SetDefault(parsed.value.key, parsed.value.value);
      }
    }
  }
}
