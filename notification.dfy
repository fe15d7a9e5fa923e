/**
 * What the desktop-notification hooks share: the guard on the transcript
 * path, the normalisation and truncation of the message, the discovery of
 * the tmux socket and pane, the notification title, the terminal
 * application name and the shell command that focuses the pane when the
 * notification is clicked. Subprocesses (`id`, `tmux`) and the file system
 * are parameters.
 */
module Notification {
  import opened Wrappers
  import opened Text
  import NodePath

  // ---------------------------------------------------------------------------
  // The transcript path guard
  // ---------------------------------------------------------------------------

  /** A leading `~/` is replaced by the home directory joined with the rest (`path.join(home, p.slice(2))`). */
  function ExpandHome(p: string, home: string): (r: string)
    ensures !StartsWith(p, "~/") ==> r == p
    ensures StartsWith(p, "~/") ==> r == NodePath.JoinPath(home, p[2..])
  {
    if StartsWith(p, "~/") then NodePath.JoinPath(home, p[2..]) else p
  }

  /**
   * `path.join(home, '.claude', 'projects')`: the non-empty arguments
   * joined with `/`, then normalised.
   */
  function AllowedBase(home: string): string {
    NodePath.JoinPath(home, ClaudeDir + "/" + ProjectsDir)
  }

  const ClaudeDir := ".claude"
  const ProjectsDir := "projects"

  /** For a home directory in normal form the base is the plain concatenation. */
  lemma AllowedBaseOfNormalHome(home: string)
    requires NodePath.NormalDirectory(home)
    ensures AllowedBase(home) == home + "/" + ClaudeDir + "/" + ProjectsDir
  {
    NodePath.JoinNormalDirectory(home, ClaudeDir, ProjectsDir);
  }

  /** A trailing separator on the home directory does not change the base. */
  lemma AllowedBaseTrailingSeparator(home: string)
    requires home != ""
    ensures AllowedBase(home + "/") == AllowedBase(home)
  {
    NodePath.JoinAfterTrailingSeparator(home, ClaudeDir, ProjectsDir);
  }

  /** For a home directory in normal form `~/name` expands to `home/name`. */
  lemma ExpandHomeOfNormalHome(home: string, name: string)
    requires NodePath.NormalDirectory(home)
    requires NodePath.Segment(name) && name != ".." && '/' !in name
    ensures ExpandHome("~/" + name, home) == home + "/" + name
  {
    assert ("~/" + name)[..2] == "~/" && ("~/" + name)[2..] == name;
    NodePath.JoinNormalDirectoryName(home, name);
  }

  /** The guard as written: `resolvedPath.startsWith(allowedBase)`. */
  predicate PrefixAllowed(resolved: string, base: string) {
    StartsWith(resolved, base)
  }

  /** `resolved` is the directory `base` itself or a path below it. */
  predicate Inside(resolved: string, base: string) {
    resolved == base || StartsWith(resolved, base + "/")
  }

  /** The prefix test also admits a sibling directory whose name merely begins with `projects`. */
  lemma PrefixGuardAdmitsSibling(base: string)
    ensures var p := base + "-other/t.jsonl";
      PrefixAllowed(p, base) && !Inside(p, base)
  {
    var p := base + "-other/t.jsonl";
    assert p[..|base|] == base;
    assert p[|base|] == '-';
    assert p != base;
    assert (base + "/")[|base|] == '/';
  }

  /** The directory test accepts exactly what the prefix test accepts that continues with a separator or ends. */
  lemma InsideIsPrefixAtBoundary(resolved: string, base: string)
    ensures Inside(resolved, base) <==> PrefixAllowed(resolved, base) && (|resolved| == |base| || resolved[|base|] == '/')
  {
    if PrefixAllowed(resolved, base) && |resolved| > |base| && resolved[|base|] == '/' {
      assert resolved[..|base| + 1] == base + "/";
    }
    if StartsWith(resolved, base + "/") {
      assert resolved[..|base|] == (base + "/")[..|base|];
    }
  }

  datatype PathCheck = ExitWith(code: int) | ReadFrom(path: string)

  /**
   * The hooks' guard as written: a missing or empty `transcript_path`
   * exits 0; a leading `~/` is expanded; the result of `resolve`
   * (`path.resolve`) must begin with `home/.claude/projects`, otherwise the
   * hook exits 1.
   */
  function TranscriptPath(transcriptPath: Option<string>, home: string, resolve: string -> string): (r: PathCheck)
    ensures r == ExitWith(0) <==> transcriptPath.None? || transcriptPath.value == ""
    ensures r.ReadFrom? ==> r.path == resolve(ExpandHome(transcriptPath.value, home)) && PrefixAllowed(r.path, AllowedBase(home))
    ensures r == ExitWith(1) <==> transcriptPath.Some? && transcriptPath.value != ""
                                  && !PrefixAllowed(resolve(ExpandHome(transcriptPath.value, home)), AllowedBase(home))
  {
    match transcriptPath
    case None => ExitWith(0)
    case Some(p) =>
      if p == "" then ExitWith(0)
      else
        var resolved := resolve(ExpandHome(p, home));
        if PrefixAllowed(resolved, AllowedBase(home)) then ReadFrom(resolved) else ExitWith(1)
  }

  /** A trailing separator on the home directory guards an explicit path exactly as the home without it does. */
  lemma HomeTrailingSeparatorGuardsAlike(transcriptPath: Option<string>, home: string, resolve: string -> string)
    requires home != ""
    requires transcriptPath.Some? ==> !StartsWith(transcriptPath.value, "~/")
    ensures TranscriptPath(transcriptPath, home + "/", resolve) == TranscriptPath(transcriptPath, home, resolve)
  {
    AllowedBaseTrailingSeparator(home);
  }

  /**
   * A transcript below `home/.claude/projects` is read even when the home
   * directory is given with a trailing separator.
   */
  lemma ProjectFileReadUnderTrailingHome(home: string, p: string, resolve: string -> string)
    requires NodePath.NormalDirectory(home)
    requires StartsWith(p, home + "/" + ClaudeDir + "/" + ProjectsDir) && !StartsWith(p, "~/")
    requires resolve(p) == p
    ensures TranscriptPath(Some(p), home + "/", resolve) == ReadFrom(p)
  {
    AllowedBaseOfNormalHome(home);
    AllowedBaseTrailingSeparator(home);
  }

  /**
   * The guard as evidently intended: the resolved path must be the
   * projects directory or lie below it.
   */
  function TranscriptPathInside(transcriptPath: Option<string>, home: string, resolve: string -> string): (r: PathCheck)
    ensures r == ExitWith(0) <==> transcriptPath.None? || transcriptPath.value == ""
    ensures r.ReadFrom? ==> r.path == resolve(ExpandHome(transcriptPath.value, home)) && Inside(r.path, AllowedBase(home))
    ensures r == ExitWith(1) <==> transcriptPath.Some? && transcriptPath.value != ""
                                  && !Inside(resolve(ExpandHome(transcriptPath.value, home)), AllowedBase(home))
  {
    match transcriptPath
    case None => ExitWith(0)
    case Some(p) =>
      if p == "" then ExitWith(0)
      else
        var resolved := resolve(ExpandHome(p, home));
        if Inside(resolved, AllowedBase(home)) then ReadFrom(resolved) else ExitWith(1)
  }

  /**
   * The two guards differ only on paths that begin with the projects
   * directory's name and continue with something other than a separator:
   * those the hooks read, the intended guard refuses.
   */
  lemma GuardsDifferOnSiblings(transcriptPath: Option<string>, home: string, resolve: string -> string)
    ensures var written := TranscriptPath(transcriptPath, home, resolve);
      var inside := TranscriptPathInside(transcriptPath, home, resolve);
      written != inside <==>
        transcriptPath.Some? && transcriptPath.value != ""
        && var resolved := resolve(ExpandHome(transcriptPath.value, home));
           var base := AllowedBase(home);
           PrefixAllowed(resolved, base) && |resolved| > |base| && resolved[|base|] != '/'
  {
    if transcriptPath.Some? && transcriptPath.value != "" {
      InsideIsPrefixAtBoundary(resolve(ExpandHome(transcriptPath.value, home)), AllowedBase(home));
    }
  }

  // ---------------------------------------------------------------------------
  // The message
  // ---------------------------------------------------------------------------

  /** `.replace(/\n+/g, ' ').replace(/\s+/g, ' ').trim()`. */
  function Normalize(s: string): string {
    JsTrim(ReplaceRuns(ReplaceRuns(s, IsNewline, 1, " "), IsJsSpace, 1, " "))
  }

  /** The normalised message has no whitespace but single spaces, none at the ends, and no two in a row. */
  lemma NormalizeShape(s: string)
    ensures var r := Normalize(s);
      && (forall i :: 0 <= i < |r| && IsJsSpace(r[i]) ==> r[i] == ' ')
      && NoAdjacent(r, IsJsSpace)
      && (r == [] || (!IsJsSpace(r[0]) && !IsJsSpace(r[|r| - 1])))
  {
    var a := ReplaceRuns(s, IsNewline, 1, " ");
    CollapsedRuns(a, IsJsSpace, ' ');
    TrimmedSpaced(ReplaceRuns(a, IsJsSpace, 1, " "));
  }

  lemma TrimmedSpaced(b: string)
    requires NoAdjacent(b, IsJsSpace)
    requires forall i :: 0 <= i < |b| && IsJsSpace(b[i]) ==> b[i] == ' '
    ensures var r := JsTrim(b);
      && (forall i :: 0 <= i < |r| && IsJsSpace(r[i]) ==> r[i] == ' ')
      && NoAdjacent(r, IsJsSpace)
      && (r == [] || (!IsJsSpace(r[0]) && !IsJsSpace(r[|r| - 1])))
  {
    var lo, hi := JsTrimSlice(b);
    NoAdjacentSlice(b, IsJsSpace, lo, hi);
    OnlyCharSlice(b, IsJsSpace, ' ', lo, hi);
    JsTrimEnds(b);
  }

  /** Normalisation changes only whitespace: every other character occurs as often as in the input. */
  lemma NormalizeKeepsText(s: string, c: char)
    requires !IsJsSpace(c)
    ensures multiset(Normalize(s))[c] == multiset(s)[c]
  {
    var a := ReplaceRuns(s, IsNewline, 1, " ");
    ReplaceRunsKeepsOthers(s, IsNewline, 1, " ", c);
    ReplaceRunsKeepsOthers(a, IsJsSpace, 1, " ", c);
    TrimKeepsOthers(ReplaceRuns(a, IsJsSpace, 1, " "), IsJsSpace, c);
  }

  /** `s.length > max ? s.substring(0, max - 3) + '...' : s`. */
  function Truncate(s: string, maxLength: nat): (r: string)
    requires maxLength >= 3
    ensures |r| <= maxLength
    ensures |s| <= maxLength ==> r == s
    ensures |s| > maxLength ==> |r| == maxLength && StartsWith(s, r[..maxLength - 3]) && EndsWith(r, "...")
  {
    if |s| > maxLength then s[..maxLength - 3] + "..." else s
  }

  /** `s.substring(0, n)`. */
  function Take(s: string, n: nat): (r: string)
    ensures |r| == if |s| <= n then |s| else n
    ensures StartsWith(s, r)
  {
    if |s| <= n then s else s[..n]
  }

  // ---------------------------------------------------------------------------
  // tmux
  // ---------------------------------------------------------------------------

  /** `/private/tmp/tmux-${uid}/default`, the server socket tmux uses by default on macOS. */
  function GuessedSocket(uid: string): string {
    "/private/tmp/tmux-" + uid + "/default"
  }

  /**
   * The socket: `$TMUX` up to its first comma when set; otherwise the default
   * socket for the user id `id -u` printed, if that file exists; otherwise
   * none. `uid` is the trimmed output of `id -u`, `None` when it fails.
   */
  function TmuxSocket(tmuxEnv: string, uid: Option<string>, socketExists: string -> bool): (r: string)
    ensures tmuxEnv != "" ==> StartsWith(tmuxEnv, r) && ',' !in r && (|r| < |tmuxEnv| ==> tmuxEnv[|r|] == ',')
    ensures tmuxEnv == "" ==> r == "" || (uid.Some? && r == GuessedSocket(uid.value) && socketExists(r))
    ensures tmuxEnv == "" && uid.Some? && socketExists(GuessedSocket(uid.value)) ==> r == GuessedSocket(uid.value)
  {
    if tmuxEnv != "" then BeforeFirst(tmuxEnv, ',')
    else match uid
      case None => ""
      case Some(u) => if socketExists(GuessedSocket(u)) then GuessedSocket(u) else ""
  }

  /** The `tmux` arguments before the format: the hook's own pane on the known socket, else the active pane. */
  function TmuxArgs(tmuxPane: string, tmuxSocket: string): seq<string> {
    if tmuxPane != "" && tmuxSocket != "" then ["-S", tmuxSocket, "display-message", "-t", tmuxPane, "-p"]
    else ["display-message", "-p"]
  }

  const SessionFormat := "#{session_name}"
  const WindowFormat := "#{window_index}"
  const PaneFormat := "#{pane_index}"
  const TitleFormat := "#{pane_title}"

  datatype TmuxInfo = TmuxInfo(sessionName: string, windowIndex: string, paneIndex: string, paneTitle: string)

  /**
   * What the four `tmux display-message` queries leave behind, given each
   * command's trimmed output (`None` when it fails). A failure resets the session
   * name, while fields read before it keep their values.
   */
  function TmuxInfoOf(session: Option<string>, window: Option<string>, pane: Option<string>, title: Option<string>): (info: TmuxInfo)
    ensures info.sessionName != "" ==> session.Some? && window.Some? && pane.Some? && title.Some?
  {
    if session.None? || window.None? then TmuxInfo("", "", "", "")
    else if pane.None? then TmuxInfo("", window.value, "", "")
    else if title.None? then TmuxInfo("", window.value, pane.value, "")
    else TmuxInfo(session.value, window.value, pane.value, title.value)
  }

  /** Each query: `tmux` with the common arguments and one format; its output after `.trim()`, `None` when the command fails. */
  function Query(tmux: seq<string> -> Option<string>, args: seq<string>, format: string): Option<string> {
    tmux(args + [format])
  }

  /** The four queries in order inside one `try`; the `catch` clears the session name. */
  method GatherTmuxInfo(tmuxPane: string, tmuxSocket: string, tmux: seq<string> -> Option<string>)
    returns (info: TmuxInfo)
    ensures var args := TmuxArgs(tmuxPane, tmuxSocket);
      info == TmuxInfoOf(Query(tmux, args, SessionFormat), Query(tmux, args, WindowFormat),
                         Query(tmux, args, PaneFormat), Query(tmux, args, TitleFormat))
  {
    var sessionName, windowIndex, paneIndex, paneTitle := "", "", "", "";
    var tmuxArgs := TmuxArgs(tmuxPane, tmuxSocket);
    var out := Query(tmux, tmuxArgs, SessionFormat);
    if out.Some? {
      sessionName := out.value;
      out := Query(tmux, tmuxArgs, WindowFormat);
    }
    if out.Some? {
      windowIndex := out.value;
      out := Query(tmux, tmuxArgs, PaneFormat);
    }
    if out.Some? {
      paneIndex := out.value;
      out := Query(tmux, tmuxArgs, TitleFormat);
    }
    if out.Some? {
      paneTitle := out.value;
    } else {
      sessionName := "";
    }
    info := TmuxInfo(sessionName, windowIndex, paneIndex, paneTitle);
  }

  /** What the hooks read from their surroundings to locate the pane. */
  datatype TmuxContext = TmuxContext(
    tmuxEnv: string,                      // $TMUX, empty when unset
    tmuxPane: string,                     // $TMUX_PANE, empty when unset
    uid: Option<string>,                  // trimmed output of `id -u`
    socketExists: string -> bool,         // fs.existsSync
    tmux: seq<string> -> Option<string>)  // trimmed output of a tmux command

  function SocketOf(ctx: TmuxContext): string {
    TmuxSocket(ctx.tmuxEnv, ctx.uid, ctx.socketExists)
  }

  /** The pane the hook runs in, as the queries report it. */
  function PaneInfo(ctx: TmuxContext): TmuxInfo {
    var args := TmuxArgs(ctx.tmuxPane, SocketOf(ctx));
    TmuxInfoOf(Query(ctx.tmux, args, SessionFormat), Query(ctx.tmux, args, WindowFormat),
               Query(ctx.tmux, args, PaneFormat), Query(ctx.tmux, args, TitleFormat))
  }

  // ---------------------------------------------------------------------------
  // The title
  // ---------------------------------------------------------------------------

  predicate IsAscii(c: char) { c < '\U{0080}' }

  predicate IsNonAscii(c: char) { !IsAscii(c) }

  /**
   * What the title pattern removes: the whole leading non-ASCII run
   * `[0, j)`, then the whole whitespace run `[j, k)` after it.
   */
  predicate DroppedPrefix(s: string, j: nat, k: nat)
    requires j <= k <= |s|
  {
    && (forall i :: 0 <= i < j ==> IsNonAscii(s[i]))
    && (j < |s| ==> IsAscii(s[j]))
    && (forall i :: j <= i < k ==> IsJsSpace(s[i]))
    && (k < |s| ==> !IsJsSpace(s[k]))
  }

  /** The removed prefix is determined: only one non-empty run and one whitespace run fit. */
  lemma DroppedPrefixUnique(s: string, j: nat, k: nat, j': nat, k': nat)
    requires 0 < j <= k <= |s| && 0 < j' <= k' <= |s|
    requires DroppedPrefix(s, j, k) && DroppedPrefix(s, j', k')
    ensures j == j' && k == k'
  {
  }

  // `.replace(/^[^\x00-\x7F]+\s*/, '').substring(0, 30)`: a leading run of non-ASCII
  // characters and the whitespace after it go, then 30 characters are kept.
  function CleanTitle(paneTitle: string): (r: string)
    ensures |r| <= 30
    ensures paneTitle == [] || IsAscii(paneTitle[0]) ==> r == Take(paneTitle, 30)
    ensures paneTitle != [] && IsNonAscii(paneTitle[0]) ==>
      exists j, k :: 0 < j <= k <= |paneTitle| && r == Take(paneTitle[k..], 30) && DroppedPrefix(paneTitle, j, k)
  {
    var n := RunLength(paneTitle, IsNonAscii);
    if n == 0 then
      assert paneTitle[0..] == paneTitle;
      Take(paneTitle, 30)
    else
      var m := RunLength(paneTitle[n..], IsJsSpace);
      assert paneTitle[n..][m..] == paneTitle[n + m..];
      assert forall i :: n <= i < n + m ==> paneTitle[i] == paneTitle[n..][i - n];
      assert n + m < |paneTitle| ==> paneTitle[n + m] == paneTitle[n..][m];
      assert DroppedPrefix(paneTitle, n, n + m);
      Take(paneTitle[n + m..], 30)
  }

  /** `Claude Code [w-p]`, the part of the title that identifies the pane. */
  function PaneHeader(windowIndex: string, paneIndex: string): (h: string)
    ensures h != [] && h[0] == 'C' && h[|h| - 1] == ']'
  {
    "Claude Code [" + windowIndex + "-" + paneIndex + "]"
  }

  /** The title: `Claude Code` outside tmux, otherwise the pane header and the cleaned pane title, trimmed. */
  function Title(info: TmuxInfo): string {
    if info.sessionName != "" then JsTrim(PaneHeader(info.windowIndex, info.paneIndex) + " " + CleanTitle(info.paneTitle))
    else "Claude Code"
  }

  /** Inside tmux the title starts with the pane header and adds at most 31 characters. */
  lemma TitleShape(info: TmuxInfo)
    ensures info.sessionName == "" ==> Title(info) == "Claude Code"
    ensures info.sessionName != "" ==>
      var h := PaneHeader(info.windowIndex, info.paneIndex);
      StartsWith(Title(info), h) && |Title(info)| <= |h| + 31
  {
    if info.sessionName != "" {
      var h := PaneHeader(info.windowIndex, info.paneIndex);
      var c := CleanTitle(info.paneTitle);
      assert h + " " + c == h + (" " + c);
      TrimKeepsCore(h, " " + c);
    }
  }

  /** Trimming `x + y` keeps all of `x` when `x` starts and ends with non-whitespace. */
  lemma TrimKeepsCore(x: string, y: string)
    requires x != [] && !IsJsSpace(x[0]) && !IsJsSpace(x[|x| - 1])
    ensures StartsWith(JsTrim(x + y), x) && |JsTrim(x + y)| <= |x| + |y|
  {
    var s := x + y;
    assert s[0] == x[0];
    assert TrimStart(s, IsJsSpace) == s;
    var r := TrimEnd(s, IsJsSpace);
    assert s[|x| - 1] == x[|x| - 1];
    assert r[..|x|] == s[..|x|] == x;
  }

  // ---------------------------------------------------------------------------
  // The terminal application and the focus command
  // ---------------------------------------------------------------------------

  /** `process.env.TERM_PROGRAM || "Ghostty"`. */
  function TerminalApp(termProgram: Option<string>): (r: string)
    ensures r != ""
    ensures termProgram.Some? && termProgram.value != "" ==> r == termProgram.value
  {
    if termProgram.Some? && termProgram.value != "" then termProgram.value else "Ghostty"
  }

  /** `TERM_PROGRAM` values and the application names AppleScript knows them by. */
  const TerminalAppMap: map<string, string> := map[
    "Apple_Terminal" := "Terminal", "iTerm.app" := "iTerm", "WezTerm" := "WezTerm",
    "kitty" := "kitty", "Alacritty" := "Alacritty", "Ghostty" := "Ghostty"]

  /** `terminalAppMap[terminalApp] || terminalApp`: mapped names are translated, others pass through. */
  function AppName(terminalApp: string): (r: string)
    ensures terminalApp in TerminalAppMap ==> r == TerminalAppMap[terminalApp]
    ensures terminalApp !in TerminalAppMap ==> r == terminalApp
  {
    if terminalApp in TerminalAppMap then TerminalAppMap[terminalApp] else terminalApp
  }

  /** Every application name the map produces maps to itself, so translating twice changes nothing. */
  lemma AppNameIdempotent(terminalApp: string)
    ensures AppName(AppName(terminalApp)) == AppName(terminalApp)
  {
    if terminalApp in TerminalAppMap {
      assert "Terminal" !in TerminalAppMap && "iTerm" !in TerminalAppMap;
    }
  }

  const TmuxBinary := "/opt/homebrew/bin/tmux"

  /** The tmux command line, pinned to the socket when one is known. */
  function TmuxCommand(tmuxSocket: string): (r: string)
    ensures tmuxSocket == "" ==> r == TmuxBinary
    ensures tmuxSocket != "" ==> r == TmuxBinary + " -S \"" + tmuxSocket + "\""
  {
    if tmuxSocket != "" then TmuxBinary + " -S \"" + tmuxSocket + "\"" else TmuxBinary
  }

  function ActivateCommand(appName: string): string {
    "osascript -e 'tell application \"" + appName + "\" to activate'"
  }

  function SelectWindowCommand(tmuxCmd: string, sessionName: string, windowIndex: string): string {
    tmuxCmd + " select-window -t \"" + sessionName + ":" + windowIndex + "\""
  }

  function SelectPaneCommand(tmuxCmd: string, sessionName: string, windowIndex: string, paneIndex: string): string {
    tmuxCmd + " select-pane -t \"" + sessionName + ":" + windowIndex + "." + paneIndex + "\""
  }

  /** The shell command run on click: activate the terminal, select the window, select the pane. */
  function FocusCommand(appName: string, tmuxSocket: string, info: TmuxInfo): string {
    var tmuxCmd := TmuxCommand(tmuxSocket);
    Join([ActivateCommand(appName),
          SelectWindowCommand(tmuxCmd, info.sessionName, info.windowIndex),
          SelectPaneCommand(tmuxCmd, info.sessionName, info.windowIndex, info.paneIndex)], " && ")
  }

  /** The focus command is exactly the three commands in order, separated by ` && `. */
  lemma {:induction false} FocusCommandParts(appName: string, tmuxSocket: string, info: TmuxInfo)
    ensures var tmuxCmd := TmuxCommand(tmuxSocket);
      FocusCommand(appName, tmuxSocket, info)
      == ActivateCommand(appName) + " && " + SelectWindowCommand(tmuxCmd, info.sessionName, info.windowIndex)
         + " && " + SelectPaneCommand(tmuxCmd, info.sessionName, info.windowIndex, info.paneIndex)
  {
    var tmuxCmd := TmuxCommand(tmuxSocket);
    var a := ActivateCommand(appName);
    var b := SelectWindowCommand(tmuxCmd, info.sessionName, info.windowIndex);
    var c := SelectPaneCommand(tmuxCmd, info.sessionName, info.windowIndex, info.paneIndex);
    assert FocusCommand(appName, tmuxSocket, info) == Join([a, b, c], " && ");
    JoinThree(a, b, c, " && ");
  }

  lemma JoinThree(a: string, b: string, c: string, sep: string)
    ensures Join([a, b, c], sep) == a + sep + b + sep + c
  {
    assert [a, b, c][1..] == [b, c];
    assert [b, c][1..] == [c];
    assert Join([c], sep) == c;
    assert Join([b, c], sep) == b + sep + c;
  }
}
