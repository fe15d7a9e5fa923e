/**
 * The PreToolUse edit guard: a first-match-wins chain of decisions over the
 * hook input (a decoded JSON object), the branch and root git reports for the
 * edited file's directory, and which files exist. Bash and non-editing tools
 * are allowed; edits of `.allow-main` are denied; on `main`/`master` outside a
 * worktree only Markdown edits are allowed, unless the repository root holds
 * an `.allow-main` file.
 */
module PretoolGuard {
  import opened Wrappers
  import opened Text

  /** A decoded JSON value as Python sees it (numbers are integers here). */
  datatype PyValue =
    | PNone
    | PBool(b: bool)
    | PInt(i: int)
    | PStr(s: string)
    | PList(items: seq<PyValue>)
    | PDict(entries: map<string, PyValue>)

  /** Python truthiness. */
  predicate Truthy(v: PyValue) {
    match v
    case PNone => false
    case PBool(b) => b
    case PInt(i) => i != 0
    case PStr(s) => s != ""
    case PList(items) => items != []
    case PDict(entries) => entries != map[]
  }

  /** Lists and dicts are unhashable: testing them for set membership raises `TypeError`. */
  predicate Hashable(v: PyValue) { !v.PList? && !v.PDict? }

  /** `d.get(key, default)`. */
  function Get(d: map<string, PyValue>, key: string, default: PyValue): PyValue {
    if key in d then d[key] else default
  }

  /** Python `x or y`. */
  function Or(x: PyValue, y: PyValue): (r: PyValue)
    ensures Truthy(r) <==> Truthy(x) || Truthy(y)
    ensures Truthy(x) ==> r == x
  {
    if Truthy(x) then x else y
  }

  /** `str(v)` of a hashable value, as an f-string or `format` renders it. */
  function Display(v: PyValue): string
    requires Hashable(v)
  {
    match v
    case PNone => "None"
    case PBool(b) => if b then "True" else "False"
    case PInt(i) => if i < 0 then "-" + NatToString(-i) else NatToString(i)
    case PStr(s) => s
  }

  // ---------------------------------------------------------------------------
  // emit_decision
  // ---------------------------------------------------------------------------

  /** The `hookSpecificOutput` object the hook prints. */
  datatype HookOutput = HookOutput(hookEventName: string, permissionDecision: string, permissionDecisionReason: Option<string>)

  /** How one run of the hook ends: silently, with an uncaught exception, or with exactly one printed decision. */
  datatype Outcome = NoOutput | Crashed | Decided(output: HookOutput)

  /** `emit_decision`: the reason member is present exactly when the reason is non-empty. */
  function EmitDecision(decision: string, reason: string): (r: Outcome)
    ensures r.Decided? && r.output.hookEventName == "PreToolUse" && r.output.permissionDecision == decision
    ensures r.output.permissionDecisionReason.Some? <==> reason != ""
    ensures r.output.permissionDecisionReason.Some? ==> r.output.permissionDecisionReason.value == reason
  {
    Decided(HookOutput("PreToolUse", decision, if reason != "" then Some(reason) else None))
  }

  function Allow(reason: string): Outcome { EmitDecision("allow", reason) }
  function Deny(reason: string): Outcome { EmitDecision("deny", reason) }

  // ---------------------------------------------------------------------------
  // get_target_directory
  // ---------------------------------------------------------------------------

  const PathKeys: seq<string> := ["file_path", "path", "notebook_path"]
  const ListKeys: seq<string> := ["file_paths", "paths"]

  predicate IsCandidate(v: PyValue) { v.PStr? && v.s != "" }

  /** The first key of `keys` whose value in `d` is a non-empty string. */
  function FirstAtKeys(d: map<string, PyValue>, keys: seq<string>): (r: Option<string>)
    ensures r.Some? <==> exists j :: 0 <= j < |keys| && IsCandidate(Get(d, keys[j], PNone))
    ensures r.Some? ==> exists j :: 0 <= j < |keys| && Get(d, keys[j], PNone) == PStr(r.value)
                          && forall k :: 0 <= k < j ==> !IsCandidate(Get(d, keys[k], PNone))
    ensures r.Some? ==> r.value != ""
    decreases |keys|
  {
    if keys == [] then None
    else if IsCandidate(Get(d, keys[0], PNone)) then Some(Get(d, keys[0], PNone).s)
    else
      var r := FirstAtKeys(d, keys[1..]);
      if r.Some? then
        var j :| 0 <= j < |keys[1..]| && Get(d, keys[1..][j], PNone) == PStr(r.value)
                 && forall k :: 0 <= k < j ==> !IsCandidate(Get(d, keys[1..][k], PNone));
        assert Get(d, keys[j + 1], PNone) == PStr(r.value);
        r
      else r
  }

  /** The first non-empty string of a list. */
  function FirstInList(items: seq<PyValue>): (r: Option<string>)
    ensures r.Some? <==> exists j :: 0 <= j < |items| && IsCandidate(items[j])
    ensures r.Some? ==> exists j :: 0 <= j < |items| && items[j] == PStr(r.value)
                          && forall k :: 0 <= k < j ==> !IsCandidate(items[k])
    ensures r.Some? ==> r.value != ""
    decreases |items|
  {
    if items == [] then None
    else if IsCandidate(items[0]) then Some(items[0].s)
    else
      var r := FirstInList(items[1..]);
      if r.Some? then
        var j :| 0 <= j < |items[1..]| && items[1..][j] == PStr(r.value)
                 && forall k :: 0 <= k < j ==> !IsCandidate(items[1..][k]);
        assert items[j + 1] == PStr(r.value);
        r
      else r
  }

  /** The first list-valued key of `keys` holding a non-empty string. */
  function FirstInLists(d: map<string, PyValue>, keys: seq<string>): (r: Option<string>)
    ensures r.Some? ==> r.value != ""
    decreases |keys|
  {
    if keys == [] then None
    else
      var v := Get(d, keys[0], PNone);
      var here := if v.PList? then FirstInList(v.items) else None;
      if here.Some? then here else FirstInLists(d, keys[1..])
  }

  /** The first edit (a dict) naming a path under one of the path keys; other entries are skipped. */
  function FirstInEdits(edits: seq<PyValue>): (r: Option<string>)
    ensures r.Some? ==> r.value != ""
    decreases |edits|
  {
    if edits == [] then None
    else
      var here := if edits[0].PDict? then FirstAtKeys(edits[0].entries, PathKeys) else None;
      if here.Some? then here else FirstInEdits(edits[1..])
  }

  /** The path `get_target_directory` takes the directory of, or `None` when it falls back to the working directory. */
  function TargetPath(toolInput: map<string, PyValue>): (r: Option<string>)
    ensures r.Some? ==> r.value != ""
  {
    var direct := FirstAtKeys(toolInput, PathKeys);
    if direct.Some? then direct
    else
      var listed := FirstInLists(toolInput, ListKeys);
      if listed.Some? then listed
      else
        var edits := Get(toolInput, "edits", PNone);
        if edits.PList? then FirstInEdits(edits.items) else None
  }

  /**
   * `get_target_directory`: the directory of the chosen path (through the
   * absolute-path and dirname library calls, a parameter), otherwise the
   * input's `cwd` value, otherwise the process's working directory.
   */
  function TargetDirectory(toolInput: map<string, PyValue>, input: map<string, PyValue>,
                           processCwd: string, dirOfAbs: string -> string): (r: PyValue)
    ensures TargetPath(toolInput).Some? ==> r == PStr(dirOfAbs(TargetPath(toolInput).value))
    ensures TargetPath(toolInput).None? && "cwd" in input ==> r == input["cwd"]
    ensures TargetPath(toolInput).None? && "cwd" !in input ==> r == PStr(processCwd)
  {
    match TargetPath(toolInput)
    case Some(p) => PStr(dirOfAbs(p))
    case None => Get(input, "cwd", PStr(processCwd))
  }

  /** A non-empty `file_path` string is always the one taken. */
  lemma FilePathFirst(toolInput: map<string, PyValue>, p: string)
    requires "file_path" in toolInput && toolInput["file_path"] == PStr(p) && p != ""
    ensures TargetPath(toolInput) == Some(p)
  {
    assert PathKeys[0] == "file_path";
  }

  /** The working directory is used exactly when no path key, path list or edit names a non-empty string. */
  lemma {:induction false} FallbackExactly(toolInput: map<string, PyValue>)
    ensures TargetPath(toolInput).None? <==>
      && (forall j :: 0 <= j < |PathKeys| ==> !IsCandidate(Get(toolInput, PathKeys[j], PNone)))
      && (forall j :: 0 <= j < |ListKeys| ==> NoCandidateList(Get(toolInput, ListKeys[j], PNone)))
      && NoCandidateEdits(Get(toolInput, "edits", PNone))
  {
    ListsNone(toolInput, ListKeys);
    var edits := Get(toolInput, "edits", PNone);
    if edits.PList? {
      EditsNone(edits.items);
    }
  }

  predicate NoCandidateList(v: PyValue) {
    v.PList? ==> forall j :: 0 <= j < |v.items| ==> !IsCandidate(v.items[j])
  }

  predicate NoCandidateEdits(v: PyValue) {
    v.PList? ==> forall j, k :: 0 <= j < |v.items| && 0 <= k < |PathKeys| && v.items[j].PDict? ==>
      !IsCandidate(Get(v.items[j].entries, PathKeys[k], PNone))
  }

  lemma {:induction false} ListsNone(d: map<string, PyValue>, keys: seq<string>)
    ensures FirstInLists(d, keys).None? <==> forall j :: 0 <= j < |keys| ==> NoCandidateList(Get(d, keys[j], PNone))
    decreases |keys|
  {
    if keys != [] {
      ListsNone(d, keys[1..]);
      assert forall j :: 1 <= j < |keys| ==> keys[j] == keys[1..][j - 1];
    }
  }

  lemma {:induction false} EditsNone(edits: seq<PyValue>)
    ensures FirstInEdits(edits).None? <==> NoCandidateEdits(PList(edits))
    decreases |edits|
  {
    if edits != [] {
      EditsNone(edits[1..]);
      assert forall j :: 1 <= j < |edits| ==> edits[j] == edits[1..][j - 1];
    }
  }

  // ---------------------------------------------------------------------------
  // get_git_info
  // ---------------------------------------------------------------------------

  /**
   * What `git rev-parse` prints (stripped) in a directory, `None` when it
   * fails: `--abbrev-ref HEAD` and `--show-toplevel`.
   */
  datatype GitProbe = GitProbe(branch: Option<string>, toplevel: Option<string>)

  datatype GitInfo = GitInfo(inRepo: bool, branch: Option<string>, root: Option<string>, isWorktree: bool)

  /** `os.path.join(a, b)` for a relative `b`. */
  function PathJoin(a: string, b: string): string {
    if a == [] || a[|a| - 1] == '/' then a + b else a + "/" + b
  }

  /** `os.path.basename`. */
  function Basename(p: string): (r: string)
    ensures '/' !in r && EndsWith(p, r)
  {
    p[AfterLast(p, '/')..]
  }

  /** The directory git runs in: a string as given, the process's directory for `None`, no run for any other value. */
  function ProbedDir(targetDir: PyValue, processCwd: string): Option<string> {
    if targetDir.PStr? then Some(targetDir.s)
    else if targetDir.PNone? then Some(processCwd)
    else None
  }

  /**
   * `get_git_info`. A string directory is probed; `None` runs git in the
   * process's directory; any other value makes the subprocess call raise,
   * which reads as "not in a repository". The directory is in a repository
   * exactly when the branch probe succeeds with a non-empty name; the
   * branch and root are the probes' output; a worktree is recognised by
   * `.git` under a non-empty root being a file.
   */
  function GetGitInfo(targetDir: PyValue, processCwd: string, probe: string -> GitProbe, isFile: string -> bool): (g: GitInfo)
    ensures var dir := ProbedDir(targetDir, processCwd);
      g.inRepo <==> dir.Some? && probe(dir.value).branch.Some? && probe(dir.value).branch.value != ""
    ensures g.inRepo ==> var pr := probe(ProbedDir(targetDir, processCwd).value);
      g.branch == pr.branch && g.root == pr.toplevel
    ensures !g.inRepo ==> g == GitInfo(false, None, None, false)
    ensures g.isWorktree <==> g.inRepo && g.root.Some? && g.root.value != "" && isFile(PathJoin(g.root.value, ".git"))
  {
    match ProbedDir(targetDir, processCwd)
    case None => GitInfo(false, None, None, false)
    case Some(dir) =>
      var pr := probe(dir);
      if pr.branch.None? || pr.branch.value == "" then GitInfo(false, None, None, false)
      else
        var root := pr.toplevel;
        var isWorktree := root.Some? && root.value != "" && isFile(PathJoin(root.value, ".git"));
        GitInfo(true, pr.branch, root, isWorktree)
  }

  // ---------------------------------------------------------------------------
  // main
  // ---------------------------------------------------------------------------

  const EditTools: set<string> := {"Write", "Edit", "MultiEdit", "NotebookEdit"}
  const BashReason := "Bashは.ai_guard.zshに委譲"
  const AllowMainDenied := "🚫 .allow-main の作成・編集は禁止されています。\nmain保護バイパス用途のため、手動生成は行わないでください。"
  const OutsideRepoReason := "gitリポジトリ外"
  const AllowMainReason := ".allow-main により制限緩和"
  const MarkdownReason := "mainでの.md編集を許可"

  function NotEditToolReason(toolName: PyValue): string
    requires Hashable(toolName)
  {
    "対象外ツール: " + Display(toolName)
  }

  function WorktreeMessage(root: string): string {
    "🚫 mainブランチでの直接作業は避けてください。\n📁 対象: " + root
    + "\n✅ 推奨: git wt feature/xxx\nworktreeディレクトリで作業してください。\n.md以外の編集はブロックされました。"
  }

  /** The facts the hook gathers from the machine: the working directory, path resolution, git and the file system. */
  datatype World = World(processCwd: string, dirOfAbs: string -> string, probe: string -> GitProbe, isFile: string -> bool)

  /**
   * `main`. `None` is input that is not JSON (the hook exits silently). Each
   * rule either emits its decision, which ends the run, or falls through to
   * the next; a `.get` on a non-dict, a non-string `file_path` reaching
   * `basename`, and an unhashable tool name are uncaught exceptions.
   */
  function Decide(input: Option<PyValue>, w: World): Outcome {
    match input
    case None => NoOutput
    case Some(data) =>
      if !data.PDict? then Crashed
      else
        var toolName := Get(data.entries, "tool_name", PStr(""));
        var toolInput := Get(data.entries, "tool_input", PDict(map[]));
        if !toolInput.PDict? then Crashed
        else
          var filePath := Or(Get(toolInput.entries, "file_path", PNone), Get(toolInput.entries, "path", PNone));
          if toolName == PStr("Bash") then Allow(BashReason)
          else if !Hashable(toolName) then Crashed
          else if !(toolName.PStr? && toolName.s in EditTools) then Allow(NotEditToolReason(toolName))
          else if Truthy(filePath) && !filePath.PStr? then Crashed
          else if Truthy(filePath) && Basename(filePath.s) == ".allow-main" then Deny(AllowMainDenied)
          else
            var targetDir := TargetDirectory(toolInput.entries, data.entries, w.processCwd, w.dirOfAbs);
            GitRules(filePath, targetDir, GetGitInfo(targetDir, w.processCwd, w.probe, w.isFile), w)
  }

  /** The rules after the git lookup, for a path that is falsy or a string. */
  function GitRules(filePath: PyValue, targetDir: PyValue, git: GitInfo, w: World): (r: Outcome)
    requires Truthy(filePath) ==> filePath.PStr?
    requires git.inRepo ==> (targetDir.PStr? || targetDir.PNone?) && git.branch.Some?
    ensures r.Decided?
  {
    if !git.inRepo then Allow(OutsideRepoReason)
    else if AllowMainFlag(git, w) then Allow(AllowMainReason)
    else if Protected(git) then
      if IsMarkdown(filePath) then Allow(MarkdownReason)
      else
        var root := if git.root.Some? && git.root.value != "" then git.root.value else Display(targetDir);
        Deny(WorktreeMessage(root))
    else Allow("branch=" + git.branch.value)
  }

  /** `main` or `master`, checked out in the main working tree rather than a worktree. */
  predicate Protected(g: GitInfo)
    requires g.branch.Some?
  {
    g.branch.value in {"main", "master"} && !g.isWorktree
  }

  /** `file_path and file_path.endswith(".md")`, for a path that is falsy or a string. */
  predicate IsMarkdown(filePath: PyValue) {
    Truthy(filePath) && filePath.PStr? && EndsWith(filePath.s, ".md")
  }

  predicate AllowMainFlag(g: GitInfo, w: World) {
    g.root.Some? && g.root.value != "" && w.isFile(PathJoin(g.root.value, ".allow-main"))
  }

  // ---------------------------------------------------------------------------
  // The rules, one by one
  // ---------------------------------------------------------------------------

  /** An input object whose `tool_input`, if present, is an object. */
  predicate WellFormed(data: PyValue) {
    data.PDict? && Get(data.entries, "tool_input", PDict(map[])).PDict?
  }

  function ToolInput(data: PyValue): map<string, PyValue>
    requires WellFormed(data)
  {
    Get(data.entries, "tool_input", PDict(map[])).entries
  }

  /** The path the rules test: `file_path`, or `path` when that is falsy. */
  function FilePath(data: PyValue): PyValue
    requires WellFormed(data)
  {
    Or(Get(ToolInput(data), "file_path", PNone), Get(ToolInput(data), "path", PNone))
  }

  predicate IsEditTool(data: PyValue)
    requires data.PDict?
  {
    var t := Get(data.entries, "tool_name", PStr(""));
    t.PStr? && t.s in EditTools
  }

  /** Bash is allowed, whatever else the input or the machine says. */
  lemma BashAllowed(data: PyValue, w: World)
    requires WellFormed(data) && Get(data.entries, "tool_name", PStr("")) == PStr("Bash")
    ensures Decide(Some(data), w) == Allow(BashReason)
  {
  }

  /** A tool name that is a hashable value other than an editing tool's name is allowed, with the name in the reason. */
  lemma OtherToolsAllowed(data: PyValue, w: World)
    requires WellFormed(data)
    requires var t := Get(data.entries, "tool_name", PStr("")); Hashable(t) && t != PStr("Bash") && !IsEditTool(data)
    ensures Decide(Some(data), w) == Allow(NotEditToolReason(Get(data.entries, "tool_name", PStr(""))))
  {
  }

  /** Editing a file named `.allow-main` is denied, and the decision does not depend on git or the file system. */
  lemma AllowMainFileDenied(data: PyValue, w: World, w': World)
    requires WellFormed(data) && IsEditTool(data)
    requires FilePath(data).PStr? && FilePath(data).s != "" && Basename(FilePath(data).s) == ".allow-main"
    ensures Decide(Some(data), w) == Deny(AllowMainDenied)
    ensures Decide(Some(data), w') == Decide(Some(data), w)
  {
  }

  /** An edit that gets past the `.allow-main` name rule: an editing tool with a string path not named `.allow-main`, or no path. */
  predicate PastNameRule(data: PyValue)
    requires WellFormed(data)
  {
    IsEditTool(data) && (Truthy(FilePath(data)) ==> FilePath(data).PStr? && Basename(FilePath(data).s) != ".allow-main")
  }

  function GitOf(data: PyValue, w: World): GitInfo
    requires WellFormed(data)
  {
    GetGitInfo(TargetOf(data, w), w.processCwd, w.probe, w.isFile)
  }

  function TargetOf(data: PyValue, w: World): PyValue
    requires WellFormed(data)
  {
    TargetDirectory(ToolInput(data), data.entries, w.processCwd, w.dirOfAbs)
  }

  /** Past the name rule, the decision is the git rules' decision on this input's path and git facts. */
  lemma ReachesGitRules(data: PyValue, w: World)
    requires WellFormed(data) && PastNameRule(data)
    ensures Decide(Some(data), w) == GitRules(FilePath(data), TargetOf(data, w), GitOf(data, w), w)
  {
  }

  /** Outside a git repository an edit is allowed. */
  lemma OutsideRepoAllowed(data: PyValue, w: World)
    requires WellFormed(data) && PastNameRule(data) && !GitOf(data, w).inRepo
    ensures Decide(Some(data), w) == Allow(OutsideRepoReason)
  {
    ReachesGitRules(data, w);
  }

  /** Inside one, an `.allow-main` file at the repository root allows any edit. */
  lemma AllowMainFlagAllows(data: PyValue, w: World)
    requires WellFormed(data) && PastNameRule(data) && GitOf(data, w).inRepo && AllowMainFlag(GitOf(data, w), w)
    ensures Decide(Some(data), w) == Allow(AllowMainReason)
  {
    ReachesGitRules(data, w);
  }

  /**
   * On `main` or `master` outside a worktree, without the flag, an edit is
   * allowed exactly when its path ends in `.md`; otherwise it is denied.
   */
  lemma MainBranchMarkdownOnly(data: PyValue, w: World)
    requires WellFormed(data) && PastNameRule(data)
    requires var g := GitOf(data, w); g.inRepo && !AllowMainFlag(g, w) && Protected(g)
    ensures Decide(Some(data), w).output.permissionDecision == if IsMarkdown(FilePath(data)) then "allow" else "deny"
  {
    ReachesGitRules(data, w);
    MainBranchRule(FilePath(data), TargetOf(data, w), GitOf(data, w), w);
  }

  lemma MainBranchRule(filePath: PyValue, targetDir: PyValue, git: GitInfo, w: World)
    requires Truthy(filePath) ==> filePath.PStr?
    requires git.inRepo && (targetDir.PStr? || targetDir.PNone?) && git.branch.Some?
    requires !AllowMainFlag(git, w) && Protected(git)
    ensures IsMarkdown(filePath) ==> GitRules(filePath, targetDir, git, w) == Allow(MarkdownReason)
    ensures !IsMarkdown(filePath) ==> GitRules(filePath, targetDir, git, w).output.permissionDecision == "deny"
  {
    if !IsMarkdown(filePath) {
      MainBranchDenied(filePath, targetDir, git, w);
    }
  }

  lemma MainBranchDenied(filePath: PyValue, targetDir: PyValue, git: GitInfo, w: World)
    requires Truthy(filePath) ==> filePath.PStr?
    requires git.inRepo && (targetDir.PStr? || targetDir.PNone?) && git.branch.Some?
    requires !AllowMainFlag(git, w) && Protected(git) && !IsMarkdown(filePath)
    ensures GitRules(filePath, targetDir, git, w).output.permissionDecision == "deny"
  {
  }

  /** Any other branch, and any worktree, is allowed with the branch in the reason. */
  lemma OtherBranchAllowed(data: PyValue, w: World)
    requires WellFormed(data) && PastNameRule(data)
    requires var g := GitOf(data, w); g.inRepo && !AllowMainFlag(g, w) && !Protected(g)
    ensures Decide(Some(data), w) == Allow("branch=" + GitOf(data, w).branch.value)
  {
    ReachesGitRules(data, w);
  }

  /** A worktree checkout is recognised by `.git` at its root being a file; on it even `main` is allowed. */
  lemma WorktreeOnMainAllowed(data: PyValue, w: World)
    requires WellFormed(data) && PastNameRule(data)
    requires var g := GitOf(data, w); g.inRepo && !AllowMainFlag(g, w) && g.isWorktree
    ensures Decide(Some(data), w).output.permissionDecision == "allow"
  {
    ReachesGitRules(data, w);
  }
}
