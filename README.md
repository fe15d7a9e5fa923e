# Claude hooks, Slack bridge and skill scripts — a Dafny model

This project models the behaviour of a set of helpers around an AI coding
assistant:

- **The Slack question bridge** (`claude/skills/slack-bridge/server.js`).
  - It is a small HTTP server.
  - A long-polling request posts questions to a Slack channel and registers a *pending entry*.
  - It then waits until one of three things happens: a button is clicked, a free-text modal is submitted, or the entry's ten-minute timer fires.
- **The pre-tool guard** (`claude/hooks/pretool_guard.py`).
  - It decides whether an editing tool may run, from the tool input and from git facts about the target directory.
  - On `main` or `master` outside a worktree, only Markdown may be edited.
- **The coupling analyzer template** (`typescript-analyzer.ts`).
  - It walks a TypeScript tree and keeps only the local imports.
  - It resolves import paths and scores each coupling by strength, distance and git volatility.
- **The unified Slack notifier hook** (`slack-notifier-unified.mjs`):
  - its interaction webhook;
  - its transcript scan and message cleaning;
  - its stdin retry loop;
  - its stale-lock rule.
- **The three notification hooks** (`stop-notify-tmux.js`, `stop-send-notification.js`, `ask-user-notify.js`):
  - the transcript path guard;
  - the last-message scan;
  - the tmux queries and the notification title;
  - message normalisation and truncation;
  - the click-to-focus command;
  - AppleScript string escaping.
- **The two Gemini skill scripts** (`gen_image.py`, `transcribe_audio.py`):
  - `.env` discovery with `setdefault`;
  - model aliases;
  - MIME types and output extensions;
  - the Markdown wrapping of a transcript;
  - the exit codes of `main`.
- **`normalize_text`** of `verify-voices.py`.

Each source file becomes one module:

| Module | Models |
|---|---|
| `SlackBridge` | The bridge server. Its class `PendingTable` holds the pending map, the live timers and the value each waiter was settled with. Its methods are the HTTP handlers and the timer callback. |
| `SlackMessages` | The message composer. |
| `SlackSignature` | The request verifier. |
| `PretoolGuard` | The pre-tool guard. |
| `CouplingAnalyzer` | The coupling analyzer. |
| `SlackNotifier` | The notifier hook. The class `Webhook` holds the saved response file, the opened modals and the shutdown flag. |
| `Notification` | The text and tmux logic that the notification hooks share. |
| `StopNotifyTmux`, `StopSendNotification`, `AskUserNotify` | The three notification hooks. |
| `GenImage`, `TranscribeAudio` | The two Gemini skill scripts. |
| `DotEnv` | `.env` reading. The class `Environ` is `os.environ`, updated in place by `setdefault`. |
| `VerifyVoices` | `normalize_text`. |

Shared library behaviour lives in five modules:

| Module | Models |
|---|---|
| `Text` | Trimming, `replace` with a regular-expression run, decimal rendering and ASCII lower case. |
| `Json` | `JSON.stringify` and `JSON.parse` of flat objects. |
| `PurePath` | `pathlib`'s normal form of a path string, `name`, `suffix` and `with_suffix`. |
| `NodePath` | Node's `path.posix.normalize` and `path.posix.join`, used by the coupling analyzer and by the notification hooks' path guard. |
| `Transcript` | Transcript line parsing and the reverse scan. |

Where the source changes state step by step, the model is imperative:

- **Classes with `modifies` clauses.** A handler is a method of `PendingTable`, `Webhook` or `Environ`, and its `ensures` states the whole new state.
- **Methods with loops and invariants.** This covers:
  - the post loop, the chunk loop and the transcript scans;
  - the directory walk and the volatility count;
  - the `.env` load and the stdin retries.

  Each method is proved against a specification function, and lemmas prove the properties of that function.

Pure code is modelled as functions and lemmas. External effects are parameters of the model:

- the network (Slack, Gemini);
- HMAC;
- the clock;
- `path.resolve`;
- git;
- tmux output;
- file reads.

### Behaviour worth noting

- **A repeated question id.** Registering one is not refused. The new entry replaces the old one (`server.js:256-258`). The replaced request's timer later fires on whatever entry then holds the id and answers it with the timeout (`server.js:261-267`). `PendingTable.TimerFires` states this.
- **A failed post.** A post that returns a Slack `error` does not stop `/ask-and-wait`: only a post that throws does. A post that throws gives 500 and nothing is registered. In `/ask` the entry is registered before posting, so it stays even when a post throws (`server.js:283`).
- **A signature of the wrong length.** It makes `timingSafeEqual` throw, so the response is 500, not 401 (`server.js:35-38`).
- **A tmux-mode entry.** `/ask` stores it without a `resolve`. When an option click or a submission names it, the handler throws, and the response is 500.
- **An output path in directory form.** `Path(args.output)` normalises `out/` and `out/.` to `out`, so the image is saved as `out.png` (`gen_image.py:218`). The transcription script writes `-o out/` to the file `out` for the same reason (`transcribe_audio.py:169`).
- **An empty key in a `.env` file.** A line such as `=x` makes `os.environ.setdefault` raise, and the script stops before it reads its arguments (`gen_image.py:70`, `gen_image.py:192`).

## Model

| member | source | states |
|---|---|---|
| SlackBridge.PendingTable.constructor | claude/skills/slack-bridge/server.js:11 | The table starts empty, with no timers and no settled waiters, and satisfies the table invariant. |
| SlackBridge.PendingTable.Health | claude/skills/slack-bridge/server.js:226-230 | `/health` reports the number of pending entries. |
| SlackBridge.PendingTable.Register | claude/skills/slack-bridge/server.js:255-267 | The entry is stored under its id, replacing any earlier one. A fresh waiter gets a ten-minute timer armed for that id. Settled waiters are untouched. |
| SlackBridge.PendingTable.Settle | claude/skills/slack-bridge/server.js:352-358 | A waiter is settled at most once: it was unsettled before. Its answer is recorded, the entry is deleted and its timer is cleared. |
| SlackBridge.PendingTable.AskAndWait | claude/skills/slack-bridge/server.js:233-274 | The session-tagged questions are posted in order. If no post throws, the entry is registered with the first returned ts. An unparsable body or a thrown post gives 500 and leaves the table unchanged. |
| SlackBridge.PendingTable.Ask | claude/skills/slack-bridge/server.js:278-297 | `/ask` registers `q_<now>` as a tmux-mode entry before posting. It answers with that id. A post that throws gives 500 and the entry remains. |
| SlackBridge.PendingTable.Deliver | claude/skills/slack-bridge/server.js:350-373 | The common answer tail: the waiter is settled once, the entry is removed and the pane is activated. A thread reply is sent only when the entry has a message ts. |
| SlackBridge.PendingTable.OptionClick | claude/skills/slack-bridge/server.js:338-381 | `OptionClicked`: a click on an option button answers its pending waiter with `{answer: label, optionIndex, timestamp}`, removes the entry, clears its timer, brings the pane forward and replies in the thread. A missing entry gets the "already answered" text and changes nothing. A tmux-mode entry or a value that does not parse gives 500 and changes nothing. |
| SlackBridge.PendingTable.FreeTextClick | claude/skills/slack-bridge/server.js:317-336 | `FreeTextClicked`: the modal for the id, its question index and its text is opened exactly when the entry is pending. A missing entry gets the "already answered" text. Nothing is answered or removed. |
| SlackBridge.PendingTable.Submit | claude/skills/slack-bridge/server.js:384-428 | `Submitted`: a modal submission answers the waiting entry named in its metadata with `{answer: text, optionIndex: -1, freeText: true}`, removes it and clears the modal. A missing entry gets a field error and nothing changes. A tmux-mode entry or metadata that does not parse gives 500. |
| SlackBridge.PendingTable.TimerFires | claude/skills/slack-bridge/server.js:261-267 | When a timer fires, whatever waiting entry is then stored under its id is answered with the timeout and removed. If none is stored, nothing happens. A tmux-mode entry there crashes the process. |
| SlackBridge.PendingTable.HandleInteraction | claude/skills/slack-bridge/server.js:300-434 | A rejected signature gives 401 and a throwing check gives 500, both with the table unchanged. An authentic request with no payload or no action gives 500 and changes nothing. Otherwise the first action goes to the free-text or option handler by its action id, a submission goes to the submission handler, and the new table and response are those handlers' outcomes. Any other payload is acknowledged with no change. |
| SlackBridge.PostAll | claude/skills/slack-bridge/server.js:238-251 | Question i is sent as the bot prefix plus its text, with its blocks. The loop stops at the first thrown post. `messageTs` is the earliest non-empty ts. |
| SlackBridge.RecordPost | claude/skills/slack-bridge/server.js:246-250 | One post: whether it threw, and otherwise the first ts among the posts so far. |
| SlackBridge.ComposeMessage | claude/skills/slack-bridge/server.js:244-246 | The channel message is the bot prefix followed by the question text, with the question's blocks and no thread. |
| SlackBridge.FirstTsIsEarliest | claude/skills/slack-bridge/server.js:248-250 | The recorded ts belongs to the earliest post that returned one. There is none exactly when no post returned one. |
| SlackBridge.TagAll | claude/skills/slack-bridge/server.js:241-243 | Session tagging keeps one question per question. |
| SlackMessages.OptionButtons | claude/skills/slack-bridge/server.js:79-94 | There is one button per option, in option order. |
| SlackMessages.OptionButtonCarries | claude/skills/slack-bridge/server.js:79-94 | Button i shows label i. Its JSON value reads back as `{questionId, questionIndex, optionIndex: i, label}`. Its action id is `answer_<id>_<q>_<i>` and is never a free-text id. |
| SlackMessages.FreeTextButtonCarries | claude/skills/slack-bridge/server.js:97-110 | The free-text button's value reads back as `{questionId, questionIndex, question}` and has no option index. Its action id starts with `freetext_`. |
| SlackMessages.RowsShape | claude/skills/slack-bridge/server.js:113-118 | Cutting buttons into rows of five keeps every button in order. It makes ceil(n/5) rows of 1 to 5 buttons, and only the last row may hold fewer than five. |
| SlackMessages.QuestionBlocksShape | claude/skills/slack-bridge/server.js:59-121 | A question gets a header, a text and a divider, then ceil((n+1)/5) action blocks. Concatenated, their buttons are the n option buttons followed by the free-text button. |
| SlackMessages.BuildQuestionBlocks | claude/skills/slack-bridge/server.js:59-121 | The chunking loop builds exactly the blocks of the specification, with the block count and row sizes above. |
| SlackMessages.FreeTextModal | claude/skills/slack-bridge/server.js:124-168 | The modal's private metadata parses back to the question id and, when it is given, the question index. |
| SlackMessages.MetadataReadsBack | claude/skills/slack-bridge/server.js:140 | The metadata JSON reads back field by field. |
| SlackSignature.VerifySlackRequest | claude/skills/slack-bridge/server.js:14-39 | Without a secret, every request is accepted. With one, a request is accepted exactly when both headers are present, the timestamp is within 300 s and the signature equals `v0=` plus the HMAC of `v0:ts:body`. The check throws exactly when the headers are present, the timestamp is within the window and the signature's UTF-8 length differs from the expected one's. |
| SlackSignature.StaleRequestRejected | claude/skills/slack-bridge/server.js:25-27 | A timestamp more than 300 s from the clock is rejected, whatever the signature. |
| SlackSignature.NonNumericTimestampIgnoresClock | claude/skills/slack-bridge/server.js:27 | A timestamp that `parseInt` reads as NaN never fails the window test, so the verdict does not depend on the clock. |
| SlackSignature.DecimalTimestamp | claude/skills/slack-bridge/server.js:27 | A decimal timestamp parses back to its value. |
| SlackSignature.NotANumber | claude/skills/slack-bridge/server.js:27 | Text with no leading digit parses to NaN. |
| Json.RoundTrip | claude/skills/slack-bridge/server.js:87-92 | `JSON.parse(JSON.stringify(o))` gives back every field of a flat object. |
| Json.ParsedField | claude/skills/slack-bridge/server.js:339-340 | Each field of an object with distinct keys is read back from its JSON text. |
| Json.ParsedAbsent | claude/skills/slack-bridge/server.js:339-340 | A key the object lacks reads back as `undefined`. |
| Json.StringRoundTrip | claude/skills/slack-bridge/server.js:87-92 | An escaped string literal reads back exactly up to its closing quote. |
| Json.NatRoundTrip | claude/skills/slack-bridge/server.js:87-92 | A non-negative integer reads back from its decimal text. |
| PretoolGuard.EmitDecision | claude/hooks/pretool_guard.py:22-32 | The output is a `PreToolUse` decision carrying the given verdict. The reason member is present exactly when the reason is non-empty. |
| PretoolGuard.FirstAtKeys | claude/hooks/pretool_guard.py:38-41 | The result is the first path key holding a non-empty string, and there is none exactly when no key holds one. |
| PretoolGuard.FirstInList | claude/hooks/pretool_guard.py:42-47 | The result is the first non-empty string of a list. |
| PretoolGuard.TargetDirectory | claude/hooks/pretool_guard.py:35-57 | The directory of the chosen path, otherwise the input's `cwd`. |
| PretoolGuard.FilePathFirst | claude/hooks/pretool_guard.py:38-41 | A non-empty `file_path` is always the path that is taken. |
| PretoolGuard.FallbackExactly | claude/hooks/pretool_guard.py:35-57 | The working directory is used exactly when no key, list or edit names a non-empty path. |
| PretoolGuard.GetGitInfo | claude/hooks/pretool_guard.py:58-78 | The directory is in a repository exactly when the branch probe succeeds with a non-empty name; the branch and root are then the probes' output. A failing git call, or a target that is not a string or `None`, reads as "not a repository". `is_worktree` holds exactly when `<root>/.git` under a non-empty root is a file. |
| PretoolGuard.GitRules | claude/hooks/pretool_guard.py:114-143 | The rules after the git lookup always reach a decision. |
| PretoolGuard.BashAllowed | claude/hooks/pretool_guard.py:96-97 | Bash is always allowed. |
| PretoolGuard.OtherToolsAllowed | claude/hooks/pretool_guard.py:102-103 | A tool other than an editing tool is allowed, with its name in the reason. |
| PretoolGuard.AllowMainFileDenied | claude/hooks/pretool_guard.py:106-111 | Editing a file named `.allow-main` is denied, whatever git or the file system say. |
| PretoolGuard.ReachesGitRules | claude/hooks/pretool_guard.py:114-115 | Past the tool-name rules, the decision is the git rules applied to this input's path and git facts. |
| PretoolGuard.OutsideRepoAllowed | claude/hooks/pretool_guard.py:118-119 | Outside a repository, an edit is allowed. |
| PretoolGuard.AllowMainFlagAllows | claude/hooks/pretool_guard.py:122-124 | An `.allow-main` file at the repository root allows any edit. |
| PretoolGuard.MainBranchMarkdownOnly | claude/hooks/pretool_guard.py:127-140 | On `main` or `master` outside a worktree, without the flag, an edit is allowed if and only if its path is a string ending in `.md`. Otherwise it is denied. |
| PretoolGuard.MainBranchRule | claude/hooks/pretool_guard.py:127-140 | On a protected branch, Markdown is allowed with the Markdown reason and anything else is denied. |
| PretoolGuard.OtherBranchAllowed | claude/hooks/pretool_guard.py:143 | Any other branch, or any worktree, is allowed with `branch=<name>` as the reason. |
| PretoolGuard.WorktreeOnMainAllowed | claude/hooks/pretool_guard.py:70-78 | A worktree checkout of `main` is allowed. |
| CouplingAnalyzer.VolatilityLevelOf | plugins/kazuph-dotfiles/skills/code-coupling-analysis/templates/typescript-analyzer.ts:128-132 | At most 2 changes is Low, at most 10 is Medium, and more is High. |
| CouplingAnalyzer.VolatilityLevelMonotone | plugins/kazuph-dotfiles/skills/code-coupling-analysis/templates/typescript-analyzer.ts:128-132 | More changes never give a lower level. |
| CouplingAnalyzer.VolatilityScore | plugins/kazuph-dotfiles/skills/code-coupling-analysis/templates/typescript-analyzer.ts:134-145 | Every score lies in [0, 1], and Unknown scores 0.25. |
| CouplingAnalyzer.VolatilityScoreOrder | plugins/kazuph-dotfiles/skills/code-coupling-analysis/templates/typescript-analyzer.ts:134-145 | The score orders the levels strictly, with Unknown between Low and Medium. |
| CouplingAnalyzer.CountChanges | plugins/kazuph-dotfiles/skills/code-coupling-analysis/templates/typescript-analyzer.ts:116-120 | The counting loop counts exactly the non-blank log lines, each with its number of occurrences. |
| CouplingAnalyzer.CountsMeaning | plugins/kazuph-dotfiles/skills/code-coupling-analysis/templates/typescript-analyzer.ts:116-120 | The count map's keys are the non-blank lines, and each value is that line's number of occurrences. |
| CouplingAnalyzer.TargetLevel | plugins/kazuph-dotfiles/skills/code-coupling-analysis/templates/typescript-analyzer.ts:281 | A target with no recorded change is Unknown. Otherwise its level follows its change count. |
| CouplingAnalyzer.StrengthScore | plugins/kazuph-dotfiles/skills/code-coupling-analysis/templates/typescript-analyzer.ts:55-60 | Strength lies in (0, 1]. An unlisted import type scores as Functional (0.75). |
| CouplingAnalyzer.DistanceOf | plugins/kazuph-dotfiles/skills/code-coupling-analysis/templates/typescript-analyzer.ts:217-240 | Files in the same directory are the same module. Directories with the same first segment are siblings. Anything else is distant, and the result is never External. |
| CouplingAnalyzer.CalculateDistance | plugins/kazuph-dotfiles/skills/code-coupling-analysis/templates/typescript-analyzer.ts:62-67 | The score is the table's score for the computed distance, one of 0.25, 0.5 and 0.75. |
| CouplingAnalyzer.DistanceSymmetric | plugins/kazuph-dotfiles/skills/code-coupling-analysis/templates/typescript-analyzer.ts:217-240 | Distance is symmetric. |
| CouplingAnalyzer.RootFileIsDistant | plugins/kazuph-dotfiles/skills/code-coupling-analysis/templates/typescript-analyzer.ts:229-236 | A root file and a file in a subdirectory are distant. |
| CouplingAnalyzer.BalanceScore | plugins/kazuph-dotfiles/skills/code-coupling-analysis/templates/typescript-analyzer.ts:246-250 | The score is never above 1, and never negative for non-negative inputs. |
| CouplingAnalyzer.BalancedScoresZero | plugins/kazuph-dotfiles/skills/code-coupling-analysis/templates/typescript-analyzer.ts:246-250 | A coupling whose strength equals 1 minus its distance, with no volatility, scores 0. |
| CouplingAnalyzer.CouplingOf | plugins/kazuph-dotfiles/skills/code-coupling-analysis/templates/typescript-analyzer.ts:278-300 | Every score of one import lies in [0, 1]. The level is Unknown exactly when the target has no change. |
| CouplingAnalyzer.Extname | plugins/kazuph-dotfiles/skills/code-coupling-analysis/templates/typescript-analyzer.ts:89-93 | `path.extname` gives the text from the last dot, or nothing for dot files. |
| CouplingAnalyzer.DeclarationFilesSkipped | plugins/kazuph-dotfiles/skills/code-coupling-analysis/templates/typescript-analyzer.ts:89-93 | A `.d.ts` file has extension `.ts` but is never collected. |
| CouplingAnalyzer.EntryRule | plugins/kazuph-dotfiles/skills/code-coupling-analysis/templates/typescript-analyzer.ts:75-93 | A file is collected exactly when its name is wanted. An excluded directory contributes nothing. |
| CouplingAnalyzer.Walk | plugins/kazuph-dotfiles/skills/code-coupling-analysis/templates/typescript-analyzer.ts:78-97 | The walk appends exactly what the listing contributes, recursing into the directories it keeps. |
| CouplingAnalyzer.WalkEntry | plugins/kazuph-dotfiles/skills/code-coupling-analysis/templates/typescript-analyzer.ts:82-95 | One entry: a kept directory is walked, a wanted file is appended, and anything else is skipped. |
| CouplingAnalyzer.FindTypeScriptFiles | plugins/kazuph-dotfiles/skills/code-coupling-analysis/templates/typescript-analyzer.ts:73-101 | The result is the collected paths of the tree, joined with `path.join`. Each one is a wanted file's own entry name joined to the start directory through directories that are not excluded. |
| CouplingAnalyzer.TrailingSeparatorNotDoubled | plugins/kazuph-dotfiles/skills/code-coupling-analysis/templates/typescript-analyzer.ts:82 | A start directory written `src/` yields `src/a.ts`, not `src//a.ts`. |
| CouplingAnalyzer.FirstCandidate | plugins/kazuph-dotfiles/skills/code-coupling-analysis/templates/typescript-analyzer.ts:204-210 | The loop returns the first existing candidate, or the fallback when none exists. |
| NodePath.Segments | plugins/kazuph-dotfiles/skills/code-coupling-analysis/templates/typescript-analyzer.ts:82 | Every normalised segment is non-empty and not `.`. An absolute path keeps no `..`. In a relative one the `..` segments come first. |
| NodePath.PiecesSnoc | plugins/kazuph-dotfiles/skills/code-coupling-analysis/templates/typescript-analyzer.ts:82 | A name joined after a separator is the last piece. |
| NodePath.JoinSegment | plugins/kazuph-dotfiles/skills/code-coupling-analysis/templates/typescript-analyzer.ts:82 | Joining a directory with an entry name appends the name as one more segment to the directory's normalised segments. |
| NodePath.JoinOntoEmpty | plugins/kazuph-dotfiles/skills/code-coupling-analysis/templates/typescript-analyzer.ts:82 | Joining onto an empty directory gives the name. |
| NodePath.JoinTrailingSeparator | plugins/kazuph-dotfiles/skills/code-coupling-analysis/templates/typescript-analyzer.ts:82 | A trailing `/` on the directory is dropped. |
| NodePath.JoinDotPrefix | plugins/kazuph-dotfiles/skills/code-coupling-analysis/templates/typescript-analyzer.ts:82 | A leading `./` on the directory is dropped. |
| NodePath.JoinParentPiece | plugins/kazuph-dotfiles/skills/code-coupling-analysis/templates/typescript-analyzer.ts:192 | A `..` piece takes back the piece before it. |
| NodePath.JoinDot | plugins/kazuph-dotfiles/skills/code-coupling-analysis/templates/typescript-analyzer.ts:82 | Joining onto `.` gives the name. |
| NodePath.PiecesSnocTwo | claude/hooks/stop-notify-tmux.js:43 | Two names after the last two separators are the last two pieces. |
| NodePath.SegmentsSnoc | claude/hooks/stop-notify-tmux.js:43 | Pushing a segment other than `..` appends it to the normalised segments. |
| NodePath.JoinTwoSegments | claude/hooks/stop-notify-tmux.js:43 | Joining a directory with `a/b` appends both names to the directory's normalised segments. |
| NodePath.NormalDirectorySegments | claude/hooks/stop-notify-tmux.js:43 | A directory in normal form with no trailing `/` is rendered from at least one segment. |
| NodePath.RenderSnoc | claude/hooks/stop-notify-tmux.js:43 | One or two more segments are rendered after a `/`. |
| NodePath.JoinNormalDirectory | claude/hooks/stop-notify-tmux.js:43 | A directory in normal form joined with `a/b` is the plain `dir/a/b`. |
| NodePath.JoinNormalDirectoryName | claude/hooks/stop-notify-tmux.js:40 | A directory in normal form joined with one entry name is the plain `dir/name`. |
| NodePath.JoinAfterTrailingSeparator | claude/hooks/stop-notify-tmux.js:43 | A trailing `/` on a non-empty directory does not change what joining `a/b` onto it gives. |
| CouplingAnalyzer.CollectedAreWanted | plugins/kazuph-dotfiles/skills/code-coupling-analysis/templates/typescript-analyzer.ts:83-93 | Every collected path is the start directory, then names of non-excluded directories, then the name of a file with a wanted extension and no excluded pattern, joined with separators. |
| CouplingAnalyzer.KeptImports | plugins/kazuph-dotfiles/skills/code-coupling-analysis/templates/typescript-analyzer.ts:160-163 | A source is kept exactly when it is local: it starts with `.`, `@/` or `~/`. |
| CouplingAnalyzer.KeptImportsAppend | plugins/kazuph-dotfiles/skills/code-coupling-analysis/templates/typescript-analyzer.ts:158-163 | The kept sources of a list are those of its parts, in the same order. |
| CouplingAnalyzer.KeptImportsOne | plugins/kazuph-dotfiles/skills/code-coupling-analysis/templates/typescript-analyzer.ts:160-163 | One source alone is kept exactly when it is local. |
| CouplingAnalyzer.Candidates | plugins/kazuph-dotfiles/skills/code-coupling-analysis/templates/typescript-analyzer.ts:197-202 | The nine candidates are the base, the base with each of the four extensions, and the four index files. |
| CouplingAnalyzer.FirstExisting | plugins/kazuph-dotfiles/skills/code-coupling-analysis/templates/typescript-analyzer.ts:204-210 | The result is the first existing candidate. There is none exactly when no candidate exists. |
| CouplingAnalyzer.ResolveImportPath | plugins/kazuph-dotfiles/skills/code-coupling-analysis/templates/typescript-analyzer.ts:187-211 | The result is the first existing candidate, or the base path when none exists. |
| SlackNotifier.Webhook.constructor | claude/hooks/slack-notifier-unified.mjs:342-350 | Nothing is saved, no modal is open and no shutdown is scheduled. |
| SlackNotifier.Webhook.Handle | claude/hooks/slack-notifier-unified.mjs:342-470 | A challenge is echoed with no change. A "custom" click opens the modal and saves nothing. Any other click saves `{action, user, channel}`, replies ephemerally and schedules the shutdown. A submission saves the typed text and clears the view. A 500 changes nothing. |
| SlackNotifier.LineMessage | claude/hooks/slack-notifier-unified.mjs:588-607 | A line contributes only a non-blank text. |
| SlackNotifier.ScanLineItems | claude/hooks/slack-notifier-unified.mjs:597-603 | The item loop stops at the first non-blank text item. |
| SlackNotifier.ScanTranscript | claude/hooks/slack-notifier-unified.mjs:586-612 | The reverse scan yields the latest line's message. |
| SlackNotifier.MessageOrDefault | claude/hooks/slack-notifier-unified.mjs:614 | A missing message falls back to the default text. A found one is kept. |
| SlackNotifier.CleanMessageShape | claude/hooks/slack-notifier-unified.mjs:619-622 | The cleaned message has no three newlines in a row, no tab, no two adjacent blanks and no whitespace at either end. |
| SlackNotifier.CleanKeepsText | claude/hooks/slack-notifier-unified.mjs:619-622 | Cleaning changes only whitespace: every other character occurs as often as before. |
| SlackNotifier.ReadStdin | claude/hooks/slack-notifier-unified.mjs:686-704 | EAGAIN is retried at most five times, retry k waiting 10·2^(k−1) ms. Any other error, or a sixth EAGAIN, is thrown. |
| SlackNotifier.TotalWait | claude/hooks/slack-notifier-unified.mjs:693-697 | n retries wait 10·(2^n − 1) ms in all, never more than 310 ms. |
| SlackNotifier.OnExistingLock | claude/hooks/slack-notifier-unified.mjs:74-89 | A corrupt lock, or one older than 180000 ms, is removed and the lock is retried. Otherwise the lock is busy. |
| SlackNotifier.LockAges | claude/hooks/slack-notifier-unified.mjs:78 | A stale lock stays stale as time passes. |
| Transcript.NonBlankLines | claude/hooks/stop-notify-tmux.js:54 | A line is kept exactly when it is not blank. |
| Transcript.NonBlankLinesAppend | claude/hooks/stop-notify-tmux.js:54 | The kept lines of a text are those of its parts, in the same order. |
| Transcript.NonBlankLinesOne | claude/hooks/stop-notify-tmux.js:54 | One line alone is kept exactly when it is not blank. |
| Transcript.NonBlankLinesLast | claude/hooks/stop-send-notification.js:40-53 | The last kept line is a non-blank line of the text with only blank lines after it. |
| Transcript.ParseLines | claude/hooks/stop-notify-tmux.js:70 | Each line is parsed separately. |
| Transcript.FindItem | claude/hooks/stop-notify-tmux.js:73-74 | The first matching item is found. There is no match exactly when every item is an object that does not match. |
| Transcript.LatestNone | claude/hooks/stop-notify-tmux.js:67-83 | The reverse scan finds nothing exactly when no line yields a message. |
| Transcript.LatestIsLatest | claude/hooks/stop-notify-tmux.js:67-83 | A found message is the message of some line, and no later line yields one. |
| Notification.ExpandHome | claude/hooks/stop-notify-tmux.js:39-41 | A leading `~/` is replaced by the home directory and the rest joined with the `path.join` model, so the result is normalised. Any other path is unchanged. |
| Notification.AllowedBaseOfNormalHome | claude/hooks/stop-notify-tmux.js:43 | For a home directory in normal form, the `path.join` base is the plain `home/.claude/projects`. |
| Notification.AllowedBaseTrailingSeparator | claude/hooks/stop-notify-tmux.js:43 | A home directory with a trailing `/` gives the same base as the home without it. |
| Notification.ExpandHomeOfNormalHome | claude/hooks/stop-notify-tmux.js:39-41 | For a home directory in normal form, `~/name` expands to `home/name`. |
| Notification.TranscriptPath | claude/hooks/stop-notify-tmux.js:31-50 | A missing or empty path exits 0. A resolved path that does not begin with the base `path.join(home, '.claude', 'projects')` exits 1. Otherwise the resolved path is read. |
| Notification.HomeTrailingSeparatorGuardsAlike | claude/hooks/stop-notify-tmux.js:36-50 | For a path without `~/`, a home with a trailing `/` gives the same guard result as the home without it. |
| Notification.ProjectFileReadUnderTrailingHome | claude/hooks/stop-notify-tmux.js:36-50 | A path below `home/.claude/projects` is read even when the home is given with a trailing `/`. |
| Notification.PrefixGuardAdmitsSibling | claude/hooks/stop-notify-tmux.js:43-50 | The prefix test also admits a sibling directory such as `projects-other`, which lies outside the projects directory. |
| Notification.InsideIsPrefixAtBoundary | claude/hooks/stop-send-notification.js:29-36 | The plain prefix test of these lines accepts more than a directory test: a path is inside the projects directory exactly when it passes the prefix test and then ends or continues with a separator. |
| Notification.TranscriptPathInside | claude/hooks/stop-send-notification.js:29-36 | The intended guard: the same exits, except that the resolved path must be the projects directory or lie below it. |
| Notification.GuardsDifferOnSiblings | claude/hooks/stop-notify-tmux.js:43-50 | The guard as written and the intended one differ exactly on resolved paths that begin with the projects directory's name and continue with something other than a separator. |
| Notification.NormalizeShape | claude/hooks/stop-notify-tmux.js:178-181 | The normalised message has only single spaces as whitespace, none at either end. |
| Notification.NormalizeKeepsText | claude/hooks/stop-notify-tmux.js:178-181 | Normalisation keeps every non-whitespace character. |
| Notification.Truncate | claude/hooks/stop-notify-tmux.js:182-184 | A short message is kept. A long one becomes exactly the maximum length: a prefix of the message plus `...`. |
| Notification.TmuxSocket | claude/hooks/stop-notify-tmux.js:105-120 | `$TMUX` up to its first comma, otherwise the default socket for the uid if it exists. |
| Notification.TmuxInfoOf | claude/hooks/stop-notify-tmux.js:124-169 | A session name survives only when all four queries succeed. |
| Notification.GatherTmuxInfo | claude/hooks/stop-notify-tmux.js:124-169 | The four queries run in order inside one `try`. The `catch` clears the session name. |
| Notification.CleanTitle | claude/hooks/stop-notify-tmux.js:172 | A title that does not start with a non-ASCII character is only cut to 30 characters. Otherwise the result is the first 30 characters after the whole leading non-ASCII run and the whole run of spaces after it; `DroppedPrefix` pins both runs as maximal. |
| Notification.DroppedPrefixUnique | claude/hooks/stop-notify-tmux.js:172 | The dropped prefix is unique: the greedy pattern has exactly one match. |
| Notification.TitleShape | claude/hooks/stop-notify-tmux.js:173-175 | Outside tmux the title is `Claude Code`. Inside, it starts with the pane header. |
| Notification.TerminalApp | claude/hooks/stop-notify-tmux.js:100 | `TERM_PROGRAM`, or `Ghostty` when that is unset or empty. |
| Notification.AppName | claude/hooks/stop-notify-tmux.js:192-200 | Mapped terminal names are translated, and others pass through. |
| Notification.AppNameIdempotent | claude/hooks/stop-notify-tmux.js:192-200 | Translating twice is translating once. |
| Notification.TmuxCommand | claude/hooks/stop-notify-tmux.js:205-207 | The tmux binary, pinned with `-S` to the socket when one is known. |
| Notification.FocusCommandParts | claude/hooks/stop-notify-tmux.js:208-212 | The focus command is the activation, the window selection and the pane selection, joined with ` && `. |
| StopNotifyTmux.LineText | claude/hooks/stop-notify-tmux.js:70-80 | Only an assistant line's first non-empty text item counts. |
| StopNotifyTmux.ScanForText | claude/hooks/stop-notify-tmux.js:67-83 | The reverse loop with its `break` finds the latest message. |
| StopNotifyTmux.Run | claude/hooks/stop-notify-tmux.js:22-249 | Re-entry exits 0. The path guard's exits are kept. A notification is sent exactly when a message is found, with the normalised, truncated message and the tmux title. |
| StopSendNotification.FirstItemText | claude/hooks/stop-send-notification.js:53-62 | There is a text exactly when the content is a list whose first element is an item, and then it is that item's text, whatever the role. |
| StopSendNotification.StripMarker | claude/hooks/stop-send-notification.js:82 | One leading ✳ or U+FE0F and the whitespace after it are removed. Nothing else changes. |
| StopSendNotification.TitleShape | claude/hooks/stop-send-notification.js:66-88 | The title is `Claude Code` when a query fails. Otherwise it starts with the window and pane header. |
| StopSendNotification.EscapeRoundTrip | claude/hooks/stop-send-notification.js:106 | The corrected escape round-trips: AppleScript reads back exactly the message. |
| StopSendNotification.AsWrittenRejectsQuotes | claude/hooks/stop-send-notification.js:106 | With the escape as written, a message containing a quote never reads back. Any other message does. |
| StopSendNotification.AsWrittenQuoteExample | claude/hooks/stop-send-notification.js:106 | With the escape as written, the message `"` becomes `\\"`, which ends the AppleScript string early. |
| StopSendNotification.EscapesAgreeWithoutQuotes | claude/hooks/stop-send-notification.js:106 | For a message without a quote, the escape as written and the corrected one give the same text. |
| StopSendNotification.ScriptIsCorrectedWithoutQuotes | claude/hooks/stop-send-notification.js:106 | The hook's script equals the corrected one when the message has no quote. With a quote, only the corrected escape reads back. |
| StopSendNotification.LastLine | claude/hooks/stop-send-notification.js:40-53 | There is no line exactly when the transcript is unreadable or every line is blank. Otherwise the result is a non-blank line with only blank lines after it. |
| StopSendNotification.LastMessage | claude/hooks/stop-send-notification.js:53-64 | There is a message exactly when the last line parses and its first item has a non-empty text, and then it is that text. |
| StopSendNotification.Run | claude/hooks/stop-send-notification.js:14-121 | The path guard's exits are kept. A readable transcript without a message exits 0. A notification is shown exactly when the last line has a message. Its script holds the normalised, truncated text escaped as the hook escapes it, quotes first. |
| AskUserNotify.QuestionSummary | claude/hooks/ask-user-notify.js:29-35 | The summary the hook computes is `Summary` of the questions. |
| AskUserNotify.Summary | claude/hooks/ask-user-notify.js:29-35 | The first question's text, cut to 150 characters, when there is one. Otherwise the default text. |
| AskUserNotify.NotifyMessage | claude/hooks/ask-user-notify.js:157 | The message starts with the hand emoji and a space, ends with the summary, and is two characters longer than the summary. |
| AskUserNotify.FocusCommandFor | claude/hooks/ask-user-notify.js:149-155 | There is a click command exactly inside tmux. |
| AskUserNotify.Run | claude/hooks/ask-user-notify.js:52-201 | The message is the hand emoji and the summary of the questions; the title, the subtitle and the click command are those of the tmux pane. |
| DotEnv.ParseLine | claude/skills/gemini-icon-creator/scripts/gen_image.py:66-69 | A line yields a pair exactly when, once stripped, it is non-empty, is not a comment and contains `=`. |
| DotEnv.ParsedEntryShape | claude/skills/gemini-icon-creator/scripts/gen_image.py:69-70 | A key holds no `=`, and neither the key nor the value has surrounding whitespace. |
| DotEnv.ParseLineRoundTrip | claude/skills/gemini-icon-creator/scripts/gen_image.py:66-70 | `key=value` reads back as the pair. |
| DotEnv.SetDefaultsLookup | claude/skills/gemini-icon-creator/scripts/gen_image.py:70 | `setdefault` never overwrites. An unset key takes its first value. |
| DotEnv.EarliestFileWins | claude/skills/gemini-audio-transcriber/scripts/transcribe_audio.py:31-49 | The earliest file that defines a key supplies its value. |
| DotEnv.Environ.constructor | claude/skills/gemini-icon-creator/scripts/gen_image.py:55-70 | The environment starts as given. |
| DotEnv.FoundInFile | claude/skills/gemini-icon-creator/scripts/gen_image.py:65-70 | Every pair read from a line of a file is among the file's pairs. |
| DotEnv.EmptyKeyInFile | claude/skills/gemini-icon-creator/scripts/gen_image.py:65-70 | A line with an empty key gives its file an empty key. |
| DotEnv.HasEmptyKeyConcat | claude/skills/gemini-icon-creator/scripts/gen_image.py:62-70 | Two lists of pairs have an empty key exactly when one of them has. |
| DotEnv.Environ.SetDefault | claude/skills/gemini-icon-creator/scripts/gen_image.py:70 | `os.environ.setdefault` sets a key only when it is absent. |
| DotEnv.Environ.Load | claude/skills/gemini-icon-creator/scripts/gen_image.py:62-70 | The loop over the files and their lines sets the defaults of all pairs, in order. |
| DotEnv.Environ.LoadCandidate | claude/skills/gemini-icon-creator/scripts/gen_image.py:62-65 | A missing file changes nothing. An existing one sets the defaults of its pairs. |
| DotEnv.Environ.LoadFile | claude/skills/gemini-icon-creator/scripts/gen_image.py:65-70 | Each line's pair is set as a default, in order. |
| DotEnv.Environ.LoadLine | claude/skills/gemini-icon-creator/scripts/gen_image.py:66-70 | One line: its pair, if any, is set as a default on top of the earlier lines' result. |
| GenImage.ResolveModel | claude/skills/gemini-icon-creator/scripts/gen_image.py:81-83 | An alias, in any ASCII case, maps to its model. Any other name is kept. |
| GenImage.ResolveModelIdempotent | claude/skills/gemini-icon-creator/scripts/gen_image.py:29-38 | Resolving twice is resolving once. |
| GenImage.DetermineExtension | claude/skills/gemini-icon-creator/scripts/gen_image.py:129-136 | A path with a suffix is kept. Otherwise it gets the guessed extension, or `.png`. |
| GenImage.DirectoryFormGetsPng | claude/skills/gemini-icon-creator/scripts/gen_image.py:218 | `out/` and `out/.` settle to `out.png` when there is no MIME type. |
| GenImage.DirectoryFormSavedAsPng | claude/skills/gemini-icon-creator/scripts/gen_image.py:218-238 | With output `out/` or `out/.` and an image without a MIME type, the script saves `out.png`. |
| GenImage.ChosenExtension | claude/skills/gemini-icon-creator/scripts/gen_image.py:133-136 | The guessed extension when non-empty, otherwise `.png`. |
| GenImage.ExtensionAdded | claude/skills/gemini-icon-creator/scripts/gen_image.py:129-136 | A suffix-less path ends up with the chosen extension as its suffix. |
| GenImage.PngByDefault | claude/skills/gemini-icon-creator/scripts/gen_image.py:136 | Without a MIME type, `.png` is appended. |
| GenImage.ExistingSuffixKept | claude/skills/gemini-icon-creator/scripts/gen_image.py:131-132 | An existing suffix is kept whatever the MIME type. |
| GenImage.LoadEnv | claude/skills/gemini-icon-creator/scripts/gen_image.py:55-70 | It raises exactly when some pair has an empty key. Otherwise the skill's `.env` and then the home one are loaded with `setdefault`. |
| GenImage.EmptyKeyRaises | claude/skills/gemini-icon-creator/scripts/gen_image.py:69-70 | A line of either existing file that splits into an empty key makes `load_env` raise. |
| GenImage.EmptyKeyLine | claude/skills/gemini-icon-creator/scripts/gen_image.py:66-69 | `=x` splits into the empty key and `x`. |
| GenImage.LoadEnvLookup | claude/skills/gemini-icon-creator/scripts/gen_image.py:57-70 | A set variable keeps its value. Otherwise the skill file wins over the home file. |
| GenImage.Run | claude/skills/gemini-icon-creator/scripts/gen_image.py:191-242 | A bad aspect exits 2. An image is saved only with a prompt, an output path and an image returned by the model. |
| GenImage.MissingArgumentExits | claude/skills/gemini-icon-creator/scripts/gen_image.py:212-215 | A missing prompt or output exits 2 before the model is asked. |
| GenImage.RunScript | claude/skills/gemini-icon-creator/scripts/gen_image.py:191-242 | The script ends with the `load_env` error exactly when some pair has an empty key. Otherwise it runs `main` on the loaded environment. |
| TranscribeAudio.MimeType | claude/skills/gemini-audio-transcriber/scripts/transcribe_audio.py:64-76 | The table's type for the lower-cased suffix, otherwise `audio/mp4`. |
| TranscribeAudio.MimeTypeOfExtension | claude/skills/gemini-audio-transcriber/scripts/transcribe_audio.py:64-76 | A listed extension, in any case, gets its type. |
| TranscribeAudio.MimeTypeWithoutSuffix | claude/skills/gemini-audio-transcriber/scripts/transcribe_audio.py:75-76 | A file without an extension is sent as `audio/mp4`. |
| TranscribeAudio.FormatAsMarkdown | claude/skills/gemini-audio-transcriber/scripts/transcribe_audio.py:113-118 | The document starts with the heading and has the expected length. |
| TranscribeAudio.ReadMarkdown | claude/skills/gemini-audio-transcriber/scripts/transcribe_audio.py:113-118 | A document read back has a newline-free name and its length. |
| TranscribeAudio.MarkdownRoundTrip | claude/skills/gemini-audio-transcriber/scripts/transcribe_audio.py:113-118 | The transcript and the file name are recovered from the Markdown. |
| TranscribeAudio.MarkdownInjective | claude/skills/gemini-audio-transcriber/scripts/transcribe_audio.py:113-118 | Different inputs give different documents. |
| TranscribeAudio.LoadEnvFromSkill | claude/skills/gemini-audio-transcriber/scripts/transcribe_audio.py:27-49 | The four candidate files are loaded in order, keeping only non-empty pairs. |
| TranscribeAudio.LoadedVariablesNonEmpty | claude/skills/gemini-audio-transcriber/scripts/transcribe_audio.py:46-49 | Every variable added has a non-empty name and value. Others are untouched. |
| TranscribeAudio.Run | claude/skills/gemini-audio-transcriber/scripts/transcribe_audio.py:147-174 | A bad format exits 2. A missing file always exits, and with a valid format and a key it exits 1. A write goes to `Path(output)`'s normal form of the non-empty output. The MIME type and the document name are taken from the resolved path. |
| TranscribeAudio.Deliver | claude/skills/gemini-audio-transcriber/scripts/transcribe_audio.py:168-174 | The text is written to `Path(output)`'s normal form when a non-empty output is given. Otherwise it is printed with a newline. |
| TranscribeAudio.DirectoryFormWritten | claude/skills/gemini-audio-transcriber/scripts/transcribe_audio.py:169-171 | An output in directory form, `out/` or `out/.`, writes the file `out`. |
| TranscribeAudio.RunTranscribes | claude/skills/gemini-audio-transcriber/scripts/transcribe_audio.py:151-174 | In `md` format, the model is asked with the MIME type of the resolved path, and the output reads back as its transcript under the resolved path's name. |
| TranscribeAudio.RunScript | claude/skills/gemini-audio-transcriber/scripts/transcribe_audio.py:147-174 | The `.env` files are loaded, then `main` runs. |
| VerifyVoices.NormalizeByChar | claude/skills/remotion-qwen-tts/scripts/verify-voices.py:57-66 | Each character outside the class is kept, after the kana table and lower-casing. |
| VerifyVoices.NormalizeRemoves | claude/skills/remotion-qwen-tts/scripts/verify-voices.py:60 | The result is never longer than the text. No class character is left. An `s` comes only from an `S`. |
| VerifyVoices.KanaTableShape | claude/skills/remotion-qwen-tts/scripts/verify-voices.py:62-65 | The 56 listed katakana map to their hiragana. Nothing else is touched. |
| VerifyVoices.KanaPaired | claude/skills/remotion-qwen-tts/scripts/verify-voices.py:62-65 | The two rows of the table pair each katakana with its hiragana. |
| VerifyVoices.KatakanaFolded | claude/skills/remotion-qwen-tts/scripts/verify-voices.py:62-66 | Each listed katakana letter normalises to its hiragana. |
| VerifyVoices.RemoveRunsIsFilter | claude/skills/remotion-qwen-tts/scripts/verify-voices.py:60 | Removing runs keeps exactly the characters outside the class. |
| VerifyVoices.SpaceKept | claude/skills/remotion-qwen-tts/scripts/verify-voices.py:60 | A space is kept. |
| VerifyVoices.LowerSDropped | claude/skills/remotion-qwen-tts/scripts/verify-voices.py:60 | A lower-case `s` is dropped. |
| VerifyVoices.UpperSLowered | claude/skills/remotion-qwen-tts/scripts/verify-voices.py:60 | `S` becomes `s`. |
| VerifyVoices.RegexClassWitness | claude/skills/remotion-qwen-tts/scripts/verify-voices.py:57-66 | Normalising is not idempotent, and `S` and `s` differ. |
| VerifyVoices.VoicedKanaWitness | claude/skills/remotion-qwen-tts/scripts/verify-voices.py:62-65 | `ガ` stays katakana while `が` is hiragana. |
| VerifyVoices.NormalizeIntended | claude/skills/remotion-qwen-tts/scripts/verify-voices.py:57-66 | The intended key has no punctuation or whitespace left. |
| VerifyVoices.NormalizeIntendedIdempotent | claude/skills/remotion-qwen-tts/scripts/verify-voices.py:57-66 | Normalising twice is normalising once. |
| VerifyVoices.NormalizeIntendedIgnoresCase | claude/skills/remotion-qwen-tts/scripts/verify-voices.py:66 | Upper and lower case give the same key. |
| VerifyVoices.NormalizeIntendedIgnoresKana | claude/skills/remotion-qwen-tts/scripts/verify-voices.py:62-65 | Katakana and hiragana, voiced letters included, give the same key. |
| Text.TrimEmpty | claude/hooks/stop-notify-tmux.js:54 | Trimming leaves nothing exactly when every character is in the class. |
| Text.TrimEnds | claude/hooks/stop-notify-tmux.js:181 | A trimmed string starts and ends outside the class, so trimming is idempotent. |
| Text.CollapsedRuns | claude/hooks/slack-notifier-unified.mjs:620 | Collapsing runs leaves no two neighbouring class characters. |
| Text.CappedNewlineRuns | claude/hooks/slack-notifier-unified.mjs:619 | After the replacement there are never three newlines in a row. |
| Text.NatToStringValue | claude/skills/slack-bridge/server.js:93 | A rendered number reads back as itself. |
| Text.NatToStringInjective | claude/skills/slack-bridge/server.js:93 | Distinct numbers render differently. |
| Text.AsciiLower | claude/skills/gemini-icon-creator/scripts/gen_image.py:83 | Only ASCII letters are lowered, and the length is kept. |
| PurePath.Parts | claude/skills/gemini-icon-creator/scripts/gen_image.py:218 | The kept components are non-empty, not `.` and hold no `/`. |
| PurePath.Anchor | claude/skills/gemini-icon-creator/scripts/gen_image.py:218 | The anchor is empty, `/` or `//`, and it is empty exactly when the string is relative. |
| PurePath.FromString | claude/skills/gemini-icon-creator/scripts/gen_image.py:218 | The path string is never empty. |
| PurePath.NameOfFromString | claude/skills/gemini-icon-creator/scripts/gen_image.py:218 | The name of the path is its last kept component, or empty when there is none. |
| PurePath.FromStringIdempotent | claude/skills/gemini-icon-creator/scripts/gen_image.py:218 | Putting a path into normal form twice is doing it once. |
| PurePath.TrailingPiecesDropped | claude/skills/gemini-icon-creator/scripts/gen_image.py:218 | A trailing `/` or `/.` does not change a one-component path. |
| PurePath.PartsOfJoin | claude/skills/gemini-icon-creator/scripts/gen_image.py:218 | Splitting joined clean components gives them back. |
| PurePath.Name | claude/skills/gemini-icon-creator/scripts/gen_image.py:131 | The name is the last component, without a slash. |
| PurePath.Suffix | claude/skills/gemini-icon-creator/scripts/gen_image.py:131 | The suffix runs from the last dot that is neither first nor last. A dot file has none. |
| PurePath.WithSuffix | claude/skills/gemini-icon-creator/scripts/gen_image.py:135-136 | `ValueError` on an invalid suffix or an empty name. Otherwise the old suffix is replaced. |
| PurePath.WithSuffixRoundTrip | claude/skills/gemini-icon-creator/scripts/gen_image.py:136 | A set suffix reads back. |

## Left out

- **Network and library calls are parameters of the model.** These are `postToSlack`, `views.open`, the Gemini client, `fetch` and HMAC-SHA256. Their results are inputs, and thrown errors are boolean inputs.
- **Constant-time comparison.** `crypto.timingSafeEqual` is modelled as string equality, plus the throw on a length mismatch measured in UTF-8 bytes.
- **Terminal activation, tmux and `osascript`.** These are recorded effects or query results. Process spawning, exit codes of child processes and timing are not modelled.
- **HTTP and parsing.** The HTTP server plumbing is left out: routing, headers, body accumulation, and the 404 path. `URLSearchParams` and `JSON.parse` of request bodies are left out too: handlers receive pre-parsed payloads, `None` when parsing throws.
- **Promises and timers.** These become discrete events: settling a waiter and firing a timer. Concurrent interleavings beyond one event at a time are not modelled. The notifier's one-second shutdown timer is a flag.
- **File I/O.** The transcript read, the lock file's creation, the `.env` file discovery, `os.path.exists`, the directory listing and the `git log` output are all parameters.
- **The analyzer's regex scanning.** The import regular expressions and the strength-type detection of `extractImports` are left out. Only the filter on matched sources is modelled.
- **The analyzer's report.** `analyze`'s averages over all couplings and the HTML report are left out.
- **The lock file's other parts.** Only the decision about an existing lock is modelled. Acquisition via the temporary file and its removal are left out.
- **Path resolution.** `path.resolve`, `Path.resolve`, `path.relative`, `os.path.abspath` and `mimetypes.guess_extension` are parameters.
- **`gen_image.py`'s `list_available_models`.** It is a network listing and its output is printed. Only the `--list-models` outcome is modelled.
- **argparse** is modelled through its `choices` checks and required values only.
- **Text.AsciiLower: Python `str.lower`.** It is modelled on ASCII letters only. Lower-casing outside ASCII is not modelled.
- **CouplingAnalyzer.BalanceScore: real numbers instead of floating point.** The scores are Dafny `real`s, so rounding is not modelled.
- **Python `re`.** `re.sub` and the JavaScript regular expressions are modelled by the run replacement in `Text`, not by a general regex engine.
- **Console output.** Logging is left out.
- SlackBridge.PendingTable.OptionClick: the button value is read with the flat-object JSON parser of `Json`, so a value `JSON.parse` accepts but that parser does not (whitespace, booleans, negative numbers, nesting, a scalar) gives 500 here where the source goes on. Values the bridge itself builds parse the same way.
- SlackBridge.PendingTable.FreeTextClick: the same narrower parser reads the free-text button value.
- SlackBridge.PendingTable.Submit: the same narrower parser reads the modal's private metadata.
- SlackBridge.KeyOf: only a string `questionId` can name an entry, so a numeric id sent in a JSON body is not representable.
- Notification.Truncate: lengths are counted in Unicode code points, while JavaScript's `.length` and `.substring` count UTF-16 code units. A message with characters outside the Basic Multilingual Plane (emoji) is cut at another place, and the cut never splits a surrogate pair here.
- Notification.CleanTitle: the 30-character cut counts code points, not UTF-16 code units.
- AskUserNotify.Summary: the 150-character cut counts code points, not UTF-16 code units.
- AskUserNotify.QuestionSummary: the same code-point cut.
- AskUserNotify.NotifyMessage: its length is counted in code points.
- DotEnv.Environ.SetDefault: an empty key is set here, while `os.environ` refuses it and raises (on POSIX, `setenv` fails and the error is an `OSError`). `GenImage.LoadEnv` reports that case as its `raised` result.
- GenImage.LoadEnv: when it raises, the environment it leaves behind is not stated, because the process ends with the error.
- GenImage.RunScript: the same. After the `load_env` error only the outcome is stated.

## Findings

The hooks' `Run` functions use the transcript guard and the AppleScript escape as written. The corrected members are proved beside them.

| source | as written | input that shows it | evidently intended | confidence | as-written member | corrected member |
|---|---|---|---|---|---|---|
| claude/skills/remotion-qwen-tts/scripts/verify-voices.py:60 | The raw-string class `[、。！？!?,.\\s]` holds a backslash and the letter `s`, not whitespace. | `"s"` normalises to `""`, `" "` stays `" "`, and `"S"` becomes `"s"`, so normalising twice differs from once. | The class meant whitespace. The key should ignore spaces and case and be idempotent. | not executed | VerifyVoices.RegexClassWitness | VerifyVoices.NormalizeIntendedIdempotent |
| claude/skills/remotion-qwen-tts/scripts/verify-voices.py:62-65 | The katakana table lists 56 plain letters and no voiced or semi-voiced ones. | `"ガ"` stays `"ガ"` while `"が"` stays `"が"`, so the two never compare equal. | Every katakana letter should fold to its hiragana. | not executed | VerifyVoices.VoicedKanaWitness | VerifyVoices.NormalizeIntendedIgnoresKana |
| claude/hooks/stop-notify-tmux.js:47 | The guard tests `resolvedPath.startsWith(allowedBase)` with no separator after the base. The same test is at `stop-send-notification.js:33`. | `~/.claude/projects-other/t.jsonl` passes the guard and is read. | Only the projects directory and paths below it should pass. | not executed | Notification.PrefixGuardAdmitsSibling | Notification.TranscriptPathInside |
| claude/hooks/stop-send-notification.js:106 | Quotes are escaped before backslashes are doubled, so the added backslash is doubled too. | The message `"` becomes `\\"`, which AppleScript reads as a backslash and the end of the string. | Double backslashes first, then escape quotes, so that every message reads back. | not executed | StopSendNotification.AsWrittenRejectsQuotes | StopSendNotification.EscapeRoundTrip |
