/**
 * The Stop hook that raises a desktop notification with the assistant's
 * last answer and, inside tmux, a click action that returns to the pane.
 */
module StopNotifyTmux {
  import opened Wrappers
  import opened Text
  import opened Transcript
  import opened Notification

  const MaxMessageLength := 200

  /** The hook's item test, `c.type === 'text'`: the text itself is not looked at. */
  predicate IsTextTyped(it: Item) {
    it.Item? && it.kind == Some("text")
  }

  /**
   * What one line contributes: for an assistant entry with a content array,
   * the text of its first `text` item when that text is non-empty. A later
   * text item is never consulted, and a `null` before the first one makes
   * `find` throw, which skips the line.
   */
  function LineText(line: Option<Line>): (r: Option<string>)
    ensures r.Some? ==> r.value != ""
    ensures r.Some? ==> line.Some? && line.value.role == Some("assistant")
  {
    match line
    case None => None
    case Some(l) =>
      if l.role != Some("assistant") || l.content.NotArray? then None
      else
        match FindItem(l.content.items, IsTextTyped)
        case FoundItem(it) => if it.text.Some? && it.text.value != "" then it.text else None
        case _ => None
  }

  /** The reverse `for` loop with its `break`, over the parsed non-blank lines. */
  method ScanForText(lines: seq<Option<Line>>) returns (lastMessageContent: Option<string>)
    ensures lastMessageContent == Latest(lines, LineText)
  {
    lastMessageContent := None;
    var i := |lines|;
    assert lines[..i] == lines;
    while i > 0
      invariant 0 <= i <= |lines|
      invariant Latest(lines, LineText) == Latest(lines[..i], LineText)
      invariant lastMessageContent.None?
    {
      assert lines[..i][..i - 1] == lines[..i - 1];
      var entry := lines[i - 1];
      if entry.Some? && entry.value.role == Some("assistant") && entry.value.content.Items? {
        var textContent := FindItem(entry.value.content.items, IsTextTyped);
        if textContent.FoundItem? && textContent.item.text.Some? && textContent.item.text.value != "" {
          lastMessageContent := textContent.item.text;
          return;
        }
      }
      i := i - 1;
    }
  }

  /** What the hook does: exit with a code, or post a notification (with a click command inside tmux). */
  datatype Outcome = Exited(code: int) | Notified(title: string, message: string, execute: Option<string>)

  /** The session's transcript, as far as the hook sees it: the parsed non-blank lines of the file, `None` when unreadable. */
  function TranscriptLines(readLines: string -> Option<seq<string>>, path: string, parse: string -> Option<Line>): Option<seq<Option<Line>>> {
    match readLines(path)
    case None => None
    case Some(raw) => Some(ParseLines(NonBlankLines(raw), parse))
  }

  /**
   * The whole hook. `stopHookActive` guards against re-entry; the path
   * guard, the transcript scan, the tmux queries and the notification
   * follow in order. `readLines` reads and splits a file, `parse` is
   * `JSON.parse` of one line.
   */
  method Run(stopHookActive: bool, transcriptPath: Option<string>, home: string, resolve: string -> string,
             readLines: string -> Option<seq<string>>, parse: string -> Option<Line>,
             termProgram: Option<string>, ctx: TmuxContext)
    returns (r: Outcome)
    ensures stopHookActive ==> r == Exited(0)
    ensures !stopHookActive && TranscriptPath(transcriptPath, home, resolve).ExitWith? ==>
      r == Exited(TranscriptPath(transcriptPath, home, resolve).code)
    ensures r.Notified? <==>
      && !stopHookActive
      && TranscriptPath(transcriptPath, home, resolve).ReadFrom?
      && TranscriptLines(readLines, TranscriptPath(transcriptPath, home, resolve).path, parse).Some?
      && Latest(TranscriptLines(readLines, TranscriptPath(transcriptPath, home, resolve).path, parse).value, LineText).Some?
    ensures r.Notified? ==>
      var text := Latest(TranscriptLines(readLines, TranscriptPath(transcriptPath, home, resolve).path, parse).value, LineText).value;
      var info := PaneInfo(ctx);
      && r.message == Truncate(Normalize(text), MaxMessageLength)
      && r.title == Title(info)
      && (r.execute.Some? <==> info.sessionName != "")
      && (r.execute.Some? ==> r.execute.value == FocusCommand(AppName(TerminalApp(termProgram)), SocketOf(ctx), info))
    ensures r.Exited? ==> r.code == 0 || r.code == 1
  {
    if stopHookActive {
      return Exited(0);
    }
    var check := TranscriptPath(transcriptPath, home, resolve);
    if check.ExitWith? {
      return Exited(check.code);
    }
    var lines := TranscriptLines(readLines, check.path, parse);
    if lines.None? || |lines.value| == 0 {
      return Exited(0);
    }
    var lastMessageContent := ScanForText(lines.value);
    if lastMessageContent.None? {
      return Exited(0);
    }
    var terminalApp := TerminalApp(termProgram);
    var tmuxSocket := SocketOf(ctx);
    var info := GatherTmuxInfo(ctx.tmuxPane, tmuxSocket, ctx.tmux);
    var notificationTitle := Title(info);
    var truncatedMessage := Truncate(Normalize(lastMessageContent.value), MaxMessageLength);
    if info.sessionName != "" {
      var appName := AppName(terminalApp);
      r := Notified(notificationTitle, truncatedMessage, Some(FocusCommand(appName, tmuxSocket, info)));
    } else {
      r := Notified(notificationTitle, truncatedMessage, None);
    }
  }
}
