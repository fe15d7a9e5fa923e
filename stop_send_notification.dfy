/**
 * The Stop hook that shows the last transcript entry's text in an
 * AppleScript notification titled with the active tmux window and pane.
 */
module StopSendNotification {
  import opened Wrappers
  import opened Text
  import opened Transcript
  import opened Notification

  const MaxLength := 235

  /** `transcript?.message?.content?.[0]?.text`: the first content item's text, whatever the role. */
  function FirstItemText(line: Line): (r: Option<string>)
    ensures line.content.Items? && line.content.items != [] && line.content.items[0].Item? ==> r == line.content.items[0].text
    ensures r.Some? ==> line.content.Items? && line.content.items != [] && line.content.items[0].Item?
  {
    match line.content
    case NotArray => None
    case Items(items) => if items != [] && items[0].Item? then items[0].text else None
  }

  // ---------------------------------------------------------------------------
  // The title
  // ---------------------------------------------------------------------------

  /** `.replace(/^[✳️✳]\s*` + `/, '')`: one leading ✳ or variation selector U+FE0F, and the whitespace after it, go. */
  function StripMarker(paneTitle: string): (r: string)
    ensures |r| <= |paneTitle| && EndsWith(paneTitle, r)
    ensures paneTitle == [] || (paneTitle[0] != '\U{2733}' && paneTitle[0] != '\U{FE0F}') ==> r == paneTitle
    ensures r != paneTitle ==> r == paneTitle[1..][RunLength(paneTitle[1..], IsJsSpace)..]
  {
    if paneTitle != [] && (paneTitle[0] == '\U{2733}' || paneTitle[0] == '\U{FE0F}') then
      var rest := paneTitle[1..];
      assert rest[RunLength(rest, IsJsSpace)..] == paneTitle[1 + RunLength(rest, IsJsSpace)..];
      rest[RunLength(rest, IsJsSpace)..]
    else paneTitle
  }

  /** `Claude Code - [w-p]`, the part of the title that identifies the pane. */
  function PaneHeader(windowIndex: string, paneIndex: string): (h: string)
    ensures h != [] && h[0] == 'C' && h[|h| - 1] == ']'
  {
    "Claude Code - [" + windowIndex + "-" + paneIndex + "]"
  }

  const ActivePaneArgs := ["display-message", "-p"]

  /**
   * `tmuxInfo`: the header and the cleaned pane title when the three queries
   * on the active pane succeed (`tmux` gives trimmed output, `None` on
   * failure), otherwise empty.
   */
  function TmuxInfoLine(tmux: seq<string> -> Option<string>): (r: string)
  {
    var w := Query(tmux, ActivePaneArgs, WindowFormat);
    var p := Query(tmux, ActivePaneArgs, PaneFormat);
    var t := Query(tmux, ActivePaneArgs, TitleFormat);
    if w.Some? && p.Some? && t.Some? then PaneHeader(w.value, p.value) + " " + StripMarker(t.value) else ""
  }

  /** `tmuxInfo ? tmuxInfo.trim() : 'Claude Code'`. */
  function Title(tmuxInfo: string): string {
    if tmuxInfo != "" then JsTrim(tmuxInfo) else "Claude Code"
  }

  /** The title is `Claude Code` when a query fails, and otherwise starts with the window and pane header. */
  lemma TitleShape(tmux: seq<string> -> Option<string>)
    ensures var w := Query(tmux, ActivePaneArgs, WindowFormat);
      var p := Query(tmux, ActivePaneArgs, PaneFormat);
      var t := Query(tmux, ActivePaneArgs, TitleFormat);
      && (w.None? || p.None? || t.None? ==> Title(TmuxInfoLine(tmux)) == "Claude Code")
      && (w.Some? && p.Some? && t.Some? ==> StartsWith(Title(TmuxInfoLine(tmux)), PaneHeader(w.value, p.value)))
  {
    var w := Query(tmux, ActivePaneArgs, WindowFormat);
    var p := Query(tmux, ActivePaneArgs, PaneFormat);
    var t := Query(tmux, ActivePaneArgs, TitleFormat);
    if w.Some? && p.Some? && t.Some? {
      var h := PaneHeader(w.value, p.value);
      var c := StripMarker(t.value);
      assert h + " " + c == h + (" " + c);
      TrimKeepsCore(h, " " + c);
    }
  }

  // ---------------------------------------------------------------------------
  // AppleScript string literals
  // ---------------------------------------------------------------------------

  /** `s.replace(/c/g, '\\' + c)`: every `c` gets a backslash in front. */
  function EscapeChar(s: string, c: char): (r: string)
    ensures |r| >= |s|
    decreases |s|
  {
    if s == [] then [] else (if s[0] == c then ['\\', c] else [s[0]]) + EscapeChar(s[1..], c)
  }

  lemma {:induction false} EscapeCharAppend(a: string, b: string, c: char)
    ensures EscapeChar(a + b, c) == EscapeChar(a, c) + EscapeChar(b, c)
    decreases |a|
  {
    if a == [] {
      assert a + b == b;
    } else {
      assert (a + b)[1..] == a[1..] + b;
      EscapeCharAppend(a[1..], b, c);
    }
  }

  function ConsOpt(c: char, o: Option<string>): Option<string> {
    match o
    case Some(v) => Some([c] + v)
    case None => None
  }

  /** The character an AppleScript escape `\x` stands for. */
  function Unescape(x: char): Option<char> {
    if x == '\\' || x == '"' then Some(x)
    else if x == 'n' then Some('\n')
    else if x == 't' then Some('\t')
    else if x == 'r' then Some('\r')
    else None
  }

  /**
   * How AppleScript reads the text between the quotes of a string literal:
   * the string it denotes, or `None` when an unescaped `"` ends the literal
   * early or an escape is incomplete.
   */
  function Unquote(t: string): Option<string>
    decreases |t|
  {
    if t == [] then Some([])
    else if t[0] == '"' then None
    else if t[0] == '\\' then
      if |t| < 2 || Unescape(t[1]).None? then None else ConsOpt(Unescape(t[1]).value, Unquote(t[2..]))
    else ConsOpt(t[0], Unquote(t[1..]))
  }

  /** As written: quotes are escaped first, then every backslash is doubled, including the ones just added. */
  function AsWrittenEscape(s: string): string {
    EscapeChar(EscapeChar(s, '"'), '\\')
  }

  /** Corrected: backslashes are doubled first, then quotes are escaped. */
  function AppleScriptEscape(s: string): string {
    EscapeChar(EscapeChar(s, '\\'), '"')
  }

  /** How one character comes out of the corrected escape. */
  lemma CorrectedStep(x: char, t: string)
    ensures AppleScriptEscape([x] + t)
      == (if x == '\\' then "\\\\" else if x == '"' then "\\\"" else [x]) + AppleScriptEscape(t)
  {
    var s := [x] + t;
    assert s[1..] == t;
    var head := if x == '\\' then "\\\\" else [x];
    assert EscapeChar(s, '\\') == head + EscapeChar(t, '\\');
    EscapeCharAppend(head, EscapeChar(t, '\\'), '"');
    assert head[1..] == (if x == '\\' then "\\" else []);
  }

  /** How one character comes out of the escape as written. */
  lemma AsWrittenStep(x: char, t: string)
    ensures AsWrittenEscape([x] + t)
      == (if x == '"' then "\\\\\"" else if x == '\\' then "\\\\" else [x]) + AsWrittenEscape(t)
  {
    var s := [x] + t;
    assert s[1..] == t;
    var head := if x == '"' then "\\\"" else [x];
    assert EscapeChar(s, '"') == head + EscapeChar(t, '"');
    EscapeCharAppend(head, EscapeChar(t, '"'), '\\');
    assert head[1..] == (if x == '"' then "\"" else []);
  }

  /** The corrected escape round-trips: AppleScript reads back exactly the message. */
  lemma {:induction false} EscapeRoundTrip(s: string)
    ensures Unquote(AppleScriptEscape(s)) == Some(s)
    decreases |s|
  {
    if s != [] {
      var x, t := s[0], s[1..];
      assert s == [x] + t;
      CorrectedStep(x, t);
      EscapeRoundTrip(t);
      var e := AppleScriptEscape(s);
      if x == '\\' || x == '"' {
        assert e[2..] == AppleScriptEscape(t);
      } else {
        assert e[1..] == AppleScriptEscape(t);
      }
    }
  }

  /** As written, a message containing a quote never reads back: the doubled backslash leaves the quote bare and the literal ends there. */
  lemma {:induction false} AsWrittenRejectsQuotes(s: string)
    ensures '"' in s ==> Unquote(AsWrittenEscape(s)) == None
    ensures '"' !in s ==> Unquote(AsWrittenEscape(s)) == Some(s)
    decreases |s|
  {
    if s != [] {
      var x, t := s[0], s[1..];
      assert s == [x] + t;
      AsWrittenStep(x, t);
      AsWrittenRejectsQuotes(t);
      var e := AsWrittenEscape(s);
      if x == '"' {
        assert e[..3] == "\\\\\"";
        assert e[2..][0] == '"';
      } else if x == '\\' {
        assert e[2..] == AsWrittenEscape(t);
      } else {
        assert e[1..] == AsWrittenEscape(t);
      }
    }
  }

  /** The shortest case: the message `"` becomes `\\"`, which AppleScript reads as a backslash and the end of the string. */
  lemma AsWrittenQuoteExample()
    ensures AsWrittenEscape("\"") == "\\\\\""
    ensures Unquote(AsWrittenEscape("\"")) == None
  {
    AsWrittenStep('"', "");
    assert "\"" == ['"'] + "";
    AsWrittenRejectsQuotes("\"");
  }

  /** Without a quote in the message the two escapes agree: both only double the backslashes. */
  lemma {:induction false} EscapesAgreeWithoutQuotes(s: string)
    requires '"' !in s
    ensures AsWrittenEscape(s) == AppleScriptEscape(s)
    decreases |s|
  {
    if s != [] {
      var x, t := s[0], s[1..];
      assert s == [x] + t;
      AsWrittenStep(x, t);
      CorrectedStep(x, t);
      EscapesAgreeWithoutQuotes(t);
    }
  }

  /** The AppleScript the hook runs, with the message escaped as written; the title only has its quotes escaped. */
  function Script(message: string, title: string): string {
    "display notification \"" + AsWrittenEscape(message) + "\" with title \"" + EscapeChar(title, '"')
    + "\" sound name \"default\""
  }

  /** The same script with the corrected escape. */
  function CorrectedScript(message: string, title: string): string {
    "display notification \"" + AppleScriptEscape(message) + "\" with title \"" + EscapeChar(title, '"')
    + "\" sound name \"default\""
  }

  /** The hook's script is the corrected one exactly when no quote needs escaping. */
  lemma ScriptIsCorrectedWithoutQuotes(message: string, title: string)
    ensures '"' !in message ==> Script(message, title) == CorrectedScript(message, title)
    ensures '"' in message ==> Unquote(AsWrittenEscape(message)) == None && Unquote(AppleScriptEscape(message)) == Some(message)
  {
    if '"' !in message {
      EscapesAgreeWithoutQuotes(message);
    } else {
      AsWrittenRejectsQuotes(message);
      EscapeRoundTrip(message);
    }
  }

  // ---------------------------------------------------------------------------
  // The hook
  // ---------------------------------------------------------------------------

  datatype Outcome = Exited(code: int) | Notified(script: string)

  /** The last non-blank line of the transcript, `None` when the file cannot be read or has none. */
  function LastLine(readLines: string -> Option<seq<string>>, path: string): (r: Option<string>)
    ensures r.None? <==> readLines(path).None? || forall l :: l in readLines(path).value ==> !JsNonBlank(l)
    ensures r.Some? ==> exists i :: IsLastNonBlank(readLines(path).value, i) && readLines(path).value[i] == r.value
  {
    match readLines(path)
    case None => None
    case Some(raw) =>
      var lines := NonBlankLines(raw);
      if lines == [] then None
      else
        NonBlankLinesLast(raw);
        Some(lines[|lines| - 1])
  }

  /** The message text, when the last line parses and its first item has a non-empty text. */
  function LastMessage(readLines: string -> Option<seq<string>>, path: string, parse: string -> Option<Line>): (r: Option<string>)
    ensures r.Some? <==> && LastLine(readLines, path).Some?
                         && parse(LastLine(readLines, path).value).Some?
                         && FirstItemText(parse(LastLine(readLines, path).value).value).Some?
                         && FirstItemText(parse(LastLine(readLines, path).value).value).value != ""
    ensures r.Some? ==> r == FirstItemText(parse(LastLine(readLines, path).value).value)
  {
    match LastLine(readLines, path)
    case None => None
    case Some(line) =>
      match parse(line)
      case None => None
      case Some(entry) =>
        var text := FirstItemText(entry);
        if text.Some? && text.value != "" then text else None
  }

  /**
   * The whole hook: path guard, last line, message, title and script. Every
   * path that shows nothing exits 0, except a path outside the projects
   * directory, which exits 1.
   */
  function Run(transcriptPath: Option<string>, home: string, resolve: string -> string,
               readLines: string -> Option<seq<string>>, parse: string -> Option<Line>,
               tmux: seq<string> -> Option<string>): (r: Outcome)
    ensures TranscriptPath(transcriptPath, home, resolve).ExitWith? ==> r == Exited(TranscriptPath(transcriptPath, home, resolve).code)
    ensures r.Notified? <==> TranscriptPath(transcriptPath, home, resolve).ReadFrom?
                             && LastMessage(readLines, TranscriptPath(transcriptPath, home, resolve).path, parse).Some?
    ensures (TranscriptPath(transcriptPath, home, resolve).ReadFrom?
             && LastMessage(readLines, TranscriptPath(transcriptPath, home, resolve).path, parse).None?) ==> r == Exited(0)
    ensures r.Notified? ==>
      var text := LastMessage(readLines, TranscriptPath(transcriptPath, home, resolve).path, parse).value;
      var message := Truncate(Normalize(text), MaxLength);
      && r.script == Script(message, Title(TmuxInfoLine(tmux)))
      && |message| <= MaxLength
  {
    match TranscriptPath(transcriptPath, home, resolve)
    case ExitWith(code) => Exited(code)
    case ReadFrom(path) =>
      match LastMessage(readLines, path, parse)
      case None => Exited(0)
      case Some(text) =>
        var truncatedMessage := Truncate(Normalize(text), MaxLength);
        Notified(Script(truncatedMessage, Title(TmuxInfoLine(tmux))))
  }
}
