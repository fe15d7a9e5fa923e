/**
 * The PreToolUse hook for the question tool: a desktop notification that a
 * question is waiting, with the first question as its text and, inside tmux,
 * a click action that returns to the pane.
 */
module AskUserNotify {
  import opened Wrappers
  import opened Text
  import opened Notification

  const DefaultSummary := "質問があります"
  const SummaryLength := 150
  const Subtitle := "質問待ち"

  /** An element of `tool_input.questions`; `NotObject` has no `question` field to read. */
  datatype Question = NotObject | Question(question: Option<string>)

  /** `tool_input.questions` is present and its first element has a non-empty `question`. */
  predicate HasFirstQuestion(questions: Option<seq<Question>>) {
    questions.Some? && questions.value != [] && questions.value[0].Question?
    && questions.value[0].question.Some? && questions.value[0].question.value != ""
  }

  /**
   * The summary: the first question's text cut to 150 characters when there
   * is a first question, the fixed default otherwise.
   */
  function Summary(questions: Option<seq<Question>>): (r: string)
    ensures HasFirstQuestion(questions) ==>
      var q := questions.value[0].question.value;
      && StartsWith(q, r)
      && |r| == (if |q| <= SummaryLength then |q| else SummaryLength)
    ensures !HasFirstQuestion(questions) ==> r == DefaultSummary
    ensures r != "" && |r| <= SummaryLength
  {
    if HasFirstQuestion(questions) then Take(questions.value[0].question.value, SummaryLength)
    else DefaultSummary
  }

  /** The summary as the hook computes it: the default, replaced when the first question has text. */
  method QuestionSummary(questions: Option<seq<Question>>) returns (questionSummary: string)
    ensures questionSummary == Summary(questions)
  {
    questionSummary := DefaultSummary;
    if questions.Some? {
      var firstQ := if questions.value != [] then questions.value[0] else NotObject;
      if firstQ.Question? && firstQ.question.Some? && firstQ.question.value != "" {
        questionSummary := Take(firstQ.question.value, SummaryLength);
      }
    }
  }

  /** The notification text, `🙋 ` and the summary. */
  function NotifyMessage(questionSummary: string): (r: string)
    ensures |r| == |questionSummary| + 2 && StartsWith(r, "🙋 ") && EndsWith(r, questionSummary)
  {
    var r := "🙋 " + questionSummary;
    assert r[..2] == "🙋 ";
    r
  }

  /** The click command: the focus command inside tmux, empty outside. */
  function FocusCommandFor(appName: string, tmuxSocket: string, info: TmuxInfo): (r: string)
    ensures info.sessionName == "" <==> r == ""
  {
    if info.sessionName != "" then
      FocusCommandParts(appName, tmuxSocket, info);
      FocusCommand(appName, tmuxSocket, info)
    else ""
  }

  /** The notification: title, fixed subtitle, message, and the click command inside tmux. */
  datatype Notice = Notice(title: string, subtitle: string, message: string, execute: Option<string>)

  /** The whole hook after the input is parsed: summary, tmux lookup, title, click command. */
  method Run(questions: Option<seq<Question>>, termProgram: Option<string>, ctx: TmuxContext) returns (n: Notice)
    ensures var info := PaneInfo(ctx);
      && n.title == Title(info)
      && n.subtitle == Subtitle
      && n.message == "🙋 " + Summary(questions)
      && (n.execute.Some? <==> info.sessionName != "")
      && (n.execute.Some? ==> n.execute.value == FocusCommand(AppName(TerminalApp(termProgram)), SocketOf(ctx), info))
  {
    var questionSummary := QuestionSummary(questions);
    var terminalApp := TerminalApp(termProgram);
    var tmuxSocket := SocketOf(ctx);
    var info := GatherTmuxInfo(ctx.tmuxPane, tmuxSocket, ctx.tmux);
    var notificationTitle := Title(info);
    var appName := AppName(terminalApp);
    var focusCommand := FocusCommandFor(appName, tmuxSocket, info);
    var notifyMessage := NotifyMessage(questionSummary);
    if info.sessionName != "" {
      n := Notice(notificationTitle, Subtitle, notifyMessage, Some(focusCommand));
    } else {
      n := Notice(notificationTitle, Subtitle, notifyMessage, None);
    }
  }
}
