/**
 * The unified Slack notifier hook: the interaction webhook it serves while
 * waiting for an answer, the scan of the session transcript for the latest
 * assistant text, the cleaning of that text, the retries when standard input
 * is not ready, and the rule for taking over a stale process lock. Network
 * calls, the file system and timers are parameters or recorded effects.
 */
module SlackNotifier {
  import opened Wrappers
  import opened Text
  import opened Transcript

  // ---------------------------------------------------------------------------
  // The interaction webhook
  // ---------------------------------------------------------------------------

  const ApprovedText := "✅ 承認されました。Claude Codeが処理を続行します。"
  const RejectedText := "❌ キャンセルされました。Claude Codeに伝えました。"
  const ModalErrorText := "エラーが発生しました。"

  datatype ActionValue = ActionValue(value: Option<string>)

  /** `payload.view`: whether `state.values` exists, the typed text if present, and `private_metadata`. */
  datatype View = View(hasValues: bool, customText: Option<string>, privateMetadata: Option<string>)

  /**
   * An interaction payload as parsed from the request body. `userId` and
   * `channelId` are `None` when `payload.user` or `payload.channel` is missing,
   * so that reading their `id` throws.
   */
  datatype Payload = Payload(kind: string, actions: seq<ActionValue>, userId: Option<string>,
                             channelId: Option<string>, triggerId: string, view: Option<View>)

  /** The response file `saveUserResponse` writes; a missing text is written as empty. */
  datatype SavedResponse = SavedResponse(action: Option<string>, text: string, userId: Option<string>, channelId: Option<string>)

  /** What the webhook answers. */
  datatype WebhookResponse =
    | ChallengeText(challenge: Option<string>)  // 200 text/plain
    | OkJson                                    // {ok: true}
    | ErrorText                                 // {text: ModalErrorText}
    | Ephemeral(text: string)                   // {text, replace_original: false, response_type: 'ephemeral'}
    | ClearView                                 // {response_action: 'clear'}
    | InternalError                             // 500

  class Webhook {
    /** The last response saved for the waiting hook (each save replaces the file). */
    var responseFile: Option<SavedResponse>
    /** Trigger ids `views.open` was called with. */
    var modalsOpened: seq<string>
    /** Whether the one-second shutdown timer has been set. */
    var shutdownScheduled: bool

    constructor()
      ensures responseFile == None && modalsOpened == [] && !shutdownScheduled
    {
      responseFile := None;
      modalsOpened := [];
      shutdownScheduled := false;
    }

    /**
     * The POST handler. `challenge` is the `challenge` form field, `payload`
     * the parsed payload (`None` when the body is not JSON), `modalThrows`
     * whether `views.open` fails. A challenge is echoed before anything is
     * parsed; a `block_actions` click on "custom" opens the modal and saves
     * nothing; any other click saves `{action, user_id, channel_id}`, answers
     * ephemerally and schedules the shutdown; a submission saves the typed
     * text under action "custom" and clears the view; a payload that lacks
     * what a handler reads is a 500 that changes nothing.
     */
    method Handle(body: string, challenge: Option<string>, payload: Option<Payload>, modalThrows: bool)
      returns (resp: WebhookResponse)
      modifies this
      ensures StartsWith(body, "challenge=") ==>
        resp == ChallengeText(challenge) && unchanged(this)
      ensures resp == InternalError ==> unchanged(this)
      ensures !StartsWith(body, "challenge=") && payload.Some? && payload.value.kind == "block_actions"
              && payload.value.actions != [] && payload.value.userId.Some? && payload.value.channelId.Some? ==>
        var p := payload.value;
        var value := p.actions[0].value;
        if value == Some("custom") then
          && responseFile == old(responseFile) && !(shutdownScheduled && !old(shutdownScheduled))
          && modalsOpened == old(modalsOpened) + [p.triggerId]
          && resp == (if modalThrows then ErrorText else OkJson)
        else
          && responseFile == Some(SavedResponse(value, "", p.userId, p.channelId))
          && shutdownScheduled && modalsOpened == old(modalsOpened)
          && resp == Ephemeral(if value == Some("approve") then ApprovedText else RejectedText)
      ensures !StartsWith(body, "challenge=") && payload.Some? && payload.value.kind == "view_submission"
              && payload.value.view.Some? && payload.value.view.value.hasValues && payload.value.userId.Some? ==>
        var v := payload.value.view.value;
        && responseFile == Some(SavedResponse(Some("custom"), v.customText.GetOr(""), payload.value.userId, v.privateMetadata))
        && resp == ClearView && shutdownScheduled == old(shutdownScheduled) && modalsOpened == old(modalsOpened)
      ensures !StartsWith(body, "challenge=") && payload.Some?
              && payload.value.kind != "block_actions" && payload.value.kind != "view_submission" ==>
        resp == OkJson && unchanged(this)
      ensures shutdownScheduled && !old(shutdownScheduled) ==>
        payload.Some? && payload.value.kind == "block_actions" && payload.value.actions != []
        && payload.value.actions[0].value != Some("custom")
    {
      if StartsWith(body, "challenge=") {
        return ChallengeText(challenge);
      }
      if payload.None? {
        return InternalError;
      }
      var p := payload.value;
      var responseData := OkJson;
      if p.kind == "block_actions" {
        if p.actions == [] || p.userId.None? || p.channelId.None? {
          return InternalError;
        }
        var action := p.actions[0];
        var userResponse := SavedResponse(action.value, "", p.userId, p.channelId);
        if action.value == Some("custom") {
          modalsOpened := modalsOpened + [p.triggerId];
          if modalThrows {
            responseData := ErrorText;
          }
        } else {
          responseFile := Some(userResponse);
          responseData := Ephemeral(if action.value == Some("approve") then ApprovedText else RejectedText);
        }
      } else if p.kind == "view_submission" {
        if p.view.None? || !p.view.value.hasValues || p.userId.None? {
          return InternalError;
        }
        var customText := p.view.value.customText.GetOr("");
        responseFile := Some(SavedResponse(Some("custom"), customText, p.userId, p.view.value.privateMetadata));
        responseData := ClearView;
      }
      resp := responseData;
      if p.kind == "block_actions" && p.actions[0].value != Some("custom") {
        shutdownScheduled := true;
      }
    }
  }

  // ---------------------------------------------------------------------------
  // The transcript scan
  // ---------------------------------------------------------------------------

  /** The notifier's item test: a `text` item whose text is not blank. */
  predicate IsTextItem(it: Item) {
    it.Item? && it.kind == Some("text") && it.text.Some? && JsNonBlank(it.text.value)
  }

  /**
   * What one line contributes: the text of an assistant line's first
   * non-blank text item. Unparsable lines, and lines whose item loop reaches
   * a `null` first (the read of its `type` throws), give nothing.
   */
  function LineMessage(line: Option<Line>): (r: Option<string>)
    ensures r.Some? ==> JsNonBlank(r.value)
  {
    match line
    case None => None
    case Some(l) =>
      if l.role != Some("assistant") || l.content.NotArray? then None
      else
        match FindItem(l.content.items, IsTextItem)
        case FoundItem(it) => it.text
        case _ => None
  }

  /** The inner loop over one line's content items, with its `break`; `threw` is the `null` case. */
  method ScanLineItems(items: seq<Item>) returns (found: Option<string>, threw: bool)
    ensures match FindItem(items, IsTextItem)
      case FoundItem(it) => found == it.text && found.Some? && !threw
      case NoMatch => found.None? && !threw
      case HitNull => found.None? && threw
  {
    var i := 0;
    while i < |items|
      invariant 0 <= i <= |items|
      invariant FindItem(items, IsTextItem) == FindItem(items[i..], IsTextItem)
    {
      assert items[i..][1..] == items[i + 1..];
      var item := items[i];
      if item.NullItem? {
        return None, true;
      }
      if item.kind == Some("text") && item.text.Some? && JsNonBlank(item.text.value) {
        return item.text, false;
      }
      i := i + 1;
    }
    return None, false;
  }

  /** The reverse scan over the parsed transcript lines, newest first, stopping at the first message found. */
  method ScanTranscript(lines: seq<Option<Line>>) returns (lastMessageContent: Option<string>)
    ensures lastMessageContent == Latest(lines, LineMessage)
  {
    lastMessageContent := None;
    var i := |lines|;
    assert lines[..i] == lines;
    while i > 0
      invariant 0 <= i <= |lines|
      invariant Latest(lines, LineMessage) == Latest(lines[..i], LineMessage)
      invariant lastMessageContent.None?
    {
      assert lines[..i][..i - 1] == lines[..i - 1];
      var lineData := lines[i - 1];
      if lineData.Some? && lineData.value.role == Some("assistant") && lineData.value.content.Items? {
        var found, threw := ScanLineItems(lineData.value.content.items);
        if found.Some? {
          lastMessageContent := found;
          return;
        }
      }
      i := i - 1;
    }
  }

  const DefaultMessage := "Claude Code からの通知"

  /** `lastMessageContent || "Claude Code からの通知"`: the found text is never empty, so only a missing one falls back. */
  function MessageOrDefault(found: Option<string>): (m: string)
    ensures found.None? ==> m == DefaultMessage
    ensures found.Some? && found.value != "" ==> m == found.value
  {
    if found.Some? && found.value != "" then found.value else DefaultMessage
  }

  // ---------------------------------------------------------------------------
  // Cleaning the message
  // ---------------------------------------------------------------------------

  /** Three or more newlines become two, every run of spaces and tabs one space, and the ends are trimmed. */
  function CleanMessage(s: string): string {
    JsTrim(ReplaceRuns(ReplaceRuns(s, IsNewline, 3, "\n\n"), IsSpaceOrTab, 1, " "))
  }

  /** The cleaned message has no three newlines in a row, no tab, no two spaces in a row, and no whitespace at either end. */
  lemma CleanMessageShape(s: string)
    ensures var r := CleanMessage(s);
      && NoTripleNewline(r)
      && NoAdjacent(r, IsSpaceOrTab)
      && (forall i :: 0 <= i < |r| ==> r[i] != '\t')
      && (r == [] || (!IsJsSpace(r[0]) && !IsJsSpace(r[|r| - 1])))
  {
    var a := ReplaceRuns(s, IsNewline, 3, "\n\n");
    CappedNewlineRuns(s);
    SpaceRunsKeepNoTriple(a);
    CollapsedRuns(a, IsSpaceOrTab, ' ');
    TrimmedShape(ReplaceRuns(a, IsSpaceOrTab, 1, " "));
  }

  /** Trimming keeps the absence of newline triples, of adjacent blanks and of tabs, and leaves no whitespace at the ends. */
  lemma TrimmedShape(b: string)
    requires NoTripleNewline(b) && NoAdjacent(b, IsSpaceOrTab)
    requires forall i :: 0 <= i < |b| && IsSpaceOrTab(b[i]) ==> b[i] == ' '
    ensures var r := JsTrim(b);
      && NoTripleNewline(r)
      && NoAdjacent(r, IsSpaceOrTab)
      && (forall i :: 0 <= i < |r| ==> r[i] != '\t')
      && (r == [] || (!IsJsSpace(r[0]) && !IsJsSpace(r[|r| - 1])))
  {
    TrimKeepsNoTriple(b);
    TrimKeepsNoAdjacent(b);
    TrimKeepsNoTab(b);
    JsTrimEnds(b);
  }

  lemma TrimKeepsNoTriple(b: string)
    requires NoTripleNewline(b)
    ensures NoTripleNewline(JsTrim(b))
  {
    var lo, hi := JsTrimSlice(b);
    NoTripleSlice(b, lo, hi);
  }

  lemma TrimKeepsNoAdjacent(b: string)
    requires NoAdjacent(b, IsSpaceOrTab)
    ensures NoAdjacent(JsTrim(b), IsSpaceOrTab)
  {
    var lo, hi := JsTrimSlice(b);
    NoAdjacentSlice(b, IsSpaceOrTab, lo, hi);
  }

  lemma TrimKeepsNoTab(b: string)
    requires forall i :: 0 <= i < |b| && IsSpaceOrTab(b[i]) ==> b[i] == ' '
    ensures forall i :: 0 <= i < |JsTrim(b)| ==> JsTrim(b)[i] != '\t'
  {
    var r := JsTrim(b);
    var lo, hi := JsTrimSlice(b);
    OnlyCharSlice(b, IsSpaceOrTab, ' ', lo, hi);
    forall i | 0 <= i < |r|
      ensures r[i] != '\t'
    {
      assert IsSpaceOrTab(r[i]) ==> r[i] == ' ';
    }
  }

  /** Cleaning changes only whitespace: every other character occurs as often as in the input. */
  lemma CleanKeepsText(s: string, c: char)
    requires !IsJsSpace(c)
    ensures multiset(CleanMessage(s))[c] == multiset(s)[c]
  {
    var a := ReplaceRuns(s, IsNewline, 3, "\n\n");
    ReplaceRunsKeepsOthers(s, IsNewline, 3, "\n\n", c);
    ReplaceRunsKeepsOthers(a, IsSpaceOrTab, 1, " ", c);
    TrimKeepsOthers(ReplaceRuns(a, IsSpaceOrTab, 1, " "), IsJsSpace, c);
  }

  /** Collapsing space and tab runs creates no newline run: a replaced string starts with a newline only where the original did. */
  lemma SpaceRunsStart(s: string)
    ensures var r := ReplaceRuns(s, IsSpaceOrTab, 1, " ");
      (r != [] && r[0] == '\n' ==> s != [] && s[0] == '\n' && r == "\n" + ReplaceRuns(s[1..], IsSpaceOrTab, 1, " "))
  {
  }

  /** Collapsing space and tab runs keeps a newline-triple-free string free of them, and creates no leading pair of newlines. */
  lemma {:induction false} SpaceRunsKeepNoTriple(s: string)
    requires NoTripleNewline(s)
    ensures var r := ReplaceRuns(s, IsSpaceOrTab, 1, " ");
      && NoTripleNewline(r)
      && (|r| >= 2 && r[0] == '\n' && r[1] == '\n' ==> |s| >= 2 && s[0] == '\n' && s[1] == '\n')
    decreases |s|
  {
    if s == [] {
    } else if IsSpaceOrTab(s[0]) {
      var k := RunLength(s, IsSpaceOrTab);
      NoTripleSlice(s, k, |s|);
      SpaceRunsKeepNoTriple(s[k..]);
      NoTripleAppend(" ", ReplaceRuns(s[k..], IsSpaceOrTab, 1, " "));
    } else {
      var rest := ReplaceRuns(s[1..], IsSpaceOrTab, 1, " ");
      NoTripleSlice(s, 1, |s|);
      SpaceRunsKeepNoTriple(s[1..]);
      if s[0] == '\n' {
        assert !(|s[1..]| >= 2 && s[1..][0] == '\n' && s[1..][1] == '\n') by {
          if |s| >= 3 { assert !(s[0] == '\n' && s[1] == '\n' && s[2] == '\n'); }
        }
        NewlineCons(rest);
        SpaceRunsStart(s[1..]);
      } else {
        NoTripleAppend([s[0]], rest);
      }
    }
  }

  /** A newline put in front of a triple-free string that does not start with two newlines keeps it triple-free. */
  lemma NewlineCons(x: string)
    requires NoTripleNewline(x)
    requires !(|x| >= 2 && x[0] == '\n' && x[1] == '\n')
    ensures NoTripleNewline("\n" + x)
  {
    var r := "\n" + x;
    forall i | 0 <= i < |r| - 2
      ensures !(r[i] == '\n' && r[i + 1] == '\n' && r[i + 2] == '\n')
    {
      if i > 0 {
        assert r[i] == x[i - 1] && r[i + 1] == x[i] && r[i + 2] == x[i + 1];
      } else {
        assert r[1] == x[0] && r[2] == x[1];
      }
    }
  }

  // ---------------------------------------------------------------------------
  // Reading standard input
  // ---------------------------------------------------------------------------

  const MaxRetries := 5

  /** One `readFileSync` of standard input: its data, or the error code it throws. */
  datatype ReadResult = ReadOk(data: string) | ReadErr(code: string)

  datatype StdinOutcome = Input(data: string) | ReadFailed(code: string)

  function Pow2(k: nat): (p: nat)
    ensures p >= 1
  {
    if k == 0 then 1 else 2 * Pow2(k - 1)
  }

  /**
   * The stdin retry loop: `read(k)` is the outcome of the k-th read. EAGAIN
   * is retried at most five times, the k-th retry (from 1) after
   * 10·2^(k−1) ms; any other error, or a sixth EAGAIN, is thrown.
   */
  method ReadStdin(read: nat -> ReadResult) returns (outcome: StdinOutcome, delays: seq<nat>)
    ensures |delays| <= MaxRetries
    ensures forall k :: 0 <= k < |delays| ==> delays[k] == 10 * Pow2(k) && read(k) == ReadErr("EAGAIN")
    ensures read(|delays|).ReadOk? ==> outcome == Input(read(|delays|).data)
    ensures read(|delays|).ReadErr? ==>
      outcome == ReadFailed(read(|delays|).code) && (read(|delays|).code != "EAGAIN" || |delays| == MaxRetries)
  {
    var retryCount := 0;
    delays := [];
    while retryCount <= MaxRetries
      invariant 0 <= retryCount <= MaxRetries && |delays| == retryCount
      invariant forall k :: 0 <= k < |delays| ==> delays[k] == 10 * Pow2(k) && read(k) == ReadErr("EAGAIN")
      decreases MaxRetries - retryCount
    {
      match read(retryCount) {
        case ReadOk(data) =>
          return Input(data), delays;
        case ReadErr(code) =>
          if code == "EAGAIN" && retryCount < MaxRetries {
            retryCount := retryCount + 1;
            delays := delays + [10 * Pow2(retryCount - 1)];
          } else {
            return ReadFailed(code), delays;
          }
      }
    }
    assert false;
  }

  /** The total of a list of delays. */
  function Sum(xs: seq<nat>): nat
    decreases |xs|
  {
    if xs == [] then 0 else Sum(xs[..|xs| - 1]) + xs[|xs| - 1]
  }

  /** The backoff schedule waits 10·(2^n − 1) ms over n retries, so never more than 310 ms in all. */
  lemma {:induction false} TotalWait(delays: seq<nat>)
    requires |delays| <= MaxRetries
    requires forall k :: 0 <= k < |delays| ==> delays[k] == 10 * Pow2(k)
    ensures Sum(delays) == 10 * (Pow2(|delays|) - 1)
    ensures Sum(delays) <= 310
    decreases |delays|
  {
    if delays != [] {
      var init := delays[..|delays| - 1];
      assert forall k :: 0 <= k < |init| ==> init[k] == delays[k];
      TotalWait(init);
    }
    assert Pow2(|delays|) <= 32 by {
      assert Pow2(0) == 1 && Pow2(1) == 2 && Pow2(2) == 4 && Pow2(3) == 8 && Pow2(4) == 16 && Pow2(5) == 32;
    }
  }

  // ---------------------------------------------------------------------------
  // The process lock
  // ---------------------------------------------------------------------------

  const StaleLockMs := 180000

  /** The existing lock file: unreadable or not JSON, or JSON with a numeric `timestamp` or none. */
  datatype LockRead = Corrupt | LockJson(timestamp: Option<int>)

  datatype LockAction = RemoveAndRetry | Busy

  /**
   * What an instance does on finding the lock taken: a corrupt lock, or one
   * more than three minutes old, is removed and acquisition retried; a lock
   * without a timestamp compares as NaN and is never stale.
   */
  function OnExistingLock(nowMs: int, lock: LockRead): (a: LockAction)
    ensures a == RemoveAndRetry <==> lock.Corrupt? || (lock.timestamp.Some? && nowMs - lock.timestamp.value > StaleLockMs)
  {
    match lock
    case Corrupt => RemoveAndRetry
    case LockJson(timestamp) =>
      match timestamp
      case None => Busy
      case Some(t) => if nowMs - t > StaleLockMs then RemoveAndRetry else Busy
  }

  /** A lock stays valid for three minutes: one taken at `t` is busy at every moment up to `t + 180000`, stale after. */
  lemma LockAges(t: int, nowMs: int, laterMs: int)
    requires nowMs <= laterMs
    ensures OnExistingLock(nowMs, LockJson(Some(t))) == RemoveAndRetry ==> OnExistingLock(laterMs, LockJson(Some(t))) == RemoveAndRetry
  {
  }
}
