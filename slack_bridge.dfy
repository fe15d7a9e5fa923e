/**
 * The question bridge server: the table of pending questions and the
 * handlers that fill and drain it. A long-polling `/ask-and-wait` request
 * posts its questions, registers a pending entry and waits; the entry is
 * answered by a button click or a free-text submission arriving through
 * `/slack/interactions`, or by its ten-minute timer. `/ask` registers
 * fire-and-forget questions for the tmux hook.
 *
 * A suspended request is a *waiter*: each registration gets a fresh token,
 * `resolved` records the value each waiter's promise settled with, and
 * `timers` the live ten-minute timers by the waiter that armed them, with the
 * question id their callback looks up. When a waiter's promise settles, its
 * continuation clears its timer before any other event can be handled, so
 * settling and clearing the timer are one step here.
 */
module SlackBridge {
  import opened Wrappers
  import opened Text
  import Json
  import opened SlackMessages
  import opened SlackSignature

  const TimeoutMs := 600000
  const ChannelPrefix := "🤖 Claude Code: "
  const ExpiredText := "⚠️ この質問は既に回答済みか、期限切れです。"
  const ExpiredFieldError := "この質問は既に回答済みか、期限切れです。"
  const AnsweredText := "🤖 Claude Code からの質問（回答済み）"

  /** The object a waiting request is answered with (`undefined` members as `None`). */
  datatype Answer =
    | Chosen(chosenLabel: Option<Json.Value>, optionIndex: Option<Json.Value>, timestamp: nat)
    | Written(text: string, timestamp: nat)   // optionIndex -1, freeText true
    | TimedOut                                // error 'timeout'

  type Waiter = nat

  datatype Entry =
    | Waiting(waiter: Waiter, questions: seq<Question>, messageTs: Option<string>, sessionInfo: string, paneId: string)
    | TmuxMode(tmuxPane: string, questions: seq<Question>, sessionId: string)

  /** What one `chat.postMessage` call gave: a reply with a message ts ("" when it had none) or a rejected fetch. */
  datatype PostResult = Posted(ts: string) | PostThrew

  datatype Message = Message(text: string, blocks: seq<Block>, threadTs: Option<string>)

  datatype Response =
    | Unauthorized                      // 401
    | ServerError                       // 500, an exception reached the handler's catch
    | Empty                             // 200, no body
    | JsonText(text: string)            // 200, {text}
    | Replaced(text: string)            // 200, {replace_original: true, text}
    | SubmissionErrors(message: string) // 200, {response_action: 'errors', errors: {freetext_input}}
    | ClearModal                        // 200, {response_action: 'clear'}
    | AskAccepted(questionId: string)   // 200, {success: true, questionId}

  /** The terminal pane brought to the front and the reply posted in the question's thread. */
  datatype Effects = Effects(activatedPane: Option<string>, threadReply: Option<Message>)

  const NoEffects := Effects(None, None)

  datatype AskAndWaitRequest = AskAndWaitRequest(questionId: string, questions: seq<Question>, sessionInfo: string, paneId: string)
  datatype AskRequest = AskRequest(questions: seq<Question>, tmuxPane: string, sessionId: string)

  datatype Action = Action(actionId: string, value: string)
  datatype Payload =
    | BlockActions(actions: seq<Action>, triggerId: string)
    | ViewSubmission(privateMetadata: string, freeText: string)
    | OtherPayload

  /** With session information the header becomes `<header or 'Claude Code'> [<session>]`. */
  function Tagged(q: Question, sessionInfo: string): Question {
    if sessionInfo == "" then q
    else q.(header := (if q.header == "" then DefaultHeader else q.header) + " [" + sessionInfo + "]")
  }

  function TagAll(qs: seq<Question>, sessionInfo: string): (r: seq<Question>)
    ensures |r| == |qs|
  {
    seq(|qs|, i requires 0 <= i < |qs| => Tagged(qs[i], sessionInfo))
  }

  function QuestionMessage(questionId: string, i: nat, q: Question): Message {
    Message(ChannelPrefix + q.text, QuestionBlocks(questionId, i, q), None)
  }

  /** `sent` holds the channel messages of the first `|sent|` questions, in order. */
  predicate MessagesOf(questionId: string, questions: seq<Question>, sent: seq<Message>) {
    |sent| <= |questions| && forall j :: 0 <= j < |sent| ==> sent[j] == QuestionMessage(questionId, j, questions[j])
  }

  predicate HasTs(r: PostResult) { r.Posted? && r.ts != "" }

  predicate NoThrowBefore(results: seq<PostResult>, n: nat)
    requires n <= |results|
  {
    forall i :: 0 <= i < n ==> !results[i].PostThrew?
  }

  predicate NoThrow(results: seq<PostResult>) {
    NoThrowBefore(results, |results|)
  }

  /** The ts of the first of the first `n` posts that returned one. */
  function FirstTsBefore(results: seq<PostResult>, n: nat): Option<string>
    requires n <= |results|
  {
    if n == 0 then None
    else
      match FirstTsBefore(results, n - 1)
      case Some(t) => Some(t)
      case None => if HasTs(results[n - 1]) then Some(results[n - 1].ts) else None
  }

  function FirstTs(results: seq<PostResult>): Option<string> {
    FirstTsBefore(results, |results|)
  }

  /** `FirstTs` is the ts of the earliest post that has one, and there is none exactly when no post has one. */
  lemma {:induction false} FirstTsIsEarliest(results: seq<PostResult>, n: nat)
    requires n <= |results|
    ensures FirstTsBefore(results, n).Some? ==>
      exists i :: 0 <= i < n && HasTs(results[i]) && results[i].ts == FirstTsBefore(results, n).value
        && forall j :: 0 <= j < i ==> !HasTs(results[j])
    ensures FirstTsBefore(results, n).None? <==> forall i :: 0 <= i < n ==> !HasTs(results[i])
  {
    if n > 0 {
      FirstTsIsEarliest(results, n - 1);
    }
  }

  /** The channel message for question i: its text after the bot prefix, and its blocks. */
  method ComposeMessage(questionId: string, i: nat, q: Question) returns (m: Message)
    ensures m == QuestionMessage(questionId, i, q)
    ensures StartsWith(m.text, ChannelPrefix) && m.text[|ChannelPrefix|..] == q.text && m.threadTs.None?
  {
    var blocks := BuildQuestionBlocks(questionId, i, q);
    m := Message(ChannelPrefix + q.text, blocks, None);
    assert m.text[..|ChannelPrefix|] == ChannelPrefix;
  }

  /**
   * The posting loop of both ask handlers: question i is sent as
   * `🤖 Claude Code: <text>` with its blocks; the loop stops at the first
   * post that throws, and `messageTs` is the first ts a post returned.
   */
  method PostAll(questionId: string, questions: seq<Question>, results: seq<PostResult>)
    returns (sent: seq<Message>, messageTs: Option<string>, ok: bool)
    requires |results| == |questions|
    ensures ok <==> NoThrow(results)
    ensures ok ==> |sent| == |questions| && messageTs == FirstTs(results)
    ensures !ok ==> 0 < |sent| <= |questions| && results[|sent| - 1].PostThrew?
                    && NoThrowBefore(results, |sent| - 1)
    ensures MessagesOf(questionId, questions, sent)
  {
    sent, messageTs, ok := [], None, true;
    var i := 0;
    while i < |questions|
      invariant 0 <= i <= |questions| && |sent| == i
      invariant MessagesOf(questionId, questions, sent)
      invariant NoThrowBefore(results, i)
      invariant messageTs == FirstTsBefore(results, i)
    {
      var m := ComposeMessage(questionId, i, questions[i]);
      MessagesSnoc(questionId, questions, sent, m);
      sent := sent + [m];
      var threw;
      threw, messageTs := RecordPost(results, i, messageTs);
      if threw {
        ok := false;
        return;
      }
      i := i + 1;
    }
  }

  /** Appending question i's message to the messages of questions 0..i-1 gives those of 0..i. */
  lemma MessagesSnoc(questionId: string, questions: seq<Question>, sent: seq<Message>, m: Message)
    requires |sent| < |questions| && m == QuestionMessage(questionId, |sent|, questions[|sent|])
    requires MessagesOf(questionId, questions, sent)
    ensures MessagesOf(questionId, questions, sent + [m])
  {
  }

  /** One post's result: whether it threw, and the first ts so far when it did not. */
  method RecordPost(results: seq<PostResult>, i: nat, messageTs: Option<string>) returns (threw: bool, ts: Option<string>)
    requires i < |results| && messageTs == FirstTsBefore(results, i)
    ensures threw <==> results[i].PostThrew?
    ensures !threw ==> ts == FirstTsBefore(results, i + 1)
  {
    threw, ts := results[i].PostThrew?, messageTs;
    if HasTs(results[i]) && messageTs.None? {
      ts := Some(results[i].ts);
    }
  }

  /** The key a parsed button value or private metadata names; only string ids can match a pending entry. */
  function KeyOf(data: map<string, Json.Value>): Option<string> {
    match Json.Get(data, "questionId")
    case Some(Str(id)) => Some(id)
    case _ => None
  }

  function AfterAnswer(e: Entry, replyText: string): Effects
    requires e.Waiting?
  {
    Effects(if e.paneId == "" then None else Some(e.paneId),
            if e.messageTs.Some? then Some(Message(replyText, [], e.messageTs)) else None)
  }

  class PendingTable {
    var entries: map<string, Entry>
    var timers: map<Waiter, string>
    var resolved: map<Waiter, Answer>
    var nextWaiter: Waiter

    /**
     * Every waiting entry has a live timer armed for its own id; a waiter with
     * a live timer has not been answered; tokens below `nextWaiter` are the
     * only ones handed out.
     */
    ghost predicate Valid()
      reads this
    {
      && (forall id :: id in entries && entries[id].Waiting? ==>
            entries[id].waiter in timers && timers[entries[id].waiter] == id)
      && (forall w :: w in timers ==> w < nextWaiter && w !in resolved)
      && (forall w :: w in resolved ==> w < nextWaiter)
    }

    constructor ()
      ensures entries == map[] && timers == map[] && resolved == map[] && nextWaiter == 0
      ensures Valid()
    {
      entries, timers, resolved, nextWaiter := map[], map[], map[], 0;
    }

    /** `/health`: the number of pending entries. */
    method Health() returns (pending: nat)
      ensures pending == |entries|
    {
      pending := |entries|;
    }

    /** Registering a waiter: the entry is stored under its id (replacing any other) and its timer armed. */
    method Register(questionId: string, questions: seq<Question>, messageTs: Option<string>, sessionInfo: string, paneId: string)
      returns (w: Waiter)
      requires Valid()
      modifies this
      ensures Valid()
      ensures w == old(nextWaiter) && nextWaiter == w + 1
      ensures entries == old(entries)[questionId := Waiting(w, questions, messageTs, sessionInfo, paneId)]
      ensures timers == old(timers)[w := questionId]
      ensures resolved == old(resolved)
    {
      w := nextWaiter;
      nextWaiter := nextWaiter + 1;
      entries := entries[questionId := Waiting(w, questions, messageTs, sessionInfo, paneId)];
      timers := timers[w := questionId];
    }

    /** Settling the waiter of a waiting entry: its answer is recorded once, the entry deleted and its timer cleared. */
    method Settle(questionId: string, answer: Answer)
      requires Valid() && questionId in entries && entries[questionId].Waiting?
      modifies this
      ensures Valid()
      ensures old(entries)[questionId].waiter !in old(resolved)
      ensures resolved == old(resolved)[old(entries)[questionId].waiter := answer]
      ensures entries == old(entries) - {questionId}
      ensures timers == old(timers) - {old(entries)[questionId].waiter}
      ensures nextWaiter == old(nextWaiter)
    {
      var w := entries[questionId].waiter;
      resolved := resolved[w := answer];
      entries := entries - {questionId};
      timers := timers - {w};
    }

    /**
     * `/ask-and-wait`: the questions, tagged with the session, are posted; if
     * no post throws, an entry with the first message ts is registered under
     * the client's id and its ten-minute timer armed. The request's response
     * is the answer its waiter is later settled with. A body that does not
     * parse, or a post that throws, gives 500 and leaves the table alone.
     */
    method AskAndWait(request: Option<AskAndWaitRequest>, results: seq<PostResult>)
      returns (sent: seq<Message>, waiter: Option<Waiter>)
      requires Valid()
      requires request.Some? ==> |results| == |request.value.questions|
      modifies this
      ensures Valid()
      ensures waiter.None? ==> unchanged(this)
      ensures request.None? ==> waiter.None? && sent == []
      ensures request.Some? ==>
        var r := request.value;
        var tagged := TagAll(r.questions, r.sessionInfo);
        && (waiter.Some? <==> NoThrow(results))
        && MessagesOf(r.questionId, tagged, sent)
        && (waiter.Some? ==>
              && |sent| == |r.questions|
              && waiter.value == old(nextWaiter) && nextWaiter == old(nextWaiter) + 1
              && entries == old(entries)[r.questionId := Waiting(waiter.value, tagged, FirstTs(results), r.sessionInfo, r.paneId)]
              && timers == old(timers)[waiter.value := r.questionId]
              && resolved == old(resolved))
    {
      if request.None? {
        return [], None;
      }
      var r := request.value;
      var tagged := TagAll(r.questions, r.sessionInfo);
      var messageTs, ok;
      sent, messageTs, ok := PostAll(r.questionId, tagged, results);
      if !ok {
        return sent, None;
      }
      var w := Register(r.questionId, tagged, messageTs, r.sessionInfo, r.paneId);
      waiter := Some(w);
    }

    /**
     * `/ask` (tmux mode): an entry `q_<now>` is registered first, then the
     * questions are posted; the response names the id. A post that throws
     * gives 500 but the entry stays.
     */
    method Ask(nowMs: nat, request: Option<AskRequest>, results: seq<PostResult>) returns (resp: Response, sent: seq<Message>)
      requires Valid()
      requires request.Some? ==> |results| == |request.value.questions|
      modifies this
      ensures Valid()
      ensures request.None? ==> resp == ServerError && sent == [] && unchanged(this)
      ensures request.Some? ==>
        var r := request.value;
        var id := "q_" + NatToString(nowMs);
        && entries == old(entries)[id := TmuxMode(r.tmuxPane, r.questions, r.sessionId)]
        && timers == old(timers) && resolved == old(resolved) && nextWaiter == old(nextWaiter)
        && resp == (if NoThrow(results) then AskAccepted(id) else ServerError)
        && MessagesOf(id, r.questions, sent)
    {
      if request.None? {
        return ServerError, [];
      }
      var r := request.value;
      var id := "q_" + NatToString(nowMs);
      entries := entries[id := TmuxMode(r.tmuxPane, r.questions, r.sessionId)];
      var messageTs, ok;
      sent, messageTs, ok := PostAll(id, r.questions, results);
      resp := if ok then AskAccepted(id) else ServerError;
    }

    /**
     * The waiting entry `e` stored under `key` has been answered with
     * `answer`: its waiter settled once, the entry removed, its timer
     * cleared, the pane brought forward and `replyText` posted in the thread;
     * the response is `done` unless the thread reply threw.
     */
    twostate predicate Answered(key: string, e: Entry, answer: Answer, replyText: string, replyThrows: bool, done: Response,
                                resp: Response, effects: Effects)
      reads this
    {
      && e.Waiting?
      && e.waiter !in old(resolved)
      && resolved == old(resolved)[e.waiter := answer]
      && entries == old(entries) - {key}
      && timers == old(timers) - {e.waiter}
      && nextWaiter == old(nextWaiter)
      && effects == AfterAnswer(e, replyText)
      && resp == if e.messageTs.Some? && replyThrows then ServerError else done
    }

    /**
     * The outcome of a click on an option button whose value is `value`: the
     * pending waiting entry the value names is answered with
     * `{answer: label, optionIndex, timestamp}`; a value naming no entry gets
     * the "already answered or expired" text; a tmux-mode entry has no
     * waiter, so the call fails with 500; a value that does not parse fails
     * with 500. Only the first case changes the table.
     */
    twostate predicate OptionClicked(value: string, nowMs: nat, replyThrows: bool, resp: Response, effects: Effects)
      reads this
    {
      match Json.Parse(value)
      case None => resp == ServerError && effects == NoEffects && unchanged(this)
      case Some(data) =>
        var key := KeyOf(data);
        if key.None? || key.value !in old(entries) then
          resp == JsonText(ExpiredText) && effects == NoEffects && unchanged(this)
        else if old(entries)[key.value].TmuxMode? then
          resp == ServerError && effects == NoEffects && unchanged(this)
        else
          var chosenLabel := Json.Get(data, "label");
          Answered(key.value, old(entries)[key.value], Chosen(chosenLabel, Json.Get(data, "optionIndex"), nowMs),
                   "✅ 回答: *" + Show(chosenLabel) + "*", replyThrows, Replaced(AnsweredText), resp, effects)
    }

    /**
     * The outcome of a click on the free-text button whose value is `value`:
     * for a pending entry (in either mode) the input modal is opened; nothing
     * is answered.
     */
    predicate FreeTextClicked(value: string, openModalThrows: bool, resp: Response, modal: Option<Modal>)
      reads this
    {
      match Json.Parse(value)
      case None => resp == ServerError && modal.None?
      case Some(data) =>
        var key := KeyOf(data);
        if key.None? || key.value !in entries then resp == JsonText(ExpiredText) && modal.None?
        else
          && modal == Some(FreeTextModal(key.value, Json.Get(data, "questionIndex"), Json.Get(data, "question")))
          && resp == if openModalThrows then ServerError else Empty
    }

    /**
     * The outcome of a submitted free-text modal: the waiting entry its
     * private metadata names is answered with
     * `{answer: text, optionIndex: -1, freeText: true, timestamp}`; a missing
     * entry gets a field error on the input, a tmux-mode entry and metadata
     * that do not parse fail with 500, and those leave the table alone.
     */
    twostate predicate Submitted(privateMetadata: string, freeText: string, nowMs: nat, replyThrows: bool,
                                 resp: Response, effects: Effects)
      reads this
    {
      match Json.Parse(privateMetadata)
      case None => resp == ServerError && effects == NoEffects && unchanged(this)
      case Some(data) =>
        var key := KeyOf(data);
        if key.None? || key.value !in old(entries) then
          resp == SubmissionErrors(ExpiredFieldError) && effects == NoEffects && unchanged(this)
        else if old(entries)[key.value].TmuxMode? then
          resp == ServerError && effects == NoEffects && unchanged(this)
        else
          Answered(key.value, old(entries)[key.value], Written(freeText, nowMs),
                   "✅ 回答（自由記述）: *" + freeText + "*", replyThrows, ClearModal, resp, effects)
    }

    /** The common tail of both answer paths: settle, bring the pane forward, reply in the thread. */
    method Deliver(questionId: string, answer: Answer, replyText: string, replyThrows: bool, done: Response)
      returns (resp: Response, effects: Effects)
      requires Valid() && questionId in entries && entries[questionId].Waiting?
      modifies this
      ensures Valid()
      ensures Answered(questionId, old(entries)[questionId], answer, replyText, replyThrows, done, resp, effects)
    {
      var e := entries[questionId];
      Settle(questionId, answer);
      effects := AfterAnswer(e, replyText);
      resp := if e.messageTs.Some? && replyThrows then ServerError else done;
    }

    /**
     * A click on an option button: the pending waiting entry named by the
     * button is answered with `{answer: label, optionIndex, timestamp}` and
     * removed; a missing entry gets the "already answered or expired" text and
     * changes nothing; a tmux-mode entry has no waiter, so the call fails with
     * 500 and the entry stays.
     */
    method OptionClick(value: string, nowMs: nat, replyThrows: bool) returns (resp: Response, effects: Effects)
      requires Valid()
      modifies this
      ensures Valid()
      ensures OptionClicked(value, nowMs, replyThrows, resp, effects)
    {
      var parsed := Json.Parse(value);
      if parsed.None? {
        return ServerError, NoEffects;
      }
      var data := parsed.value;
      var key := KeyOf(data);
      if key.None? || key.value !in entries {
        return JsonText(ExpiredText), NoEffects;
      }
      if entries[key.value].TmuxMode? {
        return ServerError, NoEffects;
      }
      var chosenLabel := Json.Get(data, "label");
      resp, effects := Deliver(key.value, Chosen(chosenLabel, Json.Get(data, "optionIndex"), nowMs),
                               "✅ 回答: *" + Show(chosenLabel) + "*", replyThrows, Replaced(AnsweredText));
    }

    /**
     * A click on the free-text button: if the named entry is pending (in
     * either mode) the input modal is opened for it; nothing is answered.
     */
    method FreeTextClick(value: string, openModalThrows: bool) returns (resp: Response, modal: Option<Modal>)
      ensures FreeTextClicked(value, openModalThrows, resp, modal)
    {
      var parsed := Json.Parse(value);
      if parsed.None? {
        return ServerError, None;
      }
      var data := parsed.value;
      var key := KeyOf(data);
      if key.None? || key.value !in entries {
        return JsonText(ExpiredText), None;
      }
      modal := Some(FreeTextModal(key.value, Json.Get(data, "questionIndex"), Json.Get(data, "question")));
      resp := if openModalThrows then ServerError else Empty;
    }

    /**
     * A submitted free-text modal: the entry named by its private metadata is
     * answered with `{answer: text, optionIndex: -1, freeText: true, timestamp}`
     * and removed; a missing entry gets a field error on the input.
     */
    method Submit(privateMetadata: string, freeText: string, nowMs: nat, replyThrows: bool) returns (resp: Response, effects: Effects)
      requires Valid()
      modifies this
      ensures Valid()
      ensures Submitted(privateMetadata, freeText, nowMs, replyThrows, resp, effects)
    {
      var parsed := Json.Parse(privateMetadata);
      if parsed.None? {
        return ServerError, NoEffects;
      }
      var key := KeyOf(parsed.value);
      if key.None? || key.value !in entries {
        return SubmissionErrors(ExpiredFieldError), NoEffects;
      }
      if entries[key.value].TmuxMode? {
        return ServerError, NoEffects;
      }
      resp, effects := Deliver(key.value, Written(freeText, nowMs),
                               "✅ 回答（自由記述）: *" + freeText + "*", replyThrows, ClearModal);
    }

    /**
     * The ten-minute timer of waiter `w` fires: whatever waiting entry is then
     * stored under the id it was armed for is answered with the timeout error
     * and removed. A tmux-mode entry there makes the callback throw outside
     * any handler, which ends the process.
     */
    method TimerFires(w: Waiter) returns (crashed: bool)
      requires Valid() && w in timers
      modifies this
      ensures Valid() || crashed
      ensures var id := old(timers)[w];
        if id in old(entries) && old(entries)[id].Waiting? then
          var owner := old(entries)[id].waiter;
          && !crashed
          && owner !in old(resolved)
          && resolved == old(resolved)[owner := TimedOut]
          && entries == old(entries) - {id}
          && timers == old(timers) - {w, owner}
          && nextWaiter == old(nextWaiter)
        else
          && crashed == (id in old(entries))
          && entries == old(entries) && resolved == old(resolved)
          && timers == old(timers) - {w} && nextWaiter == old(nextWaiter)
    {
      var id := timers[w];
      timers := timers - {w};
      if id in entries && entries[id].Waiting? {
        var owner := entries[id].waiter;
        resolved := resolved[owner := TimedOut];
        entries := entries - {id};
        timers := timers - {owner};
        crashed := false;
      } else {
        crashed := id in entries;
      }
    }

    /**
     * `/slack/interactions`: an unauthentic request is refused with 401 and a
     * signature of the wrong length fails with 500, both before the payload is
     * read; then the first action of a button payload is dispatched on its
     * action id, a modal submission is handled, and any other payload is
     * acknowledged. Only an authentic option click or submission can answer a
     * waiter.
     */
    method HandleInteraction(secret: string, timestamp: Option<string>, signature: Option<string>, body: string,
                             payload: Option<Payload>, nowMs: nat, hmacHex: (string, string) -> string,
                             openModalThrows: bool, replyThrows: bool)
      returns (resp: Response, effects: Effects, modal: Option<Modal>)
      requires Valid()
      modifies this
      ensures Valid()
      ensures VerifySlackRequest(secret, timestamp, signature, nowMs, body, hmacHex) == Rejected ==>
        resp == Unauthorized && effects == NoEffects && modal.None? && unchanged(this)
      ensures VerifySlackRequest(secret, timestamp, signature, nowMs, body, hmacHex) == Threw ==>
        resp == ServerError && effects == NoEffects && modal.None? && unchanged(this)
      ensures payload.None? || payload.value.OtherPayload? ==> unchanged(this) && effects == NoEffects && modal.None?
      ensures (payload.Some? && payload.value.OtherPayload?
               && VerifySlackRequest(secret, timestamp, signature, nowMs, body, hmacHex) == Accepted) ==> resp == Empty
      ensures modal.Some? ==> unchanged(this)
      ensures VerifySlackRequest(secret, timestamp, signature, nowMs, body, hmacHex) == Accepted ==>
        match payload
        case None => resp == ServerError && effects == NoEffects && modal.None? && unchanged(this)
        case Some(BlockActions(actions, _)) =>
          if actions == [] then resp == ServerError && effects == NoEffects && modal.None? && unchanged(this)
          else if IsFreeTextAction(actions[0].actionId) then
            FreeTextClicked(actions[0].value, openModalThrows, resp, modal) && effects == NoEffects && unchanged(this)
          else OptionClicked(actions[0].value, nowMs, replyThrows, resp, effects) && modal.None?
        case Some(ViewSubmission(metadata, text)) => Submitted(metadata, text, nowMs, replyThrows, resp, effects) && modal.None?
        case Some(OtherPayload) => resp == Empty && effects == NoEffects && modal.None? && unchanged(this)
      ensures resolved != old(resolved) ==>
        VerifySlackRequest(secret, timestamp, signature, nowMs, body, hmacHex) == Accepted && payload.Some?
        && (payload.value.ViewSubmission? ||
            (payload.value.BlockActions? && payload.value.actions != [] && !IsFreeTextAction(payload.value.actions[0].actionId)))
    {
      effects, modal := NoEffects, None;
      var verdict := VerifySlackRequest(secret, timestamp, signature, nowMs, body, hmacHex);
      if verdict == Rejected {
        return Unauthorized, NoEffects, None;
      } else if verdict == Threw {
        return ServerError, NoEffects, None;
      }
      if payload.None? {
        return ServerError, NoEffects, None;
      }
      match payload.value
      case BlockActions(actions, _) =>
        if actions == [] {
          resp := ServerError;
        } else if IsFreeTextAction(actions[0].actionId) {
          resp, modal := FreeTextClick(actions[0].value, openModalThrows);
        } else {
          resp, effects := OptionClick(actions[0].value, nowMs, replyThrows);
        }
      case ViewSubmission(metadata, text) =>
        resp, effects := Submit(metadata, text, nowMs, replyThrows);
      case OtherPayload =>
        resp := Empty;
    }
  }
}
