/**
 * The message composer of the question bridge: a question becomes a header,
 * its text and a divider, followed by rows of buttons (one per option and a
 * final free-text button), at most five buttons per row; the free-text
 * button leads to an input modal. Button values and the modal's private
 * metadata are JSON texts that the interaction callback parses back.
 */
module SlackMessages {
  import opened Wrappers
  import opened Text
  import Json

  /** One question of a batch. `header` is "" when the client sent none (or an empty one). */
  datatype Question = Question(header: string, text: string, options: seq<string>)

  /**
   * A Block Kit button: its visible text, whether it has the primary style,
   * the object its value is the JSON text of, and its action id.
   */
  datatype Button = Button(text: string, primary: bool, fields: Json.Fields, actionId: string)

  datatype Block =
    | Header(title: string)
    | Section(markdown: string)
    | Divider
    | Actions(elements: seq<Button>)

  const DefaultHeader := "Claude Code"
  const FreeTextButtonText := "✏️ その他（自由記述）"
  const RowSize := 5

  /** How a value appears when interpolated into a template string; `undefined` when absent. */
  function Show(v: Option<Json.Value>): string {
    match v
    case None => "undefined"
    case Some(Str(s)) => s
    case Some(Num(n)) => NatToString(n)
  }

  function HeaderText(q: Question): string {
    "🤖 " + (if q.header == "" then DefaultHeader else q.header)
  }

  /** The three fixed blocks in front of the buttons. */
  function Preamble(q: Question): seq<Block> {
    [Header(HeaderText(q)), Section(q.text), Divider]
  }

  function OptionFields(questionId: string, questionIndex: nat, optionIndex: nat, optionLabel: string): Json.Fields {
    [("questionId", Json.Str(questionId)), ("questionIndex", Json.Num(questionIndex)),
     ("optionIndex", Json.Num(optionIndex)), ("label", Json.Str(optionLabel))]
  }

  function FreeTextFields(questionId: string, questionIndex: nat, question: string): Json.Fields {
    [("questionId", Json.Str(questionId)), ("questionIndex", Json.Num(questionIndex)),
     ("question", Json.Str(question))]
  }

  function OptionButton(questionId: string, questionIndex: nat, optionIndex: nat, optionLabel: string): Button {
    Button(optionLabel, false,
           OptionFields(questionId, questionIndex, optionIndex, optionLabel),
           "answer_" + questionId + "_" + NatToString(questionIndex) + "_" + NatToString(optionIndex))
  }

  /** The option buttons, in option order (the `options.map` of the source). */
  function OptionButtons(questionId: string, questionIndex: nat, labels: seq<string>): (r: seq<Button>)
    ensures |r| == |labels|
  {
    seq(|labels|, i requires 0 <= i < |labels| => OptionButton(questionId, questionIndex, i, labels[i]))
  }

  function FreeTextButton(questionId: string, questionIndex: nat, question: string): Button {
    Button(FreeTextButtonText, true,
           FreeTextFields(questionId, questionIndex, question),
           "freetext_" + questionId + "_" + NatToString(questionIndex))
  }

  function AllButtons(questionId: string, questionIndex: nat, q: Question): seq<Button> {
    OptionButtons(questionId, questionIndex, q.options) + [FreeTextButton(questionId, questionIndex, q.text)]
  }

  /** The callback takes an action id starting with `freetext_` for the free-text button. */
  predicate IsFreeTextAction(actionId: string) {
    StartsWith(actionId, "freetext_")
  }

  /** The button's `value`: `JSON.stringify` of its object. */
  function ValueText(b: Button): string {
    Json.Stringify(b.fields)
  }

  /** The object a button value parses to, as the callback reads it. */
  function Data(b: Button): map<string, Json.Value>
    requires Json.Parse(ValueText(b)).Some?
  {
    Json.Parse(ValueText(b)).value
  }

  lemma OptionFieldsRead(questionId: string, questionIndex: nat, i: nat, optionLabel: string)
    ensures var text := Json.Stringify(OptionFields(questionId, questionIndex, i, optionLabel));
      && Json.Parse(text).Some?
      && Json.Get(Json.Parse(text).value, "questionId") == Some(Json.Str(questionId))
      && Json.Get(Json.Parse(text).value, "questionIndex") == Some(Json.Num(questionIndex))
      && Json.Get(Json.Parse(text).value, "optionIndex") == Some(Json.Num(i))
      && Json.Get(Json.Parse(text).value, "label") == Some(Json.Str(optionLabel))
  {
    Json.ReadBack4("questionId", Json.Str(questionId), "questionIndex", Json.Num(questionIndex),
                   "optionIndex", Json.Num(i), "label", Json.Str(optionLabel));
  }

  lemma AnswerIdIsNotFreeText(rest: string)
    ensures !IsFreeTextAction("answer_" + rest)
  {
    assert ("answer_" + rest)[0] == 'a';
  }

  /**
   * Option button `i` shows label `i` and carries `{questionId, questionIndex,
   * optionIndex: i, label}`; its action id is not taken for the free-text button.
   */
  lemma OptionButtonCarries(questionId: string, questionIndex: nat, labels: seq<string>, i: nat)
    requires i < |labels|
    ensures var b := OptionButtons(questionId, questionIndex, labels)[i];
      && b.text == labels[i]
      && Json.Parse(ValueText(b)).Some?
      && Json.Get(Data(b), "questionId") == Some(Json.Str(questionId))
      && Json.Get(Data(b), "questionIndex") == Some(Json.Num(questionIndex))
      && Json.Get(Data(b), "optionIndex") == Some(Json.Num(i))
      && Json.Get(Data(b), "label") == Some(Json.Str(labels[i]))
      && !IsFreeTextAction(b.actionId)
  {
    OptionFieldsRead(questionId, questionIndex, i, labels[i]);
    var rest := questionId + "_" + NatToString(questionIndex) + "_" + NatToString(i);
    AnswerIdIsNotFreeText(rest);
    AnswerIdShape(questionId, questionIndex, i);
  }

  lemma AnswerIdShape(questionId: string, questionIndex: nat, i: nat)
    ensures "answer_" + questionId + "_" + NatToString(questionIndex) + "_" + NatToString(i)
         == "answer_" + (questionId + "_" + NatToString(questionIndex) + "_" + NatToString(i))
  {
  }

  /**
   * The free-text button carries `{questionId, questionIndex, question}` and
   * no option index, and its action id is the one taken for free text.
   */
  lemma FreeTextButtonCarries(questionId: string, questionIndex: nat, question: string)
    ensures var b := FreeTextButton(questionId, questionIndex, question);
      && Json.Parse(ValueText(b)).Some?
      && Json.Get(Data(b), "questionId") == Some(Json.Str(questionId))
      && Json.Get(Data(b), "questionIndex") == Some(Json.Num(questionIndex))
      && Json.Get(Data(b), "question") == Some(Json.Str(question))
      && Json.Get(Data(b), "optionIndex") == None
      && IsFreeTextAction(b.actionId)
  {
    var b := FreeTextButton(questionId, questionIndex, question);
    assert ValueText(b) == Json.Stringify(FreeTextFields(questionId, questionIndex, question));
    FreeTextFieldsRead(questionId, questionIndex, question);
    FreeTextIdShape(questionId, questionIndex, question);
  }

  lemma FreeTextFieldsRead(questionId: string, questionIndex: nat, question: string)
    ensures var text := Json.Stringify(FreeTextFields(questionId, questionIndex, question));
      && Json.Parse(text).Some?
      && Json.Get(Json.Parse(text).value, "questionId") == Some(Json.Str(questionId))
      && Json.Get(Json.Parse(text).value, "questionIndex") == Some(Json.Num(questionIndex))
      && Json.Get(Json.Parse(text).value, "question") == Some(Json.Str(question))
      && Json.Get(Json.Parse(text).value, "optionIndex") == None
  {
    Json.ReadBack3("questionId", Json.Str(questionId), "questionIndex", Json.Num(questionIndex),
                   "question", Json.Str(question), "optionIndex");
  }

  lemma FreeTextIdShape(questionId: string, questionIndex: nat, question: string)
    ensures IsFreeTextAction(FreeTextButton(questionId, questionIndex, question).actionId)
  {
    var id := FreeTextButton(questionId, questionIndex, question).actionId;
    assert id[..9] == "freetext_";
  }

  // ---------------------------------------------------------------------------
  // Rows of at most five buttons
  // ---------------------------------------------------------------------------

  function Min(a: int, b: int): int { if a <= b then a else b }

  /** The rows `buttons.slice(i, i + 5)` for i = from, from + 5, … while i is below the length. */
  function RowsFrom(buttons: seq<Button>, from: nat): seq<seq<Button>>
    decreases |buttons| - from
  {
    if from >= |buttons| then []
    else [buttons[from..Min(from + RowSize, |buttons|)]] + RowsFrom(buttons, from + RowSize)
  }

  function Concat(rows: seq<seq<Button>>): seq<Button>
    decreases |rows|
  {
    if rows == [] then [] else rows[0] + Concat(rows[1..])
  }

  /**
   * Cutting into rows keeps every button in order, makes ceil(n / 5) rows,
   * every row holds 1 to 5 buttons, and only the last one may hold fewer than 5.
   */
  lemma {:induction false} RowsShape(buttons: seq<Button>, from: nat)
    requires from <= |buttons|
    ensures var rows := RowsFrom(buttons, from);
      && Concat(rows) == buttons[from..]
      && |rows| == (|buttons| - from + RowSize - 1) / RowSize
      && (forall j :: 0 <= j < |rows| ==> 1 <= |rows[j]| <= RowSize)
      && (forall j :: 0 <= j < |rows| - 1 ==> |rows[j]| == RowSize)
    decreases |buttons| - from
  {
    var rows := RowsFrom(buttons, from);
    if from == |buttons| {
    } else if from + RowSize >= |buttons| {
      assert Min(from + RowSize, |buttons|) == |buttons|;
      assert RowsFrom(buttons, from + RowSize) == [];
      assert rows == [buttons[from..|buttons|]];
      assert Concat(rows) == buttons[from..|buttons|] + Concat([]);
    } else {
      RowsShape(buttons, from + RowSize);
      var rest := RowsFrom(buttons, from + RowSize);
      assert rows == [buttons[from..from + RowSize]] + rest;
      assert rows[1..] == rest;
      assert buttons[from..] == buttons[from..from + RowSize] + buttons[from + RowSize..];
    }
  }

  function ActionRows(rows: seq<seq<Button>>): (r: seq<Block>)
    ensures |r| == |rows|
  {
    seq(|rows|, j requires 0 <= j < |rows| => Actions(rows[j]))
  }

  lemma RowsStep(buttons: seq<Button>, from: nat)
    requires from < |buttons|
    ensures ActionRows(RowsFrom(buttons, from))
         == [Actions(buttons[from..Min(from + RowSize, |buttons|)])] + ActionRows(RowsFrom(buttons, from + RowSize))
  {
  }

  /** Appending one row to the blocks built so far leaves the same total. */
  lemma AppendRow(blocks: seq<Block>, row: seq<Button>, rest: seq<seq<Button>>)
    ensures (blocks + [Actions(row)]) + ActionRows(rest) == blocks + ([Actions(row)] + ActionRows(rest))
  {
  }

  /** The message blocks of a question, as the composer produces them. */
  function QuestionBlocks(questionId: string, questionIndex: nat, q: Question): seq<Block> {
    Preamble(q) + ActionRows(RowsFrom(AllButtons(questionId, questionIndex, q), 0))
  }

  /** The buttons of all action blocks, in order. */
  function ActionElements(blocks: seq<Block>): seq<Button>
    decreases |blocks|
  {
    if blocks == [] then []
    else (if blocks[0].Actions? then blocks[0].elements else []) + ActionElements(blocks[1..])
  }

  lemma {:induction false} ActionElementsOfRows(rows: seq<seq<Button>>)
    ensures ActionElements(ActionRows(rows)) == Concat(rows)
    decreases |rows|
  {
    if rows != [] {
      ActionElementsOfRows(rows[1..]);
      assert ActionRows(rows)[1..] == ActionRows(rows[1..]);
    }
  }

  /**
   * The blocks of a question: the header, text and divider, then ceil((n + 1) / 5)
   * action blocks for n options; each holds 1 to 5 buttons, all but the last
   * exactly 5; together they are the n option buttons in order and then the
   * free-text button, none dropped.
   */
  lemma QuestionBlocksShape(questionId: string, questionIndex: nat, q: Question)
    ensures var blocks := QuestionBlocks(questionId, questionIndex, q);
      && |blocks| == 3 + (|q.options| + RowSize) / RowSize
      && blocks[..3] == Preamble(q)
      && (forall j :: 3 <= j < |blocks| ==> blocks[j].Actions? && 1 <= |blocks[j].elements| <= RowSize)
      && (forall j :: 3 <= j < |blocks| - 1 ==> |blocks[j].elements| == RowSize)
      && ActionElements(blocks[3..])
         == OptionButtons(questionId, questionIndex, q.options) + [FreeTextButton(questionId, questionIndex, q.text)]
  {
    var buttons := AllButtons(questionId, questionIndex, q);
    var rows := RowsFrom(buttons, 0);
    var blocks := QuestionBlocks(questionId, questionIndex, q);
    RowsShape(buttons, 0);
    ActionElementsOfRows(rows);
    assert blocks[3..] == ActionRows(rows);
    assert buttons[0..] == buttons;
  }

  /** `buildQuestionBlocks`: appends one action block per slice of five buttons. */
  method BuildQuestionBlocks(questionId: string, questionIndex: nat, q: Question) returns (blocks: seq<Block>)
    ensures blocks == QuestionBlocks(questionId, questionIndex, q)
    ensures |blocks| == 3 + (|q.options| + RowSize) / RowSize
    ensures blocks[..3] == Preamble(q)
    ensures forall j :: 3 <= j < |blocks| ==> blocks[j].Actions? && 1 <= |blocks[j].elements| <= RowSize
    ensures forall j :: 3 <= j < |blocks| - 1 ==> |blocks[j].elements| == RowSize
    ensures ActionElements(blocks[3..])
         == OptionButtons(questionId, questionIndex, q.options) + [FreeTextButton(questionId, questionIndex, q.text)]
  {
    blocks := Preamble(q);
    var buttons := OptionButtons(questionId, questionIndex, q.options);
    buttons := buttons + [FreeTextButton(questionId, questionIndex, q.text)];
    var i := 0;
    while i < |buttons|
      invariant blocks + ActionRows(RowsFrom(buttons, i)) == QuestionBlocks(questionId, questionIndex, q)
      decreases |buttons| - i
    {
      var row := buttons[i..Min(i + RowSize, |buttons|)];
      RowsStep(buttons, i);
      AppendRow(blocks, row, RowsFrom(buttons, i + RowSize));
      blocks := blocks + [Actions(row)];
      i := i + RowSize;
    }
    assert RowsFrom(buttons, i) == [];
    assert blocks + ActionRows([]) == blocks;
    QuestionBlocksShape(questionId, questionIndex, q);
  }

  // ---------------------------------------------------------------------------
  // Free-text modal
  // ---------------------------------------------------------------------------

  datatype Modal = Modal(
    callbackId: string,
    title: string,
    submit: string,
    close: string,
    privateMetadata: string,
    prompt: string,
    inputBlockId: string,
    inputActionId: string,
    placeholder: string,
    inputLabel: string)

  function MetadataFields(questionId: string, questionIndex: Option<Json.Value>): Json.Fields {
    [("questionId", Json.Str(questionId))]
    + (if questionIndex.Some? then [("questionIndex", questionIndex.value)] else [])
  }

  lemma MetadataReadsBack(questionId: string, questionIndex: Option<Json.Value>)
    ensures var text := Json.Stringify(MetadataFields(questionId, questionIndex));
      && Json.Parse(text).Some?
      && Json.Get(Json.Parse(text).value, "questionId") == Some(Json.Str(questionId))
      && Json.Get(Json.Parse(text).value, "questionIndex") == questionIndex
  {
    if questionIndex.Some? {
      Json.ReadBack2("questionId", Json.Str(questionId), "questionIndex", questionIndex.value);
    } else {
      Json.ReadBack1("questionId", Json.Str(questionId), "questionIndex");
    }
  }

  /**
   * `buildFreeTextModal`: its private metadata is the JSON text of
   * `{questionId, questionIndex}` (an absent index is left out, as
   * `JSON.stringify` drops undefined members), so the submission handler
   * reads the same questionId back from it.
   */
  function FreeTextModal(questionId: string, questionIndex: Option<Json.Value>, question: Option<Json.Value>): (m: Modal)
    ensures Json.Parse(m.privateMetadata).Some?
    ensures Json.Get(Json.Parse(m.privateMetadata).value, "questionId") == Some(Json.Str(questionId))
    ensures Json.Get(Json.Parse(m.privateMetadata).value, "questionIndex") == questionIndex
    ensures m.callbackId == "freetext_modal"
  {
    MetadataReadsBack(questionId, questionIndex);
    Modal("freetext_modal", "自由記述で回答", "送信", "キャンセル",
          Json.Stringify(MetadataFields(questionId, questionIndex)),
          "*質問:*\n" + Show(question),
          "freetext_input", "freetext_value", "回答を入力してください...", "回答")
  }
}
