/**
 * The session transcript the notification hooks read: a JSON-lines file
 * whose entries carry a `message` with a `role` and a `content` array of
 * typed items. Hooks keep the non-blank lines, parse each, and look for the
 * latest line that yields a message.
 */
module Transcript {
  import opened Wrappers
  import opened Text

  /** An element of `message.content`; `NullItem` is `null`, whose `type` cannot be read. */
  datatype Item = NullItem | Item(kind: Option<string>, text: Option<string>)

  /** `message.content`: an array of items, or `NotArray` for a missing or non-array value. */
  datatype Content = NotArray | Items(items: seq<Item>)

  /** A transcript line that parsed as JSON: its message role and content. */
  datatype Line = Line(role: Option<string>, content: Content)

  /** `text.split("\n").filter(line => line.trim())`: the lines that are not blank, in order. */
  function NonBlankLines(lines: seq<string>): (r: seq<string>)
    ensures |r| <= |lines|
    ensures forall l :: l in r <==> l in lines && JsNonBlank(l)
    decreases |lines|
  {
    if lines == [] then []
    else (if JsNonBlank(lines[0]) then [lines[0]] else []) + NonBlankLines(lines[1..])
  }

  /** Filtering distributes over concatenation: the lines of a longer text keep their order. */
  lemma {:induction false} NonBlankLinesAppend(a: seq<string>, b: seq<string>)
    ensures NonBlankLines(a + b) == NonBlankLines(a) + NonBlankLines(b)
    decreases |a|
  {
    if a == [] {
      assert a + b == b;
    } else {
      assert (a + b)[0] == a[0] && (a + b)[1..] == a[1..] + b;
      NonBlankLinesAppend(a[1..], b);
    }
  }

  /** One line alone is kept exactly when it is not blank. */
  lemma NonBlankLinesOne(line: string)
    ensures NonBlankLines([line]) == if JsNonBlank(line) then [line] else []
  {
    assert [line][1..] == [];
  }

  /** `lines[i]` is not blank and every line after it is. */
  predicate IsLastNonBlank(lines: seq<string>, i: int) {
    0 <= i < |lines| && JsNonBlank(lines[i]) && forall j :: i < j < |lines| ==> !JsNonBlank(lines[j])
  }

  /** The last kept line is the last line that is not blank. */
  lemma {:induction false} NonBlankLinesLast(lines: seq<string>)
    requires NonBlankLines(lines) != []
    ensures exists i :: IsLastNonBlank(lines, i) && lines[i] == NonBlankLines(lines)[|NonBlankLines(lines)| - 1]
    decreases |lines|
  {
    var x, rest := lines[0], lines[1..];
    assert lines == [x] + rest;
    if NonBlankLines(rest) != [] {
      NonBlankLinesLast(rest);
    } else {
      assert forall j :: 0 <= j < |rest| ==> rest[j] in rest;
    }
    assert NonBlankLines(lines) == (if JsNonBlank(x) then [x] else []) + NonBlankLines(rest);
    LastNonBlankCons(x, rest, NonBlankLines(rest), NonBlankLines(lines));
  }

  /**
   * One more line before `rest`: the last kept line is the one of `rest`
   * when `rest` keeps any, and otherwise `x`.
   */
  lemma LastNonBlankCons(x: string, rest: seq<string>, keptRest: seq<string>, kept: seq<string>)
    requires keptRest != [] ==> exists i :: IsLastNonBlank(rest, i) && rest[i] == keptRest[|keptRest| - 1]
    requires keptRest == [] ==> forall j :: 0 <= j < |rest| ==> !JsNonBlank(rest[j])
    requires kept == (if JsNonBlank(x) then [x] else []) + keptRest && kept != []
    ensures exists i :: IsLastNonBlank([x] + rest, i) && ([x] + rest)[i] == kept[|kept| - 1]
  {
    var lines := [x] + rest;
    if keptRest == [] {
      assert IsLastNonBlank(lines, 0);
    } else {
      var i :| IsLastNonBlank(rest, i) && rest[i] == keptRest[|keptRest| - 1];
      assert IsLastNonBlank(lines, i + 1);
    }
  }

  /** Each line through `JSON.parse`, `None` where it throws. */
  function ParseLines(lines: seq<string>, parse: string -> Option<Line>): (r: seq<Option<Line>>)
    ensures |r| == |lines|
    ensures forall i :: 0 <= i < |lines| ==> r[i] == parse(lines[i])
  {
    seq(|lines|, i requires 0 <= i < |lines| => parse(lines[i]))
  }

  /** The outcome of `items.find(match)`: the first matching item, none, or a `null` reached first (reading its `type` throws). */
  datatype Found = FoundItem(item: Item) | NoMatch | HitNull

  function FindItem(items: seq<Item>, isMatch: Item -> bool): (r: Found)
    ensures r.FoundItem? ==> exists i :: 0 <= i < |items| && items[i] == r.item && isMatch(r.item)
                               && forall j :: 0 <= j < i ==> items[j].Item? && !isMatch(items[j])
    ensures r == NoMatch <==> forall i :: 0 <= i < |items| ==> items[i].Item? && !isMatch(items[i])
    decreases |items|
  {
    if items == [] then NoMatch
    else if items[0].NullItem? then HitNull
    else if isMatch(items[0]) then FoundItem(items[0])
    else
      var r := FindItem(items[1..], isMatch);
      assert forall i :: 1 <= i < |items| ==> items[i] == items[1..][i - 1];
      assert r.FoundItem? ==> exists i :: 1 <= i < |items| && items[i] == r.item && isMatch(r.item)
                                && forall j :: 0 <= j < i ==> items[j].Item? && !isMatch(items[j]) by {
        if r.FoundItem? {
          var i :| 0 <= i < |items[1..]| && items[1..][i] == r.item && isMatch(r.item)
                   && forall j :: 0 <= j < i ==> items[1..][j].Item? && !isMatch(items[1..][j]);
          assert items[i + 1] == r.item;
        }
      }
      r
  }

  /** The message of the latest line for which `message` yields one (the reverse scan with `break`). */
  function Latest(lines: seq<Option<Line>>, message: Option<Line> -> Option<string>): Option<string>
    decreases |lines|
  {
    if lines == [] then None
    else
      var last := message(lines[|lines| - 1]);
      if last.Some? then last else Latest(lines[..|lines| - 1], message)
  }

  /** No line yields a message. */
  ghost predicate Silent(lines: seq<Option<Line>>, message: Option<Line> -> Option<string>) {
    forall j :: 0 <= j < |lines| ==> message(lines[j]).None?
  }

  /** The scan finds nothing exactly when no line yields a message. */
  lemma {:induction false} LatestNone(lines: seq<Option<Line>>, message: Option<Line> -> Option<string>)
    ensures Latest(lines, message).None? <==> Silent(lines, message)
    decreases |lines|
  {
    if lines != [] {
      var init := lines[..|lines| - 1];
      LatestNone(init, message);
      assert forall j :: 0 <= j < |init| ==> init[j] == lines[j];
    }
  }

  /** A message found is the message of some line, and no later line yields one. */
  lemma {:induction false} LatestIsLatest(lines: seq<Option<Line>>, message: Option<Line> -> Option<string>)
    ensures Latest(lines, message).Some? ==>
      exists i :: 0 <= i < |lines| && message(lines[i]) == Latest(lines, message) && Silent(lines[i + 1..], message)
    decreases |lines|
  {
    if lines != [] {
      var n := |lines| - 1;
      var init := lines[..n];
      if message(lines[n]).Some? {
        assert Silent(lines[n + 1..], message);
      } else if Latest(init, message).Some? {
        LatestIsLatest(init, message);
        var i :| 0 <= i < n && message(init[i]) == Latest(init, message) && Silent(init[i + 1..], message);
        assert lines[i + 1..] == init[i + 1..] + [lines[n]];
        assert Silent(lines[i + 1..], message);
      }
    }
  }
}
