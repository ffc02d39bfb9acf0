/**
  The stream run_tests' output is sent to in the runner window
  (TestCaptureStream in mayatest/mayaunittestui.py): each write is drawn in the
  colour of the literal prefix it starts with (so "okay" counts as "ok"), then
  the text edit is switched back to the normal colour.
*/
module CaptureStream {
  import opened Strings

  datatype Color = Color(red: nat, green: nat, blue: nat)

  const SUCCESS_COLOR := Color(92, 184, 92)
  const FAIL_COLOR := Color(240, 173, 78)
  const ERROR_COLOR := Color(217, 83, 79)
  const SKIP_COLOR := Color(88, 165, 204)
  const NORMAL_COLOR := Color(200, 200, 200)

  /** A run of text drawn in one colour. */
  datatype Span = Span(color: Color, text: string)

  /** The characters of the spans, in order. */
  function Concat(spans: seq<Span>): (s: string)
    decreases |spans|
  {
    if spans == [] then "" else Concat(spans[..|spans| - 1]) + spans[|spans| - 1].text
  }

  lemma ConcatAppend(spans: seq<Span>, sp: Span)
    ensures Concat(spans + [sp]) == Concat(spans) + sp.text
  {
    assert (spans + [sp])[..|spans|] == spans;
  }

  /** The QTextEdit a stream writes into: the colour new text gets and the text so far, span by span. */
  class TextEdit {
    var color: Color
    var spans: seq<Span>

    constructor(initial: Color)
      ensures color == initial && spans == []
    {
      color := initial;
      spans := [];
    }

    function Text(): string
      reads this
    {
      Concat(spans)
    }

    /** `setTextColor`. */
    method SetTextColor(c: Color)
      modifies this
      ensures color == c && spans == old(spans)
    {
      color := c;
    }

    /** `insertPlainText`: the text is appended unchanged, in the current colour. */
    method InsertPlainText(t: string)
      modifies this
      ensures color == old(color)
      ensures spans == old(spans) + [Span(old(color), t)]
      ensures Text() == old(Text()) + t
    {
      ConcatAppend(spans, Span(color, t));
      spans := spans + [Span(color, t)];
    }
  }

  /**
    The colour `write` draws `text` in when the text edit's colour is `current`.
    The prefixes are tried in the source's order; the contract states each one
    on its own, which holds because at most one can match.
  */
  function WriteColor(text: string, current: Color): (c: Color)
    ensures StartsWith(text, "ok") ==> c == SUCCESS_COLOR
    ensures StartsWith(text, "FAIL") ==> c == FAIL_COLOR
    ensures StartsWith(text, "ERROR") ==> c == ERROR_COLOR
    ensures StartsWith(text, "skipped") ==> c == SKIP_COLOR
    ensures (!StartsWith(text, "ok") && !StartsWith(text, "FAIL") && !StartsWith(text, "ERROR")
             && !StartsWith(text, "skipped")) ==> c == current
  {
    PrefixesExclusive(text);
    if StartsWith(text, "ok") then SUCCESS_COLOR
    else if StartsWith(text, "FAIL") then FAIL_COLOR
    else if StartsWith(text, "ERROR") then ERROR_COLOR
    else if StartsWith(text, "skipped") then SKIP_COLOR
    else current
  }

  /** The four prefixes begin with different letters, so at most one matches and their order does not matter. */
  lemma PrefixesExclusive(text: string)
    ensures !(StartsWith(text, "ok") && StartsWith(text, "FAIL"))
    ensures !(StartsWith(text, "ok") && StartsWith(text, "ERROR"))
    ensures !(StartsWith(text, "ok") && StartsWith(text, "skipped"))
    ensures !(StartsWith(text, "FAIL") && StartsWith(text, "ERROR"))
    ensures !(StartsWith(text, "FAIL") && StartsWith(text, "skipped"))
    ensures !(StartsWith(text, "ERROR") && StartsWith(text, "skipped"))
  {
    if StartsWith(text, "ok") { assert text[0] == "ok"[0]; }
    if StartsWith(text, "FAIL") { assert text[0] == "FAIL"[0]; }
    if StartsWith(text, "ERROR") { assert text[0] == "ERROR"[0]; }
  }

  /** A write that announces a status is drawn in that status' colour, whatever colour was current. */
  lemma StatusWordsKeepTheirColor(text: string, a: Color, b: Color)
    requires StartsWith(text, "ok") || StartsWith(text, "FAIL") || StartsWith(text, "ERROR") || StartsWith(text, "skipped")
    ensures WriteColor(text, a) == WriteColor(text, b) != NORMAL_COLOR
  {
  }

  class TestCaptureStream {
    const textEdit: TextEdit

    constructor(textEdit: TextEdit)
      ensures this.textEdit == textEdit
    {
      this.textEdit := textEdit;
    }

    /** `write`: the text is inserted unchanged in its announced colour, then the colour is reset. */
    method Write(text: string)
      modifies textEdit
      ensures textEdit.spans == old(textEdit.spans) + [Span(WriteColor(text, old(textEdit.color)), text)]
      ensures textEdit.Text() == old(textEdit.Text()) + text
      ensures textEdit.color == NORMAL_COLOR
    {
      if StartsWith(text, "ok") {
        textEdit.SetTextColor(SUCCESS_COLOR);
      } else if StartsWith(text, "FAIL") {
        textEdit.SetTextColor(FAIL_COLOR);
      } else if StartsWith(text, "ERROR") {
        textEdit.SetTextColor(ERROR_COLOR);
      } else if StartsWith(text, "skipped") {
        textEdit.SetTextColor(SKIP_COLOR);
      }
      textEdit.InsertPlainText(text);
      textEdit.SetTextColor(NORMAL_COLOR);
    }
  }

  /** A status colour never leaks into the next write: plain text after "FAIL" is drawn in the normal colour. */
  method ColorDoesNotLeak() returns (second: Color)
    ensures second == NORMAL_COLOR
  {
    var edit := new TextEdit(NORMAL_COLOR);
    var stream := new TestCaptureStream(edit);
    stream.Write("FAIL: test_sphere");
    stream.Write("Traceback");
    assert !StartsWith("Traceback", "ok") && !StartsWith("Traceback", "FAIL");
    assert !StartsWith("Traceback", "ERROR") && !StartsWith("Traceback", "skipped");
    second := edit.spans[1].color;
  }
}
