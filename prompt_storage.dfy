/**
 * `PromptStorage.get` of `prompt_storage.py`: a dispatch table that knows only
 * the prompt type "image_1", whose content is a text block (fixed
 * instructions around the desired time window and, when there are any, the
 * button labels already tried) followed by an image block holding the
 * screenshot as a base64 JPEG data URL. The instruction prose is kept as
 * constant strings.
 */
module PromptStorage {
  import opened Wrappers

  /** The time window object: the `str` of what `get_start()` and `get_end()` return. */
  datatype TimeRange = TimeRange(start: string, end: string)

  /** One content block: `{"type": "text", "text": ...}` or `{"type": "image_url", "image_url": ...}`. */
  datatype ContentBlock = TextBlock(text: string) | ImageUrlBlock(imageUrl: string)

  /** The block's `"type"` entry. */
  function BlockType(block: ContentBlock): string
  {
    match block
    case TextBlock(_) => "text"
    case ImageUrlBlock(_) => "image_url"
  }

  /** What `get` raises. */
  datatype PromptError =
    | UnknownPromptType(message: string)  // `ValueError`
    | MissingTimeRange                    // `AttributeError` from `None.get_start()`

  /** The only registered prompt type. */
  const Image1: string := "image_1"

  const DataUrlPrefix: string := "data:image/jpeg;base64,"

  const Instructions: string :=
    "\n"
    + "                        Analyze the following image and provide the\n"
    + "                        available reservation times or the next button to \n"
    + "                        click to reach the reservation page. The output\n"
    + "                        should be in the format: \n"
    + "                        { \"available_times\": [time1, time2], \n"
    + "                            \"next_button\": null } \n"
    + "                        or \n"
    + "                        { \"available_times\": null,\n"
    + "                            \"next_button\": <button_text> }.\n"
    + "                        If there are no available times and no next button,\n"
    + "                        return \n"
    + "                        { \"available_times\": null,\n"
    + "                            \"next_button\": null } \n"
    + "                        \n"
    + "                        The user is looking for a time between \n"
    + "                        "

  const Between: string :=
    " and "

  const Example: string :=
    "\n"
    + "                        Do NOT include any other information in the output.\n"
    + "                        Do NOT Include ```json``` in the output. \n"
    + "                        Here is an example of what should be output: \n"
    + "                        \n"
    + "                        {\n"
    + "                        \"available_times\": null,\n"
    + "                        \"next_button\": \"BOOK A TABLE\"\n"
    + "                        }\n"
    + "                        \n"
    + "                        "

  const TriedHeader: string :=
    "\n"
    + "                            These buttons have been tried and are NOT the \n"
    + "                            correct next_button, do not return them as an answer: \n"
    + "                        "

  const Closing: string :=
    "\n"
    + "                        "

  /** The fixed prose of the `image_1` text, piece by piece. */
  datatype Prose = Prose(instructions: string, between: string, example: string, triedHeader: string, closing: string)

  const Image1Prose: Prose := Prose(Instructions, Between, Example, TriedHeader, Closing)

  /** `str()` of an optional string: `None` prints as "None". */
  function Str(value: Option<string>): string
  {
    match value
    case None => "None"
    case Some(s) => s
  }

  /** The escaped body of a string literal quoted with `quote`. */
  function Escape(s: string, quote: char): (r: string)
    ensures |r| >= |s|
  {
    if s == [] then []
    else
      var c := s[0];
      var escaped :=
        if c == '\\' then "\\\\"
        else if c == '\n' then "\\n"
        else if c == '\r' then "\\r"
        else if c == '\t' then "\\t"
        else if c == quote then ['\\', quote]
        else [c];
      escaped + Escape(s[1..], quote)
  }

  /** Python's `repr` of a string: single quotes unless the string holds a single quote and no double quote. */
  function StrRepr(s: string): (r: string)
    ensures |r| >= |s| + 2
    ensures r[0] == r[|r| - 1] && (r[0] == '\'' || r[0] == '"')
  {
    if '\'' in s && '"' !in s then "\"" + Escape(s, '"') + "\""
    else "'" + Escape(s, '\'') + "'"
  }

  /** The items' representations joined by ", ". */
  function JoinReprs(items: seq<string>): string
  {
    if items == [] then ""
    else if |items| == 1 then StrRepr(items[0])
    else StrRepr(items[0]) + ", " + JoinReprs(items[1..])
  }

  /** `str()` of a list of strings. */
  function ListRepr(items: seq<string>): (r: string)
    ensures |r| >= 2 && r[0] == '[' && r[|r| - 1] == ']'
  {
    "[" + JoinReprs(items) + "]"
  }

  /** `incorrect_button_labels` is truthy: present and not an empty list. */
  predicate HasRejectedLabels(labels: Option<seq<string>>)
  {
    labels.Some? && labels.value != []
  }

  /** The rejected-labels sentence, or "" when there are no labels. */
  function RejectedSentence(prose: Prose, labels: Option<seq<string>>): string
  {
    if HasRejectedLabels(labels) then prose.triedHeader + ListRepr(labels.value) else ""
  }

  /** The text of the `image_1` text block. */
  function Image1Text(prose: Prose, timeRange: TimeRange, labels: Option<seq<string>>): string
  {
    prose.instructions + timeRange.start + prose.between + timeRange.end + prose.example
    + RejectedSentence(prose, labels) + prose.closing
  }

  /** The `image_1` content: the text block, then the image block. */
  function Image1Content(timeRange: Option<TimeRange>, encodedImage: Option<string>, labels: Option<seq<string>>): (r: Result<seq<ContentBlock>, PromptError>)
    ensures r.Failure? <==> timeRange.None?
    ensures r.Failure? ==> r.error == MissingTimeRange
    ensures r.Success? ==> |r.value| == 2 && r.value[0].TextBlock? && r.value[1].ImageUrlBlock?
  {
    match timeRange
    case None => Failure(MissingTimeRange)
    case Some(range) =>
      Success([TextBlock(Image1Text(Image1Prose, range, labels)), ImageUrlBlock(DataUrlPrefix + Str(encodedImage))])
  }

  /** `get`: look the prompt type up in the dispatch table, which holds only "image_1", and build its content. */
  function Get(promptType: string := Image1, timeRange: Option<TimeRange> := None,
               encodedImage: Option<string> := None, incorrectButtonLabels: Option<seq<string>> := None,
               htmlContent: Option<string> := None): (r: Result<seq<ContentBlock>, PromptError>)
    ensures promptType != Image1 ==> r == Failure(UnknownPromptType("Prompt type " + promptType + " not found."))
    ensures promptType == Image1 ==> (r.Failure? <==> timeRange.None?)
  {
    if promptType != Image1 then Failure(UnknownPromptType("Prompt type " + promptType + " not found."))
    else Image1Content(timeRange, encodedImage, incorrectButtonLabels)
  }

  /** "html_1" has content defined beside "image_1" but is not in the dispatch table, so it is rejected. */
  lemma Html1NotRegistered(timeRange: Option<TimeRange>, encodedImage: Option<string>, labels: Option<seq<string>>, htmlContent: Option<string>)
    ensures Get("html_1", timeRange, encodedImage, labels, htmlContent)
         == Failure(UnknownPromptType("Prompt type html_1 not found."))
  {
    assert "html_1"[0] != Image1[0];
    assert "Prompt type " + "html_1" + " not found." == "Prompt type html_1 not found.";
  }

  /**
   * With a time window, "image_1" yields exactly two blocks, a text block then
   * an image block whose URL is the JPEG data-URL prefix followed by the
   * encoded image, which can be read back after the prefix.
   */
  lemma Image1Blocks(timeRange: TimeRange, encodedImage: Option<string>, labels: Option<seq<string>>)
    ensures Get(timeRange := Some(timeRange), encodedImage := encodedImage, incorrectButtonLabels := labels).Success?
    ensures var blocks := Get(Image1, Some(timeRange), encodedImage, labels).value;
            && |blocks| == 2
            && BlockType(blocks[0]) == "text" && BlockType(blocks[1]) == "image_url"
            && blocks[0] == TextBlock(Image1Text(Image1Prose, timeRange, labels))
            && blocks[1].ImageUrlBlock?
            && blocks[1].imageUrl[..|DataUrlPrefix|] == DataUrlPrefix
            && blocks[1].imageUrl[|DataUrlPrefix|..] == Str(encodedImage)
  {
    var url := DataUrlPrefix + Str(encodedImage);
    assert url[..|DataUrlPrefix|] == DataUrlPrefix;
    assert url[|DataUrlPrefix|..] == Str(encodedImage);
  }

  /**
   * The text names the window's start, then the separator " and ", then its
   * end, right after the fixed instructions. This holds whatever the prose
   * is, so in particular for `Image1Prose`.
   */
  lemma WindowStartBeforeEnd(prose: Prose, timeRange: TimeRange, labels: Option<seq<string>>)
    ensures var text := Image1Text(prose, timeRange, labels);
            var at := |prose.instructions| + |timeRange.start| + |prose.between|;
            && |text| >= at + |timeRange.end|
            && text[|prose.instructions|..|prose.instructions| + |timeRange.start|] == timeRange.start
            && text[at - |prose.between|..at] == prose.between
            && text[at..at + |timeRange.end|] == timeRange.end
  {
    PiecesInPlace(prose.instructions, timeRange.start, prose.between, timeRange.end, prose.example,
                  RejectedSentence(prose, labels), prose.closing);
  }

  /** Where the first four pieces of a concatenation `a + b + c + d + e + f + g` sit. */
  lemma PiecesInPlace(a: string, b: string, c: string, d: string, e: string, f: string, g: string)
    ensures var text := a + b + c + d + e + f + g;
            var at := |a| + |b| + |c|;
            && |text| >= at + |d|
            && text[|a|..|a| + |b|] == b
            && text[at - |c|..at] == c
            && text[at..at + |d|] == d
  {
    var text := a + b + c + d + e + f + g;
    var at := |a| + |b| + |c|;
    assert text[|a|..|a| + |b|] == b by {
      forall k | 0 <= k < |b| ensures text[|a| + k] == b[k] { }
    }
    assert text[at - |c|..at] == c by {
      forall k | 0 <= k < |c| ensures text[|a| + |b| + k] == c[k] { }
    }
    assert text[at..at + |d|] == d by {
      forall k | 0 <= k < |d| ensures text[at + k] == d[k] { }
    }
  }

  /**
   * The rejected-labels sentence is present only when the labels are truthy:
   * otherwise the text is the one built without labels, and with labels it is
   * that text with the sentence and the list's `str` inserted just before the
   * closing line.
   */
  lemma RejectedSentenceOnlyWithLabels(prose: Prose, timeRange: TimeRange, labels: Option<seq<string>>)
    ensures !HasRejectedLabels(labels) ==> Image1Text(prose, timeRange, labels) == Image1Text(prose, timeRange, None)
    ensures HasRejectedLabels(labels) ==>
              var plain := Image1Text(prose, timeRange, None);
              var k := |plain| - |prose.closing|;
              Image1Text(prose, timeRange, labels) == plain[..k] + prose.triedHeader + ListRepr(labels.value) + plain[k..]
  {
    if HasRejectedLabels(labels) {
      RejectedSentenceInserted(prose, timeRange, labels);
    } else {
      RejectedSentenceAbsent(prose, timeRange, labels);
    }
  }

  /** Without truthy labels the sentence is the empty string. */
  lemma RejectedSentenceAbsent(prose: Prose, timeRange: TimeRange, labels: Option<seq<string>>)
    requires !HasRejectedLabels(labels)
    ensures Image1Text(prose, timeRange, labels) == Image1Text(prose, timeRange, None)
  {
    assert RejectedSentence(prose, labels) == RejectedSentence(prose, None) == "";
  }

  /** With truthy labels the sentence sits just before the closing line. */
  lemma RejectedSentenceInserted(prose: Prose, timeRange: TimeRange, labels: Option<seq<string>>)
    requires HasRejectedLabels(labels)
    ensures var plain := Image1Text(prose, timeRange, None);
            var k := |plain| - |prose.closing|;
            Image1Text(prose, timeRange, labels) == plain[..k] + prose.triedHeader + ListRepr(labels.value) + plain[k..]
  {
    var body := prose.instructions + timeRange.start + prose.between + timeRange.end + prose.example;
    var plain := Image1Text(prose, timeRange, None);
    assert plain == body + prose.closing by {
      assert RejectedSentence(prose, None) == "";
      assert body + "" == body;
    }
    InsertedBeforeLast(plain, body, prose.triedHeader, ListRepr(labels.value), prose.closing);
  }

  /** `body + (m1 + m2) + last` is `plain == body + last` with `m1` and `m2` inserted before `last`. */
  lemma InsertedBeforeLast(plain: string, body: string, m1: string, m2: string, last: string)
    requires plain == body + last
    ensures body + (m1 + m2) + last == plain[..|plain| - |last|] + m1 + m2 + plain[|plain| - |last|..]
  {
    assert plain[..|body|] == body;
    assert plain[|body|..] == last;
  }

  /** A string without quotes, backslashes, newlines, carriage returns or tabs is escaped as itself. */
  lemma {:induction false} EscapePlain(s: string, quote: char)
    requires forall i :: 0 <= i < |s| ==> s[i] !in {'\'', '"', '\\', '\n', '\r', '\t'}
    requires quote == '\'' || quote == '"'
    ensures Escape(s, quote) == s
  {
    if s != [] {
      EscapePlain(s[1..], quote);
      assert s == [s[0]] + s[1..];
    }
  }

  /** Such a label is shown in the list between single quotes, unchanged. */
  lemma PlainLabelRepr(s: string)
    requires forall i :: 0 <= i < |s| ==> s[i] !in {'\'', '"', '\\', '\n', '\r', '\t'}
    ensures StrRepr(s) == "'" + s + "'"
  {
    EscapePlain(s, '\'');
  }
}
