/** The diagnostic-message builder of the assertions: `LogMsg` and its three
    flavours (body, code, body value). A builder is created with a fixed
    "where" label and the response under test, starts with an empty message
    and only ever appends fixed-format segments to it.

    The segment functions below give the exact text each builder method
    appends; the lemmas show that each segment can be read back, i.e. that
    the text really reports the values it was built from. */
module LogMessages {
  import opened Rendering
  import opened Exchange

  const BodyLabel := "IN RESPONSE BODY"
  const CodeLabel := "IN RESPONSE CODE"

  /** One mismatch reported by the JSON comparison, its three parts already
      rendered. */
  datatype DiffEntry = DiffEntry(path: string, expected: string, actual: string)

  // ---------------------------------------------------------------------
  // Request and response segments

  // One heading line, written in two pieces so that its characters are
  // visible to the verifier (it does not look inside long literals).
  const RequestHeading := "The content of the sent request " + "(url, query params, body):\n"
  const ResponseHeading := "Response body:\n\t"

  /** The value of an optional request attribute when the message shows it. */
  function ShownValue(v: Option<string>): (r: Option<string>)
    ensures r.Some? <==> Shown(v)
    ensures r.Some? ==> r == v
  {
    if Shown(v) then v else None
  }

  /** The line for an optional request attribute, without its line break:
      the label and a colon, then a space and the value only when the value
      is present and non-empty. */
  function FieldText(name: string, v: Option<string>): (t: string)
    ensures t == "\t" + name + ":" <==> !Shown(v)
    ensures Shown(v) ==> |t| == |name| + 3 + |v.value|
    ensures Shown(v) ==> t[|name| + 3..] == v.value
  {
    "\t" + name + ":" + (if Shown(v) then " " + v.value else "")
  }

  function FieldLine(name: string, v: Option<string>): string {
    FieldText(name, v) + "\n"
  }

  /** Equal lines for the same label show the same thing. */
  lemma FieldLineInjective(name: string, v1: Option<string>, v2: Option<string>)
    requires FieldLine(name, v1) == FieldLine(name, v2)
    ensures ShownValue(v1) == ShownValue(v2)
  {
    DropCommonSuffix(FieldText(name, v1), FieldText(name, v2), "\n");
  }

  /** The heading of the request segment and its URL line. */
  function UrlLines(req: Request): string {
    RequestHeading + "\tURL: " + req.url + "\n"
  }

  function MethodLine(req: Request): string {
    "\tmethod: " + req.httpMethod + "\n"
  }

  function HeadersLine(req: Request): string {
    "\theaders: " + req.headers + "\n"
  }

  /** What `add_request_url` appends: a heading, then one line each for the
      URL, the method, the headers, the query parameters and the body. */
  function RequestSegment(req: Request): (s: string)
    ensures |s| > |RequestHeading| && s[..|RequestHeading|] == RequestHeading
  {
    UrlLines(req) + MethodLine(req) + HeadersLine(req)
    + FieldLine("query params", req.params) + FieldLine("body", req.body)
  }

  /** The single-line parts of a request: those that a reader can take
      apart line by line. */
  predicate PlainRequest(req: Request) {
    NoNewline(req.url) && NoNewline(req.httpMethod) && NoNewline(req.headers)
    && (req.params.Some? ==> NoNewline(req.params.value))
  }

  /** The request segment records the URL, method and headers sent, and the
      query parameters and body exactly as far as it shows them. */
  lemma RequestSegmentDecodes(r1: Request, r2: Request)
    requires PlainRequest(r1) && PlainRequest(r2)
    requires RequestSegment(r1) == RequestSegment(r2)
    ensures r1.url == r2.url && r1.httpMethod == r2.httpMethod && r1.headers == r2.headers
    ensures ShownValue(r1.params) == ShownValue(r2.params)
    ensures ShownValue(r1.body) == ShownValue(r2.body)
  {
    var f1, f2 := FieldLine("query params", r1.params), FieldLine("query params", r2.params);
    var g1, g2 := FieldLine("body", r1.body), FieldLine("body", r2.body);
    Assoc(UrlLines(r1) + MethodLine(r1) + HeadersLine(r1), f1, g1);
    Assoc(UrlLines(r2) + MethodLine(r2) + HeadersLine(r2), f2, g2);
    SplitThreeLines(RequestHeading, "\tURL: ", "\tmethod: ", "\theaders: ",
                    r1.url, r1.httpMethod, r1.headers, f1 + g1,
                    r2.url, r2.httpMethod, r2.headers, f2 + g2);
    var p1, p2 := FieldText("query params", r1.params), FieldText("query params", r2.params);
    assert NoNewline(p1) by {
      if Shown(r1.params) { assert p1 == "\tquery params:" + " " + r1.params.value; }
    }
    assert NoNewline(p2) by {
      if Shown(r2.params) { assert p2 == "\tquery params:" + " " + r2.params.value; }
    }
    SplitAtNewline(p1, g1, p2, g2);
    FieldLineInjective("query params", r1.params, r2.params);
    FieldLineInjective("body", r1.body, r2.body);
  }

  /** What `add_response_info` appends; the response content can be read
      back from between the heading and the final line break. */
  function ResponseSegment(resp: Response): (s: string)
    ensures |s| == |ResponseHeading| + |resp.content| + 1
    ensures s[..|ResponseHeading|] == ResponseHeading
    ensures s[|ResponseHeading|..|s| - 1] == resp.content
    ensures s[|s| - 1] == '\n'
  {
    ResponseHeading + resp.content + "\n"
  }

  // ---------------------------------------------------------------------
  // Extra error text

  /** What `add_error_info` appends: the text between two line breaks, or a
      single line break when the text is empty. */
  function ErrorSegment(text: string): (s: string)
    ensures s == "\n" <==> text == ""
    ensures |s| >= 1
    ensures s[0] == '\n' && s[|s| - 1] == '\n'
  {
    if text != "" then "\n" + text + "\n" else "\n"
  }

  /** Reads the extra text back out of an error segment. */
  function ErrorText(s: string): string {
    if |s| <= 1 then "" else s[1..|s| - 1]
  }

  /** The error segment loses nothing: reading it back gives the text. */
  lemma ErrorSegmentRoundTrip(text: string)
    ensures ErrorText(ErrorSegment(text)) == text
  {
  }

  // ---------------------------------------------------------------------
  // Compare results

  const MismatchHeading := " in json following field didn't match with reference:\n"

  /** The three lines for one mismatch: its path, then the expected and the
      actual value, each on an indented line. */
  function EntryText(e: DiffEntry): string {
    "key: " + e.path + "\n\t\texpected: " + e.expected + " \n\t\tactual: " + e.actual + "\n"
  }

  /** The per-entry lines of a whole comparison result, in its order. */
  function EntriesText(diff: seq<DiffEntry>): (s: string)
    ensures s == "" <==> diff == []
  {
    if diff == [] then "" else EntryText(diff[0]) + EntriesText(diff[1..])
  }

  /** The entries' lines of two results one after the other are the lines
      of each, one after the other. */
  lemma {:induction false} EntriesTextAppend(a: seq<DiffEntry>, b: seq<DiffEntry>)
    ensures EntriesText(a + b) == EntriesText(a) + EntriesText(b)
  {
    if a == [] {
      assert a + b == b;
    } else {
      assert (a + b)[1..] == a[1..] + b;
      EntriesTextAppend(a[1..], b);
      Assoc(EntryText(a[0]), EntriesText(a[1..]), EntriesText(b));
    }
  }

  /** Each entry's lines stand in the text right after those of the entries
      before it: nothing is reordered, dropped or merged. */
  lemma EntriesTextListsEntry(diff: seq<DiffEntry>, i: nat)
    requires i < |diff|
    ensures EntriesText(diff[..i]) + EntryText(diff[i]) <= EntriesText(diff)
  {
    assert diff == diff[..i] + diff[i..];
    EntriesTextAppend(diff[..i], diff[i..]);
    assert EntriesText(diff[i..]) == EntryText(diff[i]) + EntriesText(diff[i + 1..]);
  }

  /** The lines of one entry, whatever follows them, give back its path and
      values, provided each of them is a single line. */
  lemma EntryTextDecodes(e1: DiffEntry, e2: DiffEntry, t1: string, t2: string)
    requires NoNewline(e1.path) && NoNewline(e1.expected)
    requires NoNewline(e2.path) && NoNewline(e2.expected)
    requires NoNewline(e1.actual) && NoNewline(e2.actual)
    requires EntryText(e1) + t1 == EntryText(e2) + t2
    ensures e1 == e2 && t1 == t2
  {
    assert "\n\t\texpected: " == "\n" + "\t\texpected: ";
    assert " \n\t\tactual: " == " " + ("\n" + "\t\tactual: ");
    SplitSpacedLines("key: ", "\t\texpected: ", "\t\tactual: ",
                     e1.path, e1.expected, e1.actual, t1, e2.path, e2.expected, e2.actual, t2);
  }

  /** An entry whose path and values are single lines. */
  predicate PlainEntry(e: DiffEntry) {
    NoNewline(e.path) && NoNewline(e.expected) && NoNewline(e.actual)
  }

  predicate PlainEntries(diff: seq<DiffEntry>) {
    forall i :: 0 <= i < |diff| ==> PlainEntry(diff[i])
  }

  /** A text that does not open a "key: " line. */
  predicate NotKeyLine(t: string) {
    t == [] || t[0] != 'k'
  }

  /** Entry lines followed by a text that does not open a "key: " line
      start with "key: " exactly when there is at least one entry. */
  lemma EntriesTextStart(diff: seq<DiffEntry>, t: string)
    requires NotKeyLine(t)
    ensures diff != [] <==> (|EntriesText(diff) + t| > 0 && (EntriesText(diff) + t)[0] == 'k')
  {
    if diff != [] {
      assert EntryText(diff[0])[0] == 'k';
      Assoc(EntryText(diff[0]), EntriesText(diff[1..]), t);
    } else {
      assert EntriesText(diff) + t == t;
    }
  }

  /** The entry lines of a comparison result, followed by text that does not
      open a "key: " line, give back the whole result, in order, provided its
      paths and values are single lines. */
  lemma {:induction false} EntriesTextDecodes(d1: seq<DiffEntry>, t1: string, d2: seq<DiffEntry>, t2: string)
    requires PlainEntries(d1) && PlainEntries(d2)
    requires NotKeyLine(t1) && NotKeyLine(t2)
    requires EntriesText(d1) + t1 == EntriesText(d2) + t2
    ensures d1 == d2 && t1 == t2
  {
    EntriesTextStart(d1, t1);
    EntriesTextStart(d2, t2);
    if d1 != [] {
      Assoc(EntryText(d1[0]), EntriesText(d1[1..]), t1);
      Assoc(EntryText(d2[0]), EntriesText(d2[1..]), t2);
      EntryTextDecodes(d1[0], d2[0], EntriesText(d1[1..]) + t1, EntriesText(d2[1..]) + t2);
      EntriesTextDecodes(d1[1..], t1, d2[1..], t2);
      assert d1 == [d1[0]] + d1[1..];
      assert d2 == [d2[0]] + d2[1..];
    } else {
      assert EntriesText(d1) + t1 == t1;
      assert EntriesText(d2) + t2 == t2;
    }
  }

  /** What `BodyLogMsg.add_compare_result` appends: the label and a heading
      line, then the lines of every entry of the result. */
  function BodyCompareSegment(where: string, diff: seq<DiffEntry>): string {
    where + MismatchHeading + EntriesText(diff)
  }

  /** What `CodeLogMsg.add_compare_result` appends: the label, then the
      expected and the actual status code, one per line. */
  function CodeCompareSegment(where: string, expected: int, actual: int): string {
    where + " \n\texpected code: " + Decimal(expected) + "\n\tactual code: " + Decimal(actual) + "\n"
  }

  /** A code segment, whatever follows it, gives back both codes. */
  lemma CodeCompareSegmentDecodes(where: string, e1: int, a1: int, t1: string, e2: int, a2: int, t2: string)
    requires CodeCompareSegment(where, e1, a1) + t1 == CodeCompareSegment(where, e2, a2) + t2
    ensures e1 == e2 && a1 == a2 && t1 == t2
  {
    assert "\n\tactual code: " == "\n" + "\tactual code: ";
    SplitTwoLines(where + " \n\texpected code: ", "\tactual code: ",
                  Decimal(e1), Decimal(a1), t1, Decimal(e2), Decimal(a2), t2);
    DecimalInjective(e1, e2);
    DecimalInjective(a1, a2);
  }

  /** What `BodyValueLogMsg.add_compare_result` appends: the expected and
      the actual value, one per line (the source's own spelling
      "exptected" is kept). */
  function BodyValueSegment(expected: string, actual: string): string {
    "\texptected: " + expected + "\n\tactual: " + actual + "\n"
  }

  /** A body-value segment, whatever follows it, gives back both values,
      provided they are single lines. */
  lemma BodyValueSegmentDecodes(e1: string, a1: string, t1: string, e2: string, a2: string, t2: string)
    requires NoNewline(e1) && NoNewline(a1) && NoNewline(e2) && NoNewline(a2)
    requires BodyValueSegment(e1, a1) + t1 == BodyValueSegment(e2, a2) + t2
    ensures e1 == e2 && a1 == a2 && t1 == t2
  {
    assert "\n\tactual: " == "\n" + "\tactual: ";
    SplitTwoLines("\texptected: ", "\tactual: ", e1, a1, t1, e2, a2, t2);
  }

  // ---------------------------------------------------------------------
  // The builder

  /** Which of the source's classes a builder is: the base class or one of
      its three subclasses. */
  datatype LogKind = Base | BodyLog | CodeLog | BodyValueLog

  /** A single-use, append-only message builder. Every `Add` method appends
      one segment to `msg` and returns the builder itself, so calls chain. */
  class LogMsg {
    var msg: string
    const where: string
    const response: Response
    const kind: LogKind

    /** `LogMsg(where, response)`. */
    constructor (where: string, response: Response)
      ensures msg == "" && this.where == where && this.response == response && kind == Base
    {
      msg := "";
      this.where := where;
      this.response := response;
      kind := Base;
    }

    /** `BodyLogMsg(response)`. */
    constructor BodyLogMsg(response: Response)
      ensures msg == "" && where == BodyLabel && this.response == response && kind == BodyLog
    {
      msg := "";
      where := BodyLabel;
      this.response := response;
      kind := BodyLog;
    }

    /** `CodeLogMsg(response)`. */
    constructor CodeLogMsg(response: Response)
      ensures msg == "" && where == CodeLabel && this.response == response && kind == CodeLog
    {
      msg := "";
      where := CodeLabel;
      this.response := response;
      kind := CodeLog;
    }

    /** `BodyValueLogMsg(response)`. */
    constructor BodyValueLogMsg(response: Response)
      ensures msg == "" && where == BodyLabel && this.response == response && kind == BodyValueLog
    {
      msg := "";
      where := BodyLabel;
      this.response := response;
      kind := BodyValueLog;
    }

    /** Appends the data of the request that was sent. */
    method AddRequestUrl() returns (builder: LogMsg)
      modifies this`msg
      ensures builder == this
      ensures msg == old(msg) + RequestSegment(response.request)
    {
      var req := response.request;
      msg := msg + (RequestHeading + "\tURL: " + req.url + "\n");
      msg := msg + ("\tmethod: " + req.httpMethod + "\n");
      msg := msg + ("\theaders: " + req.headers + "\n");
      var params: string;
      if req.params.Some? && req.params.value != "" {
        params := "\tquery params: " + req.params.value + "\n";
      } else {
        params := "\tquery params:\n";
      }
      assert params == FieldLine("query params", req.params);
      msg := msg + params;
      var body: string;
      if req.body.Some? && req.body.value != "" {
        body := "\tbody: " + req.body.value + "\n";
      } else {
        body := "\tbody:\n";
      }
      assert body == FieldLine("body", req.body);
      msg := msg + body;
      AppendFive(old(msg), UrlLines(req), MethodLine(req), HeadersLine(req), params, body);
      builder := this;
    }

    /** Appends the content of the response. */
    method AddResponseInfo() returns (builder: LogMsg)
      modifies this`msg
      ensures builder == this
      ensures msg == old(msg) + ResponseSegment(response)
    {
      msg := msg + ("Response body:\n\t" + response.content + "\n");
      builder := this;
    }

    /** Appends free-form text, or a blank line when there is none. */
    method AddErrorInfo(text: string) returns (builder: LogMsg)
      modifies this`msg
      ensures builder == this
      ensures msg == old(msg) + ErrorSegment(text)
    {
      if text != "" {
        msg := msg + ("\n" + text + "\n");
      } else {
        msg := msg + "\n";
      }
      builder := this;
    }

    /** The message built so far; the builder is left as it is. */
    method GetMessage() returns (m: string)
      ensures m == msg
    {
      m := msg;
    }

    /** `BodyLogMsg.add_compare_result`: appends the heading and then, one
        entry at a time in the result's order, the lines of every mismatch. */
    method AddBodyCompareResult(diff: seq<DiffEntry>) returns (builder: LogMsg)
      requires kind == BodyLog
      modifies this`msg
      ensures builder == this
      ensures msg == old(msg) + BodyCompareSegment(where, diff)
    {
      msg := msg + (where + MismatchHeading);
      var i := 0;
      while i < |diff|
        invariant i <= |diff|
        invariant msg == old(msg) + (where + MismatchHeading) + EntriesText(diff[..i])
      {
        assert diff[..i + 1] == diff[..i] + [diff[i]];
        EntriesTextAppend(diff[..i], [diff[i]]);
        Assoc(old(msg) + (where + MismatchHeading), EntriesText(diff[..i]), EntryText(diff[i]));
        msg := msg + ("key: " + diff[i].path + "\n\t\texpected: " + diff[i].expected
                      + " \n\t\tactual: " + diff[i].actual + "\n");
        i := i + 1;
      }
      assert diff[..i] == diff;
      Assoc(old(msg), where + MismatchHeading, EntriesText(diff));
      builder := this;
    }

    /** `CodeLogMsg.add_compare_result`: appends the expected and the
        actual status code under the label. */
    method AddCodeCompareResult(expected: int, actual: int) returns (builder: LogMsg)
      requires kind == CodeLog
      modifies this`msg
      ensures builder == this
      ensures msg == old(msg) + CodeCompareSegment(where, expected, actual)
    {
      msg := msg + (where + " \n\texpected code: " + Decimal(expected) + "\n\tactual code: " + Decimal(actual) + "\n");
      builder := this;
    }

    /** `BodyValueLogMsg.add_compare_result`: appends the expected and the
        actual value. */
    method AddBodyValueCompareResult(expected: string, actual: string) returns (builder: LogMsg)
      requires kind == BodyValueLog
      modifies this`msg
      ensures builder == this
      ensures msg == old(msg) + BodyValueSegment(expected, actual)
    {
      msg := msg + ("\texptected: " + expected + "\n\tactual: " + actual + "\n");
      builder := this;
    }
  }
}
