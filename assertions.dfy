/** The assertion entry points used by the API tests. Each is a single check
    with two outcomes: it passes, or it fails with a message. Where the
    source raises `AssertionError` (or lets the schema validator's error
    escape) the model returns `Fail` carrying that message or error. */
module AssertionBase {
  import opened Rendering
  import opened Exchange
  import opened LogMessages

  datatype Outcome = Pass | Fail(message: string)

  // ---------------------------------------------------------------------
  // Status code

  /** The message of a failed status-code check: the code segment, then the
      request segment, then the response segment. */
  function CodeFailureMessage(expectedCode: int, response: Response): string {
    CodeCompareSegment(CodeLabel, expectedCode, response.statusCode)
    + RequestSegment(response.request) + ResponseSegment(response)
  }

  /** `assert_status_code`: passes exactly when the response carries the
      expected code; otherwise the message is built by a code builder, one
      chained call after another. */
  method AssertStatusCode(response: Response, expectedCode: int) returns (r: Outcome)
    ensures r.Pass? <==> expectedCode == response.statusCode
    ensures r.Fail? ==> r.message == CodeFailureMessage(expectedCode, response)
  {
    if expectedCode == response.statusCode {
      return Pass;
    }
    var log := new LogMsg.CodeLogMsg(response);
    log := log.AddCodeCompareResult(expectedCode, response.statusCode);
    assert log.msg == CodeCompareSegment(CodeLabel, expectedCode, response.statusCode) by {
      assert "" + log.msg == log.msg;
    }
    log := log.AddRequestUrl();
    log := log.AddResponseInfo();
    var message := log.GetMessage();
    return Fail(message);
  }

  /** A status-code failure message states both codes: the expected code and
      the actual code can be read back from it. */
  lemma CodeFailureMessageReportsCodes(e1: int, r1: Response, e2: int, r2: Response)
    requires CodeFailureMessage(e1, r1) == CodeFailureMessage(e2, r2)
    ensures e1 == e2 && r1.statusCode == r2.statusCode
  {
    Assoc(CodeCompareSegment(CodeLabel, e1, r1.statusCode), RequestSegment(r1.request), ResponseSegment(r1));
    Assoc(CodeCompareSegment(CodeLabel, e2, r2.statusCode), RequestSegment(r2.request), ResponseSegment(r2));
    CodeCompareSegmentDecodes(CodeLabel, e1, r1.statusCode, RequestSegment(r1.request) + ResponseSegment(r1),
                              e2, r2.statusCode, RequestSegment(r2.request) + ResponseSegment(r2));
  }

  // ---------------------------------------------------------------------
  // Schema

  /** What the schema check accepts: every element of an array body, or the
      single body, passes the validator. */
  predicate SchemaAccepts(body: Json, validate: Json -> Outcome) {
    if body.JArray? then forall i :: 0 <= i < |body.items| ==> validate(body.items[i]).Pass?
    else validate(body).Pass?
  }

  /** `assert_schema`: validates each element of an array body in order, or
      the single body otherwise, and stops with the validator's own error at
      the first element it rejects. */
  method AssertSchema(response: Response, validate: Json -> Outcome) returns (r: Outcome)
    ensures r.Pass? <==> SchemaAccepts(response.json, validate)
    ensures r.Fail? && response.json.JArray? ==>
      exists k :: 0 <= k < |response.json.items| && r == validate(response.json.items[k])
        && forall j :: 0 <= j < k ==> validate(response.json.items[j]).Pass?
    ensures r.Fail? && !response.json.JArray? ==> r == validate(response.json)
  {
    var body := response.json;
    if body.JArray? {
      var i := 0;
      while i < |body.items|
        invariant i <= |body.items|
        invariant forall j :: 0 <= j < i ==> validate(body.items[j]).Pass?
      {
        var v := validate(body.items[i]);
        if v.Fail? {
          return v;
        }
        i := i + 1;
      }
      return Pass;
    }
    return validate(body);
  }

  // ---------------------------------------------------------------------
  // Subset JSON

  /** The root path of the comparison: "root:" for an array, empty
      otherwise. */
  function Root(actualJson: Json): (root: string)
    ensures root == "root:" <==> actualJson.JArray?
    ensures root == "" <==> !actualJson.JArray?
  {
    if actualJson.JArray? then "root:" else ""
  }

  /** The message of a failed subset check: the body compare segment, then
      the request segment, then the response segment. */
  function BodyFailureMessage(diff: seq<DiffEntry>, response: Response): string {
    BodyCompareSegment(BodyLabel, diff) + RequestSegment(response.request) + ResponseSegment(response)
  }

  /** `assert_left_in_right_json`: compares with the root as both key and
      path, passes exactly when the comparison reports no mismatch, and
      otherwise fails with the message a body builder produces. */
  method AssertLeftInRightJson(response: Response, expJson: Json, actualJson: Json,
                               compare: (Json, Json, string, string) -> seq<DiffEntry>)
    returns (r: Outcome)
    ensures r.Pass? <==> compare(expJson, actualJson, Root(actualJson), Root(actualJson)) == []
    ensures r.Fail? ==> r.message == BodyFailureMessage(compare(expJson, actualJson, Root(actualJson), Root(actualJson)), response)
  {
    var root := if actualJson.JArray? then "root:" else "";
    var compareRes := compare(expJson, actualJson, root, root);
    if compareRes == [] {
      return Pass;
    }
    var log := new LogMsg.BodyLogMsg(response);
    log := log.AddBodyCompareResult(compareRes);
    assert log.msg == BodyCompareSegment(BodyLabel, compareRes) by {
      assert "" + log.msg == log.msg;
    }
    log := log.AddRequestUrl();
    log := log.AddResponseInfo();
    var message := log.GetMessage();
    return Fail(message);
  }

  /** Every mismatch appears in the failure message, right after the
      heading and the mismatches before it, in the comparison's order. */
  lemma BodyFailureMessageListsEntries(diff: seq<DiffEntry>, response: Response, i: nat)
    requires i < |diff|
    ensures BodyLabel + MismatchHeading + EntriesText(diff[..i]) + EntryText(diff[i])
            <= BodyFailureMessage(diff, response)
  {
    EntriesTextListsEntry(diff, i);
    var rest := RequestSegment(response.request) + ResponseSegment(response);
    var before := EntriesText(diff[..i]) + EntryText(diff[i]);
    var after := EntriesText(diff)[|before|..];
    assert EntriesText(diff) == before + after;
    calc {
      BodyFailureMessage(diff, response);
      { Assoc(BodyLabel + MismatchHeading + EntriesText(diff), RequestSegment(response.request), ResponseSegment(response)); }
      BodyLabel + MismatchHeading + EntriesText(diff) + rest;
      BodyLabel + MismatchHeading + (before + after) + rest;
      { Assoc(BodyLabel + MismatchHeading, before, after); }
      BodyLabel + MismatchHeading + before + after + rest;
      { Assoc(BodyLabel + MismatchHeading, EntriesText(diff[..i]), EntryText(diff[i])); }
      BodyLabel + MismatchHeading + EntriesText(diff[..i]) + EntryText(diff[i]) + after + rest;
    }
  }

  /** A subset-check failure message gives back the whole comparison result,
      entry by entry and in order, when its paths and values are single
      lines. */
  lemma BodyFailureMessageReportsDiff(d1: seq<DiffEntry>, r1: Response, d2: seq<DiffEntry>, r2: Response)
    requires PlainEntries(d1) && PlainEntries(d2)
    requires BodyFailureMessage(d1, r1) == BodyFailureMessage(d2, r2)
    ensures d1 == d2
  {
    var t1 := RequestSegment(r1.request) + ResponseSegment(r1);
    var t2 := RequestSegment(r2.request) + ResponseSegment(r2);
    var s1, s2 := RequestSegment(r1.request), RequestSegment(r2.request);
    assert RequestHeading[0] == 'T';
    assert t1[0] == s1[0] == s1[..|RequestHeading|][0] == 'T';
    assert t2[0] == s2[0] == s2[..|RequestHeading|][0] == 'T';
    var h := BodyLabel + MismatchHeading;
    calc {
      h + (EntriesText(d1) + t1);
      { Assoc(h, EntriesText(d1), t1); }
      h + EntriesText(d1) + t1;
      { Assoc(h + EntriesText(d1), RequestSegment(r1.request), ResponseSegment(r1)); }
      BodyFailureMessage(d1, r1);
      BodyFailureMessage(d2, r2);
      { Assoc(h + EntriesText(d2), RequestSegment(r2.request), ResponseSegment(r2)); }
      h + EntriesText(d2) + t2;
      { Assoc(h, EntriesText(d2), t2); }
      h + (EntriesText(d2) + t2);
    }
    DropCommonPrefix(h, EntriesText(d1) + t1, EntriesText(d2) + t2);
    EntriesTextDecodes(d1, t1, d2, t2);
  }
}
