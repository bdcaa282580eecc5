# API test assertions: diagnostic messages and assertion entry points

This project models the assertion helpers of an HTTP API test suite
(`assertions/assertion_base.py`). It covers two parts.

- **The message builder `LogMsg`** and its subclasses `BodyLogMsg`,
  `CodeLogMsg` and `BodyValueLogMsg`. A builder starts with an empty message
  and a fixed "where" label. Each chainable `add_*` call appends one
  fixed-format segment and returns the builder itself. `get_message` reads
  the message back.
- **The assertion entry points** `assert_status_code`, `assert_schema` and
  `assert_left_in_right_json`. Each passes, or fails with the message the
  builder produced. For the schema check, the validator's own error is
  passed on.

Files:

- `rendering.dfy` (module `Rendering`): decimal rendering of integers, and
  lemmas that split newline-separated text back into its lines.
- `exchange.dfy` (module `Exchange`): the request and response as the
  assertions see them (already-rendered strings) and a JSON value type.
- `log_msg.dfy` (module `LogMessages`): one function per segment giving the
  exact text it appends. The class `LogMsg` has a `msg: string` field that
  its methods extend. Lemmas show that every segment can be read back.
- `assertions.dfy` (module `AssertionBase`): the three assertions and lemmas
  about their failure messages.

Python's subclasses become one class `LogMsg` with a constant `kind` and
three named constructors, one per subclass. Each subclass's
`add_compare_result` becomes its own method, which requires the matching
kind. In Python that method exists only on the matching subclass. Raising
`AssertionError` becomes returning `Fail(message)`. Passing becomes
returning `Pass`.

`assert_left_in_right_json` imports `remove_ids` but never calls it
(assertions/assertion_base.py:6, 144). It passes the root as both `key` and
`path`, and so does the model.

## Model

| member | source | states |
|---|---|---|
| `LogMessages.LogMsg.constructor` | assertions/assertion_base.py:15-18 | a new builder has an empty message and keeps the given label and response |
| `LogMessages.LogMsg.BodyLogMsg` | assertions/assertion_base.py:61-62 | a new body builder has an empty message and the label "IN RESPONSE BODY" |
| `LogMessages.LogMsg.CodeLogMsg` | assertions/assertion_base.py:79-80 | a new code builder has an empty message and the label "IN RESPONSE CODE" |
| `LogMessages.LogMsg.BodyValueLogMsg` | assertions/assertion_base.py:93-94 | a new body-value builder has an empty message and the label "IN RESPONSE BODY" |
| `LogMessages.LogMsg.AddRequestUrl` | assertions/assertion_base.py:20-36 | only appends the request segment (old message is a prefix; only `msg` may change) and returns the same builder |
| `LogMessages.LogMsg.AddResponseInfo` | assertions/assertion_base.py:38-43 | only appends the response segment and returns the same builder |
| `LogMessages.LogMsg.AddErrorInfo` | assertions/assertion_base.py:45-50 | only appends the error segment and returns the same builder |
| `LogMessages.LogMsg.GetMessage` | assertions/assertion_base.py:52-53 | returns the current message and changes nothing, so repeated calls agree |
| `LogMessages.LogMsg.AddBodyCompareResult` | assertions/assertion_base.py:64-72 | appends the label heading, then one entry at a time, in diff order, each entry's lines; returns the same builder |
| `LogMessages.LogMsg.AddCodeCompareResult` | assertions/assertion_base.py:82-89 | only appends the code segment with both codes and returns the same builder |
| `LogMessages.LogMsg.AddBodyValueCompareResult` | assertions/assertion_base.py:96-103 | only appends the expected/actual value lines (spelled "exptected" as in the source) and returns the same builder |
| `LogMessages.FieldText` | assertions/assertion_base.py:28-35 | the query-params and body lines are the bare placeholder exactly when the value is absent or empty; otherwise the value follows the colon and a space |
| `LogMessages.FieldLineInjective` | assertions/assertion_base.py:28-35 | equal query-params (or body) lines show the same value, or both show the placeholder |
| `LogMessages.RequestSegment` | assertions/assertion_base.py:24-35 | the request segment opens with the fixed heading line |
| `LogMessages.RequestSegmentDecodes` | assertions/assertion_base.py:24-35 | the request segment determines the URL, method and headers, and the params and body as far as they are shown |
| `LogMessages.ResponseSegment` | assertions/assertion_base.py:42 | the response content is recoverable from between the "Response body:" heading and the final line break |
| `LogMessages.ErrorSegment` | assertions/assertion_base.py:45-50 | the segment is exactly "\n" iff the text is empty; it starts and ends with a line break |
| `LogMessages.ErrorSegmentRoundTrip` | assertions/assertion_base.py:45-50 | reading the extra text back out of the error segment gives the text |
| `LogMessages.EntriesText` | assertions/assertion_base.py:70-71 | the entry lines are empty iff the diff is empty, so an empty diff yields only the heading |
| `LogMessages.EntriesTextAppend` | assertions/assertion_base.py:70-71 | the entry lines of two diffs in sequence are the lines of each in sequence |
| `LogMessages.EntriesTextListsEntry` | assertions/assertion_base.py:70-71 | each entry's lines appear right after those of the entries before it |
| `LogMessages.EntryTextDecodes` | assertions/assertion_base.py:71 | one entry's key/expected/actual lines give back its path and both values |
| `LogMessages.EntriesTextDecodes` | assertions/assertion_base.py:69-72 | the entry lines give back the whole diff, in order |
| `LogMessages.CodeCompareSegmentDecodes` | assertions/assertion_base.py:88 | the code segment, whatever follows it, gives back the expected and the actual code |
| `LogMessages.BodyValueSegmentDecodes` | assertions/assertion_base.py:102 | the body-value segment gives back the expected and the actual value |
| `Rendering.Decimal` | assertions/assertion_base.py:88 | a code renders as a non-empty single line, with a leading minus exactly for negative numbers |
| `Rendering.DecimalInjective` | assertions/assertion_base.py:88 | different codes render differently |
| `AssertionBase.AssertStatusCode` | assertions/assertion_base.py:106-117 | passes iff the expected code equals the response's code; on failure the message is code segment + request segment + response segment |
| `AssertionBase.CodeFailureMessageReportsCodes` | assertions/assertion_base.py:113-117 | a status-code failure message determines both the expected and the actual code |
| `AssertionBase.AssertSchema` | assertions/assertion_base.py:120-132 | passes iff every element of an array body (or the single body) validates; otherwise returns the validator's error for the first rejected element |
| `AssertionBase.Root` | assertions/assertion_base.py:143 | the root is "root:" iff the actual JSON is an array, and empty otherwise |
| `AssertionBase.AssertLeftInRightJson` | assertions/assertion_base.py:135-149 | passes iff the comparison (called with the root as key and path) is empty; on failure the message is body compare segment + request segment + response segment |
| `AssertionBase.BodyFailureMessageListsEntries` | assertions/assertion_base.py:145-149 | every mismatch appears in the failure message after the heading and the mismatches before it, in diff order |
| `AssertionBase.BodyFailureMessageReportsDiff` | assertions/assertion_base.py:145-149 | a subset-check failure message determines the whole diff, in order |

## Left out

- `compare_json_left_in_right` and `remove_ids` live in `utilities/json_utils.py`, which is not part of this model. The comparison is a function parameter returning an ordered sequence of (path, expected, actual) entries. Only its emptiness and order are used.
- Python's `str()` rendering is taken as given for these values, which are held as already-rendered strings: the headers dict, query parameters, request body bytes and response content; the diff entries' `expected`/`actual` values (any JSON value, e.g. `True` becomes "True" and `None` becomes "None"); `BodyValueLogMsg`'s `exp`/`act`; and `add_error_info`'s `text`. An empty string stands for an empty (falsy) value, so the truthiness test on `text` is `text != ""`.
- Status codes are integers rendered in decimal, which is how an f-string writes both an `HTTPStatus` member and a plain int.
- The `hasattr` probes and the `read()` call on the request are I/O. A missing attribute is `None`; the bytes `read()` returns are the `body` value.
- `assert_schema` wraps pydantic's `model_validate(strict=True)`. This is an abstract validator returning `Pass` or `Fail(error)`; the model only captures the dispatch between a list and a single value.
- `response.json()` parsing is not modelled. The parsed body is a field of the response.
- Python `assert` statements are skipped under `python -O`. The model always checks.
- The decoding lemmas (`RequestSegmentDecodes`, `EntryTextDecodes`, `EntriesTextDecodes`, `BodyValueSegmentDecodes`, `BodyFailureMessageReportsDiff`) require single-line values. The message format itself is ambiguous when a value contains a line break.
- `api/api_client.py` (an HTTP client subclass that logs), `api/routes.py` (route constants) and `tests/test_objects.py` (test orchestration) are transport, constants and glue.
