/**
 * Error views of the search front end: which view reports a failed
 * clustering request, the break opportunities inserted into a status text,
 * and the first line of a server-side stack trace.
 */
module ErrorMessage {
  import opened Wrappers

  /** U+200B ZERO WIDTH SPACE, a line-break opportunity that renders as nothing. */
  const ZeroWidthSpace: char := '\U{200B}'

  /** The characters after which a status text may break. */
  predicate IsBreakAfter(c: char) {
    c == '&' || c == '/' || c == '?'
  }

  /** Number of break characters in s. */
  function CountBreakChars(s: string): nat {
    if |s| == 0 then 0 else (if IsBreakAfter(s[0]) then 1 else 0) + CountBreakChars(s[1..])
  }

  /** The status text as displayed: a zero-width space follows every '&', '/' and '?'. */
  function InsertBreaks(s: string): (r: string)
    ensures |r| == |s| + CountBreakChars(s)
  {
    if |s| == 0 then ""
    else if IsBreakAfter(s[0]) then [s[0], ZeroWidthSpace] + InsertBreaks(s[1..])
    else [s[0]] + InsertBreaks(s[1..])
  }

  /** Deletes the zero-width space right after each break character, if there is one. */
  function RemoveInsertedBreaks(r: string): string {
    if |r| == 0 then ""
    else if |r| >= 2 && IsBreakAfter(r[0]) && r[1] == ZeroWidthSpace then [r[0]] + RemoveInsertedBreaks(r[2..])
    else [r[0]] + RemoveInsertedBreaks(r[1..])
  }

  /** Deleting the inserted characters gives back the original status text. */
  lemma {:induction false} RemoveInsertedBreaksInverts(s: string)
    ensures RemoveInsertedBreaks(InsertBreaks(s)) == s
  {
    if |s| > 0 {
      RemoveInsertedBreaksInverts(s[1..]);
      if IsBreakAfter(s[0]) {
        assert ([s[0], ZeroWidthSpace] + InsertBreaks(s[1..]))[2..] == InsertBreaks(s[1..]);
      } else {
        assert ([s[0]] + InsertBreaks(s[1..]))[1..] == InsertBreaks(s[1..]);
      }
    }
  }

  /** Every break character of r is immediately followed by a zero-width space. */
  predicate BreaksFollowedBySpace(r: string) {
    forall i :: 0 <= i < |r| && IsBreakAfter(r[i]) ==> i + 1 < |r| && r[i + 1] == ZeroWidthSpace
  }

  /** In the displayed text every break character is immediately followed by a zero-width space. */
  lemma {:induction false} BreakCharsAreFollowedBySpace(s: string)
    ensures BreaksFollowedBySpace(InsertBreaks(s))
  {
    if |s| > 0 {
      BreakCharsAreFollowedBySpace(s[1..]);
      var tail := InsertBreaks(s[1..]);
      var r := InsertBreaks(s);
      var offset := if IsBreakAfter(s[0]) then 2 else 1;
      assert r[offset..] == tail;
      forall i | 0 <= i < |r| && IsBreakAfter(r[i])
        ensures i + 1 < |r| && r[i + 1] == ZeroWidthSpace
      {
        if i >= offset {
          assert r[i] == tail[i - offset];
          assert IsBreakAfter(tail[i - offset]);
          assert i - offset + 1 < |tail| && r[i + 1] == tail[i - offset + 1];
        } else {
          assert i == 0 && offset == 2;
          assert r[1] == ZeroWidthSpace;
        }
      }
    }
  }

  /** The pieces of s between '\n' characters, as String.split(/\n/) returns them. */
  function Lines(s: string): (r: seq<string>)
    ensures |r| >= 1
    ensures forall k :: 0 <= k < |r| ==> '\n' !in r[k]
    ensures r[0] <= s && (|r[0]| < |s| ==> s[|r[0]|] == '\n')
  {
    if |s| == 0 then [""]
    else if s[0] == '\n' then [""] + Lines(s[1..])
    else
      var tail := Lines(s[1..]);
      [[s[0]] + tail[0]] + tail[1..]
  }

  /** The pieces joined back with '\n' between them. */
  function JoinLines(lines: seq<string>): string
    requires |lines| >= 1
  {
    if |lines| == 1 then lines[0] else lines[0] + "\n" + JoinLines(lines[1..])
  }

  /** Splitting at '\n' and joining with '\n' gives back the text. */
  lemma {:induction false} JoinLinesInvertsLines(s: string)
    ensures JoinLines(Lines(s)) == s
  {
    if |s| > 0 {
      JoinLinesInvertsLines(s[1..]);
      var tail := Lines(s[1..]);
      if s[0] == '\n' {
        assert Lines(s)[1..] == tail;
        assert s == "\n" + s[1..];
      } else {
        var r := Lines(s);
        if |tail| == 1 {
          assert s == [s[0]] + s[1..];
        } else {
          assert r[1..] == tail[1..];
          assert s == [s[0]] + s[1..];
        }
      }
    }
  }

  /** The first line of a stack trace: the text before the first '\n', or all of it. */
  function FirstLine(stacktrace: string): (r: string)
    ensures r <= stacktrace
    ensures '\n' !in r
    ensures |r| < |stacktrace| ==> stacktrace[|r|] == '\n'
  {
    Lines(stacktrace)[0]
  }

  /** The fields of a parsed error response body that the views read. */
  datatype Body = Body(stacktrace: Option<string>, message: Option<string>)

  /** JavaScript truthiness of an optional string: present and non-empty. */
  predicate Truthy(o: Option<string>) {
    o.Some? && |o.value| > 0
  }

  /** A failed request: HTTP status, status text and the body, if it could be parsed. */
  datatype RequestError = RequestError(status: int, statusText: string, bodyParsed: Option<Body>)

  /** The `error` property of an error view: undefined, null, or a request error. */
  datatype ErrorProp = Undefined | Null | Present(error: RequestError)

  /** The views that can report a clustering failure. */
  datatype View =
    | RateLimitExceeded
    | RequestSizeLimitExceeded
    | ExceptionMessage(firstLine: string)
    | ClusteringErrorMessage(message: string)
    | GenericErrorMessage(error: ErrorProp)

  /** The request error has a parsed body whose stack trace is truthy. */
  predicate HasStacktrace(e: ErrorProp) {
    e.Present? && e.error.bodyParsed.Some? && Truthy(e.error.bodyParsed.value.stacktrace)
  }

  /** The request error has a parsed body whose message is truthy. */
  predicate HasMessage(e: ErrorProp) {
    e.Present? && e.error.bodyParsed.Some? && Truthy(e.error.bodyParsed.value.message)
  }

  predicate HasStatus(e: ErrorProp, status: int) {
    e.Present? && e.error.status == status
  }

  /**
   * The view chosen for a clustering failure: rate limit (429) first, then
   * request size (413), then a stack trace, then a message, else the generic view.
   */
  function ClusteringEngineErrorMessage(e: ErrorProp): (v: View)
    ensures v.RateLimitExceeded? <==> HasStatus(e, 429)
    ensures v.RequestSizeLimitExceeded? <==> HasStatus(e, 413)
    ensures v.ExceptionMessage? <==> !HasStatus(e, 429) && !HasStatus(e, 413) && HasStacktrace(e)
    ensures v.ExceptionMessage? ==> v.firstLine == FirstLine(e.error.bodyParsed.value.stacktrace.value)
    ensures v.ClusteringErrorMessage? <==>
      !HasStatus(e, 429) && !HasStatus(e, 413) && !HasStacktrace(e) && HasMessage(e)
    ensures v.ClusteringErrorMessage? ==> v.message == e.error.bodyParsed.value.message.value
    ensures v.GenericErrorMessage? <==>
      !HasStatus(e, 429) && !HasStatus(e, 413) && !HasStacktrace(e) && !HasMessage(e)
    ensures v.GenericErrorMessage? ==> v.error == e
  {
    match e
    case Present(error) =>
      if error.status == 429 then RateLimitExceeded
      else if error.status == 413 then RequestSizeLimitExceeded
      else if error.bodyParsed.Some? && Truthy(error.bodyParsed.value.stacktrace) then
        ExceptionMessage(FirstLine(error.bodyParsed.value.stacktrace.value))
      else if error.bodyParsed.Some? && Truthy(error.bodyParsed.value.message) then
        ClusteringErrorMessage(error.bodyParsed.value.message.value)
      else GenericErrorMessage(e)
    case _ => GenericErrorMessage(e)
  }

  /** The generic error view is shown whenever its error is not undefined (null is shown). */
  function ErrorMessageVisible(e: ErrorProp): (r: bool)
    ensures r <==> e != Undefined
  {
    !e.Undefined?
  }

  /** The preformatted text of the generic view: the status text with break opportunities, if there is an error. */
  function ErrorMessageText(e: ErrorProp): (r: Option<string>)
    ensures r.Some? <==> e.Present?
    ensures r.Some? ==> RemoveInsertedBreaks(r.value) == e.error.statusText
    ensures r.Some? ==> |r.value| == |e.error.statusText| + CountBreakChars(e.error.statusText)
  {
    match e
    case Present(error) =>
      RemoveInsertedBreaksInverts(error.statusText);
      Some(InsertBreaks(error.statusText))
    case _ => None
  }

  /** A rate-limit status chooses its view whatever the body says. */
  lemma RateLimitIgnoresBody(e: RequestError, b: Option<Body>)
    requires e.status == 429
    ensures ClusteringEngineErrorMessage(Present(e.(bodyParsed := b))) == RateLimitExceeded
  {
  }

  /**
   * When the dispatch falls through to the generic view, that view is shown
   * exactly when the store holds an error value (null included).
   */
  lemma GenericViewShownIffErrorDefined(e: ErrorProp)
    requires ClusteringEngineErrorMessage(e).GenericErrorMessage?
    ensures ErrorMessageVisible(ClusteringEngineErrorMessage(e).error) <==> e != Undefined
  {
  }
}
