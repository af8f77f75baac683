/** The optional image step of the analysis endpoint: given what fetching `image_url`
    produced, either attach the image to the model request as an inline part, or append
    exactly one IMAGE_NOTE line to the prompt. It never makes the request fail. */
module ImageInliner {
  import opened Wrappers
  import opened JsValues
  import opened JsStrings

  /** 5 MiB: the largest declared content-length that is still fetched */
  const MaxImageBytes: real := (5 * 1024 * 1024) as real

  const NotePrefix: string := "\n\nIMAGE_NOTE: "

  /** One element of the ordered request sent to the model */
  datatype Part = Text(text: string) | InlineData(mimeType: string, data: string)

  /** An HTTP response: status, the two headers the step reads (absent or present), and the
      outcome of reading the whole body */
  datatype Response = Response(
    status: nat,
    contentType: Option<string>,
    contentLength: Option<string>,
    body: Completion<seq<bv8>>)
  {
    /** Response.ok: a status in the range 200 to 299 */
    predicate Ok() {
      200 <= status <= 299
    }
  }

  /** What `fetch(image_url)` did: answered, or threw */
  datatype FetchResult = Responded(response: Response) | FetchThrew(message: string)

  /** The image step's effect: the parts to send, and whether the body was read */
  datatype StepResult = StepResult(parts: seq<Part>, bodyRead: bool)

  /** `len ? Number(len) : NaN` on the content-length header */
  function DeclaredSize(contentLength: Option<string>, b: Builtins): JsNumber {
    if contentLength.None? || contentLength.value == "" then NaN
    else b.stringToNumber(contentLength.value)
  }

  /** `!Number.isNaN(size) && size > 5 MiB`: an unknown size is never too large */
  predicate TooLarge(size: JsNumber) {
    match size
    case NaN => false
    case PosInf => true
    case NegInf => false
    case Finite(r) => r > MaxImageBytes
  }

  /** One IMAGE_NOTE line: the marker, then `detail` */
  function Note(detail: string): (note: string)
    ensures StartsWith(note, NotePrefix)
  {
    NotePrefix + detail
  }

  function StatusNote(status: nat): string {
    Note("Failed to fetch image_url. status=" + NatToDecimal(status))
  }

  function TooLargeNote(size: JsNumber, b: Builtins): string {
    Note("Image too large to fetch (" + NumberToString(size, b) + " bytes).")
  }

  function NotImageNote(contentType: string): string {
    Note("image_url content-type is not image: " + contentType)
  }

  function ExceptionNote(message: string): string {
    Note("Exception fetching image_url: " + message)
  }

  /** Appending a note keeps the prompt, and the note's marker follows it */
  lemma NoteStarts(prompt: string, note: string)
    requires StartsWith(note, NotePrefix)
    ensures StartsWith(prompt + note, prompt)
    ensures StartsWith(prompt + note, prompt + NotePrefix)
  {
    assert (prompt + note)[..|prompt|] == prompt;
    assert (prompt + note)[..|prompt + NotePrefix|] == prompt + note[..|NotePrefix|];
  }

  /** The response is one whose body the step goes on to read and inline */
  predicate Accepted(resp: Response, b: Builtins) {
    && resp.Ok()
    && !TooLarge(DeclaredSize(resp.contentLength, b))
    && StartsWith(resp.contentType.GetOr(""), "image/")
  }

  /** The image step applied to the single text part holding `prompt` */
  function AttachImage(prompt: string, fetched: FetchResult, b: Builtins): (r: StepResult)
    ensures |r.parts| == 1 || |r.parts| == 2
    ensures r.parts[0].Text? && StartsWith(r.parts[0].text, prompt)
    // the body is read exactly when the response passed every check
    ensures r.bodyRead <==> fetched.Responded? && Accepted(fetched.response, b)
    // an image is attached exactly when, in addition, reading the body succeeded
    ensures |r.parts| == 2 <==> r.bodyRead && fetched.response.body.Normal?
    // the attached part carries the declared type: the "image/jpeg" fallback never applies
    ensures |r.parts| == 2 ==>
      && r.parts[0] == Text(prompt)
      && r.parts[1] == InlineData(fetched.response.contentType.value,
                                  b.base64(fetched.response.body.value))
    // otherwise one note is appended to the prompt: the note of the first check that failed
    ensures |r.parts| == 1 ==>
      StartsWith(r.parts[0].text, prompt + NotePrefix)
    ensures fetched.FetchThrew? ==> r.parts == [Text(prompt + ExceptionNote(fetched.message))]
    ensures fetched.Responded? && !fetched.response.Ok() ==>
      r.parts == [Text(prompt + StatusNote(fetched.response.status))]
    ensures
      && fetched.Responded? && fetched.response.Ok()
      && TooLarge(DeclaredSize(fetched.response.contentLength, b))
      ==>
      r.parts == [Text(prompt + TooLargeNote(DeclaredSize(fetched.response.contentLength, b), b))]
    ensures
      && fetched.Responded? && fetched.response.Ok()
      && !TooLarge(DeclaredSize(fetched.response.contentLength, b))
      && !StartsWith(fetched.response.contentType.GetOr(""), "image/")
      ==>
      r.parts == [Text(prompt + NotImageNote(fetched.response.contentType.GetOr("")))]
    // reading the body of an accepted response can throw too: its message is the note
    ensures r.bodyRead && fetched.response.body.Throw? ==>
      r.parts == [Text(prompt + ExceptionNote(fetched.response.body.message))]
  {
    match fetched
    case FetchThrew(message) =>
      NoteStarts(prompt, ExceptionNote(message));
      StepResult([Text(prompt + ExceptionNote(message))], false)
    case Responded(resp) =>
      Screen(prompt, resp, b)
  }

  /** `handler` in analyze.ts, lines 80-102: the status, size and content-type checks on a
      response */
  function Screen(prompt: string, resp: Response, b: Builtins): (r: StepResult)
    ensures |r.parts| == 1 || |r.parts| == 2
    ensures r.parts[0].Text? && StartsWith(r.parts[0].text, prompt)
    ensures r.bodyRead <==> Accepted(resp, b)
    ensures |r.parts| == 2 <==> r.bodyRead && resp.body.Normal?
    ensures |r.parts| == 2 ==>
      r.parts == [Text(prompt), InlineData(resp.contentType.value, b.base64(resp.body.value))]
    ensures |r.parts| == 1 ==> StartsWith(r.parts[0].text, prompt + NotePrefix)
    // the checks in order, each failing one giving its own note
    ensures !resp.Ok() ==> r.parts == [Text(prompt + StatusNote(resp.status))]
    ensures resp.Ok() && TooLarge(DeclaredSize(resp.contentLength, b)) ==>
      r.parts == [Text(prompt + TooLargeNote(DeclaredSize(resp.contentLength, b), b))]
    ensures
      && resp.Ok() && !TooLarge(DeclaredSize(resp.contentLength, b))
      && !StartsWith(resp.contentType.GetOr(""), "image/")
      ==>
      r.parts == [Text(prompt + NotImageNote(resp.contentType.GetOr("")))]
    ensures Accepted(resp, b) && resp.body.Throw? ==>
      r.parts == [Text(prompt + ExceptionNote(resp.body.message))]
  {
    if !resp.Ok() then
      NoteStarts(prompt, StatusNote(resp.status));
      StepResult([Text(prompt + StatusNote(resp.status))], false)
    else
      var contentType := resp.contentType.GetOr("");
      var size := DeclaredSize(resp.contentLength, b);
      if TooLarge(size) then
        NoteStarts(prompt, TooLargeNote(size, b));
        StepResult([Text(prompt + TooLargeNote(size, b))], false)
      else if !StartsWith(contentType, "image/") then
        NoteStarts(prompt, NotImageNote(contentType));
        StepResult([Text(prompt + NotImageNote(contentType))], false)
      else
        ReadBody(prompt, resp, b)
  }

  /** `handler` in analyze.ts, lines 91-98 and 103-106: read the body of an accepted
      response and inline it */
  function ReadBody(prompt: string, resp: Response, b: Builtins): (r: StepResult)
    requires Accepted(resp, b)
    ensures r.bodyRead
    ensures |r.parts| == if resp.body.Normal? then 2 else 1
    ensures r.parts[0].Text? && StartsWith(r.parts[0].text, prompt)
    ensures resp.body.Normal? ==>
      r.parts == [Text(prompt), InlineData(resp.contentType.value, b.base64(resp.body.value))]
    ensures resp.body.Throw? ==> r.parts == [Text(prompt + ExceptionNote(resp.body.message))]
    ensures resp.body.Throw? ==> StartsWith(r.parts[0].text, prompt + NotePrefix)
  {
    match resp.body
    case Throw(message) =>
      NoteStarts(prompt, ExceptionNote(message));
      StepResult([Text(prompt + ExceptionNote(message))], true)
    case Normal(bytes) =>
      var contentType := resp.contentType.GetOr("");
      var mimeType := if contentType != "" then contentType else "image/jpeg";
      StepResult([Text(prompt), InlineData(mimeType, b.base64(bytes))], true)
  }

  /** The status can be read back from the end of its note */
  lemma StatusNoteReadBack(status: nat)
    ensures var head := NotePrefix + "Failed to fetch image_url. status=";
      var note := StatusNote(status);
      && |head| <= |note|
      && note[..|head|] == head
      && AllDigits(note[|head|..])
      && DecimalToNat(note[|head|..]) == status
  {
    var head := NotePrefix + "Failed to fetch image_url. status=";
    assert StatusNote(status)[|head|..] == NatToDecimal(status);
    DecimalRoundTrip(status);
  }

  /** A failed status is reported with that status and nothing else is done */
  lemma FailedStatusNote(prompt: string, resp: Response, b: Builtins)
    requires !resp.Ok()
    ensures var r := AttachImage(prompt, Responded(resp), b);
      && r.parts == [Text(prompt + StatusNote(resp.status))]
      && !r.bodyRead
  {
  }

  /** The size check comes before the content-type check and does not touch the body:
      a response declaring more than 5 MiB gets the size note whatever its type and body */
  lemma TooLargeWins(prompt: string, resp: Response, b: Builtins)
    requires resp.Ok() && TooLarge(DeclaredSize(resp.contentLength, b))
    ensures var r := AttachImage(prompt, Responded(resp), b);
      && r.parts == [Text(prompt + TooLargeNote(DeclaredSize(resp.contentLength, b), b))]
      && !r.bodyRead
  {
  }

  /** Exactly 5 MiB is accepted; one byte more is not */
  lemma SizeBoundary()
    ensures !TooLarge(Finite(5242880.0))
    ensures TooLarge(Finite(5242881.0))
  {
  }
}
