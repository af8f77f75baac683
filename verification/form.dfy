/** The logic of the browser form: the "at least one input" rule, the button's enabling
    flag, the payload sent to the endpoint, and how the endpoint's reply becomes the result
    object shown to the user. */
module Form {
  import opened Wrappers
  import opened JsValues
  import opened JsStrings
  import Analyze

  /** The form's `image` value: nothing, a File from the file input, or some other value
      (the schema accepts anything), which is truthy or not */
  datatype Image = NoImage | FileImage(name: string, content: seq<bv8>) | OtherImage(truthy: bool)

  /** The form values; `link` and `comments` are optional strings */
  datatype Values = Values(image: Image, link: Option<string>, comments: Option<string>)

  /** A failed validation: where the message is attached, and the message */
  datatype Issue = Issue(path: seq<string>, message: string)

  /** The five fields of the POST body */
  datatype Payload = Payload(
    messagesText: string,
    userContext: string,
    linkUrl: string,
    extraNotes: string,
    imageUrl: string)

  /** What the endpoint answered: the status and the body text */
  datatype HttpReply = HttpReply(status: nat, text: string)

  /** The form's collaborators: the blob upload (returns the blob URL), the POST to the
      endpoint (including reading the body text), and JSON.parse */
  datatype FormEnv = FormEnv(
    upload: (string, seq<bv8>) -> Completion<string>,
    post: Json -> Completion<HttpReply>,
    parse: string -> Option<Json>)

  datatype FormCall = Upload(name: string) | PostAnalyze(body: Json)

  /** The component state after a submission, and the calls it made */
  datatype FormState = FormState(loading: bool, result: Json, uploadUrl: string)

  datatype Submission = Submission(state: FormState, calls: seq<FormCall>)

  const Defaults: Values := Values(NoImage, Some(""), Some(""))

  const RefineMessage: string := "You must upload something or add a comment."

  const NonJsonError: string := "Non-JSON response from /api/analyze"

  predicate ImageTruthy(i: Image) {
    i.FileImage? || (i.OtherImage? && i.truthy)
  }

  /** `s && s.trim() !== ""` */
  predicate Filled(s: Option<string>) {
    s.Some? && s.value != "" && Trim(s.value) != ""
  }

  /** The refine predicate of the form schema, form.tsx, lines 13-17 */
  predicate Refine(v: Values) {
    ImageTruthy(v.image) || Filled(v.link) || Filled(v.comments)
  }

  /** Some character of `s` is not white space */
  predicate HasVisible(s: string) {
    exists k :: 0 <= k < |s| && !IsWhiteSpace(s[k])
  }

  /** form.tsx, lines 13-19: the values pass validation exactly when there is a truthy image
      or a link or comment with a visible character; otherwise the message goes to
      `comments` */
  function Validate(v: Values): (r: Option<Issue>)
    ensures r.None? <==>
      || ImageTruthy(v.image)
      || (v.link.Some? && HasVisible(v.link.value))
      || (v.comments.Some? && HasVisible(v.comments.value))
    ensures r.Some? ==> r.value.path == ["comments"]
  {
    if Refine(v) then None else Some(Issue(["comments"], RefineMessage))
  }

  /** `s?.trim() !== ""`: an undefined string counts as not blank */
  predicate NotBlank(s: Option<string>) {
    s.None? || Trim(s.value) != ""
  }

  /** form.tsx, lines 35-36 */
  predicate CanAnalyze(v: Values) {
    ImageTruthy(v.image) || NotBlank(v.link) || NotBlank(v.comments)
  }

  /** With both text fields defined, as the default values make them, the button is enabled
      exactly when the values would pass validation */
  lemma CanAnalyzeMatchesRefine(v: Values)
    requires v.link.Some? && v.comments.Some?
    ensures CanAnalyze(v) <==> Refine(v)
  {
  }

  /** The flag is never stricter than validation */
  lemma RefineImpliesCanAnalyze(v: Values)
    ensures Refine(v) ==> CanAnalyze(v)
  {
  }

  /** An undefined link enables the button although validation rejects the values */
  lemma CanAnalyzeDiverges()
    ensures CanAnalyze(Values(NoImage, None, Some(""))) && !Refine(Values(NoImage, None, Some("")))
  {
  }

  /** The initial values neither pass validation nor enable the button */
  lemma DefaultsBlocked()
    ensures !CanAnalyze(Defaults) && Validate(Defaults) == Some(Issue(["comments"], RefineMessage))
  {
  }

  /** `onSubmit` in form.tsx, lines 47-69: the payload for values `v` once any file is
      uploaded to `uploadedUrl` */
  function BuildPayload(v: Values, uploadedUrl: string): (p: Payload)
    // the message text and the user context are always sent empty
    ensures p.messagesText == "" && p.userContext == ""
    // a missing link or comment is sent as the empty string, a present one unchanged
    ensures p.linkUrl == (if v.link.Some? then v.link.value else "")
    ensures p.extraNotes == (if v.comments.Some? then v.comments.value else "")
    // the image URL is the uploaded file's URL, and only a File is uploaded
    ensures v.image.FileImage? ==> p.imageUrl == uploadedUrl
    ensures !v.image.FileImage? ==> p.imageUrl == ""
  {
    Payload("", "", v.link.GetOr(""), v.comments.GetOr(""),
      if v.image.FileImage? then uploadedUrl else "")
  }

  /** JSON.stringify's input for the payload */
  function PayloadJson(p: Payload): Json {
    JObj(map[
      "messages_text" := JStr(p.messagesText),
      "user_context" := JStr(p.userContext),
      "link_url" := JStr(p.linkUrl),
      "extra_notes" := JStr(p.extraNotes),
      "image_url" := JStr(p.imageUrl)])
  }

  /** The endpoint reads back every payload field unchanged, except that it trims the image URL */
  lemma PayloadReachesEndpoint(p: Payload, b: Builtins)
    ensures Analyze.ExtractFields(Some(PayloadJson(p)), b) ==
      Normal(Analyze.Fields(p.messagesText, p.userContext, p.linkUrl, p.extraNotes, Trim(p.imageUrl)))
  {
    var body := Some(PayloadJson(p));
    assert Analyze.StringAt(body, "messages_text");
    assert Analyze.StringAt(body, "user_context");
    assert Analyze.StringAt(body, "link_url");
    assert Analyze.StringAt(body, "extra_notes");
    assert Analyze.StringAt(body, "image_url");
    assert !Analyze.CompoundAt(body, "messages_text") && !Analyze.CompoundAt(body, "user_context");
    assert !Analyze.CompoundAt(body, "link_url") && !Analyze.CompoundAt(body, "extra_notes");
    assert !Analyze.CompoundAt(body, "image_url");
  }

  /** The own enumerable properties `{...v}` copies: an object's entries, an array's or a
      string's elements under their decimal indices, nothing for other values */
  function Spread(v: Json): (r: map<string, Json>)
    ensures v.JObj? ==> r == v.fields
    ensures v.JArr? ==> r == IndexEntries(v.items)
    ensures v.JStr? ==> forall i :: 0 <= i < |v.s| ==>
      NatToDecimal(i) in r && r[NatToDecimal(i)] == JStr([v.s[i]])
    ensures v.JStr? ==> r.Keys == IndexEntries(v.s).Keys
    ensures !(v.JObj? || v.JArr? || v.JStr?) ==> r == map[]
  {
    match v
    case JObj(m) => m
    case JArr(xs) => IndexEntries(xs)
    case JStr(s) => var chars := seq(|s|, i requires 0 <= i < |s| => JStr([s[i]])); IndexEntries(chars)
    case _ => map[]
  }

  /** Each element under its decimal index, and nothing else */
  function IndexEntries<T>(xs: seq<T>): (r: map<string, T>)
    ensures forall i :: 0 <= i < |xs| ==> NatToDecimal(i) in r && r[NatToDecimal(i)] == xs[i]
    ensures forall k :: k in r ==> exists i :: 0 <= i < |xs| && k == NatToDecimal(i)
  {
    DecimalInjective();
    map i | 0 <= i < |xs| :: NatToDecimal(i) := xs[i]
  }

  /** form.tsx, lines 80-85: the reply parsed as JSON, or an error object carrying the raw
      text */
  function ParseReply(text: string, parse: string -> Option<Json>): (r: Json)
    ensures parse(text).Some? ==> r == parse(text).value
    ensures parse(text).None? ==>
      && r.JObj? && r.fields.Keys == {"error", "raw"}
      && Member(r, "error") == Some(JStr(NonJsonError))
      && Member(r, "raw") == Some(JStr(text))
  {
    match parse(text)
    case Some(j) => j
    case None => JObj(map["error" := JStr(NonJsonError), "raw" := JStr(text)])
  }

  /** Response.ok */
  predicate OkStatus(status: nat) {
    200 <= status <= 299
  }

  /** form.tsx, lines 87-92: an ok reply is shown as parsed; any other is `{status,
      ...parsed}`, where the parsed entries, a "status" among them, win */
  function Interpret(reply: HttpReply, parse: string -> Option<Json>): (r: Json)
    ensures OkStatus(reply.status) ==> r == ParseReply(reply.text, parse)
    ensures !OkStatus(reply.status) ==>
      var spread := Spread(ParseReply(reply.text, parse));
      && r.JObj?
      && r.fields.Keys == spread.Keys + {"status"}
      && (forall k :: k in spread ==> r.fields[k] == spread[k])
      && ("status" !in spread ==> r.fields["status"] == JNum(Finite(reply.status as real)))
  {
    var parsed := ParseReply(reply.text, parse);
    if !OkStatus(reply.status) then
      JObj(map["status" := JNum(Finite(reply.status as real))] + Spread(parsed))
    else
      parsed
  }

  /** `{ error: "Failed", detail }` */
  function FailedResult(detail: string): Json {
    JObj(map["error" := JStr("Failed"), "detail" := JStr(detail)])
  }

  /** `onSubmit` in form.tsx, lines 42-98, from the values and what its collaborators
      produce; `shown` is the upload URL displayed before the submission */
  function Submit(v: Values, env: FormEnv, shown: string): (s: Submission)
    // `loading` is reset on every path
    ensures !s.state.loading
    // the file is uploaded exactly when the image is a File, and first
    ensures (exists n :: Upload(n) in s.calls) <==> v.image.FileImage?
    ensures v.image.FileImage? ==> s.calls[0] == Upload(v.image.name)
    // the endpoint is called once, unless the upload threw
    ensures v.image.FileImage? && env.upload(v.image.name, v.image.content).Throw? ==>
      && s.calls == [Upload(v.image.name)]
      && s.state.result == FailedResult(env.upload(v.image.name, v.image.content).message)
    ensures !v.image.FileImage? ==> s.calls == [PostAnalyze(PayloadJson(BuildPayload(v, "")))]
    // after a successful upload the payload carries the blob URL, which is also displayed
    ensures v.image.FileImage? && env.upload(v.image.name, v.image.content).Normal? ==>
      var url := env.upload(v.image.name, v.image.content).value;
      && s.calls == [Upload(v.image.name), PostAnalyze(PayloadJson(BuildPayload(v, url)))]
      && s.state.uploadUrl == url
    ensures !(v.image.FileImage? && env.upload(v.image.name, v.image.content).Normal?) ==>
      s.state.uploadUrl == shown
    // a reply that arrives is interpreted; a failed POST is reported
    ensures s.calls != [] && s.calls[|s.calls| - 1].PostAnalyze? ==>
      var sent := s.calls[|s.calls| - 1].body;
      s.state.result == match env.post(sent)
        case Throw(e) => FailedResult(e)
        case Normal(reply) => Interpret(reply, env.parse)
  {
    if v.image.FileImage? then
      match env.upload(v.image.name, v.image.content)
      case Throw(e) => Submission(FormState(false, FailedResult(e), shown), [Upload(v.image.name)])
      case Normal(url) =>
        var body := PayloadJson(BuildPayload(v, url));
        Submission(FormState(false, Answer(body, env), url), [Upload(v.image.name), PostAnalyze(body)])
    else
      var body := PayloadJson(BuildPayload(v, ""));
      Submission(FormState(false, Answer(body, env), shown), [PostAnalyze(body)])
  }

  /** What the endpoint extracts from any body the form posts: the link and the comments
      as entered (empty when missing), empty message text and context, and the trimmed blob
      URL exactly when a File was uploaded */
  lemma SubmittedFields(v: Values, env: FormEnv, shown: string, b: Builtins)
    ensures var s := Submit(v, env, shown);
      forall c :: c in s.calls && c.PostAnalyze? ==>
        Analyze.ExtractFields(Some(c.body), b) == Normal(Analyze.Fields("", "",
          v.link.GetOr(""), v.comments.GetOr(""),
          if v.image.FileImage? then Trim(env.upload(v.image.name, v.image.content).value) else ""))
  {
    var s := Submit(v, env, shown);
    forall c | c in s.calls && c.PostAnalyze?
      ensures Analyze.ExtractFields(Some(c.body), b) == Normal(Analyze.Fields("", "",
          v.link.GetOr(""), v.comments.GetOr(""),
          if v.image.FileImage? then Trim(env.upload(v.image.name, v.image.content).value) else ""))
    {
      var url := if v.image.FileImage? then env.upload(v.image.name, v.image.content).value else "";
      assert c.body == PayloadJson(BuildPayload(v, url));
      PayloadReachesEndpoint(BuildPayload(v, url), b);
      TrimTight("");
    }
  }

  /** `onSubmit` in form.tsx, lines 71-94: POST the body and interpret the reply */
  function Answer(body: Json, env: FormEnv): Json {
    match env.post(body)
    case Throw(e) => FailedResult(e)
    case Normal(reply) => Interpret(reply, env.parse)
  }
}
